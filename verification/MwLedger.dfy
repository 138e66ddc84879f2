/** The memory watcher's books: global counters and statistics against the blocks in the chain. */
module MwLedger {
  import opened Bytes
  import opened MwStats

  /** What the books know of a block of the chain. */
  datatype Entry = Entry(file: Option<File>, line: int, size: nat, nml: bool)

  datatype Ledger = Ledger(
    entries: seq<Entry>,
    numCur: int,        // mwNumCurAlloc
    curr: int,          // mwStatCurAlloc
    total: int,         // mwStatTotAlloc
    max: int,           // mwStatMaxAlloc
    num: int,           // mwStatNumAlloc
    nmlNum: int,        // mwNmlNumAlloc
    nmlCurr: int,       // mwNmlCurAlloc
    stats: seq<Stat>)   // mwStatList

  datatype Pick = Live | Nml | LiveIn(file: Option<File>) | LiveAt(file: Option<File>, line: int)

  predicate Picks(p: Pick, e: Entry) {
    match p
    case Live => !e.nml
    case Nml => e.nml
    case LiveIn(file) => !e.nml && e.file == file
    case LiveAt(file, line) => !e.nml && e.file == file && e.line == line
  }

  function Weight(p: Pick, e: Entry): nat { if Picks(p, e) then e.size else 0 }

  function Ones(p: Pick, e: Entry): nat { if Picks(p, e) then 1 else 0 }

  function BytesOf(es: seq<Entry>, p: Pick): nat {
    if es == [] then 0 else Weight(p, es[0]) + BytesOf(es[1..], p)
  }

  function CountOf(es: seq<Entry>, p: Pick): nat {
    if es == [] then 0 else Ones(p, es[0]) + CountOf(es[1..], p)
  }

  lemma {:induction false} Prepend(es: seq<Entry>, e: Entry, p: Pick)
    ensures BytesOf([e] + es, p) == BytesOf(es, p) + Weight(p, e)
    ensures CountOf([e] + es, p) == CountOf(es, p) + Ones(p, e)
  {
    assert ([e] + es)[1..] == es;
  }

  lemma {:induction false} Replace(es: seq<Entry>, k: nat, e: Entry, p: Pick)
    requires k < |es|
    ensures BytesOf(es[k := e], p) == BytesOf(es, p) - Weight(p, es[k]) + Weight(p, e)
    ensures CountOf(es[k := e], p) == CountOf(es, p) - Ones(p, es[k]) + Ones(p, e)
  {
    if k > 0 {
      assert es[k := e][1..] == es[1..][k - 1 := e];
      Replace(es[1..], k - 1, e, p);
    } else {
      assert es[0 := e][1..] == es[1..];
    }
  }

  function Without<T>(s: seq<T>, k: nat): seq<T>
    requires k < |s|
  {
    s[..k] + s[k + 1..]
  }

  lemma {:induction false} Remove(es: seq<Entry>, k: nat, p: Pick)
    requires k < |es|
    ensures BytesOf(Without(es, k), p) == BytesOf(es, p) - Weight(p, es[k])
    ensures CountOf(Without(es, k), p) == CountOf(es, p) - Ones(p, es[k])
  {
    if k > 0 {
      assert Without(es, k)[1..] == Without(es[1..], k - 1);
      Remove(es[1..], k - 1, p);
    } else {
      assert Without(es, 0) == es[1..];
    }
  }

  // ---------------------------------------------------------------- the invariant

  predicate Counters(l: Ledger) {
    && l.numCur == CountOf(l.entries, Live) && l.curr == BytesOf(l.entries, Live)
    && l.nmlNum == CountOf(l.entries, Nml) && l.nmlCurr == BytesOf(l.entries, Nml)
    && l.curr <= l.max
  }

  /** Modules add up to the global figures, and each knows what it has not freed. */
  ghost predicate ModulesAddUp(l: Ledger) {
    && Sum(l.stats, Modules) == Amount(l.total, l.num, l.curr)
    && forall f :: ModuleExact(l, f)
  }

  predicate ModuleExact(l: Ledger, f: Option<File>) {
    Sum(l.stats, Record(Key(f, -1))).curr == BytesOf(l.entries, LiveIn(f))
  }

  /** Lines add up to their module, and each knows what it has not freed. */
  ghost predicate LinesAddUp(l: Ledger) {
    && (forall f :: FileExact(l, f))
    && (forall f, n :: LineExact(l, f, n))
  }

  predicate FileExact(l: Ledger, f: File) {
    Sum(l.stats, LinesOf(f)) == Sum(l.stats, Record(Key(Some(f), -1)))
  }

  predicate LineExact(l: Ledger, f: File, n: int) {
    n != -1 ==> Sum(l.stats, Record(Key(Some(f), n))).curr == BytesOf(l.entries, LiveAt(Some(f), n))
  }

  /** The books at a statistics level that has been in force from the start. */
  ghost predicate Balanced(l: Ledger, level: nat) {
    && Counters(l)
    && Sound(l.stats)
    && (forall e :: e in l.entries ==> e.line != -1)
    && (level >= 1 ==> ModulesAddUp(l))
    && (level >= 2 ==> LinesAddUp(l))
  }

  /** A module's own record is exact: it knows how many of its bytes are live, or there are none. */
  lemma {:induction false} ModuleRecord(l: Ledger, level: nat, f: Option<File>)
    requires Balanced(l, level) && level >= 1
    ensures var i := Find(l.stats, Key(f, -1));
            BytesOf(l.entries, LiveIn(f)) == if i < |l.stats| then l.stats[i].curr else 0
  {
    hide Sum, BytesOf, Find;
    assert ModuleExact(l, f);
    SumOfKey(l.stats, Key(f, -1));
  }

  /** And so is a line's. */
  lemma {:induction false} LineRecord(l: Ledger, level: nat, f: File, n: int)
    requires Balanced(l, level) && level >= 2 && n != -1
    ensures var i := Find(l.stats, Key(Some(f), n));
            BytesOf(l.entries, LiveAt(Some(f), n)) == if i < |l.stats| then l.stats[i].curr else 0
  {
    hide Sum, BytesOf, Find;
    assert LineExact(l, f, n);
    SumOfKey(l.stats, Key(Some(f), n));
  }

  // ---------------------------------------------------------------- bookings

  function OnAlloc(l: Ledger, level: nat, e: Entry): Ledger {
    l.(entries := [e] + l.entries, numCur := l.numCur + 1, curr := l.curr + e.size, total := l.total + e.size,
       max := if l.curr + e.size > l.max then l.curr + e.size else l.max, num := l.num + 1,
       stats := if level > 0 then AllocStats(l.stats, level, e.size, e.file, e.line) else l.stats)
  }

  /** keep: the block stays in the chain as no-mans-land. */
  function OnFree(l: Ledger, level: nat, k: nat, keep: bool): Ledger
    requires k < |l.entries|
  {
    var e := l.entries[k];
    l.(entries := if keep then l.entries[k := e.(nml := true)] else Without(l.entries, k),
       numCur := l.numCur - 1, curr := l.curr - e.size,
       nmlNum := if keep then l.nmlNum + 1 else l.nmlNum,
       nmlCurr := if keep then l.nmlCurr + e.size else l.nmlCurr,
       stats := if level > 0 then FreeStats(l.stats, level, e.size, e.file, e.line) else l.stats)
  }

  /** An allocation or the free of entry k. */
  datatype Booking = Alloc(e: Entry) | Free(k: nat, keep: bool)

  /** A free of an entry that is not there changes nothing. */
  function Book(l: Ledger, level: nat, b: Booking): Ledger {
    match b
    case Alloc(e) => OnAlloc(l, level, e)
    case Free(k, keep) => if k < |l.entries| then OnFree(l, level, k, keep) else l
  }

  /** The books after the first n bookings. */
  function AfterFirst(l: Ledger, level: nat, bs: seq<Booking>, n: nat): Ledger
    requires n <= |bs|
  {
    if n == 0 then l else Book(AfterFirst(l, level, bs, n - 1), level, bs[n - 1])
  }

  lemma BookPeaks(l: Ledger, level: nat, b: Booking)
    requires l.curr <= l.max
    ensures var m := Book(l, level, b);
            m.curr <= m.max && m.max == if m.curr > l.max then m.curr else l.max
  {
  }

  /** The recorded maximum is the peak: no amount outstanding on the way exceeds it, and one reaches it. */
  lemma {:induction false} MaxIsPeak(l: Ledger, level: nat, bs: seq<Booking>, n: nat)
    requires l.curr == l.max && n <= |bs|
    ensures forall i :: 0 <= i <= n ==> AfterFirst(l, level, bs, i).curr <= AfterFirst(l, level, bs, n).max
    ensures exists i :: 0 <= i <= n && AfterFirst(l, level, bs, i).curr == AfterFirst(l, level, bs, n).max
  {
    hide Book;
    if n == 0 {
      assert AfterFirst(l, level, bs, 0).curr == l.max;
    } else {
      MaxIsPeak(l, level, bs, n - 1);
      var m := AfterFirst(l, level, bs, n - 1);
      assert m.curr <= m.max;
      BookPeaks(m, level, bs[n - 1]);
      var i :| 0 <= i <= n - 1 && AfterFirst(l, level, bs, i).curr == m.max;
      assert AfterFirst(l, level, bs, n) == Book(m, level, bs[n - 1]);
    }
  }

  lemma {:induction false} AllocKeepsCounters(l: Ledger, level: nat, e: Entry)
    requires Counters(l) && !e.nml
    ensures Counters(OnAlloc(l, level, e))
  {
    Prepend(l.entries, e, Live);
    Prepend(l.entries, e, Nml);
  }

  lemma {:induction false} FreeKeepsCounters(l: Ledger, level: nat, k: nat, keep: bool)
    requires Counters(l) && k < |l.entries| && !l.entries[k].nml
    ensures Counters(OnFree(l, level, k, keep))
  {
    var e := l.entries[k];
    if keep {
      Replace(l.entries, k, e.(nml := true), Live);
      Replace(l.entries, k, e.(nml := true), Nml);
    } else {
      Remove(l.entries, k, Live);
      Remove(l.entries, k, Nml);
    }
  }

  lemma {:induction false} FreeWeight(l: Ledger, level: nat, k: nat, keep: bool, p: Pick)
    requires k < |l.entries| && !l.entries[k].nml && !p.Nml?
    ensures BytesOf(OnFree(l, level, k, keep).entries, p) == BytesOf(l.entries, p) - Weight(p, l.entries[k])
  {
    if keep {
      Replace(l.entries, k, l.entries[k].(nml := true), p);
    } else {
      Remove(l.entries, k, p);
    }
  }

  /** What a booking adds to the outstanding bytes of one record. */
  lemma {:induction false} BookedCurr(level: nat, file: Option<File>, line: int, k: Key, a: Amount)
    requires line != -1 && (k.line != -1 ==> level >= 2 && k.file.Some?)
    ensures Booked(level, file, line, Record(k), a).curr
         == if k.file == file && (k.line == -1 || k.line == line) then a.curr else 0
  {
  }

  lemma {:induction false} AllocModule(l: Ledger, level: nat, e: Entry, f: Option<File>)
    requires ModuleExact(l, f) && level >= 1 && !e.nml && e.line != -1
    ensures ModuleExact(OnAlloc(l, level, e), f)
  {
    hide AllocStats, Sum, BytesOf, Booked;
    BookedCurr(level, e.file, e.line, Key(f, -1), Amount(e.size, 1, e.size));
    SumAlloc(l.stats, level, e.size, e.file, e.line, Record(Key(f, -1)));
    Prepend(l.entries, e, LiveIn(f));
  }

  lemma {:induction false} FreeModule(l: Ledger, level: nat, k: nat, keep: bool, f: Option<File>)
    requires ModuleExact(l, f) && level >= 1 && k < |l.entries| && !l.entries[k].nml && l.entries[k].line != -1
    ensures ModuleExact(OnFree(l, level, k, keep), f)
  {
    hide FreeStats, Sum, BytesOf, Booked;
    var e := l.entries[k];
    BookedCurr(level, e.file, e.line, Key(f, -1), Amount(0, 0, 0 - e.size));
    SumFree(l.stats, level, e.size, e.file, e.line, Record(Key(f, -1)));
    FreeWeight(l, level, k, keep, LiveIn(f));
  }

  lemma {:induction false} AllocKeepsModules(l: Ledger, level: nat, e: Entry)
    requires ModulesAddUp(l) && level >= 1 && !e.nml && e.line != -1
    ensures ModulesAddUp(OnAlloc(l, level, e))
  {
    hide AllocStats, Sum, BytesOf, ModuleExact;
    SumAlloc(l.stats, level, e.size, e.file, e.line, Modules);
    forall f ensures ModuleExact(OnAlloc(l, level, e), f) { AllocModule(l, level, e, f); }
  }

  lemma {:induction false} FreeKeepsModules(l: Ledger, level: nat, k: nat, keep: bool)
    requires ModulesAddUp(l) && level >= 1 && k < |l.entries| && !l.entries[k].nml && l.entries[k].line != -1
    ensures ModulesAddUp(OnFree(l, level, k, keep))
  {
    hide FreeStats, Sum, BytesOf, ModuleExact;
    var e := l.entries[k];
    SumFree(l.stats, level, e.size, e.file, e.line, Modules);
    forall f ensures ModuleExact(OnFree(l, level, k, keep), f) { FreeModule(l, level, k, keep, f); }
  }

  /** A booking on a module and a line reaches a file's lines exactly when it reaches its module. */
  lemma {:induction false} BookedAlike(level: nat, file: Option<File>, line: int, f: File, a: Amount)
    requires level >= 2 && line != -1
    ensures Booked(level, file, line, LinesOf(f), a) == Booked(level, file, line, Record(Key(Some(f), -1)), a)
  {
  }

  lemma {:induction false} AllocFile(l: Ledger, level: nat, e: Entry, f: File)
    requires FileExact(l, f) && level >= 2 && e.line != -1
    ensures FileExact(OnAlloc(l, level, e), f)
  {
    hide AllocStats, Sum, Booked, Plus;
    SumAlloc(l.stats, level, e.size, e.file, e.line, LinesOf(f));
    SumAlloc(l.stats, level, e.size, e.file, e.line, Record(Key(Some(f), -1)));
    BookedAlike(level, e.file, e.line, f, Amount(e.size, 1, e.size));
  }

  lemma {:induction false} FreeFile(l: Ledger, level: nat, k: nat, keep: bool, f: File)
    requires FileExact(l, f) && level >= 2 && k < |l.entries| && l.entries[k].line != -1
    ensures FileExact(OnFree(l, level, k, keep), f)
  {
    hide FreeStats, Sum, Booked, Plus;
    var e := l.entries[k];
    SumFree(l.stats, level, e.size, e.file, e.line, LinesOf(f));
    SumFree(l.stats, level, e.size, e.file, e.line, Record(Key(Some(f), -1)));
    BookedAlike(level, e.file, e.line, f, Amount(0, 0, 0 - e.size));
  }

  lemma {:induction false} AllocLine(l: Ledger, level: nat, e: Entry, f: File, n: int)
    requires LineExact(l, f, n) && level >= 2 && !e.nml && e.line != -1
    ensures LineExact(OnAlloc(l, level, e), f, n)
  {
    hide AllocStats, Sum, BytesOf, Booked;
    if n != -1 { BookedCurr(level, e.file, e.line, Key(Some(f), n), Amount(e.size, 1, e.size)); }
    SumAlloc(l.stats, level, e.size, e.file, e.line, Record(Key(Some(f), n)));
    Prepend(l.entries, e, LiveAt(Some(f), n));
  }

  lemma {:induction false} FreeLine(l: Ledger, level: nat, k: nat, keep: bool, f: File, n: int)
    requires LineExact(l, f, n) && level >= 2
    requires k < |l.entries| && !l.entries[k].nml && l.entries[k].line != -1
    ensures LineExact(OnFree(l, level, k, keep), f, n)
  {
    hide FreeStats, Sum, BytesOf, Booked;
    var e := l.entries[k];
    if n != -1 { BookedCurr(level, e.file, e.line, Key(Some(f), n), Amount(0, 0, 0 - e.size)); }
    SumFree(l.stats, level, e.size, e.file, e.line, Record(Key(Some(f), n)));
    FreeWeight(l, level, k, keep, LiveAt(Some(f), n));
  }

  lemma {:induction false} AllocKeepsLines(l: Ledger, level: nat, e: Entry)
    requires LinesAddUp(l) && level >= 2 && !e.nml && e.line != -1
    ensures LinesAddUp(OnAlloc(l, level, e))
  {
    hide FileExact, LineExact, OnAlloc;
    forall f ensures FileExact(OnAlloc(l, level, e), f) { AllocFile(l, level, e, f); }
    forall f, n ensures LineExact(OnAlloc(l, level, e), f, n) { AllocLine(l, level, e, f, n); }
  }

  lemma {:induction false} FreeKeepsLines(l: Ledger, level: nat, k: nat, keep: bool)
    requires LinesAddUp(l) && level >= 2 && k < |l.entries| && !l.entries[k].nml && l.entries[k].line != -1
    ensures LinesAddUp(OnFree(l, level, k, keep))
  {
    hide FileExact, LineExact, OnFree;
    forall f ensures FileExact(OnFree(l, level, k, keep), f) { FreeFile(l, level, k, keep, f); }
    forall f, n ensures LineExact(OnFree(l, level, k, keep), f, n) { FreeLine(l, level, k, keep, f, n); }
  }

  lemma {:induction false} AllocKeepsBalance(l: Ledger, level: nat, e: Entry)
    requires Balanced(l, level) && !e.nml && e.line != -1
    ensures Balanced(OnAlloc(l, level, e), level)
  {
    hide Counters, ModulesAddUp, LinesAddUp, Sound, AllocStats;
    AllocKeepsCounters(l, level, e);
    if level >= 1 {
      AllocSound(l.stats, level, e.size, e.file, e.line);
      AllocKeepsModules(l, level, e);
    }
    if level >= 2 { AllocKeepsLines(l, level, e); }
  }

  lemma {:induction false} FreeKeepsBalance(l: Ledger, level: nat, k: nat, keep: bool)
    requires Balanced(l, level) && k < |l.entries| && !l.entries[k].nml
    ensures Balanced(OnFree(l, level, k, keep), level)
  {
    hide Counters, ModulesAddUp, LinesAddUp, Sound, FreeStats;
    var e := l.entries[k];
    FreeKeepsCounters(l, level, k, keep);
    if level >= 1 {
      FreeSound(l.stats, level, e.size, e.file, e.line);
      FreeKeepsModules(l, level, k, keep);
    }
    if level >= 2 { FreeKeepsLines(l, level, k, keep); }
  }

  const EmptyLedger := Ledger([], 0, 0, 0, 0, 0, 0, 0, [])

  lemma {:induction false} EmptyIsBalanced(level: nat)
    ensures Balanced(EmptyLedger, level)
  {
  }
}
