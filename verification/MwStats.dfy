/** The memory watcher's statistics: one record per module and, at level 2, one per source line. */
module MwStats {
  import opened Bytes

  /** File names, which only matter by being equal or not. */
  type File = nat

  /** mwStat; a module's own record has line -1. */
  datatype Stat = Stat(file: Option<File>, line: int, total: int, num: int, max: int, curr: int)

  /** What is added up over records: bytes ever allocated, allocations, bytes not yet freed. */
  datatype Amount = Amount(total: int, num: int, curr: int)

  const Zero := Amount(0, 0, 0)

  function Plus(a: Amount, b: Amount): Amount {
    Amount(a.total + b.total, a.num + b.num, a.curr + b.curr)
  }

  function When(c: bool, a: Amount): Amount { if c then a else Zero }

  datatype Key = Key(file: Option<File>, line: int)

  function KeyOf(s: Stat): Key { Key(s.file, s.line) }

  function AmountOf(s: Stat): Amount { Amount(s.total, s.num, s.curr) }

  /** Which records a sum ranges over: all modules, the lines of a file, or a single key. */
  datatype Query = Modules | LinesOf(file: File) | Record(key: Key)

  predicate Selects(q: Query, k: Key) {
    match q
    case Modules => k.line == -1
    case LinesOf(file) => k.file == Some(file) && k.line != -1
    case Record(key) => k == key
  }

  function Sum(stats: seq<Stat>, q: Query): Amount {
    if stats == [] then Zero
    else Plus(When(Selects(q, KeyOf(stats[0])), AmountOf(stats[0])), Sum(stats[1..], q))
  }

  predicate Unique(stats: seq<Stat>) {
    forall i, j :: 0 <= i < j < |stats| ==> KeyOf(stats[i]) != KeyOf(stats[j])
  }

  /** Position of the record with key k, or the number of records. */
  function Find(stats: seq<Stat>, k: Key): (i: nat)
    ensures i <= |stats|
    ensures i < |stats| ==> KeyOf(stats[i]) == k
    ensures forall j :: 0 <= j < i ==> KeyOf(stats[j]) != k
  {
    if stats == [] || KeyOf(stats[0]) == k then 0 else 1 + Find(stats[1..], k)
  }

  /** mwStatGet with makenew: a missing record is put in front. */
  function Touch(stats: seq<Stat>, k: Key): (r: seq<Stat>)
    ensures Find(r, k) < |r|
  {
    if Find(stats, k) < |stats| then stats else [Stat(k.file, k.line, 0, 0, 0, 0)] + stats
  }

  function Charged(s: Stat, size: int): Stat {
    var curr := s.curr + size;
    Stat(s.file, s.line, s.total + size, s.num + 1, if curr > s.max then curr else s.max, curr)
  }

  function Credited(s: Stat, size: int): Stat { s.(curr := s.curr - size) }

  function ChargeAt(stats: seq<Stat>, k: Key, size: int): seq<Stat> {
    var t := Touch(stats, k);
    t[Find(t, k) := Charged(t[Find(t, k)], size)]
  }

  function CreditAt(stats: seq<Stat>, k: Key, size: int): seq<Stat> {
    var t := Touch(stats, k);
    t[Find(t, k) := Credited(t[Find(t, k)], size)]
  }

  /** Lines are recorded at level 2, for known files. */
  predicate Lined(level: nat, file: Option<File>, line: int) {
    level > 1 && line != -1 && file.Some?
  }

  /** mwStatAlloc */
  function AllocStats(stats: seq<Stat>, level: nat, size: int, file: Option<File>, line: int): seq<Stat> {
    var m := ChargeAt(stats, Key(file, -1), size);
    if Lined(level, file, line) then ChargeAt(m, Key(file, line), size) else m
  }

  /** mwStatFree */
  function FreeStats(stats: seq<Stat>, level: nat, size: int, file: Option<File>, line: int): seq<Stat> {
    var m := CreditAt(stats, Key(file, -1), size);
    if Lined(level, file, line) then CreditAt(m, Key(file, line), size) else m
  }

  // ---------------------------------------------------------------- what the operations do to sums

  lemma {:induction false} SumUpdate(stats: seq<Stat>, i: nat, s: Stat, d: Amount, q: Query)
    requires i < |stats| && KeyOf(s) == KeyOf(stats[i]) && AmountOf(s) == Plus(AmountOf(stats[i]), d)
    ensures Sum(stats[i := s], q) == Plus(Sum(stats, q), When(Selects(q, KeyOf(s)), d))
  {
    hide Plus, When, Selects;
    var h, r := stats[0], stats[1..];
    if i > 0 {
      assert stats[i := s][1..] == r[i - 1 := s];
      SumUpdate(r, i - 1, s, d, q);
      PlusAssoc(When(Selects(q, KeyOf(h)), AmountOf(h)), Sum(r, q), When(Selects(q, KeyOf(s)), d));
    } else {
      assert stats[0 := s][1..] == r;
      PlusMiddle(Selects(q, KeyOf(s)), AmountOf(h), d, Sum(r, q));
    }
  }

  lemma PlusMiddle(c: bool, a: Amount, d: Amount, r: Amount)
    ensures Plus(When(c, Plus(a, d)), r) == Plus(Plus(When(c, a), r), When(c, d))
  {
  }

  lemma PlusZero(a: Amount)
    ensures Plus(Zero, a) == a && Plus(a, Zero) == a
  {
  }

  lemma PlusAssoc(a: Amount, b: Amount, c: Amount)
    ensures Plus(Plus(a, b), c) == Plus(a, Plus(b, c))
  {
  }

  lemma {:induction false} SumNew(stats: seq<Stat>, s: Stat, q: Query)
    requires AmountOf(s) == Zero
    ensures Sum([s] + stats, q) == Sum(stats, q)
  {
    assert ([s] + stats)[1..] == stats;
    PlusZero(Sum(stats, q));
  }

  lemma {:induction false} SumTouch(stats: seq<Stat>, k: Key, q: Query)
    ensures Sum(Touch(stats, k), q) == Sum(stats, q)
  {
    hide Sum;
    if Find(stats, k) >= |stats| { SumNew(stats, Stat(k.file, k.line, 0, 0, 0, 0), q); }
  }

  /** Change of the sum over q when amount a is booked on a module and, maybe, on a line. */
  function Booked(level: nat, file: Option<File>, line: int, q: Query, a: Amount): Amount {
    Plus(When(Selects(q, Key(file, -1)), a), When(Lined(level, file, line) && Selects(q, Key(file, line)), a))
  }

  lemma {:induction false} SumChargeAt(stats: seq<Stat>, k: Key, size: int, q: Query)
    ensures Sum(ChargeAt(stats, k, size), q) == Plus(Sum(stats, q), When(Selects(q, k), Amount(size, 1, size)))
  {
    hide Sum, Selects;
    var t := Touch(stats, k);
    SumTouch(stats, k, q);
    SumUpdate(t, Find(t, k), Charged(t[Find(t, k)], size), Amount(size, 1, size), q);
  }

  lemma {:induction false} SumCreditAt(stats: seq<Stat>, k: Key, size: int, q: Query)
    ensures Sum(CreditAt(stats, k, size), q) == Plus(Sum(stats, q), When(Selects(q, k), Amount(0, 0, -size)))
  {
    hide Sum, Selects;
    var t := Touch(stats, k);
    SumTouch(stats, k, q);
    SumUpdate(t, Find(t, k), Credited(t[Find(t, k)], size), Amount(0, 0, -size), q);
  }

  lemma {:induction false} SumAlloc(stats: seq<Stat>, level: nat, size: int, file: Option<File>, line: int, q: Query)
    ensures Sum(AllocStats(stats, level, size, file, line), q)
         == Plus(Sum(stats, q), Booked(level, file, line, q, Amount(size, 1, size)))
  {
    hide ChargeAt, Sum, Selects, Plus;
    var k, l, a := Key(file, -1), Key(file, line), Amount(size, 1, size);
    SumChargeAt(stats, k, size, q);
    SumChargeAt(ChargeAt(stats, k, size), l, size, q);
    PlusAssoc(Sum(stats, q), When(Selects(q, k), a), When(Selects(q, l), a));
    PlusZero(When(Selects(q, k), a));
  }

  lemma {:induction false} SumFree(stats: seq<Stat>, level: nat, size: int, file: Option<File>, line: int, q: Query)
    ensures Sum(FreeStats(stats, level, size, file, line), q)
         == Plus(Sum(stats, q), Booked(level, file, line, q, Amount(0, 0, -size)))
  {
    hide CreditAt, Sum, Selects, Plus;
    var k, l, a := Key(file, -1), Key(file, line), Amount(0, 0, -size);
    SumCreditAt(stats, k, size, q);
    SumCreditAt(CreditAt(stats, k, size), l, size, q);
    PlusAssoc(Sum(stats, q), When(Selects(q, k), a), When(Selects(q, l), a));
    PlusZero(When(Selects(q, k), a));
  }

  // ---------------------------------------------------------------- well-formed record lists

  /** One record per key, and the recorded maximum bounds what is outstanding. */
  predicate Sound(stats: seq<Stat>) {
    Unique(stats) && forall s :: s in stats ==> s.curr <= s.max
  }

  lemma {:induction false} TouchSound(stats: seq<Stat>, k: Key)
    requires Sound(stats)
    ensures Sound(Touch(stats, k))
  {
  }

  lemma {:induction false} ReplaceSound(stats: seq<Stat>, i: nat, s: Stat)
    requires Sound(stats) && i < |stats| && KeyOf(s) == KeyOf(stats[i]) && s.curr <= s.max
    ensures Sound(stats[i := s])
  {
  }

  lemma {:induction false} AllocSound(stats: seq<Stat>, level: nat, size: int, file: Option<File>, line: int)
    requires Sound(stats)
    ensures Sound(AllocStats(stats, level, size, file, line))
  {
    var k, l := Key(file, -1), Key(file, line);
    TouchSound(stats, k);
    var t := Touch(stats, k);
    ReplaceSound(t, Find(t, k), Charged(t[Find(t, k)], size));
    var m := ChargeAt(stats, k, size);
    TouchSound(m, l);
    var u := Touch(m, l);
    ReplaceSound(u, Find(u, l), Charged(u[Find(u, l)], size));
  }

  lemma {:induction false} FreeSound(stats: seq<Stat>, level: nat, size: nat, file: Option<File>, line: int)
    requires Sound(stats)
    ensures Sound(FreeStats(stats, level, size, file, line))
  {
    var k, l := Key(file, -1), Key(file, line);
    TouchSound(stats, k);
    var t := Touch(stats, k);
    ReplaceSound(t, Find(t, k), Credited(t[Find(t, k)], size));
    var m := CreditAt(stats, k, size);
    TouchSound(m, l);
    var u := Touch(m, l);
    ReplaceSound(u, Find(u, l), Credited(u[Find(u, l)], size));
  }

  /** What the records say of key k: the largest amount outstanding so far, and the amount now. */
  function MaxOf(stats: seq<Stat>, k: Key): int {
    if Find(stats, k) < |stats| then stats[Find(stats, k)].max else 0
  }

  function CurrOf(stats: seq<Stat>, k: Key): int {
    if Find(stats, k) < |stats| then stats[Find(stats, k)].curr else 0
  }

  lemma {:induction false} FindIs(stats: seq<Stat>, k: Key, i: nat)
    requires i < |stats| && KeyOf(stats[i]) == k && forall j :: 0 <= j < i ==> KeyOf(stats[j]) != k
    ensures Find(stats, k) == i
  {
  }

  lemma TouchKeeps(stats: seq<Stat>, k: Key, q: Key)
    ensures MaxOf(Touch(stats, k), q) == MaxOf(stats, q) && CurrOf(Touch(stats, k), q) == CurrOf(stats, q)
  {
    if Find(stats, k) >= |stats| {
      var t := Touch(stats, k);
      assert t[1..] == stats;
    }
  }

  lemma UpdateAt(stats: seq<Stat>, k: Key, s: Stat, q: Key)
    requires Find(stats, k) < |stats| && KeyOf(s) == k
    ensures var t := stats[Find(stats, k) := s];
            && MaxOf(t, q) == (if q == k then s.max else MaxOf(stats, q))
            && CurrOf(t, q) == (if q == k then s.curr else CurrOf(stats, q))
  {
    var i, t := Find(stats, k), stats[Find(stats, k) := s];
    assert forall j :: 0 <= j < |t| ==> KeyOf(t[j]) == KeyOf(stats[j]);
    if Find(stats, q) < |stats| { FindIs(t, q, Find(stats, q)); }
  }

  /** There is a record for key k. */
  predicate Recorded(stats: seq<Stat>, k: Key) {
    Find(stats, k) < |stats|
  }

  lemma ChargeRecords(stats: seq<Stat>, k: Key, size: int, q: Key)
    ensures Recorded(ChargeAt(stats, k, size), q) <==> Recorded(stats, q) || q == k
  {
    var t := Touch(stats, k);
    var c := ChargeAt(stats, k, size);
    assert forall j :: 0 <= j < |t| ==> KeyOf(c[j]) == KeyOf(t[j]);
    if Recorded(t, q) { FindIs(c, q, Find(t, q)); }
    if Find(stats, k) >= |stats| { assert t[1..] == stats; }
  }

  /** An allocation is recorded for its module and, at level 2 only and for a known file, for its line. */
  lemma AllocRecords(stats: seq<Stat>, level: nat, size: int, file: Option<File>, line: int, q: Key)
    ensures Recorded(AllocStats(stats, level, size, file, line), q)
       <==> Recorded(stats, q) || q == Key(file, -1)
            || (level >= 2 && file.Some? && line != -1 && q == Key(file, line))
  {
    hide Recorded, ChargeAt;
    ChargeRecords(stats, Key(file, -1), size, q);
    ChargeRecords(ChargeAt(stats, Key(file, -1), size), Key(file, line), size, q);
  }

  /** Every maximum is the peak: it rises with the amount outstanding and never otherwise. */
  lemma AllocPeaks(stats: seq<Stat>, level: nat, size: nat, file: Option<File>, line: int, q: Key)
    requires Sound(stats)
    ensures var t := AllocStats(stats, level, size, file, line);
            && CurrOf(t, q) >= CurrOf(stats, q)
            && MaxOf(t, q) == if CurrOf(t, q) > MaxOf(stats, q) then CurrOf(t, q) else MaxOf(stats, q)
  {
    hide Find, Touch, Sound;
    ChargePeaks(stats, Key(file, -1), size, q);
    if Lined(level, file, line) { ChargePeaks(ChargeAt(stats, Key(file, -1), size), Key(file, line), size, q); }
    CurrBelowMax(stats, q);
  }

  lemma CurrBelowMax(stats: seq<Stat>, q: Key)
    requires Sound(stats)
    ensures CurrOf(stats, q) <= MaxOf(stats, q)
  {
  }

  lemma ChargePeaks(stats: seq<Stat>, k: Key, size: nat, q: Key)
    ensures var t := ChargeAt(stats, k, size);
            && CurrOf(t, q) == CurrOf(stats, q) + (if q == k then size else 0)
            && MaxOf(t, q) == if q == k && CurrOf(t, q) > MaxOf(stats, q) then CurrOf(t, q) else MaxOf(stats, q)
  {
    var t := Touch(stats, k);
    TouchKeeps(stats, k, q);
    UpdateAt(t, k, Charged(t[Find(t, k)], size), q);
  }

  lemma FreeKeepsPeaks(stats: seq<Stat>, level: nat, size: nat, file: Option<File>, line: int, q: Key)
    ensures MaxOf(FreeStats(stats, level, size, file, line), q) == MaxOf(stats, q)
  {
    CreditKeepsPeaks(stats, Key(file, -1), size, q);
    CreditKeepsPeaks(CreditAt(stats, Key(file, -1), size), Key(file, line), size, q);
  }

  lemma CreditKeepsPeaks(stats: seq<Stat>, k: Key, size: nat, q: Key)
    ensures MaxOf(CreditAt(stats, k, size), q) == MaxOf(stats, q)
  {
    var t := Touch(stats, k);
    TouchKeeps(stats, k, q);
    UpdateAt(t, k, Credited(t[Find(t, k)], size), q);
  }

  /** With one record per key, the sum over a key is that record. */
  lemma {:induction false} SumOfKey(stats: seq<Stat>, k: Key)
    requires Unique(stats)
    ensures Sum(stats, Record(k))
         == if Find(stats, k) < |stats| then AmountOf(stats[Find(stats, k)]) else Zero
  {
    hide Plus;
    if stats != [] {
      var t := stats[1..];
      SumOfKey(t, k);
      PlusZero(Sum(t, Record(k)));
      PlusZero(AmountOf(stats[0]));
      var i := Find(t, k);
      assert i < |t| ==> KeyOf(t[i]) == KeyOf(stats[1 + i]);
    }
  }
}
