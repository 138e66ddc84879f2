/** The allocation calls of the memory watcher on the chain, the counters and the statistics. */
module MemWatch {
  import opened Bytes
  import opened MwHeap
  import opened MwStats
  import opened MwLedger

  const SIZE_MODULUS := 0x1_0000_0000_0000_0000  // size_t
  const LONG_MAX := 0x7FFF_FFFF_FFFF_FFFF

  /** Block header and two overflow zones on an LP64 system. */
  const OVERHEAD := 72

  /** The cast from size_t to long. */
  function ToLong(size: nat): int
    requires size < SIZE_MODULUS
  {
    if size > LONG_MAX then size - SIZE_MODULUS else size
  }

  /** A pointer handed to free or realloc: null, memory that cannot be read, or a buffer. */
  datatype Pointer = Null | Unmapped | Buffer(block: Block)

  /** What the books should know of block b. */
  function EntryOf(b: Block): Entry
    reads b`nml
  {
    Entry(b.file, b.line, b.size, b.nml)
  }

  /** Position of block b in the chain c. */
  ghost function Place(c: seq<Block>, b: Block): (k: nat)
    requires b in c
    ensures k < |c| && c[k] == b
  {
    if c[0] == b then 0 else 1 + Place(c[1..], b)
  }

  /** The chain after b has been freed: kept as no-mans-land or without it. */
  ghost function Left(c: seq<Block>, b: Block, keep: bool): seq<Block>
    requires b in c
  {
    if keep then c else Without(c, Place(c, b))
  }

  lemma {:induction false} BehindNew(c: seq<Block>, q: Block, b: Block, keep: bool)
    requires b in c && q != b
    ensures Place([q] + c, b) == 1 + Place(c, b) && Left([q] + c, b, keep) == [q] + Left(c, b, keep)
  {
    hide Without;
    assert ([q] + c)[1..] == c;
    WithoutBehind(c, q, Place(c, b));
  }

  lemma WithoutBehind(c: seq<Block>, q: Block, k: nat)
    requires k < |c|
    ensures Without([q] + c, 1 + k) == [q] + Without(c, k)
  {
    assert ([q] + c)[..1 + k] == [q] + c[..k];
    assert ([q] + c)[1 + k + 1..] == c[k + 1..];
  }

  lemma FilledDrop(v: byte, n: nat, k: nat)
    requires k <= n
    ensures Filled(v, n)[k..] == Filled(v, n - k)
  {
  }

  lemma WithoutIsOther(c: seq<Block>, k: nat)
    requires k < |c| && Distinct(c)
    ensures |Without(c, k)| == |c| - 1 && c[k] !in Without(c, k)
  {
  }

  /** Once the neighbours of block k point past it, the others are a proper list. */
  lemma Relinked(c: seq<Block>, k: nat, head: Block?, tail: Block?)
    requires k < |c| && Distinct(c)
    requires head == if k > 0 then c[0] else if |c| > 1 then c[1] else null
    requires tail == if k < |c| - 1 then c[|c| - 1] else if k > 0 then c[k - 1] else null
    requires k > 0 ==> c[0].prev == null && c[k - 1].next == if k < |c| - 1 then c[k + 1] else null
    requires k < |c| - 1 ==> c[|c| - 1].next == null && c[k + 1].prev == if k > 0 then c[k - 1] else null
    requires forall i {:trigger c[i].next} :: 0 <= i < |c| - 1 && i != k - 1 && i != k ==> c[i].next == c[i + 1]
    requires forall i {:trigger c[i].prev} :: 1 <= i < |c| && i != k && i != k + 1 ==> c[i].prev == c[i - 1]
    ensures ProperList(Without(c, k), head, tail) && Distinct(Without(c, k))
  {
    var w := Without(c, k);
    forall i {:trigger w[i].next} | 0 <= i < |w| - 1
      ensures w[i].next == w[i + 1]
    {
      if i < k { assert w[i] == c[i]; } else { assert w[i] == c[i + 1]; }
    }
    forall i {:trigger w[i].prev} | 1 <= i < |w|
      ensures w[i].prev == w[i - 1]
    {
      if i < k { assert w[i] == c[i]; } else { assert w[i] == c[i + 1]; }
    }
  }

  class MemWatch {
    const statLevel: nat       // in force from the start
    var head: Block?
    var tail: Block?
    var readable: set<Block>   // what mwIsSafeAddr accepts
    var noMansLand: bool       // mwNML
    var useLimit: bool
    var allocLimit: int
    var counter: int
    var errors: int
    var numCur: int
    var curr: int
    var total: int
    var max: int
    var num: int
    var nmlNum: int
    var nmlCurr: int
    var stats: seq<Stat>
    ghost var chain: seq<Block>
    ghost var entries: seq<Entry>  // the blocks of the chain as the books see them

    ghost function Books(): Ledger
      reads this`entries, this`numCur, this`curr, this`total, this`max, this`num, this`nmlNum, this`nmlCurr
      reads this`stats
    {
      Ledger(entries, numCur, curr, total, max, num, nmlNum, nmlCurr, stats)
    }

    /** Every block of the chain can be read, carries its check value and is booked as it is. */
    ghost predicate Healthy()
      reads this`chain, this`entries, this`readable, chain`intact, chain`nml
    {
      && |entries| == |chain|
      && forall i {:trigger chain[i]} {:trigger entries[i]} :: 0 <= i < |chain| ==>
           chain[i] in readable && chain[i].intact && entries[i] == EntryOf(chain[i])
    }

    ghost predicate Chained()
      reads this`chain, this`head, this`tail, chain`prev, chain`next
    {
      ProperList(chain, head, tail) && (chain == [] ==> tail == null) && Distinct(chain)
    }

    /** The chain is intact and the books agree with it. */
    ghost predicate Valid()
      reads this`chain, this`entries, chain, this`numCur, this`curr, this`total, this`max, this`num
      reads this`nmlNum, this`nmlCurr, this`stats, this`head, this`tail, this`readable
    {
      Chained() && Healthy() && Balanced(Books(), statLevel)
    }

    /**
     A pointer the watcher never issued does not come with a matching check value, and an issued one
     points to as many bytes as the header says.
     */
    ghost predicate Plausible(p: Pointer)
      reads this, if p.Buffer? then {p.block} else {}
    {
      p.Buffer? ==>
        && (p.block in readable ==> p.block in chain || !p.block.intact)
        && (p.block in chain ==> |p.block.data| == p.block.size)
    }

    constructor (statLevel: nat)
      ensures Valid() && chain == [] && this.statLevel == statLevel && !useLimit && !noMansLand
      ensures counter == errors == 0
    {
      this.statLevel := statLevel;
      head, tail, readable, chain, entries := null, null, {}, [], [];
      noMansLand, useLimit, allocLimit, counter, errors := false, false, 0, 0, 0;
      numCur, curr, total, max, num, nmlNum, nmlCurr, stats := 0, 0, 0, 0, 0, 0, 0, [];
      new;
      EmptyIsBalanced(statLevel);
      assert Books() == EmptyLedger;
    }

    // -------------------------------------------------------------- statistics

    /** mwStatGet with makenew set: the position of the record, new records come first. */
    method StatGet(file: Option<File>, line: int) returns (i: nat)
      modifies this`stats
      ensures var k := Key(file, if statLevel < 2 then -1 else line);
              stats == Touch(old(stats), k) && i == Find(stats, k) && i < |stats|
    {
      var l := if statLevel < 2 then -1 else line;
      var k := Key(file, l);
      i := 0;
      while i < |stats| && !(stats[i].line == l && stats[i].file == file)
        invariant i <= |stats|
        invariant Find(stats, k) == i + Find(stats[i..], k)
      {
        assert stats[i..][1..] == stats[i + 1..];
        i := i + 1;
      }
      if i < |stats| { return; }
      stats := [Stat(file, l, 0, 0, 0, 0)] + stats;
      i := 0;
    }

    method StatAlloc(size: nat, file: Option<File>, line: int)
      requires statLevel > 0
      modifies this`stats
      ensures stats == AllocStats(old(stats), statLevel, size, file, line)
    {
      var i := StatGet(file, -1);
      stats := stats[i := Charged(stats[i], size)];
      if statLevel > 1 && line != -1 && file.Some? {
        i := StatGet(file, line);
        stats := stats[i := Charged(stats[i], size)];
      }
    }

    method StatFree(size: nat, file: Option<File>, line: int)
      requires statLevel > 0
      modifies this`stats
      ensures stats == FreeStats(old(stats), statLevel, size, file, line)
    {
      var i := StatGet(file, -1);
      stats := stats[i := Credited(stats[i], size)];
      if statLevel > 1 && line != -1 && file.Some? {
        i := StatGet(file, line);
        stats := stats[i := Credited(stats[i], size)];
      }
    }

    /** The counters of an allocation. */
    method CountAlloc(size: nat, file: Option<File>, line: int)
      modifies this`numCur, this`curr, this`total, this`max, this`num, this`stats
      ensures numCur == old(numCur) + 1 && curr == old(curr) + size
      ensures total == old(total) + size && num == old(num) + 1
      ensures max == if old(curr) + size > old(max) then old(curr) + size else old(max)
      ensures stats == if statLevel > 0 then AllocStats(old(stats), statLevel, size, file, line) else old(stats)
    {
      numCur := numCur + 1;
      curr := curr + size;
      total := total + size;
      if curr > max { max := curr; }
      num := num + 1;
      if statLevel > 0 { StatAlloc(size, file, line); }
    }

    /** The counters of a block that stops being live. */
    method CountFree(size: nat, file: Option<File>, line: int)
      modifies this`numCur, this`curr, this`nmlNum, this`nmlCurr, this`stats
      ensures numCur == old(numCur) - 1 && curr == old(curr) - size
      ensures nmlNum == if noMansLand then old(nmlNum) + 1 else old(nmlNum)
      ensures nmlCurr == if noMansLand then old(nmlCurr) + size else old(nmlCurr)
      ensures stats == if statLevel > 0 then FreeStats(old(stats), statLevel, size, file, line) else old(stats)
    {
      numCur := numCur - 1;
      curr := curr - size;
      if statLevel > 0 { StatFree(size, file, line); }
      if noMansLand {
        nmlNum := nmlNum + 1;
        nmlCurr := nmlCurr + size;
      }
    }

    // -------------------------------------------------------------- the chain

    /** The new block in front of the chain. */
    method Link(mw: Block)
      requires Chained()
      requires mw !in chain && mw.prev == null && mw.next == head
      modifies this`head, this`tail, this`chain, chain`prev
      ensures chain == [mw] + old(chain)
      ensures Chained()
    {
      if head != null { head.prev := mw; }
      head := mw;
      if tail == null { tail := mw; }
      chain := [mw] + chain;
    }

    /** mwUnlink; the link failures it reports cannot happen in an intact chain. */
    method Unlink(mw: Block, ghost k: nat)
      requires Chained()
      requires k < |chain| && chain[k] == mw
      modifies this`head, this`tail, this`chain, chain`prev, chain`next
      ensures chain == Without(old(chain), k)
      ensures Chained()
    {
      hide Without;
      ghost var c := chain;
      assert k > 0 ==> mw.prev == c[k - 1] && c[k - 1].next == mw;
      assert k + 1 < |c| ==> mw.next == c[k + 1] && c[k + 1].prev == mw;
      if mw.prev == null {
        head := mw.next;
      } else if mw.prev.next == mw {
        mw.prev.next := mw.next;
      }
      if mw.next == null {
        tail := mw.prev;
      } else if mw.next.prev == mw {
        mw.next.prev := mw.prev;
      }
      Relinked(c, k, head, tail);
      chain := Without(chain, k);
    }

    /**
     mwIsOwned in an intact chain. The relinking that the code tries when a block with a good
     check value is badly linked is not reached.
     */
    method IsOwned(mw: Block) returns (owned: bool)
      requires Valid() && Plausible(Buffer(mw))
      ensures owned <==> mw in chain
    {
      if mw !in readable { return false; }
      if head == null && tail == null && curr == 0 { return false; }
      if !mw.intact {
        ghost var visited;
        owned, visited := IsHeapOk(head, tail, readable, mw);
        ProperListIsFollowed(chain, head, tail, readable);
        assert !owned;
        return;
      }
      ghost var k :| 0 <= k < |chain| && chain[k] == mw;
      assert k > 0 ==> mw.prev == chain[k - 1] && chain[k - 1].next == mw;
      assert k + 1 < |chain| ==> mw.next == chain[k + 1] && chain[k + 1].prev == mw;
      var retv := 0;
      if mw.prev != null { if mw.prev.next == mw { retv := retv + 1; } }
      else { if head == mw { retv := retv + 1; } }
      if mw.next != null { if mw.next.prev == mw { retv := retv + 1; } }
      else { if tail == mw { retv := retv + 1; } }
      if mw.intact { retv := retv + 1; }
      return retv > 2;
    }

    // -------------------------------------------------------------- the calls

    /** A call that hands nothing out and changes neither chain nor books. */
    twostate predicate Untouched()
      reads this
    {
      chain == old(chain) && Books() == old(Books())
    }

    /** A request is refused for overflow of its size, for the limit or for lack of memory. */
    predicate Refused(size: nat, memory: bool)
      requires size < SIZE_MODULUS
      reads this`useLimit, this`curr, this`allocLimit
    {
      || (OVERHEAD + size) % SIZE_MODULUS < size
      || (useLimit && ToLong(size) + curr > allocLimit)
      || !memory || OVERHEAD + size > LONG_MAX
    }

    /** Block p has been put in front of the chain and into the books. */
    twostate predicate Issued(new p: Block, size: nat, file: Option<File>, line: int)
      reads this, p
    {
      && chain == [p] + old(chain) && p.size == size && !p.nml
      && Books() == OnAlloc(old(Books()), statLevel, Entry(file, line, size, false))
      && curr == old(curr) + size && numCur == old(numCur) + 1
    }

    /** mwMalloc; memory tells whether the system's allocator can serve the request. */
    method Malloc(size: nat, file: Option<File>, line: int, memory: bool) returns (p: Block?)
      requires Valid() && size < SIZE_MODULUS && line != -1
      modifies this`head, this`tail, this`chain, this`entries, this`readable, this`counter, this`errors
      modifies this`numCur, this`curr, this`total, this`max, this`num, this`stats, chain`prev
      ensures Valid()
      ensures p == null <==> old(Refused(size, memory))
      ensures size > LONG_MAX - OVERHEAD ==> p == null
      ensures size <= LONG_MAX - OVERHEAD ==>
                (p == null <==> !memory || (useLimit && old(curr) + size > allocLimit))
      ensures p == null ==> Untouched()
      ensures p != null ==> fresh(p) && Issued(p, size, file, line) && p.data == Filled(MW_VAL_NEW, size)
      ensures useLimit ==> curr <= old(curr) || curr <= allocLimit
      ensures counter == old(counter) + 1
      ensures errors == old(errors) + if p != null || size >= SIZE_MODULUS - OVERHEAD then 0 else 1
    {
      hide Balanced, Chained;
      counter := counter + 1;
      var needed := (OVERHEAD + size) % SIZE_MODULUS;
      if needed < size { return null; }
      if useLimit && ToLong(size) + curr > allocLimit {
        errors := errors + 1;
        return null;
      }
      if !(memory && needed <= LONG_MAX) {
        errors := errors + 1;
        return null;
      }
      p := new Block(file, line, size, head);
      Insert(p);
    }

    /** A new block goes into the chain and into the books. */
    method Insert(mw: Block)
      requires Valid() && mw !in chain && mw.prev == null && mw.next == head && mw.intact && !mw.nml
      requires mw.line != -1
      modifies this`head, this`tail, this`chain, this`entries, this`readable
      modifies this`numCur, this`curr, this`total, this`max, this`num, this`stats, chain`prev
      ensures Valid() && chain == [mw] + old(chain)
      ensures Books() == OnAlloc(old(Books()), statLevel, EntryOf(mw))
    {
      hide Balanced, Chained, Healthy, OnAlloc, EntryOf;
      ghost var l := Books();
      Enter(mw);
      Charge(mw, l);
    }

    method Enter(mw: Block)
      requires Chained() && Healthy() && mw !in chain && mw.prev == null && mw.next == head && mw.intact
      modifies this`head, this`tail, this`chain, this`entries, this`readable, chain`prev
      ensures Chained() && Healthy() && chain == [mw] + old(chain)
      ensures Books() == old(Books()).(entries := [EntryOf(mw)] + old(entries))
    {
      hide Chained;
      Link(mw);
      readable := readable + {mw};
      entries := [EntryOf(mw)] + entries;
    }

    /** The counters of an allocation whose block has just entered the books l. */
    method Charge(mw: Block, ghost l: Ledger)
      requires Balanced(l, statLevel) && mw.line != -1 && !mw.nml
      requires Books() == l.(entries := [EntryOf(mw)] + l.entries)
      modifies this`numCur, this`curr, this`total, this`max, this`num, this`stats
      ensures Books() == OnAlloc(l, statLevel, EntryOf(mw)) && Balanced(Books(), statLevel)
    {
      hide Balanced;
      AllocKeepsBalance(l, statLevel, EntryOf(mw));
      CountAlloc(mw.size, mw.file, mw.line);
    }

    /** The books of a free. */
    method Strike(mw: Block, ghost k: nat)
      requires Balanced(Books(), statLevel) && k < |entries| && entries[k] == EntryOf(mw) && !mw.nml
      modifies this`entries, this`numCur, this`curr, this`nmlNum, this`nmlCurr, this`stats
      ensures Books() == OnFree(old(Books()), statLevel, k, noMansLand) && Balanced(Books(), statLevel)
      ensures noMansLand ==> entries == old(entries)[k := old(entries)[k].(nml := true)]
    {
      hide Balanced;
      FreeKeepsBalance(Books(), statLevel, k, noMansLand);
      CountFree(mw.size, mw.file, mw.line);
      if noMansLand {
        entries := entries[k := entries[k].(nml := true)];
      } else {
        entries := Without(entries, k);
      }
    }

    /** With no-mans-land on, a freed block is flagged and stays in the chain. */
    method Keep(mw: Block, ghost k: nat)
      requires Valid() && k < |chain| && chain[k] == mw && !mw.nml && noMansLand
      modifies this`entries, this`numCur, this`curr, this`nmlNum, this`nmlCurr, this`stats, mw`nml, mw`data
      ensures Valid()
      ensures Books() == OnFree(old(Books()), statLevel, k, true)
      ensures mw.nml && mw.data == Filled(MW_VAL_NML, mw.size)
    {
      hide Balanced, Chained, OnFree, Books, Filled;
      DistinctChain();
      Strike(mw, k);
      mw.nml := true;
      mw.data := Filled(MW_VAL_NML, mw.size);
    }

    lemma DistinctChain()
      requires Chained()
      ensures Distinct(chain)
    {
    }

    /** The counters of a free whose block has already left the books l. */
    method Settle(mw: Block, ghost l: Ledger, ghost k: nat)
      requires Balanced(l, statLevel) && k < |l.entries| && l.entries[k] == EntryOf(mw) && !mw.nml && !noMansLand
      requires Books() == l.(entries := Without(l.entries, k))
      modifies this`numCur, this`curr, this`nmlNum, this`nmlCurr, this`stats
      ensures Books() == OnFree(l, statLevel, k, false) && Balanced(Books(), statLevel)
    {
      hide Balanced;
      FreeKeepsBalance(l, statLevel, k, false);
      hide Without;
      CountFree(mw.size, mw.file, mw.line);
    }

    /** What is left of a block given back: neither its check value nor its contents. */
    static predicate Wiped(b: Block)
      reads b
    {
      !b.intact && b.data == Filled(MW_VAL_DEL, b.size)
    }

    /** Otherwise it is unlinked, wiped and given back. */
    method Drop(mw: Block, ghost k: nat)
      requires Valid() && k < |chain| && chain[k] == mw && !mw.nml && !noMansLand
      modifies this`head, this`tail, this`chain, this`entries
      modifies this`numCur, this`curr, this`nmlNum, this`nmlCurr, this`stats
      modifies chain`prev, chain`next, mw`intact, mw`data
      ensures Valid() && chain == Without(old(chain), k)
      ensures Books() == OnFree(old(Books()), statLevel, k, false)
      ensures mw !in chain && Wiped(mw)
    {
      hide Balanced, Chained, Without, Healthy, OnFree, Books, EntryOf, Wiped;
      BookedAt(k);
      ghost var l := Books();
      Cut(mw, k);
      Settle(mw, l, k);
    }

    lemma BookedAt(k: nat)
      requires Healthy() && k < |chain|
      ensures entries == Books().entries && k < |entries| && entries[k] == EntryOf(chain[k])
    {
    }

    method Cut(mw: Block, ghost k: nat)
      requires Chained() && Healthy() && k < |chain| && chain[k] == mw
      modifies this`head, this`tail, this`chain, this`entries, chain`prev, chain`next, mw`intact, mw`data
      ensures Chained() && Healthy() && mw !in chain
      ensures k < |old(entries)|
      ensures chain == Without(old(chain), k)
      ensures Books() == old(Books()).(entries := Without(old(entries), k))
      ensures Wiped(mw)
    {
      WithoutIsOther(chain, k);
      assert Distinct(chain);
      ghost var c := chain;
      assert forall i {:trigger c[i]} :: 0 <= i < |c| ==>
                                           c[i] in readable && c[i].intact && entries[i] == EntryOf(c[i]);
      ghost var l, es := Books(), entries;
      assert l.entries == es;
      hide Chained, Without, Healthy, EntryOf, Distinct, Books, Wiped;
      Unlink(mw, k);
      assert Books() == l;
      Retire(mw, c, k);
    }

    /** Block k of the former chain c is wiped and its entry goes. */
    method Retire(mw: Block, ghost c: seq<Block>, ghost k: nat)
      requires k < |c| == |entries| && c[k] == mw && Distinct(c) && chain == Without(c, k)
      requires forall i {:trigger c[i]} :: 0 <= i < |c| ==>
                 c[i] in readable && c[i].intact && entries[i] == EntryOf(c[i])
      modifies this`entries, mw`intact, mw`data
      ensures Healthy() && Books() == old(Books()).(entries := Without(old(entries), k))
      ensures Wiped(mw)
    {
      hide Without;
      ghost var es := entries;
      mw.intact, mw.data := false, Filled(MW_VAL_DEL, mw.size);  // MW_VAL_DEL over the whole block
      entries := Without(entries, k);
      StillHealthy(c, es, k);
    }

    /** Removing block k from chain and entries alike leaves the others booked as they are. */
    lemma StillHealthy(c: seq<Block>, es: seq<Entry>, k: nat)
      requires k < |c| == |es| && Distinct(c)
      requires chain == Without(c, k) && entries == Without(es, k)
      requires forall i {:trigger c[i]} :: 0 <= i < |c| && i != k ==>
                 c[i] in readable && c[i].intact && es[i] == EntryOf(c[i])
      ensures Healthy()
    {
    }

    /** Block b was live and has been freed. */
    twostate predicate Freed(b: Block)
      requires b in old(chain)
      reads this, b
    {
      var k := Place(old(chain), b);
      && k < |old(entries)|
      && chain == Left(old(chain), b, noMansLand)
      && Books() == OnFree(old(Books()), statLevel, k, noMansLand)
      && curr == old(curr) - b.size && numCur == old(numCur) - 1
      && (if noMansLand then b.nml && b.data == Filled(MW_VAL_NML, b.size)
          else !b.intact && b.data == Filled(MW_VAL_DEL, b.size))
    }

    /** A live block is freed. */
    method FreeLive(b: Block)
      requires Valid() && b in chain && !b.nml
      modifies this`head, this`tail, this`chain, this`entries, this`numCur, this`curr, this`nmlNum, this`nmlCurr
      modifies this`stats, chain`prev, chain`next, b`nml, b`intact, b`data
      ensures Valid() && Freed(b)
    {
      hide Balanced, Chained;
      ghost var k := Place(chain, b);
      if noMansLand { Keep(b, k); } else { Drop(b, k); }
    }

    /** mwFree: only a live block of the chain changes anything. */
    method Free(p: Pointer)
      requires Valid() && Plausible(p)
      modifies this`head, this`tail, this`chain, this`entries, this`numCur, this`curr, this`nmlNum, this`nmlCurr
      modifies this`stats, this`counter, this`errors, chain`prev, chain`next
      modifies (if p.Buffer? then {p.block} else {})`nml
      modifies (if p.Buffer? then {p.block} else {})`intact
      modifies (if p.Buffer? then {p.block} else {})`data
      ensures Valid()
      ensures if p.Buffer? && p.block in old(chain) && !old(p.block.nml) then Freed(p.block) else Untouched()
      ensures counter == old(counter) + 1
      ensures var live := p.Buffer? && p.block in old(chain) && !old(p.block.nml);
              errors == old(errors) + if p.Null? || live then 0 else 1
    {
      hide Balanced, Chained, Healthy, Left;
      counter := counter + 1;
      if !p.Buffer? {
        if p.Unmapped? { errors := errors + 1; }
        return;
      }
      var owned := IsOwned(p.block);
      if owned && !p.block.nml {
        FreeLive(p.block);
      } else {
        errors := errors + 1;  // double free or wild pointer
      }
    }

    /** The old block of a realloc has been freed after a new one q of the given size was issued. */
    twostate predicate Moved(b: Block, new q: Block, size: nat, file: Option<File>, line: int)
      requires b in old(chain)
      reads this, b, q
    {
      var k := Place(old(chain), b);
      var n := if size < b.size then size else b.size;
      && k < |old(entries)| && n <= |old(b.data)|
      && chain == [q] + Left(old(chain), b, noMansLand) && q.size == size && !q.nml
      && q.data == old(b.data)[..n] + Filled(MW_VAL_NEW, size - n)
      && Books() == OnFree(OnAlloc(old(Books()), statLevel, Entry(file, line, size, false)),
                           statLevel, 1 + k, noMansLand)
      && curr == old(curr) + size - b.size && numCur == old(numCur)
      && (if noMansLand then b.nml && b.data == Filled(MW_VAL_NML, b.size)
          else !b.intact && b.data == Filled(MW_VAL_DEL, b.size))
    }

    /** The allocation and the copy inside mwRealloc. */
    method Reissue(mw: Block, size: nat, file: Option<File>, line: int, memory: bool) returns (q: Block?)
      requires Valid() && Plausible(Buffer(mw)) && mw in chain && !useLimit
      requires size < SIZE_MODULUS && line != -1
      modifies this`head, this`tail, this`chain, this`entries, this`readable, this`counter, this`errors
      modifies this`numCur, this`curr, this`total, this`max, this`num, this`stats, chain`prev
      ensures Valid()
      ensures q == null <==> (OVERHEAD + size) % SIZE_MODULUS < size || !memory || OVERHEAD + size > LONG_MAX
      ensures q == null ==> Untouched()
      ensures q != null ==>
                && fresh(q) && Issued(q, size, file, line)
                && var n := if size < mw.size then size else mw.size;
                   n <= |mw.data| && q.data == mw.data[..n] + Filled(MW_VAL_NEW, size - n)
      ensures counter == old(counter) + 1
      ensures errors == old(errors) + if q != null || size >= SIZE_MODULUS - OVERHEAD then 0 else 1
    {
      hide Balanced, Chained, Healthy, OnAlloc;
      q := Malloc(size, file, line, memory);
      if q != null {
        var n := if size < mw.size then size else mw.size;
        FilledDrop(MW_VAL_NEW, size, n);
        q.data := mw.data[..n] + q.data[n..];
      }
    }

    /** The free inside mwRealloc, behind the new block q. */
    method Discard(mw: Block, q: Block, ghost c: seq<Block>)
      requires Valid() && chain == [q] + c && q != mw
      requires mw in c && !mw.nml && |mw.data| == mw.size
      modifies this`head, this`tail, this`chain, this`entries, this`numCur, this`curr, this`nmlNum, this`nmlCurr
      modifies this`stats, this`counter, this`errors, chain`prev, chain`next, mw`nml, mw`intact, mw`data
      ensures Valid() && chain == [q] + Left(c, mw, noMansLand)
      ensures |old(entries)| == |old(chain)|
      ensures Books() == OnFree(old(Books()), statLevel, 1 + Place(c, mw), noMansLand)
      ensures curr == old(curr) - mw.size && numCur == old(numCur) - 1
      ensures if noMansLand then mw.nml && mw.data == Filled(MW_VAL_NML, mw.size)
              else !mw.intact && mw.data == Filled(MW_VAL_DEL, mw.size)
      ensures counter == old(counter) + 1 && errors == old(errors)
    {
      hide Balanced, Chained, OnFree, Place, Left;
      BehindNew(c, q, mw, noMansLand);
      Free(Buffer(mw));
    }

    /** The allocation, the copy and the free inside mwRealloc, the limit being looked at beforehand. */
    method Move(mw: Block, size: nat, file: Option<File>, line: int, memory: bool) returns (q: Block?)
      requires Valid() && Plausible(Buffer(mw)) && mw in chain && !mw.nml
      requires 0 < size < SIZE_MODULUS && line != -1
      modifies this, chain
      ensures Valid()
      ensures useLimit == old(useLimit) && allocLimit == old(allocLimit) && noMansLand == old(noMansLand)
      ensures q == null <==> (OVERHEAD + size) % SIZE_MODULUS < size || !memory || OVERHEAD + size > LONG_MAX
      ensures q == null ==> Untouched()
      ensures q != null ==> fresh(q) && Moved(mw, q, size, file, line)
      ensures counter == old(counter) + if q == null then 1 else 2
      ensures errors == old(errors) + if q != null || size >= SIZE_MODULUS - OVERHEAD then 0 else 1
    {
      hide Balanced, Chained, Healthy, OnAlloc, OnFree, Place, Left, Filled, Books;
      BookedAt(Place(chain, mw));
      var oldUseLimit := useLimit;
      useLimit := false;
      q := Reissue(mw, size, file, line, memory);
      if q != null { Discard(mw, q, old(chain)); }
      useLimit := oldUseLimit;
    }

    /**
     mwRealloc. Without a file name the free in it goes straight to the system's allocator, with an
     address that one never issued.
     */
    method Realloc(p: Pointer, size: nat, file: Option<File>, line: int, memory: bool) returns (q: Block?)
      requires Valid() && Plausible(p) && size < SIZE_MODULUS && line != -1
      requires file.None? ==> p.Null? || (size != 0 && !(p.Buffer? && p.block in chain && !p.block.nml))
      modifies this, chain, if p.Buffer? then {p.block} else {}
      ensures Valid()
      ensures useLimit == old(useLimit) && allocLimit == old(allocLimit) && noMansLand == old(noMansLand)
      ensures useLimit ==> curr <= old(curr) || curr <= allocLimit
      ensures p.Null? ==> (q == null <==> old(Refused(size, memory)))
      ensures p.Null? ==> if q == null then Untouched() else fresh(q) && Issued(q, size, file, line)
      ensures var live := p.Buffer? && p.block in old(chain) && !old(p.block.nml);
              && (!p.Null? && !live ==> q == null && Untouched())
              && (live && size == 0 ==> q == null && Freed(p.block))
              && (live && size != 0 ==>
                    && (q == null <==>
                          || (useLimit && ToLong(size) + old(curr) - p.block.size > allocLimit)
                          || (OVERHEAD + size) % SIZE_MODULUS < size || !memory || OVERHEAD + size > LONG_MAX)
                    && if q == null then Untouched() else fresh(q) && Moved(p.block, q, size, file, line))
      ensures var dead := p.Buffer? && p.block in old(chain) && old(p.block.nml);
              var live := p.Buffer? && p.block in old(chain) && !dead;
              && counter == old(counter) + (if p.Null? || size == 0 || live then 1 else 0)
                                         + (if live && q != null then 1 else 0)
              && errors == old(errors)
                   + if p.Null? then if q != null || size >= SIZE_MODULUS - OVERHEAD then 0 else 1
                     else if !live then if dead && size != 0 then 2 else 1
                     else if size == 0 || q != null then 0
                     else if useLimit && ToLong(size) + curr - p.block.size > allocLimit then 1
                     else if size >= SIZE_MODULUS - OVERHEAD then 0 else 1
    {
      hide Balanced, Chained, Healthy, OnAlloc, OnFree, Place, Left, Filled;
      if p.Null? {
        q := Malloc(size, file, line, memory);
        return;
      }
      if size == 0 {
        Free(p);
        return null;
      }
      if p.Unmapped? {
        errors := errors + 1;
        return null;
      }
      var owned := IsOwned(p.block);
      if owned && p.block.nml { errors := errors + 1; }  // and once more as a double free
      if !owned || p.block.nml {
        errors := errors + 1;
        return null;
      }
      if useLimit && ToLong(size) + curr - p.block.size > allocLimit {
        counter := counter + 1;
        errors := errors + 1;
        return null;
      }
      q := Move(p.block, size, file, line, memory);
    }

    /** mwLimit */
    method Limit(lim: int)
      requires Valid()
      modifies this`useLimit, this`allocLimit
      ensures Valid() && Books() == old(Books()) && chain == old(chain)
      ensures useLimit == (lim != 0) && allocLimit == lim
    {
      useLimit := lim != 0;
      allocLimit := lim;
    }

    /** mwNoMansLand, as far as later frees are concerned. */
    method NoMansLand(on: bool)
      requires Valid()
      modifies this`noMansLand
      ensures Valid() && Books() == old(Books()) && chain == old(chain) && noMansLand == on
    {
      noMansLand := on;
    }
  }
}
