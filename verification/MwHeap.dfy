/** The memory watcher's chain of blocks and the checker that walks it, damaged or not. */
module MwHeap {
  import opened Bytes
  import opened MwStats

  const MW_VAL_NEW: byte := 0xFE
  const MW_VAL_DEL: byte := 0xFD
  const MW_VAL_NML: byte := 0xFC

  /** memset */
  function Filled(v: byte, n: nat): seq<byte> {
    seq(n, _ => v)
  }

  /** mwData, the header of an allocation, and the buffer behind it; intact says that check matches CHKVAL. */
  class Block {
    var prev: Block?
    var next: Block?
    var intact: bool
    const file: Option<File>
    const line: int
    const size: nat
    var nml: bool           // MW_NML in the flag word
    var data: seq<byte>

    constructor (file: Option<File>, line: int, size: nat, next: Block?)
      ensures this.prev == null && this.next == next && intact && !nml
      ensures this.file == file && this.line == line && this.size == size
      ensures data == Filled(MW_VAL_NEW, size)
    {
      this.prev, this.next := null, next;
      this.intact, this.nml := true, false;
      this.file, this.line, this.size := file, line, size;
      data := Filled(MW_VAL_NEW, size);  // memset
    }
  }

  /** c is the list from head to tail: consistent links both ways, ends closed. */
  ghost predicate ProperList(c: seq<Block>, head: Block?, tail: Block?)
    reads c`prev, c`next
  {
    && (c == [] <==> head == null)
    && (c != [] ==> c[0] == head && c[|c| - 1] == tail && c[0].prev == null && c[|c| - 1].next == null)
    && (forall i {:trigger c[i].next} :: 0 <= i < |c| - 1 ==> c[i].next == c[i + 1])
    && (forall i {:trigger c[i].prev} :: 1 <= i < |c| ==> c[i].prev == c[i - 1])
  }

  ghost predicate Distinct(c: seq<Block>) {
    forall i, j :: 0 <= i < j < |c| ==> c[i] != c[j]
  }

  /** Links both ways from a head without predecessor never come back to a visited block. */
  lemma {:induction false} LinkedIsDistinct(c: seq<Block>, i: nat, j: nat)
    requires i < j < |c|
    requires c[0].prev == null
    requires forall k {:trigger c[k].prev} :: 1 <= k < |c| ==> c[k].prev == c[k - 1]
    ensures c[i] != c[j]
  {
    if i > 0 {
      LinkedIsDistinct(c, i - 1, j - 1);
      assert c[i].prev == c[i - 1] && c[j].prev == c[j - 1];
    } else {
      assert c[j].prev == c[j - 1];
    }
  }

  lemma ProperListIsDistinct(c: seq<Block>, head: Block?, tail: Block?)
    requires ProperList(c, head, tail)
    ensures Distinct(c)
  {
    forall i, j | 0 <= i < j < |c| ensures c[i] != c[j] {
      LinkedIsDistinct(c, i, j);
    }
  }

  /** There is at most one list from a given head. */
  lemma {:induction false} SamePrefix(c: seq<Block>, d: seq<Block>, head: Block?, tail: Block?, k: nat)
    requires ProperList(c, head, tail)
    requires forall i {:trigger d[i].next} :: 0 <= i < |d| - 1 ==> d[i].next == d[i + 1]
    requires d != [] ==> d[0] == head
    requires k < |d|
    ensures k < |c| && d[k] == c[k]
  {
    if k > 0 {
      SamePrefix(c, d, head, tail, k - 1);
      assert d[k - 1].next == d[k];
      assert k - 1 != |c| - 1;
      assert c[k - 1].next == c[k];
    }
  }

  /** The blocks met from b along next, until the end, an unreadable block or a repetition. */
  ghost function Follow(b: Block?, safe: set<Block>): (c: seq<Block>)
    reads safe
    ensures forall x :: x in c ==> x in safe
    ensures forall i {:trigger c[i].next} :: 0 <= i < |c| - 1 ==> c[i].next == c[i + 1]
    ensures c != [] ==> c[0] == b
    decreases safe
  {
    if b == null || b !in safe then [] else [b] + Follow(b.next, safe - {b})
  }

  /**
   What mwIsHeapOK is meant to find out: the blocks from head are a proper list that ends at
   tail and holds the wanted block. safe is the set of blocks that can be read.
   */
  ghost predicate HeapOk(head: Block?, tail: Block?, safe: set<Block>, wanted: Block?)
    reads safe
  {
    var c := Follow(head, safe);
    ProperList(c, head, tail) && (wanted != null ==> wanted in c)
  }

  /** Every proper list of readable blocks is the one that following the links gives. */
  lemma ProperListIsFollowed(c: seq<Block>, head: Block?, tail: Block?, safe: set<Block>)
    requires ProperList(c, head, tail) && forall b :: b in c ==> b in safe
    ensures Follow(head, safe) == c
  {
    ProperListIsDistinct(c, head, tail);
    FollowSuffix(c, head, safe);
  }

  lemma {:induction false} FollowSuffix(c: seq<Block>, b: Block?, safe: set<Block>)
    requires forall x :: x in c ==> x in safe
    requires Distinct(c)
    requires forall i {:trigger c[i].next} :: 0 <= i < |c| - 1 ==> c[i].next == c[i + 1]
    requires if c == [] then b == null else b == c[0] && c[|c| - 1].next == null
    ensures Follow(b, safe) == c
  {
    if c != [] {
      var t := c[1..];
      forall x | x in t ensures x in safe - {c[0]} {
        var i :| 0 <= i < |t| && t[i] == x;
        assert c[i + 1] == x;
      }
      if t != [] { assert c[0].next == c[1]; }
      FollowSuffix(t, c[0].next, safe - {c[0]});
    }
  }

  /**
   mwIsHeapOK on any finite graph of blocks, however its links run. It stops without looking at
   a block twice and accepts exactly the proper lists that contain the wanted block.
   */
  method IsHeapOk(head: Block?, tail: Block?, safe: set<Block>, wanted: Block?)
    returns (ok: bool, ghost visited: seq<Block>)
    ensures ok <==> HeapOk(head, tail, safe, wanted)
    ensures Distinct(visited) && forall b :: b in visited ==> b in safe
  {
    var found := false;
    var mw := head;
    visited := [];
    while mw != null
      invariant forall b :: b in visited ==> b in safe
      invariant forall i {:trigger visited[i].next} :: 0 <= i < |visited| - 1 ==> visited[i].next == visited[i + 1]
      invariant forall i {:trigger visited[i].prev} :: 1 <= i < |visited| ==> visited[i].prev == visited[i - 1]
      invariant visited == [] ==> mw == head
      invariant visited == [] ==> !found
      invariant visited != [] ==>
                  && visited[0] == head && visited[0].prev == null
                  && mw == visited[|visited| - 1].next
                  && (mw != null ==> mw.prev == visited[|visited| - 1])
                  && (mw == null ==> visited[|visited| - 1] == tail)
                  && (mw != null ==> visited[|visited| - 1] != tail)
      invariant Distinct(visited) && (mw != null ==> mw !in visited)
      invariant found <==> wanted != null && wanted in visited
      decreases safe - (set b | b in visited)
    {
      ghost var path := visited + [mw];
      PathOnly(path, head, tail, safe, wanted);
      if wanted == mw { found := true; }
      if mw !in safe { return false, visited; }
      if mw.prev != null {
        if mw.prev !in safe { return false, visited; }
        if mw == head || mw.prev.next != mw { return false, visited; }
      }
      if mw.next != null {
        if mw.next !in safe { return false, visited; }
        if mw == tail || mw.next.prev != mw { return false, visited; }
      } else if mw != tail {
        return false, visited;
      }
      ghost var before := set b | b in visited;
      visited := path;
      mw := mw.next;
      assert mw != null && visited != [] && visited[0].prev == null ==> mw !in visited by {
        if mw != null { NotBack(visited, mw); }
      }
      assert (set b | b in visited) == before + {path[|path| - 1]};
    }
    ok := wanted == null || found;
    if ok {
      ProperListIsFollowed(visited, head, tail, safe);
    } else if HeapOk(head, tail, safe, wanted) {
      var c := Follow(head, safe);
      WholePath(c, visited, head, tail);
    }
  }

  /** If the heap is a proper list, a walk along it meets none of the refusals. */
  lemma PathOnly(path: seq<Block>, head: Block?, tail: Block?, safe: set<Block>, wanted: Block?)
    requires path != [] && path[0] == head
    requires forall i {:trigger path[i].next} :: 0 <= i < |path| - 1 ==> path[i].next == path[i + 1]
    ensures HeapOk(head, tail, safe, wanted) ==>
              var mw := path[|path| - 1];
              && mw in safe
              && (mw.prev != null ==> mw.prev in safe && mw != head && mw.prev.next == mw)
              && (mw.next != null ==> mw.next in safe && mw != tail && mw.next.prev == mw)
              && (mw.next == null ==> mw == tail)
  {
    if HeapOk(head, tail, safe, wanted) {
      var c := Follow(head, safe);
      var k := |path| - 1;
      SamePrefix(c, path, head, tail, k);
      ProperListIsDistinct(c, head, tail);
      if k > 0 { assert c[k].prev == c[k - 1] && c[k - 1].next == c[k]; }
      if k + 1 < |c| { assert c[k].next == c[k + 1] && c[k + 1].prev == c[k]; }
    }
  }

  lemma NotBack(visited: seq<Block>, mw: Block)
    requires visited != [] && visited[0].prev == null
    requires forall i {:trigger visited[i].prev} :: 1 <= i < |visited| ==> visited[i].prev == visited[i - 1]
    requires mw.prev == visited[|visited| - 1]
    ensures mw !in visited
  {
    var path := visited + [mw];
    forall i | 0 <= i < |visited| ensures visited[i] != mw {
      LinkedIsDistinct(path, i, |visited|);
    }
  }

  /** A walk that ended at the tail has seen the whole list. */
  lemma WholePath(c: seq<Block>, visited: seq<Block>, head: Block?, tail: Block?)
    requires ProperList(c, head, tail)
    requires forall i {:trigger visited[i].next} :: 0 <= i < |visited| - 1 ==> visited[i].next == visited[i + 1]
    requires visited == [] ==> head == null
    requires visited != [] ==> visited[0] == head && visited[|visited| - 1].next == null
    ensures c == visited
  {
    forall k | 0 <= k < |visited| ensures k < |c| && visited[k] == c[k] {
      SamePrefix(c, visited, head, tail, k);
    }
    if |visited| < |c| {
      assert false;
    }
  }
}
