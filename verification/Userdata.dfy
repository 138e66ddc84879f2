/** The user-data device: a queue of whole packets, kept as length-prefixed frames in a byte ring. */
module Userdata {
  import opened Bytes
  import opened Ring

  const INT_MAX := 0x7FFF_FFFF
  const USERDATA_BUF_SIZE := 5 * 1024

  type Packet = p: seq<byte> | |p| <= 0x7FFF_FFFF witness []

  /** The four bytes of an int in memory, least significant first. */
  function IntBytes(n: nat): (b: seq<byte>)
    requires n <= INT_MAX
    ensures |b| == 4
  {
    [n % 256, n / 256 % 256, n / 0x1_0000 % 256, n / 0x100_0000]
  }

  function ToInt(b: seq<byte>): int
    requires |b| == 4
  {
    var u: int := b[0] as int + b[1] as int * 256 + b[2] as int * 0x1_0000 + b[3] as int * 0x100_0000;
    if u > INT_MAX then u - 0x1_0000_0000 else u
  }

  lemma IntRoundTrip(n: nat)
    requires n <= INT_MAX
    ensures ToInt(IntBytes(n)) == n
  {
    var b := IntBytes(n);
    assert n == n / 256 * 256 + n % 256;
    assert n / 256 == n / 0x1_0000 * 256 + n / 256 % 256;
    assert n / 0x1_0000 == n / 0x100_0000 * 256 + n / 0x1_0000 % 256;
  }

  function Frame(p: Packet): seq<byte> {
    IntBytes(|p|) + p
  }

  /** What the ring holds for a queue of packets. */
  function Frames(q: seq<Packet>): seq<byte> {
    if q == [] then [] else Frame(q[0]) + Frames(q[1..])
  }

  lemma {:induction false} FramesAppend(q: seq<Packet>, p: Packet)
    ensures Frames(q + [p]) == Frames(q) + Frame(p)
  {
    if q == [] {
      assert (q + [p])[1..] == [];
    } else {
      assert (q + [p])[1..] == q[1..] + [p];
      FramesAppend(q[1..], p);
    }
  }

  // ---------------------------------------------------------------- the queue the ring stands for

  /** A packet is taken in if it and its prefix leave one slot of the ring free. */
  function Offer(q: seq<Packet>, size: nat, p: Packet): seq<Packet> {
    if |Frames(q)| + |p| + 4 < size then q + [p] else q
  }

  /** No more than a bare length prefix is waiting, which the reader takes for an empty ring. */
  predicate Idle(q: seq<Packet>) {
    q == [] || q == [[]]
  }

  function Take(q: seq<Packet>): seq<Packet> {
    if Idle(q) then q else q[1..]
  }

  /** What a read into room bytes hands over: the head packet, unless it is too long or empty. */
  function Delivered(q: seq<Packet>, room: int): Packet {
    if Idle(q) || |q[0]| > room then [] else q[0]
  }

  /** A packet is taken in exactly if the ring, which holds one byte less than its size, can hold it too. */
  lemma TakenInIff(q: seq<Packet>, size: nat, p: Packet)
    ensures Offer(q, size, p) == q + [p] <==> |Frames(q + [p])| < size
    ensures Offer(q, size, p) == q <==> |Frames(q + [p])| >= size
  {
    FramesAppend(q, p);
    assert |q + [p]| != |q|;
  }

  /** A reader is handed the head packet exactly if it has room for it, and never more than that. */
  lemma HandedIff(p: Packet, q: seq<Packet>, room: int)
    requires p != []
    ensures Delivered([p] + q, room) == p <==> |p| <= room
    ensures |p| > room ==> Delivered([p] + q, room) == []
    ensures Take([p] + q) == q
  {
    assert ([p] + q)[1..] == q && ([p] + q)[0] != [];
  }

  lemma IdleIff(q: seq<Packet>)
    ensures |Frames(q)| <= 4 <==> Idle(q)
  {
    if q != [] { assert q[1..] != [] ==> |Frames(q[1..])| >= 4; }
  }

  lemma HeadFrame(q: seq<Packet>)
    requires q != []
    ensures var f := Frames(q);
            && 4 + |q[0]| <= |f|
            && ToInt(f[..4]) == |q[0]|
            && f[4..][..|q[0]|] == q[0]
            && f[4..][|q[0]|..] == Frames(q[1..])
  {
    hide Frames, ToInt, IntBytes;
    IntRoundTrip(|q[0]|);
    FramesOf(q);
    SplitFrame(Frames(q), IntBytes(|q[0]|), q[0], Frames(q[1..]));
  }

  lemma FramesOf(q: seq<Packet>)
    requires q != []
    ensures Frames(q) == IntBytes(|q[0]|) + q[0] + Frames(q[1..])
  {
  }

  lemma SplitFrame(f: seq<byte>, b: seq<byte>, p: seq<byte>, t: seq<byte>)
    requires f == b + p + t && |b| == 4
    ensures f[..4] == b && f[4..][..|p|] == p && f[4..][|p|..] == t
  {
    assert f[4..] == p + t;
  }

  class Device {
    const ring: RingBuffer
    ghost var queue: seq<Packet>

    ghost predicate Valid()
      reads this, ring, ring.data
    {
      ring.Valid() && ring.size <= INT_MAX && ring.Contents() == Frames(queue)
    }

    /** The part of AM_USERDATA_Open that sets up the queue. */
    constructor ()
      ensures Valid() && fresh(ring) && fresh(ring.data) && queue == [] && ring.size == USERDATA_BUF_SIZE
    {
      ring := new RingBuffer(USERDATA_BUF_SIZE);
      queue := [];
    }

    /** userdata_package_write */
    method WritePackage(p: Packet) returns (ret: int)
      requires Valid() && |p| + 4 <= INT_MAX
      modifies this, ring`pwrite, ring.data
      ensures Valid() && queue == Offer(old(queue), ring.size, p)
      ensures ret == if queue == old(queue) then 0 else |p|
    {
      var cnt := ring.Free();
      if cnt < |p| + 4 { return 0; }
      cnt := |p|;
      FramesAppend(queue, p);
      ghost var f, b := Frames(queue), IntBytes(cnt);
      var _ := ring.Write(IntBytes(cnt), 4);
      var _ := ring.Write(p, |p|);
      assert b[..4] == b && p[..|p|] == p;
      assert (f + b) + p == f + (b + p);
      queue := queue + [p];
      return |p|;
    }

    /** read_unused_data */
    method ReadUnused(len: nat)
      requires ring.Valid() && len <= |ring.Contents()|
      modifies ring`pread
      ensures ring.Valid() && ring.Contents() == old(ring.Contents())[len..]
    {
      var buf := new byte[len];
      ring.Read(buf, len);
    }

    /** userdata_package_read */
    method ReadPackage(buf: array<byte>, size: int) returns (cnt: int)
      requires Valid() && size <= buf.Length && buf != ring.data
      modifies this, ring`pread, buf
      ensures Valid() && queue == Take(old(queue))
      ensures cnt == |Delivered(old(queue), size)| <= buf.Length && buf[..cnt] == Delivered(old(queue), size)
      ensures forall i :: cnt <= i < buf.Length ==> buf[i] == old(buf[i])
    {
      hide Frames, ToInt;
      cnt := ring.Avail();
      IdleIff(queue);
      if cnt > 4 {
        HeadFrame(queue);
        var four := new byte[4];
        ring.Read(four, 4);
        var udCnt := ToInt(four[..4]);
        cnt := ring.Avail();
        if cnt < udCnt {
          assert false;
        } else {
          cnt := 0;
          if udCnt > size {
            ReadUnused(udCnt);
          } else if udCnt > 0 {
            ring.Read(buf, udCnt);
            cnt := udCnt;
          }
          queue := queue[1..];
        }
      } else {
        cnt := 0;
        ReadUnused(0);
      }
    }
  }

  // ---------------------------------------------------------------- whole runs

  datatype Op = Write(p: Packet) | Read(room: int)

  function After(q: seq<Packet>, size: nat, ops: seq<Op>): seq<Packet>
    decreases |ops|
  {
    if ops == [] then q
    else After(if ops[0].Write? then Offer(q, size, ops[0].p) else Take(q), size, ops[1..])
  }

  /** The packets taken in by a run, in order. */
  function Accepted(q: seq<Packet>, size: nat, ops: seq<Op>): seq<Packet>
    decreases |ops|
  {
    if ops == [] then []
    else if ops[0].Write? then
      var q1 := Offer(q, size, ops[0].p);
      (if q1 == q then [] else [ops[0].p]) + Accepted(q1, size, ops[1..])
    else Accepted(Take(q), size, ops[1..])
  }

  /** The packets removed by a run, in order. */
  function Removed(q: seq<Packet>, size: nat, ops: seq<Op>): seq<Packet>
    decreases |ops|
  {
    if ops == [] then []
    else if ops[0].Write? then Removed(Offer(q, size, ops[0].p), size, ops[1..])
    else (if Idle(q) then [] else [q[0]]) + Removed(Take(q), size, ops[1..])
  }

  /** Nothing is lost, doubled or reordered: what went in is what came out and what is still there. */
  lemma {:induction false} FirstInFirstOut(q: seq<Packet>, size: nat, ops: seq<Op>)
    ensures q + Accepted(q, size, ops) == Removed(q, size, ops) + After(q, size, ops)
    decreases |ops|
  {
    hide Frames, Frame, Offer, Idle, Take;
    if ops == [] {
      assert q + [] == [] + q;
    } else if ops[0].Write? {
      var q1 := Offer(q, size, ops[0].p);
      FirstInFirstOut(q1, size, ops[1..]);
      OfferIs(q, size, ops[0].p);
      JoinBack(q, if q1 == q then [] else [ops[0].p], Accepted(q1, size, ops[1..]));
    } else {
      FirstInFirstOut(Take(q), size, ops[1..]);
      TakeIs(q);
      var h := if Idle(q) then [] else [q[0]];
      JoinBack(h, Take(q), Accepted(Take(q), size, ops[1..]));
      JoinBack(h, Removed(Take(q), size, ops[1..]), After(Take(q), size, ops[1..]));
    }
  }

  lemma OfferIs(q: seq<Packet>, size: nat, p: Packet)
    ensures Offer(q, size, p) == q + if Offer(q, size, p) == q then [] else [p]
  {
    assert q + [] == q;
  }

  lemma TakeIs(q: seq<Packet>)
    ensures !Idle(q) ==> q != []
    ensures q == (if Idle(q) then [] else [q[0]]) + Take(q)
  {
    assert [] + q == q;
  }

  lemma JoinBack(a: seq<Packet>, b: seq<Packet>, c: seq<Packet>)
    ensures a + (b + c) == (a + b) + c
  {
  }

  predicate FitsIn(q: seq<Packet>, size: nat) {
    |Frames(q)| < size
  }

  /** The queue of every run fits into the ring. */
  lemma {:induction false} RunsFit(q: seq<Packet>, size: nat, ops: seq<Op>)
    requires FitsIn(q, size)
    ensures FitsIn(After(q, size, ops), size)
    decreases |ops|
  {
    if ops != [] {
      if ops[0].Write? {
        FramesAppend(q, ops[0].p);
        RunsFit(Offer(q, size, ops[0].p), size, ops[1..]);
      } else {
        RunsFit(Take(q), size, ops[1..]);
      }
    }
  }

  /** What the readers of a run are handed, in order, leaving out the reads that give nothing. */
  function Handed(q: seq<Packet>, size: nat, ops: seq<Op>): seq<Packet>
    decreases |ops|
  {
    if ops == [] then []
    else if ops[0].Write? then Handed(Offer(q, size, ops[0].p), size, ops[1..])
    else NotEmpty([Delivered(q, ops[0].room)]) + Handed(Take(q), size, ops[1..])
  }

  function NotEmpty(ps: seq<Packet>): seq<Packet> {
    if ps == [] then [] else (if ps[0] == [] then [] else [ps[0]]) + NotEmpty(ps[1..])
  }

  /** Readers with room for whatever the ring can hold are handed every removed packet, intact and in order. */
  lemma {:induction false} RoomyReadersGetAll(q: seq<Packet>, size: nat, ops: seq<Op>)
    requires FitsIn(q, size) && forall i :: 0 <= i < |ops| && ops[i].Read? ==> ops[i].room >= size
    ensures Handed(q, size, ops) == NotEmpty(Removed(q, size, ops))
    decreases |ops|
  {
    if ops != [] {
      assert forall i :: 0 <= i < |ops| - 1 ==> ops[1..][i] == ops[i + 1];
      if ops[0].Write? {
        FramesAppend(q, ops[0].p);
        RoomyReadersGetAll(Offer(q, size, ops[0].p), size, ops[1..]);
      } else {
        RoomyReadersGetAll(Take(q), size, ops[1..]);
        HeadIsHanded(q, size, ops[0].room, Removed(Take(q), size, ops[1..]));
      }
    }
  }

  lemma HeadIsHanded(q: seq<Packet>, size: nat, room: int, more: seq<Packet>)
    requires FitsIn(q, size) && room >= size
    ensures NotEmpty([Delivered(q, room)]) + NotEmpty(more) == NotEmpty((if Idle(q) then [] else [q[0]]) + more)
  {
    if Idle(q) {
      assert [] + more == more;
      assert NotEmpty([Delivered(q, room)]) == [];
    } else {
      assert |q[0]| + 4 <= |Frames(q)|;
      assert ([q[0]] + more)[1..] == more;
      assert NotEmpty([q[0]]) == if q[0] == [] then [] else [q[0]];
    }
  }

  /**
   A packet of length zero is accepted, yet a reader cannot tell it from an empty ring until
   something is written behind it.
   */
  lemma EmptyPacketWaits(size: nat, room: int)
    requires size > 4
    ensures Offer([], size, []) == [[]]
    ensures Take([[]]) == [[]] && Delivered([[]], room) == []
  {
    assert Frames([]) == [];
  }
}
