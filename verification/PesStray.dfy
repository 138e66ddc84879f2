/**
 The one byte the PES parser looks at before it knows that it is there: of an open-ended packet in
 payload mode it reads the header length first and searches for the packet's end afterwards.
 */
module PesStray {
  import opened Bytes
  import opened Pes

  /** The start of an open-ended packet that calc_invalid_pes_offset is called for. */
  predicate OpenEnded(mode: Mode, p: seq<byte>) {
    mode.PayloadOnly? && |p| >= 6 && (PacketLength(p) == 0 || PacketLength(p) == 0xFFFF)
  }

  /** Its header length byte has not been received. */
  predicate Strays(mode: Mode, p: seq<byte>) {
    OpenEnded(mode, p) && |p| < 9
  }

  /** What has been read is not used then: the packet has no end yet. */
  lemma StrayIsDropped(mode: Mode, p: seq<byte>)
    requires Strays(mode, p)
    ensures PacketStep(mode, p).Wait?
  {
  }

  /** A call whose buffer holds d looks at a byte it has not received. */
  predicate RunStrays(mode: Mode, d: seq<byte>)
    decreases |d|
  {
    match FindStart(d, 0)
    case None => false
    case Some(i) =>
      var p := d[i..];
      var s := PacketStep(mode, p);
      Strays(mode, p) || (s.Emit? && RunStrays(mode, p[s.next..]))
  }

  predicate FeedStrays(mode: Mode, rest: seq<byte>, chunk: seq<byte>) {
    chunk != [] && RunStrays(mode, rest + chunk)
  }

  /** One of the calls does. */
  predicate CallsStray(mode: Mode, rest: seq<byte>, chunks: seq<seq<byte>>)
    decreases |chunks|
  {
    chunks != [] &&
    (|| FeedStrays(mode, rest, chunks[0])
     || (Feed(mode, rest, chunks[0]).ok && CallsStray(mode, Feed(mode, rest, chunks[0]).rest, chunks[1..])))
  }

  /** Walking from packet to packet there is an open-ended one. */
  predicate MeetsOpenEnded(mode: Mode, d: seq<byte>)
    decreases |d|
  {
    match FindStart(d, 0)
    case None => false
    case Some(i) =>
      var p := d[i..];
      var s := PacketStep(mode, p);
      OpenEnded(mode, p) || (s.Emit? && MeetsOpenEnded(mode, p[s.next..]))
  }

  lemma {:induction false} StrayIsMet(mode: Mode, d: seq<byte>)
    requires RunStrays(mode, d)
    ensures MeetsOpenEnded(mode, d)
    decreases |d|
  {
    hide PacketStep, FindStart;
    var p := d[FindStart(d, 0).value..];
    var s := PacketStep(mode, p);
    if !Strays(mode, p) { StrayIsMet(mode, p[s.next..]); }
  }

  lemma SkipToMet(mode: Mode, d: seq<byte>)
    requires FindStart(d, 0).Some?
    ensures MeetsOpenEnded(mode, d) == MeetsOpenEnded(mode, d[FindStart(d, 0).value..])
  {
    hide PacketStep, OpenEnded;
    FindStartDrop(d);
    var p := d[FindStart(d, 0).value..];
    assert p[0..] == p;
  }

  /** What a run over d leaves, followed by e, meets nothing that d followed by e does not. */
  lemma {:induction false} MetLater(mode: Mode, d: seq<byte>, e: seq<byte>)
    requires Safe(mode, d + e) && !MeetsOpenEnded(mode, d + e)
    ensures !MeetsOpenEnded(mode, d) && !MeetsOpenEnded(mode, Run(mode, d).rest + e)
    decreases |d|
  {
    hide PacketStep, StrictStep, FindStart, OpenEnded;
    SafePrefix(mode, d, e);
    match FindStart(d, 0)
    case None =>
    case Some(i) =>
      var p := d[i..];
      FindStartStable(d, e, 0);
      DropAppend(d, e, i);
      var s := StrictStep(mode, p);
      if OpenEnded(mode, p) { OpenEndedStays(mode, p, e); }
      if s.Emit? {
        StrictStepStable(mode, p, e);
        DropAppend(p, e, s.next);
        MetLater(mode, p[s.next..], e);
      } else {
        SkipToMet(mode, d + e);
      }
  }

  lemma OpenEndedStays(mode: Mode, p: seq<byte>, e: seq<byte>)
    requires OpenEnded(mode, p)
    ensures OpenEnded(mode, p + e)
  {
  }

  /** A safe stream without open-ended packets is cut as one likes. */
  lemma {:induction false} NoneStrays(mode: Mode, rest: seq<byte>, chunks: seq<seq<byte>>)
    requires Settled(mode, rest) && Safe(mode, rest + Concat(chunks))
    requires !MeetsOpenEnded(mode, rest + Concat(chunks))
    ensures !CallsStray(mode, rest, chunks)
    decreases |chunks|
  {
    hide Run, RunStrays, MeetsOpenEnded, Safe, Settled;
    if chunks == [] {
    } else if chunks[0] == [] {
      assert rest + Concat(chunks) == rest + Concat(chunks[1..]);
      NoneStrays(mode, rest, chunks[1..]);
    } else {
      var d, e := rest + chunks[0], Concat(chunks[1..]);
      assert rest + Concat(chunks) == d + e;
      SafePrefix(mode, d, e);
      RunAppend(mode, d, e);
      RestSettled(mode, d);
      MetLater(mode, d, e);
      if RunStrays(mode, d) { StrayIsMet(mode, d); }
      NoneStrays(mode, Run(mode, d).rest, chunks[1..]);
    }
  }

  /** The place right behind the sixth byte of the first open-ended packet. */
  lemma {:induction false} SixthByte(mode: Mode, d: seq<byte>) returns (k: nat)
    requires mode.PayloadOnly? && Safe(mode, d) && MeetsOpenEnded(mode, d)
    ensures k <= |d| && RunStrays(mode, d[..k])
    decreases |d|
  {
    hide StrictStep, PacketStep, Safe, Strays, OpenEnded;
    var i := FindStart(d, 0).value;
    var p := d[i..];
    if OpenEnded(mode, p) {
      k := i + 6;
      SixBytes(mode, p);
      StartInPrefix(d, k);
      SlicePrefix(d, i, k);
    } else {
      var next := PacketStep(mode, p).next;
      SafeStep(mode, d);
      var j := SixthByte(mode, p[next..]);
      k := i + next + j;
      EmitInPrefix(mode, p, next + j);
      StartInPrefix(d, k);
      SlicePrefix(d, i, k);
      assert p[..next + j][next..] == p[next..][..j];
    }
  }

  lemma SixBytes(mode: Mode, p: seq<byte>)
    requires OpenEnded(mode, p)
    ensures |p| >= 6 && Strays(mode, p[..6])
  {
  }

  lemma SlicePrefix(d: seq<byte>, i: nat, k: nat)
    requires i <= k <= |d|
    ensures d[..k][i..] == d[i..][..k - i]
  {
  }

  lemma StartInPrefix(d: seq<byte>, k: nat)
    requires FindStart(d, 0).Some? && FindStart(d, 0).value + 6 <= k <= |d|
    ensures FindStart(d[..k], 0) == FindStart(d, 0)
  {
    var i := FindStart(d, 0).value;
    forall j: nat | j <= i ensures StartCodeAt(d[..k], j) == StartCodeAt(d, j) {}
    FindStartIs(d[..k], 0, i);
  }

  lemma SafeStep(mode: Mode, d: seq<byte>)
    requires Safe(mode, d) && FindStart(d, 0).Some?
    ensures var p := d[FindStart(d, 0).value..];
            var s := StrictStep(mode, p);
            s == PacketStep(mode, p) && (s.Emit? ==> Safe(mode, p[s.next..]))
  {
    hide FindStart, PacketStep;
  }

  /** A packet of bounded length is decided by its own bytes. */
  lemma EmitInPrefix(mode: Mode, p: seq<byte>, k: nat)
    requires StrictStep(mode, p).Emit? && StrictStep(mode, p).next <= k <= |p|
    requires mode.PayloadOnly? && !OpenEnded(mode, p)
    ensures PacketStep(mode, p[..k]) == PacketStep(mode, p)
  {
    var q := p[..k];
    assert PacketLength(q) == PacketLength(p) && p == q + p[k..];
    StrictStepStable(mode, q, p[k..]);
  }

  lemma OnlyPayloadMeets(mode: Mode, d: seq<byte>)
    requires mode.WholePacket?
    ensures !MeetsOpenEnded(mode, d)
    decreases |d|
  {
    hide PacketStep, FindStart;
    if FindStart(d, 0).Some? {
      var p := d[FindStart(d, 0).value..];
      var s := PacketStep(mode, p);
      if s.Emit? { OnlyPayloadMeets(mode, p[s.next..]); }
    }
  }

  /** An open-ended packet has a bad cut, right behind its sixth byte. */
  lemma MetHasBadCut(mode: Mode, s: seq<byte>) returns (chunks: seq<seq<byte>>)
    requires Safe(mode, s) && MeetsOpenEnded(mode, s)
    ensures Concat(chunks) == s && CallsStray(mode, [], chunks)
  {
    hide Safe, MeetsOpenEnded, RunStrays;
    if mode.WholePacket? { OnlyPayloadMeets(mode, s); }
    var k := SixthByte(mode, s);
    chunks := [s[..k], s[k..], []];
    Concat3(s[..k], s[k..], []);
    assert s == s[..k] + s[k..] + [];
    NothingStrays(mode);
    assert [] + s[..k] == s[..k];
  }

  lemma NothingStrays(mode: Mode)
    ensures !RunStrays(mode, [])
  {
  }

  /** No cut of a safe stream makes the parser look at such a byte if and only if no open-ended packet is met. */
  lemma StrayIff(mode: Mode, s: seq<byte>)
    requires Safe(mode, s)
    ensures !MeetsOpenEnded(mode, s)
       <==> forall chunks: seq<seq<byte>> :: Concat(chunks) == s ==> !CallsStray(mode, [], chunks)
  {
    hide Safe, MeetsOpenEnded, CallsStray, Concat;
    if MeetsOpenEnded(mode, s) {
      var chunks := MetHasBadCut(mode, s);
    } else {
      EmptySettled(mode);
      forall chunks: seq<seq<byte>> | Concat(chunks) == s
        ensures !CallsStray(mode, [], chunks)
      {
        assert [] + Concat(chunks) == s;
        NoneStrays(mode, [], chunks);
      }
    }
  }

  lemma EmptySettled(mode: Mode)
    ensures Settled(mode, [])
  {
  }

  /** No byte is looked at before it has been received, used or not, however the stream is cut. */
  lemma ReceivedOnlyIff(mode: Mode, s: seq<byte>)
    ensures Safe(mode, s) && !MeetsOpenEnded(mode, s)
       <==> forall chunks: seq<seq<byte>> :: Concat(chunks) == s ==>
              FeedAll(mode, [], chunks).ok && !CallsStray(mode, [], chunks)
  {
    hide Safe, MeetsOpenEnded, CallsStray, Concat, FeedAll;
    SafeIffEveryCutOk(mode, s);
    if Safe(mode, s) { StrayIff(mode, s); }
  }

  /** Six bytes that start an open-ended packet, in one call: safe, and yet byte 8 is looked at. */
  lemma SixBytesStray(id: byte)
    ensures var d: seq<byte> := [0, 0, 1, id, 0, 0];
            && Safe(PayloadOnly, d) && FeedAll(PayloadOnly, [], [d]) == Outcome([], d, true)
            && CallsStray(PayloadOnly, [], [d])
  {
    hide *;
    SixBytesAre([0, 0, 1, id, 0, 0], id);
    OneCallStrays([0, 0, 1, id, 0, 0]);
  }

  lemma SixBytesAre(d: seq<byte>, id: byte)
    requires d == [0, 0, 1, id, 0, 0]
    ensures FindStart(d, 0) == Some(0) && Strays(PayloadOnly, d)
  {
    assert StartCodeAt(d, 0) && PacketLength(d) == 0;
  }

  lemma OneCallStrays(d: seq<byte>)
    requires FindStart(d, 0) == Some(0) && Strays(PayloadOnly, d)
    ensures Safe(PayloadOnly, d) && FeedAll(PayloadOnly, [], [d]) == Outcome([], d, true)
    ensures CallsStray(PayloadOnly, [], [d])
  {
    hide FindStart;
    assert d[0..] == d && [] + d == d;
    StrayIsDropped(PayloadOnly, d);
    assert Run(PayloadOnly, d) == Outcome([], d, true);
    assert Feed(PayloadOnly, [], d) == Run(PayloadOnly, d);
  }
}
