/**
 The streaming PES parser: what one look at the buffered bytes decides, what a
 whole call of the decoder delivers, and why the way a stream is cut into calls
 does not matter.
 */
module Pes {
  import opened Bytes

  /** `payload_only` of the parser's parameters. */
  datatype Mode = WholePacket | PayloadOnly

  /** What the bytes following a start code amount to. Offsets count from the start code. */
  datatype Step =
    | Wait                                 // more bytes are needed
    | Emit(from: nat, to: nat, next: nat)  // call back with the bytes from..to, go on at next
    | Fault                                // bytes that have not been received would be used

  /**
   What the callback is given: a range of bytes or, when a header claims to be longer than its
   packet, a negative length and a pointer just as far behind the packet's end.
   */
  datatype Delivery = Range(data: seq<byte>) | Overlong(excess: nat)

  function Handed(p: seq<byte>, from: nat, to: nat): Delivery
    requires to <= |p|
  {
    if from <= to then Range(p[from..to]) else Overlong(from - to)
  }

  lemma HandedAppend(p: seq<byte>, e: seq<byte>, from: nat, to: nat)
    requires to <= |p|
    ensures Handed(p + e, from, to) == Handed(p, from, to)
  {
    if from <= to { SliceAppend(p, e, from, to); }
  }

  lemma HandedDrop(d: seq<byte>, i: nat, from: nat, to: nat)
    requires i + to <= |d|
    ensures Handed(d[i..], from, to) == Handed(d, i + from, i + to)
  {
    if from <= to { SliceDrop(d, i, from, to); }
  }

  /** Packets delivered, bytes kept for the next call, and whether only received bytes were used. */
  datatype Outcome = Outcome(delivered: seq<Delivery>, rest: seq<byte>, ok: bool)

  // ---------------------------------------------------------------- start codes

  predicate StartCodeAt(d: seq<byte>, i: nat)
    requires i + 2 < |d|
  {
    d[i] == 0 && d[i + 1] == 0 && d[i + 2] == 1
  }

  /** The first start code at or after i. The last four bytes are never looked at as a start. */
  function FindStart(d: seq<byte>, i: nat): (r: Option<nat>)
    ensures r.Some? ==> i <= r.value < |d| - 4 && StartCodeAt(d, r.value)
    ensures r.Some? ==> forall k: nat :: i <= k < r.value ==> !StartCodeAt(d, k)
    ensures r.None? ==> forall k: nat :: i <= k < |d| - 4 ==> !StartCodeAt(d, k)
    decreases |d| - i
  {
    if i + 4 >= |d| then None
    else if StartCodeAt(d, i) then Some(i)
    else FindStart(d, i + 1)
  }

  lemma FindStartIs(d: seq<byte>, i: nat, n: nat)
    requires i <= n < |d| - 4 && StartCodeAt(d, n)
    requires forall k: nat :: i <= k < n ==> !StartCodeAt(d, k)
    ensures FindStart(d, i) == Some(n)
  {
  }

  /** A start code that has been seen stays the first one when bytes arrive behind it. */
  lemma FindStartStable(d: seq<byte>, e: seq<byte>, i: nat)
    requires FindStart(d, i).Some?
    ensures FindStart(d + e, i) == FindStart(d, i)
  {
    var n := FindStart(d, i).value;
    forall k: nat | i <= k <= n ensures StartCodeAt(d + e, k) == StartCodeAt(d, k) {}
    FindStartIs(d + e, i, n);
  }

  /** Looking from the first start code on finds it at once. */
  lemma FindStartDrop(d: seq<byte>)
    requires FindStart(d, 0).Some?
    ensures FindStart(d[FindStart(d, 0).value..], 0) == Some(0)
  {
    var i := FindStart(d, 0).value;
    assert StartCodeAt(d[i..], 0);
  }

  // ---------------------------------------------------------------- one packet

  /** Bytes announced by the length field behind the 6-byte packet start. */
  function PacketLength(p: seq<byte>): (n: nat)
    requires |p| >= 6
  {
    Word(p[4], p[5])
  }

  function Word(hi: int, lo: int): int { hi * 256 + lo }

  function SkipStuffing(p: seq<byte>, i: nat, n: nat): (r: nat)
    requires n <= |p|
    ensures i <= n ==> i <= r <= n
    ensures i > n ==> r == i
    ensures forall k :: i <= k < r ==> p[k] == 0xFF
    ensures r < n ==> p[r] != 0xFF
    decreases n - i
  {
    if i < n && p[i] == 0xFF then SkipStuffing(p, i + 1, n) else i
  }

  /** MPEG-1 header length. The scan stops at n, which the decoder sets to the length field. */
  function Mpeg1HeaderLength(p: seq<byte>, n: nat): (r: nat)
    requires n + 6 <= |p|
  {
    var a := SkipStuffing(p, 6, n);
    if a < n then
      var b := if p[a] / 64 == 1 then a + 2 else a;
      if p[b] / 16 == 2 then b + 5
      else if p[b] / 16 == 3 then b + 10
      else b + 1
    else a
  }

  /** The byte behind the length field announces an MPEG-2 header. */
  predicate Mpeg2Marked(p: seq<byte>)
    requires |p| >= 7
  {
    p[6] / 64 == 2
  }

  /** Length of everything before the payload; p holds at least the announced n + 6 bytes. */
  function HeaderLength(p: seq<byte>, n: nat): (r: nat)
    requires 1 <= n && n + 6 <= |p| && (Mpeg2Marked(p) ==> |p| >= 9)
  {
    if Mpeg2Marked(p) then 9 + p[8] else Mpeg1HeaderLength(p, n)
  }

  function PacketStep(mode: Mode, p: seq<byte>): (s: Step)
    ensures s.Emit? ==> s.to <= s.next <= |p| && 6 <= s.next
  {
    if |p| < 6 then Wait else
    var n := PacketLength(p);
    var open := n == 0xFFFF || n == 0;
    if !open && |p| < n + 6 then Wait
    else if mode.WholePacket? then
      if |p| < n + 6 then Fault else Emit(0, n + 6, n + 6)
    else if open then
      match FindStart(p, 6)
      case None => Wait
      case Some(next) =>
        var body: int := 9 + p[8] as int;
        if next < body then Emit(next, next, next) else Emit(body, next, next)
    else
      if Mpeg2Marked(p) && |p| < 9 then Fault else Emit(HeaderLength(p, n), n + 6, n + 6)
  }

  /**
   The packets that cannot be told from their own bytes: in whole-packet mode those of unbounded
   length, in payload mode those marked as MPEG-2 that end before the header length byte.
   */
  predicate OutsideItself(mode: Mode, p: seq<byte>)
    requires |p| >= 6
  {
    var n := PacketLength(p);
    if mode.WholePacket? then n == 0xFFFF
    else 1 <= n <= 2 && |p| >= n + 6 && Mpeg2Marked(p)
  }

  /** As PacketStep, but a packet that cannot be told from its own bytes is a fault. */
  function StrictStep(mode: Mode, p: seq<byte>): (s: Step)
    ensures !s.Fault? ==> s == PacketStep(mode, p)
  {
    if |p| >= 6 && OutsideItself(mode, p) then Fault else PacketStep(mode, p)
  }

  lemma SkipStuffingStable(p: seq<byte>, e: seq<byte>, i: nat, n: nat)
    requires n <= |p|
    ensures SkipStuffing(p + e, i, n) == SkipStuffing(p, i, n)
    decreases n - i
  {
    if i < n && p[i] == 0xFF { SkipStuffingStable(p, e, i + 1, n); }
  }

  lemma Mpeg1HeaderLengthStable(p: seq<byte>, e: seq<byte>, n: nat)
    requires n + 6 <= |p|
    ensures Mpeg1HeaderLength(p + e, n) == Mpeg1HeaderLength(p, n)
  {
    SkipStuffingStable(p, e, 6, n);
  }

  /** What has been decided about a packet is not changed by later bytes. */
  lemma StrictStepStable(mode: Mode, p: seq<byte>, e: seq<byte>)
    requires !StrictStep(mode, p).Wait?
    ensures StrictStep(mode, p + e) == StrictStep(mode, p)
  {
    var n := PacketLength(p);
    assert PacketLength(p + e) == n;
    if mode.PayloadOnly? {
      if n == 0xFFFF || n == 0 {
        FindStartStable(p, e, 6);
      } else {
        Mpeg1HeaderLengthStable(p, e, n);
      }
    }
  }

  // ---------------------------------------------------------------- one call, many calls

  /** What one call delivers and keeps when its buffer holds d. */
  function Run(mode: Mode, d: seq<byte>): (o: Outcome)
    decreases |d|
  {
    match FindStart(d, 0)
    case None => Outcome([], d, true)
    case Some(i) =>
      var p := d[i..];
      match PacketStep(mode, p)
      case Wait => Outcome([], p, true)
      case Fault => Outcome([], p, false)
      case Emit(from, to, next) =>
        var o := Run(mode, p[next..]);
        Outcome([Handed(p, from, to)] + o.delivered, o.rest, o.ok)
  }

  /** One call with the bytes kept so far; a call without bytes is refused and changes nothing. */
  function Feed(mode: Mode, rest: seq<byte>, chunk: seq<byte>): (o: Outcome) {
    if chunk == [] then Outcome([], rest, true) else Run(mode, rest + chunk)
  }

  /** A sequence of calls, given up where bytes not received would be used. */
  function FeedAll(mode: Mode, rest: seq<byte>, chunks: seq<seq<byte>>): (o: Outcome)
    decreases |chunks|
  {
    if chunks == [] then Outcome([], rest, true) else
    var a := Feed(mode, rest, chunks[0]);
    if !a.ok then a else
    var b := FeedAll(mode, a.rest, chunks[1..]);
    Outcome(a.delivered + b.delivered, b.rest, b.ok)
  }

  /**
   The stream condition of the decoder: walking from packet to packet, in whole-packet mode no
   length field is 0xFFFF, and in payload mode none is 1 or 2 on a packet marked as MPEG-2.
   */
  predicate Safe(mode: Mode, d: seq<byte>)
    decreases |d|
  {
    match FindStart(d, 0)
    case None => true
    case Some(i) =>
      var p := d[i..];
      match StrictStep(mode, p)
      case Wait => true
      case Fault => false
      case Emit(_, _, next) => Safe(mode, p[next..])
  }

  /** Dropping what lies before the first start code changes neither the run nor its safety. */
  lemma SkipToStart(mode: Mode, d: seq<byte>)
    requires FindStart(d, 0).Some?
    ensures Run(mode, d) == Run(mode, d[FindStart(d, 0).value..])
    ensures Safe(mode, d) == Safe(mode, d[FindStart(d, 0).value..])
  {
  }

  lemma {:induction false} SafeRunsOk(mode: Mode, d: seq<byte>)
    requires Safe(mode, d)
    ensures Run(mode, d).ok
    decreases |d|
  {
    hide StrictStep, PacketStep, FindStart;
    match FindStart(d, 0)
    case None =>
    case Some(i) =>
      var s := StrictStep(mode, d[i..]);
      if s.Emit? { SafeRunsOk(mode, d[i..][s.next..]); }
  }

  /** Unfolding at a start code that opens a complete packet. */
  lemma RunEmit(mode: Mode, p: seq<byte>)
    requires FindStart(p, 0) == Some(0) && StrictStep(mode, p).Emit?
    ensures var s, o := StrictStep(mode, p), Run(mode, p[StrictStep(mode, p).next..]);
            Run(mode, p) == Then(Outcome([Handed(p, s.from, s.to)], [], true), o)
    ensures Safe(mode, p) == Safe(mode, p[StrictStep(mode, p).next..])
  {
    assert p[0..] == p;
  }

  /** Joining the outcomes of two runs. */
  function Then(a: Outcome, b: Outcome): Outcome {
    Outcome(a.delivered + b.delivered, b.rest, b.ok)
  }

  lemma ThenUnit(rest: seq<byte>, o: Outcome)
    ensures Then(Outcome([], rest, true), o) == o
  {
    assert [] + o.delivered == o.delivered;
  }

  lemma ThenAssoc(packet: Delivery, a: Outcome, b: Outcome)
    ensures Then(Then(Outcome([packet], [], true), a), b) == Then(Outcome([packet], [], true), Then(a, b))
  {
    assert ([packet] + a.delivered) + b.delivered == [packet] + (a.delivered + b.delivered);
  }

  /** Bytes d followed by bytes e run as d alone, then as what d left over followed by e. */
  lemma {:induction false} RunAppend(mode: Mode, d: seq<byte>, e: seq<byte>)
    requires Safe(mode, d)
    ensures Run(mode, d).ok
    ensures Run(mode, d + e) == Then(Run(mode, d), Run(mode, Run(mode, d).rest + e))
    ensures Safe(mode, d + e) == Safe(mode, Run(mode, d).rest + e)
    decreases |d|
  {
    SafeRunsOk(mode, d);
    match FindStart(d, 0)
    case None => ThenUnit(d, Run(mode, d + e));
    case Some(i) =>
      var p := d[i..];
      FindStartStable(d, e, 0);
      SkipToStart(mode, d + e);
      SkipToStart(mode, d);
      DropAppend(d, e, i);
      if i > 0 {
        RunAppend(mode, p, e);
      } else {
        assert p == d;
        RunAppendAtStart(mode, d, e);
      }
  }

  lemma {:induction false} RunAppendAtStart(mode: Mode, p: seq<byte>, e: seq<byte>)
    requires FindStart(p, 0) == Some(0) && Safe(mode, p)
    ensures Run(mode, p + e) == Then(Run(mode, p), Run(mode, Run(mode, p).rest + e))
    ensures Safe(mode, p + e) == Safe(mode, Run(mode, p).rest + e)
    decreases |p|, 0
  {
    var s := StrictStep(mode, p);
    SafeRunsOk(mode, p);
    DropAppend(p, [], 0);
    if s.Emit? {
      FindStartStable(p, e, 0);
      StrictStepStable(mode, p, e);
      RunEmit(mode, p);
      RunEmit(mode, p + e);
      DropAppend(p, e, s.next);
      HandedAppend(p, e, s.from, s.to);
      var q := p[s.next..];
      RunAppend(mode, q, e);
      ThenAssoc(Handed(p, s.from, s.to), Run(mode, q), Run(mode, Run(mode, q).rest + e));
    } else {
      ThenUnit(p, Run(mode, p + e));
    }
  }

  /** What a call keeps is stable: nothing more can be said about it without new bytes. */
  predicate Settled(mode: Mode, rest: seq<byte>) {
    Run(mode, rest) == Outcome([], rest, true) && Safe(mode, rest)
  }

  lemma {:induction false} RestSettled(mode: Mode, d: seq<byte>)
    requires Safe(mode, d)
    ensures Settled(mode, Run(mode, d).rest)
    decreases |d|
  {
    match FindStart(d, 0)
    case None =>
    case Some(i) =>
      var s := StrictStep(mode, d[i..]);
      if s.Emit? {
        RestSettled(mode, d[i..][s.next..]);
      } else {
        SkipToStart(mode, d);
      }
  }

  /** Chunking independence from any settled state. */
  lemma {:induction false} FeedAllFrom(mode: Mode, rest: seq<byte>, chunks: seq<seq<byte>>)
    requires Settled(mode, rest)
    requires Safe(mode, rest + Concat(chunks))
    ensures FeedAll(mode, rest, chunks) == Run(mode, rest + Concat(chunks))
    ensures FeedAll(mode, rest, chunks).ok
    decreases |chunks|
  {
    SafeRunsOk(mode, rest + Concat(chunks));
    if chunks == [] {
      assert rest + Concat(chunks) == rest;
    } else if chunks[0] == [] {
      assert rest + Concat(chunks) == rest + Concat(chunks[1..]);
      FeedAllFrom(mode, rest, chunks[1..]);
      var b := FeedAll(mode, rest, chunks[1..]);
      assert [] + b.delivered == b.delivered;
    } else {
      var d, e := rest + chunks[0], Concat(chunks[1..]);
      assert rest + Concat(chunks) == d + e;
      SafePrefix(mode, d, e);
      RunAppend(mode, d, e);
      RestSettled(mode, d);
      FeedAllFrom(mode, Run(mode, d).rest, chunks[1..]);
    }
  }

  /** A prefix of a safe stream is safe. */
  lemma {:induction false} SafePrefix(mode: Mode, d: seq<byte>, e: seq<byte>)
    requires Safe(mode, d + e)
    ensures Safe(mode, d)
    decreases |d|
  {
    hide StrictStep, PacketStep, FindStart;
    match FindStart(d, 0)
    case None =>
    case Some(i) =>
      var p := d[i..];
      FindStartStable(d, e, 0);
      assert (d + e)[i..] == p + e;
      var s := StrictStep(mode, p);
      if !s.Wait? { StrictStepStable(mode, p, e); }
      if s.Emit? {
        assert (p + e)[s.next..] == p[s.next..] + e;
        SafePrefix(mode, p[s.next..], e);
      }
  }

  // ---------------------------------------------------------------- chunking independence, exactly

  /** Every way of cutting a safe stream into calls gives what a single call gives. */
  lemma ChunkingIndependence(mode: Mode, s: seq<byte>, chunks: seq<seq<byte>>)
    requires Concat(chunks) == s && Safe(mode, s)
    ensures FeedAll(mode, [], chunks) == Run(mode, s)
    ensures Run(mode, s).ok
  {
    assert [] + Concat(chunks) == s;
    FeedAllFrom(mode, [], chunks);
  }

  /** The byte that makes a settled buffer unsafe makes the decoder use bytes it has not received. */
  lemma LastByteFaults(mode: Mode, r: seq<byte>, b: byte)
    requires Settled(mode, r) && !Safe(mode, r + [b])
    ensures !Run(mode, r + [b]).ok
  {
    var d := r + [b];
    var i := FindStart(d, 0).value;
    var p := d[i..];
    SkipToStart(mode, d);
    FindStartDrop(d);
    assert p == r[i..] + [b];
    if |p| > 6 {
      assert forall k: nat :: k + 2 < |r| ==> StartCodeAt(r, k) == StartCodeAt(d, k);
      FindStartIs(r, 0, i);
      SkipToStart(mode, r);
    }
    PacketByteFaults(mode, r[i..], b);
  }

  lemma PacketByteFaults(mode: Mode, q: seq<byte>, b: byte)
    requires FindStart(q + [b], 0) == Some(0)
    requires |q| >= 6 ==> FindStart(q, 0) == Some(0) && Settled(mode, q)
    requires !Safe(mode, q + [b])
    ensures !Run(mode, q + [b]).ok
  {
    var p := q + [b];
    assert p[0..] == p && q[0..] == q;
    if StrictStep(mode, p).Emit? {
      RunEmit(mode, p);
      EmitByLastByte(mode, q, b);
      assert false;
    }
  }

  /** A packet completed by its last byte leaves at most the start of another one behind. */
  lemma EmitByLastByte(mode: Mode, q: seq<byte>, b: byte)
    requires |q| >= 6 ==> StrictStep(mode, q).Wait?
    requires StrictStep(mode, q + [b]).Emit?
    ensures Safe(mode, (q + [b])[StrictStep(mode, q + [b]).next..])
  {
    var p := q + [b];
    var next := StrictStep(mode, p).next;
    if |q| >= 6 && mode.PayloadOnly? && (PacketLength(p) == 0 || PacketLength(p) == 0xFFFF) {
      assert forall k: nat :: k + 2 < |q| ==> StartCodeAt(q, k) == StartCodeAt(p, k);
      assert next + 4 >= |q|;
    } else {
      assert p[next..] == [];
    }
  }

  /** Length of the longest safe prefix that ends just before an unsafe one. */
  function FirstUnsafe(mode: Mode, s: seq<byte>, k: nat): (r: nat)
    requires k <= |s| && Safe(mode, s[..k]) && !Safe(mode, s)
    ensures r < |s| && Safe(mode, s[..r]) && !Safe(mode, s[..r + 1])
    decreases |s| - k
  {
    assert s[..|s|] == s;
    if Safe(mode, s[..k + 1]) then FirstUnsafe(mode, s, k + 1) else k
  }

  /** The call that brings the unsafe byte faults. */
  lemma ByteCallFaults(mode: Mode, d: seq<byte>, b: byte, e: seq<byte>)
    requires Safe(mode, d) && !Safe(mode, d + [b])
    ensures !FeedAll(mode, [], [d, [b], e]).ok
  {
    hide PacketStep, StrictStep, FindStart;
    var r := Feed(mode, [], d).rest;
    assert [] + d == d;
    if d != [] {
      RunAppend(mode, d, [b]);
      RestSettled(mode, d);
    }
    LastByteFaults(mode, r, b);
    SecondCallFaults(mode, d, b, e);
  }

  lemma SecondCallFaults(mode: Mode, d: seq<byte>, b: byte, e: seq<byte>)
    requires Feed(mode, [], d).ok && !Feed(mode, Feed(mode, [], d).rest, [b]).ok
    ensures !FeedAll(mode, [], [d, [b], e]).ok
  {
  }

  lemma EmptyIsSafe(mode: Mode)
    ensures Safe(mode, [])
  {
  }

  /** An unsafe stream has a cut for which the decoder leaves the received bytes. */
  lemma UnsafeHasBadCut(mode: Mode, s: seq<byte>) returns (chunks: seq<seq<byte>>)
    requires !Safe(mode, s)
    ensures Concat(chunks) == s && !FeedAll(mode, [], chunks).ok
  {
    hide Safe, FeedAll, Concat;
    EmptyIsSafe(mode);
    assert s[..0] == [];
    var k := FirstUnsafe(mode, s, 0);
    var d, b, e := s[..k], s[k], s[k + 1..];
    assert s[..k + 1] == d + [b];
    chunks := [d, [b], e];
    ByteCallFaults(mode, d, b, e);
    Concat3(d, [b], e);
    assert s == d + [b] + e;
  }

  /**
   The stream condition is exact: every cut of s stays inside the received bytes if and only
   if s is safe (and then all cuts agree, by ChunkingIndependence).
   */
  lemma SafeIffEveryCutOk(mode: Mode, s: seq<byte>)
    ensures Safe(mode, s) <==> forall chunks: seq<seq<byte>> :: Concat(chunks) == s ==> FeedAll(mode, [], chunks).ok
  {
    if Safe(mode, s) {
      forall chunks: seq<seq<byte>> | Concat(chunks) == s ensures FeedAll(mode, [], chunks).ok {
        ChunkingIndependence(mode, s, chunks);
      }
    } else {
      var chunks := UnsafeHasBadCut(mode, s);
    }
  }

  /**
   Chunking independence, exactly: every cut of s gives what a single call gives, out of received
   bytes only, if and only if s is safe.
   */
  lemma CutsAgreeIff(mode: Mode, s: seq<byte>)
    ensures Safe(mode, s)
       <==> forall chunks: seq<seq<byte>> :: Concat(chunks) == s ==>
              FeedAll(mode, [], chunks) == Run(mode, s) && FeedAll(mode, [], chunks).ok
  {
    hide Safe, FeedAll, Concat, Run;
    SafeIffEveryCutOk(mode, s);
    if Safe(mode, s) {
      forall chunks: seq<seq<byte>> | Concat(chunks) == s
        ensures FeedAll(mode, [], chunks) == Run(mode, s) && FeedAll(mode, [], chunks).ok
      {
        ChunkingIndependence(mode, s, chunks);
      }
    }
  }
}
