/** What comes out of the PES parser, relative to the stream that went in. */
module PesProperties {
  import opened Bytes
  import opened Pes

  // ---------------------------------------------------------------- conservation

  /** One delivery in stream offsets: the start code, the range handed out, the place to go on. */
  datatype Span = Span(start: nat, from: nat, to: nat, next: nat)

  predicate Delivering(mode: Mode, d: seq<byte>) {
    FindStart(d, 0).Some? && PacketStep(mode, d[FindStart(d, 0).value..]).Emit?
  }

  /** The first delivery out of d, d being the stream from offset base on. */
  function FirstSpan(mode: Mode, d: seq<byte>, base: nat): (p: Span)
    requires Delivering(mode, d)
    ensures base <= p.start <= p.from && p.start <= p.to <= p.next <= base + |d| && p.start + 6 <= p.next
  {
    var at := base + FindStart(d, 0).value;
    var step := PacketStep(mode, d[FindStart(d, 0).value..]);
    Span(at, at + step.from, at + step.to, at + step.next)
  }

  /** The deliveries of Run(mode, d), d being the stream from offset base on. */
  function Spans(mode: Mode, d: seq<byte>, base: nat): (r: seq<Span>)
    decreases |d|
  {
    if !Delivering(mode, d) then [] else
    var p := FirstSpan(mode, d, base);
    [p] + Spans(mode, d[p.next - base..], p.next)
  }

  predicate NoStartCode(s: seq<byte>, lo: nat, hi: nat) {
    forall k: nat :: lo <= k < hi && k + 4 < |s| ==> !StartCodeAt(s, k)
  }

  /** Where the search for the k-th delivery begins. */
  function SearchFrom(spans: seq<Span>, base: nat, k: nat): nat
    requires k <= |spans|
  {
    if k == 0 then base else spans[k - 1].next
  }

  /** A span after offset lo: inside the stream, six bytes of progress, no start code passed over. */
  predicate SpanAfter(s: seq<byte>, lo: nat, p: Span) {
    && lo <= p.start <= p.from && p.start <= p.to <= p.next <= |s|
    && p.start + 6 <= p.next
    && StartCodeAt(s, p.start)
    && NoStartCode(s, lo, p.start)
  }

  /** Ordered, disjoint and as SpanAfter each. */
  predicate Tiled(s: seq<byte>, base: nat, spans: seq<Span>) {
    forall k :: 0 <= k < |spans| ==> SpanAfter(s, SearchFrom(spans, base, k), spans[k])
  }

  /** The deliveries are the bytes of the spans. */
  predicate Delivers(s: seq<byte>, spans: seq<Span>, delivered: seq<Delivery>) {
    && |delivered| == |spans|
    && forall k :: 0 <= k < |spans| ==>
         spans[k].to <= |s| && delivered[k] == Handed(s, spans[k].from, spans[k].to)
  }

  /** The bytes kept are the end of the stream, and no start code lies before them. */
  predicate Keeps(s: seq<byte>, lo: nat, rest: seq<byte>) {
    && lo + |rest| <= |s|
    && rest == s[|s| - |rest|..]
    && NoStartCode(s, lo, |s| - |rest|)
  }

  lemma NoStartCodeShift(s: seq<byte>, base: nat, i: nat)
    requires base + i <= |s|
    requires forall k: nat :: k < i && k < |s| - base - 4 ==> !StartCodeAt(s[base..], k)
    ensures NoStartCode(s, base, base + i)
  {
    forall k: nat | base <= k < base + i && k + 4 < |s| ensures !StartCodeAt(s, k) {
      assert !StartCodeAt(s[base..], k - base);
    }
  }

  /** All of the above for the outcome of a run over s from offset base on. */
  predicate Accounted(s: seq<byte>, base: nat, spans: seq<Span>, o: Outcome) {
    && Tiled(s, base, spans)
    && Delivers(s, spans, o.delivered)
    && Keeps(s, SearchFrom(spans, base, |spans|), o.rest)
  }

  /** Conservation, for every stream, good or bad, from any offset. */
  lemma {:induction false} DeliveriesTile(mode: Mode, s: seq<byte>, base: nat)
    requires base <= |s|
    ensures Accounted(s, base, Spans(mode, s[base..], base), Run(mode, s[base..]))
    decreases |s| - base
  {
    hide Run, PacketStep, FirstSpan, Delivering, SpanAfter, Accounted, Tiled, Delivers, Keeps;
    var d := s[base..];
    if Delivering(mode, d) {
      var p := FirstSpan(mode, d, base);
      FirstSpanAfter(mode, s, base);
      FirstSpanRun(mode, d, base);
      DropDrop(s, base, p.next - base);
      HandedDrop(s, base, p.from - base, p.to - base);
      DeliveriesTile(mode, s, p.next);
      AccountMore(s, base, p, Spans(mode, s[p.next..], p.next), Run(mode, s[p.next..]));
    } else {
      NothingDelivered(mode, s, base);
    }
  }

  lemma FirstSpanAfter(mode: Mode, s: seq<byte>, base: nat)
    requires base <= |s| && Delivering(mode, s[base..])
    ensures SpanAfter(s, base, FirstSpan(mode, s[base..], base))
  {
    NoStartCodeShift(s, base, FindStart(s[base..], 0).value);
  }

  lemma FirstSpanRun(mode: Mode, d: seq<byte>, base: nat)
    requires Delivering(mode, d)
    ensures var p := FirstSpan(mode, d, base);
            Run(mode, d)
            == Then(Outcome([Handed(d, p.from - base, p.to - base)], [], true), Run(mode, d[p.next - base..]))
  {
    hide PacketStep, FindStart, Handed;
    var i := FindStart(d, 0).value;
    var step := PacketStep(mode, d[i..]);
    DropDrop(d, i, step.next);
    HandedDrop(d, i, step.from, step.to);
  }

  lemma NothingDelivered(mode: Mode, s: seq<byte>, base: nat)
    requires base <= |s| && !Delivering(mode, s[base..])
    ensures Accounted(s, base, [], Run(mode, s[base..]))
  {
    hide PacketStep;
    var d := s[base..];
    match FindStart(d, 0)
    case None =>
    case Some(i) =>
      NoStartCodeShift(s, base, i);
      DropDrop(s, base, i);
  }

  lemma AccountMore(s: seq<byte>, base: nat, p: Span, tail: seq<Span>, o: Outcome)
    requires SpanAfter(s, base, p) && Accounted(s, p.next, tail, o)
    ensures Accounted(s, base, [p] + tail, Then(Outcome([Handed(s, p.from, p.to)], [], true), o))
  {
    TileMore(s, base, p, tail);
    DeliverMore(s, p, tail, o.delivered);
  }

  lemma TileMore(s: seq<byte>, base: nat, p: Span, tail: seq<Span>)
    requires SpanAfter(s, base, p) && Tiled(s, p.next, tail)
    ensures Tiled(s, base, [p] + tail)
    ensures SearchFrom([p] + tail, base, |tail| + 1) == SearchFrom(tail, p.next, |tail|)
  {
    hide SpanAfter;
    var spans := [p] + tail;
    forall k | 0 <= k < |spans| ensures SpanAfter(s, SearchFrom(spans, base, k), spans[k]) {
      if k > 0 {
        assert SpanAfter(s, SearchFrom(tail, p.next, k - 1), tail[k - 1]);
      }
    }
  }

  lemma DeliverMore(s: seq<byte>, p: Span, tail: seq<Span>, delivered: seq<Delivery>)
    requires p.to <= |s| && Delivers(s, tail, delivered)
    ensures Delivers(s, [p] + tail, [Handed(s, p.from, p.to)] + delivered)
  {
  }

  /** Conservation for a stream cut into calls. */
  lemma ChunkedDeliveriesTile(mode: Mode, s: seq<byte>, chunks: seq<seq<byte>>)
    requires Concat(chunks) == s && Safe(mode, s)
    ensures Accounted(s, 0, Spans(mode, s, 0), FeedAll(mode, [], chunks))
  {
    ChunkingIndependence(mode, s, chunks);
    assert s[0..] == s;
    DeliveriesTile(mode, s, 0);
  }

  // ---------------------------------------------------------------- round trips

  /** A complete packet with a body of 0..0xFFFE bytes. */
  predicate IsPacket(p: seq<byte>) {
    |p| >= 6 && StartCodeAt(p, 0) && PacketLength(p) < 0xFFFF && |p| == PacketLength(p) + 6
  }

  /** A packet with an MPEG-2 header that fits and at least one byte behind the length field. */
  predicate IsMpeg2Packet(p: seq<byte>) {
    IsPacket(p) && |p| >= 9 && p[6] / 64 == 2 && 9 + p[8] as int <= |p|
  }

  function Mpeg2Payload(p: seq<byte>): seq<byte>
    requires IsMpeg2Packet(p)
  {
    p[9 + p[8] as int..]
  }

  /** The multiplexer's side: stream id and body make a packet. */
  function MakePacket(id: byte, body: seq<byte>): (p: seq<byte>)
    requires |body| < 0xFFFF
    ensures IsPacket(p) && p[3] == id && p[6..] == body
  {
    [0, 0, 1, id, |body| / 256, |body| % 256] + body
  }

  /** Each piece is decided on its own and used up to its end. */
  predicate Framed(mode: Mode, p: seq<byte>) {
    FindStart(p, 0) == Some(0) && StrictStep(mode, p).Emit? && StrictStep(mode, p).next == |p|
  }

  function DeliveryOf(mode: Mode, p: seq<byte>): Delivery
    requires Framed(mode, p)
  {
    Handed(p, StrictStep(mode, p).from, StrictStep(mode, p).to)
  }

  /** One delivery for each of some byte ranges. */
  function Ranges(ps: seq<seq<byte>>): (r: seq<Delivery>)
    ensures |r| == |ps| && forall k :: 0 <= k < |ps| ==> r[k] == Range(ps[k])
  {
    if ps == [] then [] else [Range(ps[0])] + Ranges(ps[1..])
  }

  lemma {:induction false} FramesRun(mode: Mode, ps: seq<seq<byte>>, out: seq<Delivery>)
    requires |out| == |ps|
    requires forall k :: 0 <= k < |ps| ==> Framed(mode, ps[k]) && out[k] == DeliveryOf(mode, ps[k])
    ensures Run(mode, Concat(ps)) == Outcome(out, [], true)
    ensures Safe(mode, Concat(ps))
  {
    if ps == [] {
      assert out == [];
    } else {
      FramesRun(mode, ps[1..], out[1..]);
      FrameThen(mode, ps[0], Concat(ps[1..]));
      assert out == [out[0]] + out[1..];
    }
  }

  lemma FrameThen(mode: Mode, p: seq<byte>, e: seq<byte>)
    requires Framed(mode, p)
    ensures Run(mode, p + e) == Then(Outcome([DeliveryOf(mode, p)], [], true), Run(mode, e))
    ensures Safe(mode, p + e) == Safe(mode, e)
  {
    FindStartStable(p, e, 0);
    StrictStepStable(mode, p, e);
    RunEmit(mode, p + e);
    var s := StrictStep(mode, p);
    HandedAppend(p, e, s.from, s.to);
    DropAppend(p, e, |p|);
    assert p[|p|..] + e == e;
  }

  /** Packets in, the same packets out, one per callback, whatever the cut; nothing is left over. */
  lemma WholePacketRoundTrip(ps: seq<seq<byte>>, chunks: seq<seq<byte>>)
    requires forall p :: p in ps ==> IsPacket(p)
    requires Concat(chunks) == Concat(ps)
    ensures FeedAll(WholePacket, [], chunks) == Outcome(Ranges(ps), [], true)
  {
    forall k | 0 <= k < |ps|
      ensures Framed(WholePacket, ps[k]) && Range(ps[k]) == DeliveryOf(WholePacket, ps[k])
    {
      assert IsPacket(ps[k]);
    }
    FramesRun(WholePacket, ps, Ranges(ps));
    ChunkingIndependence(WholePacket, Concat(ps), chunks);
  }

  /** A complete packet with a length is delivered from the end of its header on. */
  lemma BoundedPacketStep(p: seq<byte>)
    requires IsPacket(p) && PacketLength(p) >= 1 && (Mpeg2Marked(p) ==> |p| >= 9)
    ensures FindStart(p, 0) == Some(0)
    ensures StrictStep(PayloadOnly, p) == Emit(HeaderLength(p, PacketLength(p)), |p|, |p|)
  {
    hide HeaderLength;
  }

  lemma Mpeg2IsFramed(p: seq<byte>)
    requires IsMpeg2Packet(p)
    ensures Framed(PayloadOnly, p) && DeliveryOf(PayloadOnly, p) == Range(Mpeg2Payload(p))
  {
    hide StrictStep, FindStart;
    BoundedPacketStep(p);
    var h := HeaderLength(p, PacketLength(p));
    assert p[h..|p|] == p[h..];
  }

  /** In payload mode the packets come back without their MPEG-2 headers. */
  lemma PayloadRoundTrip(ps: seq<seq<byte>>, out: seq<seq<byte>>, chunks: seq<seq<byte>>)
    requires |out| == |ps|
    requires forall k :: 0 <= k < |ps| ==> IsMpeg2Packet(ps[k]) && out[k] == Mpeg2Payload(ps[k])
    requires Concat(chunks) == Concat(ps)
    ensures FeedAll(PayloadOnly, [], chunks) == Outcome(Ranges(out), [], true)
  {
    hide IsMpeg2Packet, Framed, DeliveryOf, Mpeg2Payload;
    forall k | 0 <= k < |ps|
      ensures Framed(PayloadOnly, ps[k]) && Range(out[k]) == DeliveryOf(PayloadOnly, ps[k])
    {
      assert IsMpeg2Packet(ps[k]);
      Mpeg2IsFramed(ps[k]);
    }
    FramesRun(PayloadOnly, ps, Ranges(out));
    ChunkingIndependence(PayloadOnly, Concat(ps), chunks);
  }

  // ---------------------------------------------------------------- MPEG-1 headers

  /** Stuffing, an optional STD buffer field of two bytes, and time stamps or the single byte without any. */
  datatype Mpeg1 = Mpeg1(id: byte, stuffing: nat, std: seq<byte>, stamps: seq<byte>, payload: seq<byte>)

  predicate ValidMpeg1(m: Mpeg1) {
    && (|m.std| == 0 || (|m.std| == 2 && m.std[0] / 64 == 1))
    && ((|m.stamps| == 5 && m.stamps[0] / 16 == 2) || (|m.stamps| == 10 && m.stamps[0] / 16 == 3)
        || (|m.stamps| == 1 && m.stamps[0] / 16 < 2))
    && |Mpeg1Body(m)| < 0xFFFF
  }

  function Stuffing(n: nat): (s: seq<byte>)
    ensures |s| == n && forall i :: 0 <= i < n ==> s[i] == 0xFF
  {
    if n == 0 then [] else [0xFF] + Stuffing(n - 1)
  }

  function Mpeg1Body(m: Mpeg1): seq<byte> {
    Stuffing(m.stuffing) + m.std + m.stamps + m.payload
  }

  function Mpeg1Packet(m: Mpeg1): seq<byte>
    requires ValidMpeg1(m)
  {
    MakePacket(m.id, Mpeg1Body(m))
  }

  lemma {:induction false} SkipsStuffing(p: seq<byte>, i: nat, a: nat, n: nat)
    requires i <= a < n <= |p| && p[a] != 0xFF && forall k :: i <= k < a ==> p[k] == 0xFF
    ensures SkipStuffing(p, i, n) == a
    decreases a - i
  {
    if i < a { SkipsStuffing(p, i + 1, a, n); }
  }

  /** The byte that ends the stuffing. */
  function Mark(m: Mpeg1): byte
    requires ValidMpeg1(m)
  {
    if m.std == [] then m.stamps[0] else m.std[0]
  }

  lemma Mpeg1Layout(m: Mpeg1)
    requires ValidMpeg1(m)
    ensures var p, a := Mpeg1Packet(m), 6 + m.stuffing;
            && PacketLength(p) == |Mpeg1Body(m)| && |p| == |Mpeg1Body(m)| + 6
            && a + |m.std| + |m.stamps| + |m.payload| == |p|
            && (forall k :: 6 <= k < a ==> p[k] == 0xFF)
            && p[a] == Mark(m) && p[a + |m.std|] == m.stamps[0]
            && p[|p| - |m.payload|..] == m.payload
  {
    var body, p, a := Mpeg1Body(m), Mpeg1Packet(m), 6 + m.stuffing;
    assert p[6..] == body;
    forall k | 6 <= k < |p| ensures p[k] == body[k - 6] {}
    assert body[m.stuffing] == Mark(m) && body[m.stuffing + |m.std|] == m.stamps[0];
    assert body[|body| - |m.payload|..] == m.payload;
    DropDrop(p, 6, |body| - |m.payload|);
  }

  /** The header's end is searched in as many bytes as the length field says, six fewer than the packet has. */
  predicate SearchReaches(m: Mpeg1) {
    6 + m.stuffing < |Mpeg1Body(m)|
  }

  /** The header of an MPEG-1 packet is found to end where its payload begins, exactly if the search gets there. */
  lemma Mpeg1HeaderEnds(m: Mpeg1)
    requires ValidMpeg1(m)
    ensures var p := Mpeg1Packet(m);
            && PacketLength(p) == |Mpeg1Body(m)| == |p| - 6
            && (Mpeg2Marked(p) ==> |p| >= 9)
            && (HeaderLength(p, PacketLength(p)) == |p| - |m.payload| <==> SearchReaches(m))
            && p[|p| - |m.payload|..] == m.payload
  {
    hide Mpeg1Packet, Mpeg1Body, PacketLength, SkipStuffing;
    Mpeg1Layout(m);
    var p := Mpeg1Packet(m);
    assert Mark(m) != 0xFF;
    if SearchReaches(m) { SkipsStuffing(p, 6, 6 + m.stuffing, PacketLength(p)); }
  }

  /** What is delivered of an MPEG-1 packet is its payload if and only if the search reaches the header's end. */
  lemma Mpeg1PayloadIff(m: Mpeg1)
    requires ValidMpeg1(m)
    ensures Framed(PayloadOnly, Mpeg1Packet(m))
    ensures DeliveryOf(PayloadOnly, Mpeg1Packet(m)) == Range(m.payload) <==> SearchReaches(m)
  {
    hide HeaderLength, Mpeg1Body, Mpeg1Packet, PacketLength, StrictStep, FindStart, SearchReaches, IsPacket, ValidMpeg1;
    Mpeg1HeaderEnds(m);
    Mpeg1IsPacket(m);
    var p := Mpeg1Packet(m);
    BoundedPacketStep(p);
    var h := HeaderLength(p, PacketLength(p));
    assert h <= |p| ==> p[h..|p|] == p[h..];
  }

  lemma Mpeg1IsPacket(m: Mpeg1)
    requires ValidMpeg1(m)
    ensures IsPacket(Mpeg1Packet(m)) && PacketLength(Mpeg1Packet(m)) >= 1 && |m.payload| <= |Mpeg1Packet(m)|
  {
  }

  /** In payload mode MPEG-1 packets come back without their headers as well. */
  lemma Mpeg1RoundTrip(ms: seq<Mpeg1>, ps: seq<seq<byte>>, out: seq<seq<byte>>, chunks: seq<seq<byte>>)
    requires |ps| == |out| == |ms|
    requires forall k :: 0 <= k < |ms| ==> ValidMpeg1(ms[k]) && SearchReaches(ms[k])
    requires forall k :: 0 <= k < |ms| ==> ps[k] == Mpeg1Packet(ms[k]) && out[k] == ms[k].payload
    requires Concat(chunks) == Concat(ps)
    ensures FeedAll(PayloadOnly, [], chunks) == Outcome(Ranges(out), [], true)
  {
    forall k | 0 <= k < |ps|
      ensures Framed(PayloadOnly, ps[k]) && Range(out[k]) == DeliveryOf(PayloadOnly, ps[k])
    {
      Mpeg1PayloadIff(ms[k]);
    }
    FramesRun(PayloadOnly, ps, Ranges(out));
    ChunkingIndependence(PayloadOnly, Concat(ps), chunks);
  }

  /** A body of six bytes, two of them stuffing, is handed out with its header. */
  lemma ShortMpeg1KeepsHeader()
    ensures var m := Mpeg1(0xC0, 2, [], [0x0F], [1, 2, 3]);
            && ValidMpeg1(m) && !SearchReaches(m)
            && Framed(PayloadOnly, Mpeg1Packet(m))
            && DeliveryOf(PayloadOnly, Mpeg1Packet(m)) == Range([0xFF, 0xFF, 0x0F, 1, 2, 3])
  {
    var m := Mpeg1(0xC0, 2, [], [0x0F], [1, 2, 3]);
    assert Stuffing(2) == [0xFF, 0xFF];
    assert Mpeg1Body(m) == [0xFF, 0xFF, 0x0F, 1, 2, 3];
    var p := Mpeg1Packet(m);
    assert p == [0, 0, 1, 0xC0, 0, 6, 0xFF, 0xFF, 0x0F, 1, 2, 3];
    Mpeg1PayloadIff(m);
    BoundedPacketStep(p);
    assert p[6..12] == [0xFF, 0xFF, 0x0F, 1, 2, 3];
  }

  // ---------------------------------------------------------------- open-ended packets

  /** A packet of length 0 or 0xFFFF: two bytes of flags, a header of at most 255 bytes and a payload. */
  datatype Open = Open(id: byte, endless: bool, flags: (byte, byte), header: seq<byte>, payload: seq<byte>)

  function OpenPacket(m: Open): seq<byte>
    requires |m.header| < 256
  {
    (if m.endless then [0, 0, 1, m.id, 0xFF, 0xFF] else [0, 0, 1, m.id, 0, 0])
    + ([m.flags.0, m.flags.1, |m.header|] + m.header + m.payload)
  }

  /** There is no start code behind the length field. */
  predicate NoStartInside(p: seq<byte>) {
    forall k: nat :: 6 <= k && k + 2 < |p| ==> !StartCodeAt(p, k)
  }

  /** The length field says 0 or 0xFFFF, and the next packet begins only behind p. */
  predicate IsOpen(p: seq<byte>) {
    |p| >= 6 && StartCodeAt(p, 0) && (PacketLength(p) == 0 || PacketLength(p) == 0xFFFF) && NoStartInside(p)
  }

  /** At least the next start code and two more bytes. */
  predicate Begins(t: seq<byte>) {
    |t| >= 5 && StartCodeAt(t, 0)
  }

  lemma NextStartIsFound(p: seq<byte>, t: seq<byte>)
    requires IsOpen(p) && Begins(t)
    ensures FindStart(p + t, 0) == Some(0) && FindStart(p + t, 6) == Some(|p|)
    ensures |p| >= 6 && |p + t| >= 11 && PacketLength(p + t) == PacketLength(p)
    ensures PacketLength(p) == 0 || PacketLength(p) == 0xFFFF
  {
    var d := p + t;
    assert StartCodeAt(d, 0) && StartCodeAt(d, |p|);
    forall k: nat | 6 <= k < |p|
      ensures !StartCodeAt(d, k)
    {
      if k + 2 < |p| { assert !StartCodeAt(p, k); }
    }
    FindStartIs(d, 0, 0);
    FindStartIs(d, 6, |p|);
  }

  /**
   Once the next start code is there an open-ended packet is handed out from the end of its header
   on, and with a header that reaches behind the start code, empty.
   */
  lemma OpenThen(p: seq<byte>, t: seq<byte>)
    requires IsOpen(p) && Begins(t)
    ensures var body := 9 + (p + t)[8] as int;
            Run(PayloadOnly, p + t)
            == Then(Outcome([Range(if body <= |p| then p[body..] else [])], [], true), Run(PayloadOnly, t))
    ensures Safe(PayloadOnly, p + t) == Safe(PayloadOnly, t)
  {
    hide *;
    NextStartIsFound(p, t);
    var d := p + t;
    var body := 9 + d[8] as int;
    OpenStep(d, |p|);
    RunEmit(PayloadOnly, d);
    OpenRange(p, t, body);
    assert d[|p|..] == t;
  }

  lemma OpenRange(p: seq<byte>, t: seq<byte>, body: nat)
    ensures if body <= |p| then Handed(p + t, body, |p|) == Range(p[body..]) else Handed(p + t, |p|, |p|) == Range([])
  {
    if body <= |p| { assert (p + t)[body..|p|] == p[body..]; }
  }

  lemma OpenStep(d: seq<byte>, n: nat)
    requires 9 <= |d| && (PacketLength(d) == 0 || PacketLength(d) == 0xFFFF) && FindStart(d, 6) == Some(n)
    ensures var body := 9 + d[8] as int;
            StrictStep(PayloadOnly, d) == if body <= n then Emit(body, n, n) else Emit(n, n, n)
  {
  }

  lemma OpenPacketIs(m: Open)
    requires |m.header| < 256 && NoStartInside(OpenPacket(m))
    ensures var p := OpenPacket(m);
            && IsOpen(p) && |p| >= 9 && p[8] == |m.header| && 9 + |m.header| <= |p| && p[9 + |m.header|..] == m.payload
  {
  }

  /** Before the next start code and two more bytes have come nothing is delivered. */
  lemma OpenWaits(p: seq<byte>, t: seq<byte>, n: nat)
    requires IsOpen(p) && Begins(t) && n < 5
    ensures Run(PayloadOnly, p + t[..n]) == Outcome([], p + t[..n], true)
  {
    var d := p + t[..n];
    assert d[0..] == d && StartCodeAt(d, 0);
    if FindStart(d, 6).Some? {
      var k := FindStart(d, 6).value;
      if k + 2 < |p| { assert StartCodeAt(p, k); }
    }
    FindStartIs(d, 0, 0);
  }

  /**
   Open-ended packets back to back, the last one followed by the beginning of another packet, cut
   anyhow: each payload comes back exactly, in order, and the parser goes on with what follows.
   */
  lemma {:induction false} OpenRoundTrip(ms: seq<Open>, ps: seq<seq<byte>>, out: seq<seq<byte>>, t: seq<byte>)
    requires |ps| == |out| == |ms| && Begins(t)
    requires forall k :: 0 <= k < |ms| ==> |ms[k].header| < 256 && NoStartInside(OpenPacket(ms[k]))
    requires forall k :: 0 <= k < |ms| ==> ps[k] == OpenPacket(ms[k]) && out[k] == ms[k].payload
    ensures Run(PayloadOnly, Concat(ps) + t) == Then(Outcome(Ranges(out), [], true), Run(PayloadOnly, t))
    ensures Safe(PayloadOnly, Concat(ps) + t) == Safe(PayloadOnly, t)
  {
    hide Run, Safe, OpenPacket, NoStartInside, Begins, FindStart;
    if ms == [] {
      assert Concat(ps) + t == t;
      ThenUnit([], Run(PayloadOnly, t));
    } else {
      OpenRoundTrip(ms[1..], ps[1..], out[1..], t);
      var rest := Concat(ps[1..]) + t;
      assert Concat(ps) + t == ps[0] + rest;
      if |ms| > 1 {
        assert rest == ps[1] + (Concat(ps[1..][1..]) + t);
        PacketBegins(ms[1], Concat(ps[1..][1..]) + t);
      } else {
        assert rest == t;
      }
      OneOpen(ms[0], rest);
      assert Ranges(out) == [Range(out[0])] + Ranges(out[1..]);
      ThenAssoc(Range(out[0]), Outcome(Ranges(out[1..]), [], true), Run(PayloadOnly, t));
    }
  }

  lemma PacketBegins(m: Open, rest: seq<byte>)
    requires |m.header| < 256
    ensures Begins(OpenPacket(m) + rest)
  {
  }

  lemma OneOpen(m: Open, rest: seq<byte>)
    requires |m.header| < 256 && NoStartInside(OpenPacket(m)) && Begins(rest)
    ensures Run(PayloadOnly, OpenPacket(m) + rest)
         == Then(Outcome([Range(m.payload)], [], true), Run(PayloadOnly, rest))
    ensures Safe(PayloadOnly, OpenPacket(m) + rest) == Safe(PayloadOnly, rest)
  {
    hide Run, Safe, OpenPacket, NoStartInside, Begins, FindStart, IsOpen;
    OpenPacketIs(m);
    OpenThen(OpenPacket(m), rest);
  }

  /** The same for every cut into calls. */
  lemma ChunkedOpenRoundTrip(ms: seq<Open>, ps: seq<seq<byte>>, out: seq<seq<byte>>, t: seq<byte>,
                             chunks: seq<seq<byte>>)
    requires |ps| == |out| == |ms| && Begins(t) && Safe(PayloadOnly, t)
    requires forall k :: 0 <= k < |ms| ==> |ms[k].header| < 256 && NoStartInside(OpenPacket(ms[k]))
    requires forall k :: 0 <= k < |ms| ==> ps[k] == OpenPacket(ms[k]) && out[k] == ms[k].payload
    requires Concat(chunks) == Concat(ps) + t
    ensures FeedAll(PayloadOnly, [], chunks) == Then(Outcome(Ranges(out), [], true), Run(PayloadOnly, t))
  {
    hide Run, Safe, OpenPacket, NoStartInside, Begins, FeedAll;
    OpenRoundTrip(ms, ps, out, t);
    ChunkingIndependence(PayloadOnly, Concat(ps) + t, chunks);
  }

  // ---------------------------------------------------------------- headers that do not fit

  /** A header that claims more than its packet has is handed out as a negative length, whatever the cut. */
  lemma OverlongIsDelivered(chunks: seq<seq<byte>>)
    requires Concat(chunks) == [0, 0, 1, 0xE0, 0, 3, 0x80, 0, 1]
    ensures FeedAll(PayloadOnly, [], chunks) == Outcome([Overlong(1)], [], true)
  {
    var p: seq<byte> := [0, 0, 1, 0xE0, 0, 3, 0x80, 0, 1];
    assert StartCodeAt(p, 0) && p[0..] == p && p[9..] == [];
    assert StrictStep(PayloadOnly, p) == Emit(10, 9, 9);
    assert Safe(PayloadOnly, []) && Run(PayloadOnly, []) == Outcome([], [], true);
    RunEmit(PayloadOnly, p);
    ChunkingIndependence(PayloadOnly, p, chunks);
  }

  /**
   Why lengths of 1 and 2 are excluded in payload mode: what is handed out depends on a byte
   behind the packet, which need not have been received.
   */
  lemma ShortMpeg2DependsOnCut(x: byte, y: byte)
    ensures var head: seq<byte> := [0, 0, 1, 0xE0, 0, 1, 0x80];
            && FeedAll(PayloadOnly, [], [head + [x, y]]).ok
            && FeedAll(PayloadOnly, [], [head + [x, y]]).delivered == [Overlong(2 + y as int)]
            && !FeedAll(PayloadOnly, [], [head, [x, y]]).ok
  {
    hide Run, PacketStep;
    var head: seq<byte> := [0, 0, 1, 0xE0, 0, 1, 0x80];
    var d := head + [x, y];
    ShortMpeg2Steps(x, y);
    OneThenQuiet(PayloadOnly, d, 9 + y as int, 7, 7);
    FaultsAtOnce(PayloadOnly, head);
    assert [] + d == d && [] + head == head;
    assert Feed(PayloadOnly, [], d) == Run(PayloadOnly, d);
    assert Feed(PayloadOnly, [], head) == Run(PayloadOnly, head);
  }

  lemma ShortMpeg2Steps(x: byte, y: byte)
    ensures var head: seq<byte> := [0, 0, 1, 0xE0, 0, 1, 0x80];
            var d := head + [x, y];
            && FindStart(d, 0) == Some(0) && PacketStep(PayloadOnly, d) == Emit(9 + y as int, 7, 7)
            && FindStart(d[7..], 0).None?
            && FindStart(head, 0) == Some(0) && PacketStep(PayloadOnly, head) == Fault
  {
    var head: seq<byte> := [0, 0, 1, 0xE0, 0, 1, 0x80];
    var d := head + [x, y];
    assert StartCodeAt(d, 0) && StartCodeAt(head, 0);
  }

  /** A run that delivers once and finds no further start code. */
  lemma OneThenQuiet(mode: Mode, d: seq<byte>, from: nat, to: nat, next: nat)
    requires FindStart(d, 0) == Some(0) && PacketStep(mode, d) == Emit(from, to, next)
    requires FindStart(d[next..], 0).None?
    ensures to <= |d| && Run(mode, d) == Outcome([Handed(d, from, to)], d[next..], true)
  {
    hide PacketStep, FindStart;
    assert d[0..] == d;
    assert Run(mode, d[next..]) == Outcome([], d[next..], true);
  }

  lemma FaultsAtOnce(mode: Mode, d: seq<byte>)
    requires FindStart(d, 0) == Some(0) && PacketStep(mode, d) == Fault
    ensures Run(mode, d) == Outcome([], d, false)
  {
    hide PacketStep, FindStart;
    assert d[0..] == d;
  }

  /**
   Why 0xFFFF is excluded in whole-packet mode: the same six bytes ask for more than there is when
   they come alone, and part of a 65541-byte delivery when everything is there.
   */
  lemma UnboundedLengthDependsOnCut(tail: seq<byte>)
    requires |tail| == 0xFFFF
    ensures var head: seq<byte> := [0, 0, 1, 0xE0, 0xFF, 0xFF];
            && FeedAll(WholePacket, [], [head + tail]) == Outcome([Range(head + tail)], [], true)
            && !FeedAll(WholePacket, [], [head, tail]).ok
  {
    var head: seq<byte> := [0, 0, 1, 0xE0, 0xFF, 0xFF];
    var d := head + tail;
    assert StartCodeAt(d, 0) && StartCodeAt(head, 0);
    assert PacketLength(d) == 0xFFFF && PacketLength(head) == 0xFFFF;
    assert d[0..] == d && d[|d|..] == [] && d[0..|d|] == d && head[0..] == head;
    assert Run(WholePacket, d) == Outcome([Range(d)] + [], [], true);
    assert [] + d == d && [] + head == head;

    assert Feed(WholePacket, [], d) == Run(WholePacket, d);
    assert Feed(WholePacket, [], head) == Run(WholePacket, head);
  }
}
