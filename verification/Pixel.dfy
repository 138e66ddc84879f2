/** Pixel formats: bytes, pixel values and colours. */
module Pixel {
  import opened Bytes

  datatype Kind = Palette256
                | Bgra4444 | Argb4444 | Bgra5551 | Argb1555 | Bgr565 | Rgb565 | Bgr888 | Rgb888
                | Bgra8888 | Argb8888 | Rgba8888 | Abgr8888
                | Yuv420 | Yuv422 | Yuv444

  predicate IsYuv(k: Kind) {
    k.Yuv420? || k.Yuv422? || k.Yuv444?
  }

  /** Mask in the pixel, position in the pixel, and missing low bits in the colour component. */
  datatype Channel = Channel(mask: nat, offset: nat, shift: nat)

  /** Components are uint8_t values. */
  datatype Color = Color(r: byte, g: byte, b: byte, a: byte)

  datatype Format = Format(kind: Kind, bpp: nat, a: Channel, r: Channel, g: Channel, b: Channel, palette: seq<Color>)

  const NONE := Channel(0, 0, 0)

  /** The rows of the format table on a little-endian machine. */
  function Row(k: Kind, palette: seq<Color>): Format {
    match k
    case Palette256 => Format(k, 1, NONE, NONE, NONE, NONE, palette)
    case Bgra4444 =>
      Format(k, 2, Channel(0xF000, 12, 4), Channel(0x0F00, 8, 4),
             Channel(0x00F0, 4, 4), Channel(0x000F, 0, 4), [])
    case Argb4444 =>
      Format(k, 2, Channel(0x000F, 0, 4), Channel(0x00F0, 4, 4),
             Channel(0x0F00, 8, 4), Channel(0xF000, 12, 4), [])
    case Bgra5551 =>
      Format(k, 2, Channel(0x8000, 15, 7), Channel(0x7C00, 10, 3),
             Channel(0x03E0, 5, 3), Channel(0x001F, 0, 3), [])
    case Argb1555 =>
      Format(k, 2, Channel(0x0001, 0, 7), Channel(0x003E, 1, 3),
             Channel(0x07C0, 6, 3), Channel(0xF800, 11, 3), [])
    case Bgr565 =>
      Format(k, 2, NONE, Channel(0xF800, 11, 3),
             Channel(0x07E0, 5, 2), Channel(0x001F, 0, 3), [])
    case Rgb565 =>
      Format(k, 2, NONE, Channel(0x001F, 0, 3),
             Channel(0x07E0, 5, 2), Channel(0xF800, 11, 3), [])
    case Bgr888 =>
      Format(k, 3, NONE, Channel(0xFF0000, 16, 0),
             Channel(0x00FF00, 8, 0), Channel(0x0000FF, 0, 0), [])
    case Rgb888 =>
      Format(k, 3, NONE, Channel(0x0000FF, 0, 0),
             Channel(0x00FF00, 8, 0), Channel(0xFF0000, 16, 0), [])
    case Bgra8888 =>
      Format(k, 4, Channel(0xFF000000, 24, 0), Channel(0x00FF0000, 16, 0),
             Channel(0x0000FF00, 8, 0), Channel(0x000000FF, 0, 0), [])
    case Argb8888 =>
      Format(k, 4, Channel(0x000000FF, 0, 0), Channel(0x0000FF00, 8, 0),
             Channel(0x00FF0000, 16, 0), Channel(0xFF000000, 24, 0), [])
    case Rgba8888 =>
      Format(k, 4, Channel(0xFF000000, 24, 0), Channel(0x000000FF, 0, 0),
             Channel(0x0000FF00, 8, 0), Channel(0x00FF0000, 16, 0), [])
    case Abgr8888 =>
      Format(k, 4, Channel(0x000000FF, 0, 0), Channel(0xFF000000, 24, 0),
             Channel(0x00FF0000, 16, 0), Channel(0x0000FF00, 8, 0), [])
    case Yuv420 => Format(k, 1, NONE, NONE, NONE, NONE, [])
    case Yuv422 => Format(k, 1, NONE, NONE, NONE, NONE, [])
    case Yuv444 => Format(k, 1, NONE, NONE, NONE, NONE, [])
  }

  predicate InTable(f: Format) {
    f == Row(f.kind, f.palette)
  }

  // ---------------------------------------------------------------- pixels and colours

  function Pow2(n: nat): (p: nat)
    ensures p >= 1
  {
    if n == 0 then 1 else 2 * Pow2(n - 1)
  }

  /** The channel's bits are a run from offset on; this is how many values they have. */
  function Values(c: Channel): (n: nat)
    ensures n >= 1
  {
    c.mask / Pow2(c.offset) + 1
  }

  /** (pix & mask) >> offset for a mask that is a run of bits from offset on. */
  function Extract(c: Channel, pix: nat): nat {
    pix / Pow2(c.offset) % Values(c)
  }

  /** AM_RGB_PIXEL_TO_COLOR_COMPONENT, stored in a uint8_t. */
  function Component(c: Channel, pix: nat): byte {
    Extract(c, pix) * Pow2(c.shift) % 256
  }

  /** AM_COLOR_COMPONENT_TO_RGB_PIXEL */
  function Bits(c: Channel, v: byte): nat {
    v / Pow2(c.shift) % Values(c) * Pow2(c.offset)
  }

  /** AM_RGB_PIXEL_TO_COLOR */
  function ToColor(f: Format, pix: nat): Color {
    Color(Component(f.r, pix), Component(f.g, pix), Component(f.b, pix),
          if f.a.mask != 0 then Component(f.a, pix) else 0xFF)
  }

  /** AM_COLOR_TO_RGB_PIXEL; the channels do not overlap, so their or is their sum. */
  function ToPixel(f: Format, col: Color): nat {
    Bits(f.r, col.r) + Bits(f.g, col.g) + Bits(f.b, col.b) + Bits(f.a, col.a)
  }

  // ---------------------------------------------------------------- the table's masks

  /** The mask is a run of bits from offset on, and a component fits into eight bits. */
  predicate Sound(c: Channel) {
    c.mask == (Values(c) - 1) * Pow2(c.offset) && Values(c) * Pow2(c.shift) <= 256
  }

  lemma Powers()
    ensures Pow2(0) == 1 && Pow2(1) == 2 && Pow2(2) == 4 && Pow2(3) == 8 && Pow2(4) == 0x10 && Pow2(5) == 0x20
    ensures Pow2(6) == 0x40 && Pow2(7) == 0x80 && Pow2(8) == 0x100 && Pow2(10) == 0x400 && Pow2(11) == 0x800
    ensures Pow2(12) == 0x1000 && Pow2(15) == 0x8000 && Pow2(16) == 0x1_0000 && Pow2(24) == 0x100_0000
  {
  }

  lemma MulOrder(a: int, b: int, c: nat)
    ensures a <= b ==> a * c <= b * c
    ensures a < b && c > 0 ==> a * c < b * c
  {
    if a <= b { assert (b - a) * c >= 0; }
  }

  lemma DivOfProduct(a: nat, b: nat)
    requires b > 0
    ensures a * b / b == a
  {
    var q := a * b / b;
    if q < a { MulOrder(q + 1, a, b); }
    if q > a { MulOrder(a + 1, q, b); }
  }

  /** One channel there and back gives the channel's own bits of the pixel. */
  lemma ChannelRoundTrip(c: Channel, pix: nat)
    requires Sound(c)
    ensures Bits(c, Component(c, pix)) == Extract(c, pix) * Pow2(c.offset)
  {
    var e, n, p := Extract(c, pix), Values(c), Pow2(c.shift);
    ThereAndBack(e, n, p);
  }

  lemma ThereAndBack(e: nat, n: nat, p: nat)
    requires e < n && p > 0 && n * p <= 256
    ensures e * p % 256 / p % n == e
  {
    MulOrder(e, n, p);
    MulOrder(0, e, p);
    DivOfProduct(e, p);
    SmallMod(e * p, 256);
    SmallMod(e, n);
  }

  lemma SmallMod(a: nat, n: nat)
    requires a < n
    ensures a % n == a
  {
  }

  /** A channel's share of a pixel value. */
  function Weight(c: Channel, pix: nat): nat {
    Extract(c, pix) * Pow2(c.offset)
  }

  function Covered(f: Format, pix: nat): nat {
    Weight(f.r, pix) + Weight(f.g, pix) + Weight(f.b, pix) + Weight(f.a, pix)
  }

  /** The pixel values that fit into the bytes of a pixel. */
  predicate Fits(bpp: nat, pix: nat) {
    (bpp == 1 && pix < 0x100) || (bpp == 2 && pix < 0x1_0000) || (bpp == 3 && pix < 0x100_0000)
    || (bpp == 4 && pix < 0x1_0000_0000)
  }

  /** The channel has n values, unit is its lowest bit. */
  predicate Has(c: Channel, unit: nat, n: nat) {
    Pow2(c.offset) == unit && Values(c) == n && Sound(c)
  }

  lemma HasIs(c: Channel, unit: nat, n: nat)
    requires n >= 1 && unit == Pow2(c.offset) && c.mask == (n - 1) * unit && n * Pow2(c.shift) <= 256
    ensures Has(c, unit, n)
  {
    DivOfProduct(n - 1, unit);
  }

  lemma NothingWeighsNothing(c: Channel, pix: nat)
    requires c.mask == 0
    ensures Weight(c, pix) == 0 && Bits(c, 0xFF) == 0
  {
    ZeroDiv(Pow2(c.offset));
  }

  lemma ZeroDiv(n: nat)
    requires n > 0
    ensures 0 / n == 0
  {
  }

  lemma QuotientIs(p: nat, d: nat, q: nat)
    requires d > 0 && q * d <= p < (q + 1) * d
    ensures p / d == q
  {
    var e := p / d;
    if e < q { MulOrder(e + 1, q, d); }
    if e > q { MulOrder(q + 1, e, d); }
  }

  /** What lies above a channel's unit is the channel's own share and what lies above the next unit. */
  lemma ShareAndRest(c: Channel, pix: nat, unit: nat, n: nat)
    requires Has(c, unit, n)
    ensures unit * n > 0 && pix / unit * unit == Weight(c, pix) + pix / (unit * n) * (unit * n)
  {
    hide *;
    WeightIs(c, pix, unit, n);
    ShareOf(pix, unit, n);
  }

  lemma WeightIs(c: Channel, pix: nat, unit: nat, n: nat)
    requires Has(c, unit, n)
    ensures unit > 0 && n > 0 && Weight(c, pix) == pix / unit % n * unit
  {
  }

  lemma ShareOf(pix: nat, unit: nat, n: nat)
    requires unit > 0 && n > 0
    ensures unit * n > 0 && pix / unit * unit == pix / unit % n * unit + pix / (unit * n) * (unit * n)
  {
    Above(pix, unit, n);
    DivMod(pix / unit, n);
    Regroup(pix / unit / n, n, pix / unit % n, unit);
  }

  lemma DivMod(q: nat, n: nat)
    requires n > 0
    ensures q == q / n * n + q % n
  {
  }

  lemma Regroup(k: nat, n: nat, r: nat, u: nat)
    ensures (k * n + r) * u == r * u + k * (u * n)
  {
  }

  lemma Above(p: nat, u: nat, n: nat)
    requires u > 0 && n > 0
    ensures u * n > 0 && p / (u * n) == p / u / n
  {
    var q := p / u;
    var k := q / n;
    DivBounds(p, u, q);
    DivBounds(q, n, k);
    MulOrder(0, u, n);
    MulOrder(k * n, q, u);
    MulOrder(q + 1, (k + 1) * n, u);
    Regroup(k, n, 0, u);
    Regroup(k + 1, n, 0, u);
    QuotientIs(p, u * n, k);
  }

  lemma DivBounds(p: nat, d: nat, q: nat)
    requires d > 0 && q == p / d
    ensures q * d <= p < (q + 1) * d
  {
  }

  /** Channels that lie edge to edge from bit 0 to the top cover a pixel exactly. */
  lemma FourTile(pix: nat, c1: Channel, n1: nat, c2: Channel, n2: nat, c3: Channel, n3: nat, c4: Channel, n4: nat,
                 u2: nat, u3: nat, u4: nat)
    requires Has(c1, 1, n1) && Has(c2, u2, n2) && Has(c3, u3, n3) && Has(c4, u4, n4)
    requires u2 == n1 && u3 == u2 * n2 && u4 == u3 * n3 && pix < u4 * n4
    ensures Weight(c1, pix) + Weight(c2, pix) + Weight(c3, pix) + Weight(c4, pix) == pix
  {
    hide Has, Weight;
    ShareAndRest(c1, pix, 1, n1);
    ShareAndRest(c2, pix, u2, n2);
    ShareAndRest(c3, pix, u3, n3);
    ShareAndRest(c4, pix, u4, n4);
    QuotientIs(pix, u4 * n4, 0);
  }

  lemma ThreeTile(pix: nat, c1: Channel, n1: nat, c2: Channel, n2: nat, c3: Channel, n3: nat, u2: nat, u3: nat)
    requires Has(c1, 1, n1) && Has(c2, u2, n2) && Has(c3, u3, n3)
    requires u2 == n1 && u3 == u2 * n2 && pix < u3 * n3
    ensures Weight(c1, pix) + Weight(c2, pix) + Weight(c3, pix) == pix
  {
    hide Has, Weight;
    ShareAndRest(c1, pix, 1, n1);
    ShareAndRest(c2, pix, u2, n2);
    ShareAndRest(c3, pix, u3, n3);
    QuotientIs(pix, u3 * n3, 0);
  }

  /** Every channel of the row is sound, and the row covers its pixels exactly or, for YUV, not at all. */
  ghost predicate RowFacts(f: Format, pix: nat) {
    && Sound(f.r) && Sound(f.g) && Sound(f.b) && Sound(f.a)
    && Covered(f, pix) == if IsYuv(f.kind) then 0 else pix
  }

  lemma FactsOfRow(f: Format, pix: nat)
    requires InTable(f) && !f.kind.Palette256? && Fits(f.bpp, pix)
    ensures RowFacts(f, pix)
  {
    hide RowFacts;
    match f.kind
    case Bgra4444 => FactsBgra4444(f, pix);
    case Argb4444 => FactsArgb4444(f, pix);
    case Bgra5551 => FactsBgra5551(f, pix);
    case Argb1555 => FactsArgb1555(f, pix);
    case Bgr565 => FactsBgr565(f, pix);
    case Rgb565 => FactsRgb565(f, pix);
    case Bgr888 => FactsBgr888(f, pix);
    case Rgb888 => FactsRgb888(f, pix);
    case Bgra8888 => FactsBgra8888(f, pix);
    case Argb8888 => FactsArgb8888(f, pix);
    case Rgba8888 => FactsRgba8888(f, pix);
    case Abgr8888 => FactsAbgr8888(f, pix);
    case Yuv420 => FactsYuv(f, pix);
    case Yuv422 => FactsYuv(f, pix);
    case Yuv444 => FactsYuv(f, pix);
  }

  lemma FactsYuv(f: Format, pix: nat)
    requires InTable(f) && IsYuv(f.kind)
    ensures RowFacts(f, pix)
  {
  }

  lemma FactsBgra4444(f: Format, pix: nat)
    requires InTable(f) && f.kind.Bgra4444? && pix < 0x1_0000
    ensures RowFacts(f, pix)
  {
    hide Extract, Weight, Pow2, Values;
    Powers();
    HasIs(f.b, 0x1, 16);
    HasIs(f.g, 0x10, 16);
    HasIs(f.r, 0x100, 16);
    HasIs(f.a, 0x1000, 16);
    FourTile(pix, f.b, 16, f.g, 16, f.r, 16, f.a, 16, 0x10, 0x100, 0x1000);
  }

  lemma FactsArgb4444(f: Format, pix: nat)
    requires InTable(f) && f.kind.Argb4444? && pix < 0x1_0000
    ensures RowFacts(f, pix)
  {
    hide Extract, Weight, Pow2, Values;
    Powers();
    HasIs(f.a, 0x1, 16);
    HasIs(f.r, 0x10, 16);
    HasIs(f.g, 0x100, 16);
    HasIs(f.b, 0x1000, 16);
    FourTile(pix, f.a, 16, f.r, 16, f.g, 16, f.b, 16, 0x10, 0x100, 0x1000);
  }

  lemma FactsBgra5551(f: Format, pix: nat)
    requires InTable(f) && f.kind.Bgra5551? && pix < 0x1_0000
    ensures RowFacts(f, pix)
  {
    hide Extract, Weight, Pow2, Values;
    Powers();
    HasIs(f.b, 0x1, 32);
    HasIs(f.g, 0x20, 32);
    HasIs(f.r, 0x400, 32);
    HasIs(f.a, 0x8000, 2);
    FourTile(pix, f.b, 32, f.g, 32, f.r, 32, f.a, 2, 0x20, 0x400, 0x8000);
  }

  lemma FactsArgb1555(f: Format, pix: nat)
    requires InTable(f) && f.kind.Argb1555? && pix < 0x1_0000
    ensures RowFacts(f, pix)
  {
    hide Extract, Weight, Pow2, Values;
    Powers();
    HasIs(f.a, 0x1, 2);
    HasIs(f.r, 0x2, 32);
    HasIs(f.g, 0x40, 32);
    HasIs(f.b, 0x800, 32);
    FourTile(pix, f.a, 2, f.r, 32, f.g, 32, f.b, 32, 0x2, 0x40, 0x800);
  }

  lemma FactsBgr565(f: Format, pix: nat)
    requires InTable(f) && f.kind.Bgr565? && pix < 0x1_0000
    ensures RowFacts(f, pix)
  {
    hide Extract, Weight, Pow2, Values;
    Powers();
    HasIs(f.b, 0x1, 32);
    HasIs(f.g, 0x20, 64);
    HasIs(f.r, 0x800, 32);
    HasIs(f.a, 1, 1);
    NothingWeighsNothing(f.a, pix);
    ThreeTile(pix, f.b, 32, f.g, 64, f.r, 32, 0x20, 0x800);
  }

  lemma FactsRgb565(f: Format, pix: nat)
    requires InTable(f) && f.kind.Rgb565? && pix < 0x1_0000
    ensures RowFacts(f, pix)
  {
    hide Extract, Weight, Pow2, Values;
    Powers();
    HasIs(f.r, 0x1, 32);
    HasIs(f.g, 0x20, 64);
    HasIs(f.b, 0x800, 32);
    HasIs(f.a, 1, 1);
    NothingWeighsNothing(f.a, pix);
    ThreeTile(pix, f.r, 32, f.g, 64, f.b, 32, 0x20, 0x800);
  }

  lemma FactsBgr888(f: Format, pix: nat)
    requires InTable(f) && f.kind.Bgr888? && pix < 0x100_0000
    ensures RowFacts(f, pix)
  {
    hide Extract, Weight, Pow2, Values;
    Powers();
    HasIs(f.b, 0x1, 256);
    HasIs(f.g, 0x100, 256);
    HasIs(f.r, 0x1_0000, 256);
    HasIs(f.a, 1, 1);
    NothingWeighsNothing(f.a, pix);
    ThreeTile(pix, f.b, 256, f.g, 256, f.r, 256, 0x100, 0x1_0000);
  }

  lemma FactsRgb888(f: Format, pix: nat)
    requires InTable(f) && f.kind.Rgb888? && pix < 0x100_0000
    ensures RowFacts(f, pix)
  {
    hide Extract, Weight, Pow2, Values;
    Powers();
    HasIs(f.r, 0x1, 256);
    HasIs(f.g, 0x100, 256);
    HasIs(f.b, 0x1_0000, 256);
    HasIs(f.a, 1, 1);
    NothingWeighsNothing(f.a, pix);
    ThreeTile(pix, f.r, 256, f.g, 256, f.b, 256, 0x100, 0x1_0000);
  }

  lemma FactsBgra8888(f: Format, pix: nat)
    requires InTable(f) && f.kind.Bgra8888? && pix < 0x1_0000_0000
    ensures RowFacts(f, pix)
  {
    hide Extract, Weight, Pow2, Values;
    Powers();
    HasIs(f.b, 0x1, 256);
    HasIs(f.g, 0x100, 256);
    HasIs(f.r, 0x1_0000, 256);
    HasIs(f.a, 0x100_0000, 256);
    FourTile(pix, f.b, 256, f.g, 256, f.r, 256, f.a, 256, 0x100, 0x1_0000, 0x100_0000);
  }

  lemma FactsArgb8888(f: Format, pix: nat)
    requires InTable(f) && f.kind.Argb8888? && pix < 0x1_0000_0000
    ensures RowFacts(f, pix)
  {
    hide Extract, Weight, Pow2, Values;
    Powers();
    HasIs(f.a, 0x1, 256);
    HasIs(f.r, 0x100, 256);
    HasIs(f.g, 0x1_0000, 256);
    HasIs(f.b, 0x100_0000, 256);
    FourTile(pix, f.a, 256, f.r, 256, f.g, 256, f.b, 256, 0x100, 0x1_0000, 0x100_0000);
  }

  lemma FactsRgba8888(f: Format, pix: nat)
    requires InTable(f) && f.kind.Rgba8888? && pix < 0x1_0000_0000
    ensures RowFacts(f, pix)
  {
    hide Extract, Weight, Pow2, Values;
    Powers();
    HasIs(f.r, 0x1, 256);
    HasIs(f.g, 0x100, 256);
    HasIs(f.b, 0x1_0000, 256);
    HasIs(f.a, 0x100_0000, 256);
    FourTile(pix, f.r, 256, f.g, 256, f.b, 256, f.a, 256, 0x100, 0x1_0000, 0x100_0000);
  }

  lemma FactsAbgr8888(f: Format, pix: nat)
    requires InTable(f) && f.kind.Abgr8888? && pix < 0x1_0000_0000
    ensures RowFacts(f, pix)
  {
    hide Extract, Weight, Pow2, Values;
    Powers();
    HasIs(f.a, 0x1, 256);
    HasIs(f.b, 0x100, 256);
    HasIs(f.g, 0x1_0000, 256);
    HasIs(f.r, 0x100_0000, 256);
    FourTile(pix, f.a, 256, f.b, 256, f.g, 256, f.r, 256, 0x100, 0x1_0000, 0x100_0000);
  }

  /** Pixel to colour to pixel is the identity for every RGB row of the table, and zero for every YUV row. */
  lemma PixelRoundTrip(f: Format, pix: nat)
    requires InTable(f) && !f.kind.Palette256? && Fits(f.bpp, pix)
    ensures ToPixel(f, ToColor(f, pix)) == if IsYuv(f.kind) then 0 else pix
  {
    hide Bits, Component, Extract, Pow2, Values, Sound, Row;
    FactsOfRow(f, pix);
    ChannelRoundTrip(f.r, pix);
    ChannelRoundTrip(f.g, pix);
    ChannelRoundTrip(f.b, pix);
    if f.a.mask != 0 {
      ChannelRoundTrip(f.a, pix);
    } else {
      NothingWeighsNothing(f.a, pix);
    }
  }

  // ---------------------------------------------------------------- pixels and bytes

  /** The pixel value in the first bpp bytes, least significant byte first. */
  function Get(bpp: nat, s: seq<byte>): nat
    requires 1 <= bpp <= 4 && |s| >= bpp
  {
    if bpp == 1 then s[0]
    else if bpp == 2 then s[1] as int * 0x100 + s[0] as int
    else if bpp == 3 then s[2] as int * 0x1_0000 + s[1] as int * 0x100 + s[0] as int
    else s[3] as int * 0x100_0000 + s[2] as int * 0x1_0000 + s[1] as int * 0x100 + s[0] as int
  }

  function Put(bpp: nat, pix: nat): (s: seq<byte>)
    requires 1 <= bpp <= 4
    ensures |s| == bpp
  {
    if bpp == 1 then [pix % 256]
    else if bpp == 2 then [pix % 256, pix / 0x100 % 256]
    else if bpp == 3 then [pix % 256, pix / 0x100 % 256, pix / 0x1_0000 % 256]
    else [pix % 256, pix / 0x100 % 256, pix / 0x1_0000 % 256, pix / 0x100_0000 % 256]
  }

  /** What is stored is what was read. */
  lemma BytesRoundTrip(bpp: nat, s: seq<byte>)
    requires 1 <= bpp <= 4 && |s| == bpp
    ensures Put(bpp, Get(bpp, s)) == s && Fits(bpp, Get(bpp, s))
  {
    if bpp == 2 { Digits(s[0], s[1], 0, 0); }
    if bpp == 3 { Digits(s[0], s[1], s[2], 0); }
    if bpp == 4 { Digits(s[0], s[1], s[2], s[3]); }
  }

  lemma Digits(a: byte, b: byte, c: byte, d: byte)
    ensures var p := d as int * 0x100_0000 + c as int * 0x1_0000 + b as int * 0x100 + a as int;
            p % 256 == a && p / 0x100 % 256 == b && p / 0x1_0000 % 256 == c && p / 0x100_0000 % 256 == d
  {
    var p := d as int * 0x100_0000 + c as int * 0x1_0000 + b as int * 0x100 + a as int;
    assert p / 0x100 == d as int * 0x1_0000 + c as int * 0x100 + b as int;
    assert p / 0x1_0000 == d as int * 0x100 + c as int;
    assert p / 0x100_0000 == d as int;
  }

  lemma ValueRoundTrip(bpp: nat, pix: nat)
    requires 1 <= bpp <= 4 && Fits(bpp, pix)
    ensures Get(bpp, Put(bpp, pix)) == pix
  {
    Above(pix, 0x100, 0x100);
    Above(pix, 0x1_0000, 0x100);
    if bpp <= 3 { QuotientIs(pix, 0x100_0000, 0); }
    if bpp <= 2 { QuotientIs(pix, 0x1_0000, 0); }
    if bpp <= 1 { QuotientIs(pix, 0x100, 0); }
  }

  /** The formats' names give the channels in memory order, or from the lowest bit up. */
  lemma NamesGiveOrder(r: byte, g: byte, b: byte, a: byte)
    ensures ToColor(Row(Argb8888, []), Get(4, [a, r, g, b])) == Color(r, g, b, a)
    ensures ToColor(Row(Bgra8888, []), Get(4, [b, g, r, a])) == Color(r, g, b, a)
    ensures ToColor(Row(Rgba8888, []), Get(4, [r, g, b, a])) == Color(r, g, b, a)
    ensures ToColor(Row(Abgr8888, []), Get(4, [a, b, g, r])) == Color(r, g, b, a)
    ensures ToColor(Row(Rgb888, []), Get(3, [r, g, b])) == Color(r, g, b, 0xFF)
    ensures ToColor(Row(Bgr888, []), Get(3, [b, g, r])) == Color(r, g, b, 0xFF)
  {
    hide Component, Get;
    ByteChannels(4, a, r, g, b);
    ByteChannels(4, b, g, r, a);
    ByteChannels(4, r, g, b, a);
    ByteChannels(4, a, b, g, r);
    ByteChannels(3, r, g, b, 0);
    ByteChannels(3, b, g, r, 0);
  }

  /** A channel of eight bits is a byte of the pixel. */
  lemma ByteChannels(bpp: nat, b0: byte, b1: byte, b2: byte, b3: byte)
    requires bpp == 4 || (bpp == 3 && b3 == 0)
    ensures var pix := Get(bpp, if bpp == 4 then [b0, b1, b2, b3] else [b0, b1, b2]);
            && Component(Channel(0xFF, 0, 0), pix) == b0 && Component(Channel(0xFF00, 8, 0), pix) == b1
            && Component(Channel(0xFF_0000, 16, 0), pix) == b2 && Component(Channel(0xFF00_0000, 24, 0), pix) == b3
  {
    hide Pow2, Component, Fits;
    Powers();
    Digits(b0, b1, b2, b3);
    var pix := Get(bpp, if bpp == 4 then [b0, b1, b2, b3] else [b0, b1, b2]);
    EightBits(0xFF, 0, 1, pix, b0);
    EightBits(0xFF00, 8, 0x100, pix, b1);
    EightBits(0xFF_0000, 16, 0x1_0000, pix, b2);
    EightBits(0xFF00_0000, 24, 0x100_0000, pix, b3);
  }

  lemma EightBits(mask: nat, offset: nat, unit: nat, pix: nat, v: byte)
    requires unit == Pow2(offset) && mask == 255 * unit && pix / unit % 256 == v
    ensures Component(Channel(mask, offset, 0), pix) == v
  {
    DivOfProduct(255, unit);
  }
}
