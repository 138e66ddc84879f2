/** What becomes of whole pixels, in terms of their colours: names, blending, palettes. */
module PixelLaws {
  import opened Bytes
  import opened Pixel
  import opened PixelOp

  // ---------------------------------------------------------------- colours and bytes

  predicate EightBits(k: Kind) {
    k.Argb8888? || k.Bgra8888? || k.Rgba8888? || k.Abgr8888? || k.Rgb888? || k.Bgr888?
  }

  /** The bytes of a colour, in the order the format's name gives. */
  function InMemory(k: Kind, c: Color): seq<byte>
    requires EightBits(k)
  {
    match k
    case Argb8888 => [c.a, c.r, c.g, c.b]
    case Bgra8888 => [c.b, c.g, c.r, c.a]
    case Rgba8888 => [c.r, c.g, c.b, c.a]
    case Abgr8888 => [c.a, c.b, c.g, c.r]
    case Rgb888 => [c.r, c.g, c.b]
    case Bgr888 => [c.b, c.g, c.r]
  }

  /** Formats without alpha are opaque. */
  function Seen(k: Kind, c: Color): Color {
    if k.Rgb888? || k.Bgr888? then c.(a := 0xFF) else c
  }

  lemma RowOf(k: Kind)
    requires EightBits(k)
    ensures var f := Row(k, []);
            && InTable(f) && f.kind == k && 3 <= f.bpp <= 4 && (f.bpp == 3 <==> k.Rgb888? || k.Bgr888?)
            && (f.bpp == 3 ==> f.a == NONE)
    ensures forall c: Color :: |InMemory(k, c)| == Row(k, []).bpp
  {
  }

  lemma ColorOfBytes(k: Kind, c: Color)
    requires EightBits(k)
    ensures 1 <= Row(k, []).bpp <= 4 && |InMemory(k, c)| == Row(k, []).bpp
    ensures ToColor(Row(k, []), Get(Row(k, []).bpp, InMemory(k, c))) == Seen(k, c)
  {
    hide ToColor, Get;
    NamesGiveOrder(c.r, c.g, c.b, c.a);
  }

  /** Storing a colour stores its components in that order. */
  lemma BytesOfColor(k: Kind, c: Color)
    requires EightBits(k)
    ensures 1 <= Row(k, []).bpp <= 4
    ensures Put(Row(k, []).bpp, ToPixel(Row(k, []), c)) == InMemory(k, c)
  {
    hide *;
    RowOf(k);
    ColorOfBytes(k, c);
    var f := Row(k, []);
    var pix := Get(f.bpp, InMemory(k, c));
    BytesRoundTrip(f.bpp, InMemory(k, c));
    NotYuv(k);
    PixelRoundTrip(f, pix);
    SeenIsStored(k, c);
  }

  lemma NotYuv(k: Kind)
    requires EightBits(k)
    ensures !IsYuv(k) && !k.Palette256?
  {
  }

  /** The alpha of an opaque format goes nowhere. */
  lemma SeenIsStored(k: Kind, c: Color)
    requires EightBits(k)
    ensures ToPixel(Row(k, []), Seen(k, c)) == ToPixel(Row(k, []), c)
  {
    hide Bits;
    NothingStored(c.a);
    NothingStored(0xFF);
  }

  lemma NothingStored(v: byte)
    ensures Bits(NONE, v) == 0
  {
    hide Pow2;
    Powers();
  }

  /** The 16-bit formats' names give their channels from the lowest bits up. */
  lemma NamesGiveNibbles(x0: nat, x1: nat, x2: nat, x3: nat)
    requires x0 < 16 && x1 < 16 && x2 < 16 && x3 < 16
    ensures var pix := Get(2, [x0 + 16 * x1, x2 + 16 * x3]);
            && ToColor(Row(Bgra4444, []), pix) == Color(16 * x2, 16 * x1, 16 * x0, 16 * x3)
            && ToColor(Row(Argb4444, []), pix) == Color(16 * x1, 16 * x2, 16 * x3, 16 * x0)
  {
    hide Component, Pow2;
    Powers();
    Nibbles(x0, x1, x2, x3);
    var pix := x0 + 16 * x1 + 256 * x2 + 4096 * x3;
    Digit(Channel(0x000F, 0, 4), pix, 1, 16, 16, x0);
    Digit(Channel(0x00F0, 4, 4), pix, 16, 16, 16, x1);
    Digit(Channel(0x0F00, 8, 4), pix, 256, 16, 16, x2);
    Digit(Channel(0xF000, 12, 4), pix, 4096, 16, 16, x3);
  }

  lemma Nibbles(x0: nat, x1: nat, x2: nat, x3: nat)
    requires x0 < 16 && x1 < 16 && x2 < 16 && x3 < 16
    ensures var pix := x0 + 16 * x1 + 256 * x2 + 4096 * x3;
            pix % 16 == x0 && pix / 16 % 16 == x1 && pix / 256 % 16 == x2 && pix / 4096 % 16 == x3
  {
    var pix := x0 + 16 * x1 + 256 * x2 + 4096 * x3;
    assert pix / 16 == x1 + 16 * x2 + 256 * x3;
    assert pix / 256 == x2 + 16 * x3;
    assert pix / 4096 == x3;
  }

  lemma NamesGiveFives(x0: nat, x1: nat, x2: nat, x3: nat)
    requires x0 < 32 && x1 < 32 && x2 < 32 && x3 < 2
    ensures ToColor(Row(Bgra5551, []), x0 + 32 * x1 + 1024 * x2 + 0x8000 * x3)
         == Color(8 * x2, 8 * x1, 8 * x0, 128 * x3)
  {
    hide Component, Pow2;
    Powers();
    Fives(x0, x1, x2, x3);
    var pix := x0 + 32 * x1 + 1024 * x2 + 0x8000 * x3;
    Digit(Channel(0x001F, 0, 3), pix, 1, 32, 8, x0);
    Digit(Channel(0x03E0, 5, 3), pix, 32, 32, 8, x1);
    Digit(Channel(0x7C00, 10, 3), pix, 1024, 32, 8, x2);
    Digit(Channel(0x8000, 15, 7), pix, 0x8000, 2, 128, x3);
  }

  lemma NamesGiveAlphaFirst(x0: nat, x1: nat, x2: nat, x3: nat)
    requires x0 < 2 && x1 < 32 && x2 < 32 && x3 < 32
    ensures ToColor(Row(Argb1555, []), x0 + 2 * x1 + 64 * x2 + 2048 * x3) == Color(8 * x1, 8 * x2, 8 * x3, 128 * x0)
  {
    hide Component, Pow2;
    Powers();
    AlphaFirst(x0, x1, x2, x3);
    var pix := x0 + 2 * x1 + 64 * x2 + 2048 * x3;
    Digit(Channel(0x0001, 0, 7), pix, 1, 2, 128, x0);
    Digit(Channel(0x003E, 1, 3), pix, 2, 32, 8, x1);
    Digit(Channel(0x07C0, 6, 3), pix, 64, 32, 8, x2);
    Digit(Channel(0xF800, 11, 3), pix, 2048, 32, 8, x3);
  }

  lemma Fives(x0: nat, x1: nat, x2: nat, x3: nat)
    requires x0 < 32 && x1 < 32 && x2 < 32 && x3 < 2
    ensures var pix := x0 + 32 * x1 + 1024 * x2 + 0x8000 * x3;
            pix % 32 == x0 && pix / 32 % 32 == x1 && pix / 1024 % 32 == x2 && pix / 0x8000 % 2 == x3
  {
    var pix := x0 + 32 * x1 + 1024 * x2 + 0x8000 * x3;
    assert pix / 32 == x1 + 32 * x2 + 1024 * x3;
    assert pix / 1024 == x2 + 32 * x3;
    assert pix / 0x8000 == x3;
  }

  lemma AlphaFirst(x0: nat, x1: nat, x2: nat, x3: nat)
    requires x0 < 2 && x1 < 32 && x2 < 32 && x3 < 32
    ensures var pix := x0 + 2 * x1 + 64 * x2 + 2048 * x3;
            pix % 2 == x0 && pix / 2 % 32 == x1 && pix / 64 % 32 == x2 && pix / 2048 % 32 == x3
  {
    var pix := x0 + 2 * x1 + 64 * x2 + 2048 * x3;
    assert pix / 2 == x1 + 32 * x2 + 1024 * x3;
    assert pix / 64 == x2 + 32 * x3;
    assert pix / 2048 == x3;
  }

  lemma NamesGiveSixes(x0: nat, x1: nat, x2: nat)
    requires x0 < 32 && x1 < 64 && x2 < 32
    ensures var pix := x0 + 32 * x1 + 2048 * x2;
            && ToColor(Row(Bgr565, []), pix) == Color(8 * x2, 4 * x1, 8 * x0, 0xFF)
            && ToColor(Row(Rgb565, []), pix) == Color(8 * x0, 4 * x1, 8 * x2, 0xFF)
  {
    hide Component, Pow2;
    Powers();
    var pix := x0 + 32 * x1 + 2048 * x2;
    Digit(Channel(0x001F, 0, 3), pix, 1, 32, 8, x0);
    Digit(Channel(0x07E0, 5, 2), pix, 32, 64, 4, x1);
    Digit(Channel(0xF800, 11, 3), pix, 2048, 32, 8, x2);
  }

  /** A channel whose unit, number of values and step are these gives its digit of the pixel. */
  lemma Digit(c: Channel, pix: nat, unit: nat, n: nat, step: nat, x: nat)
    requires c.mask == (n - 1) * unit && n >= 1 && n * step <= 256
    requires unit == Pow2(c.offset) && step == Pow2(c.shift)
    requires pix / unit % n == x < n
    ensures Component(c, pix) == x * step
  {
    hide Pow2, Values, Sound;
    HasIs(c, unit, n);
    Small(x, n, step);
  }

  lemma Small(x: nat, n: nat, step: nat)
    requires x < n && n * step <= 256 && step > 0
    ensures x * step % 256 == x * step
  {
    MulOrder(0, x, step);
    MulOrder(x, n, step);
    SmallMod(x * step, 256);
  }

  // ---------------------------------------------------------------- drawing

  /** m is cs over cd: each component by its own error bound, and the larger alpha. */
  predicate Blends(cs: Color, cd: Color, m: Color) {
    && Weighted(cs.r, cd.r, cs.a, m.r) && Weighted(cs.g, cd.g, cs.a, m.g) && Weighted(cs.b, cd.b, cs.a, m.b)
    && m.a == if cs.a > cd.a then cs.a else cd.a
  }

  predicate Weighted(s: byte, d: byte, alpha: byte, m: byte) {
    0 <= s as int * alpha as int + d as int * (255 - alpha as int) - 256 * m as int < 256
  }

  /** Bytes r of a pixel of format k show cs drawn over cd. */
  ghost predicate Shows(k: Kind, alpha: bool, cs: Color, cd: Color, r: seq<byte>)
    requires EightBits(k)
  {
    if !alpha || cs.a == 0xFF then r == InMemory(k, cs)
    else if cs.a == 0 then r == InMemory(k, cd)
    else exists m :: Blends(cs, Seen(k, cd), m) && r == InMemory(k, m)
  }

  lemma BlendIsBlended(cs: Color, cd: Color)
    ensures Blends(cs, cd, Blend(cs, cd))
  {
    MixIs(cs.r, cd.r, cs.a);
    MixIs(cs.g, cd.g, cs.a);
    MixIs(cs.b, cd.b, cs.a);
    hide Mix;
  }

  /** Whatever the source, its colour is drawn over the destination's, unless it is the key colour. */
  lemma DrawnOver(j: Job, s: seq<byte>, k: Kind, cd: Color, one: bool)
    requires ValidJob(j) && EightBits(k) && j.df == Row(k, []) && 1 <= j.sf.bpp <= 4 && |s| == j.sf.bpp
    requires |InMemory(k, cd)| == j.df.bpp
    requires !(j.para.useKey && Get(j.sf.bpp, s) == j.para.key)
    ensures Shows(k, j.para.alpha, SourceColor(j.sf, Get(j.sf.bpp, s)), cd, Drawn(j, s, InMemory(k, cd), one))
  {
    hide ToColor, ToPixel, Get, Put, InMemory, InTable, Row, Blend, Blends;
    var cs := SourceColor(j.sf, Get(j.sf.bpp, s));
    RowOf(k);
    ColorOfBytes(k, cd);
    BytesOfColor(k, cs);
    BytesOfColor(k, Blend(cs, Seen(k, cd)));
    BlendIsBlended(cs, Seen(k, cd));
  }

  /** Between formats of eight-bit channels: each component from its own channel of source and destination. */
  lemma DrawnBlends(sk: Kind, dk: Kind, cs: Color, cd: Color, para: Para, one: bool)
    requires EightBits(sk) && EightBits(dk)
    requires 1 <= Row(sk, []).bpp <= 4 && |InMemory(sk, cs)| == Row(sk, []).bpp && |InMemory(dk, cd)| == Row(dk, []).bpp
    requires !(para.useKey && Get(Row(sk, []).bpp, InMemory(sk, cs)) == para.key)
    ensures ValidJob(Job(Row(sk, []), Row(dk, []), para))
    ensures Shows(dk, para.alpha, Seen(sk, cs), cd,
                  Drawn(Job(Row(sk, []), Row(dk, []), para), InMemory(sk, cs), InMemory(dk, cd), one))
  {
    hide Drawn, Get, ToColor, InMemory, Row, Shows, Seen;
    RowOf(sk);
    RowOf(dk);
    NotYuv(sk);
    ColorOfBytes(sk, cs);
    DrawnOver(Job(Row(sk, []), Row(dk, []), para), InMemory(sk, cs), dk, cd, one);
  }

  /** A palette pixel is drawn in its palette colour, and in opaque black behind the palette's end. */
  lemma DrawnFromPalette(palette: seq<Color>, i: byte, dk: Kind, cd: Color, para: Para, one: bool)
    requires EightBits(dk) && |InMemory(dk, cd)| == Row(dk, []).bpp && !(para.useKey && i == para.key)
    ensures var j := Job(Row(Palette256, palette), Row(dk, []), para);
            && ValidJob(j) && j.sf.bpp == 1
            && Shows(dk, para.alpha, if i < |palette| then palette[i] else Color(0, 0, 0, 0xFF), cd,
                     Drawn(j, [i], InMemory(dk, cd), one))
  {
    hide Drawn, ToColor, InMemory, Shows, Seen;
    RowOf(dk);
    DrawnOver(Job(Row(Palette256, palette), Row(dk, []), para), [i], dk, cd, one);
  }

  /** Between surfaces of one format, without key and alpha, pixels are copied, YUV ones included. */
  lemma PlainCopies(j: Job, s: seq<byte>, d: seq<byte>)
    requires ValidJob(j) && |s| == j.sf.bpp && |d| == j.df.bpp
    requires j.sf.kind == j.df.kind && !j.para.alpha && !j.para.useKey
    ensures Blitted(j, s, d) == s
  {
  }

  /** A palette destination gets the pixel's lowest byte, unless it is the key colour. */
  lemma DrawnToPalette(j: Job, s: seq<byte>, d: seq<byte>, one: bool)
    requires ValidJob(j) && j.df.kind.Palette256? && 1 <= j.sf.bpp <= 4 && |s| == j.sf.bpp && |d| == j.df.bpp
    requires !(j.para.useKey && Get(j.sf.bpp, s) == j.para.key)
    ensures Drawn(j, s, d, one) == [s[0]]
  {
    hide InTable, Row, Over, SourceColor;
    if j.sf.bpp == 2 { Digits(s[0], s[1], 0, 0); }
    if j.sf.bpp == 3 { Digits(s[0], s[1], s[2], 0); }
    if j.sf.bpp == 4 { Digits(s[0], s[1], s[2], s[3]); }
  }
}
