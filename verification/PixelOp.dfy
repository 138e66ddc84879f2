/** What one blitted pixel becomes. */
module PixelOp {
  import opened Bytes
  import opened Pixel

  /** The part of AM_OSD_BlitPara_t that the software blitter looks at. */
  datatype Para = Para(alpha: bool, useKey: bool, key: nat)

  predicate Plain(para: Para) {
    !para.alpha && !para.useKey
  }

  function PaletteColor(f: Format, pix: nat): Color {
    if pix < |f.palette| then f.palette[pix] else Color(0, 0, 0, 0xFF)
  }

  function Mix(s: byte, d: byte, alpha: byte): byte {
    MixFits(s, d, alpha);
    (s as int * alpha as int + d as int * (255 - alpha as int)) / 256
  }

  lemma MixFits(s: int, d: int, alpha: int)
    requires 0 <= s < 256 && 0 <= d < 256 && 0 <= alpha < 256
    ensures 0 <= (s * alpha + d * (255 - alpha)) / 256 < 256
  {
    MulOrder(s, 255, alpha);
    MulOrder(d, 255, 255 - alpha);
    MulOrder(0, s, alpha);
    MulOrder(0, d, 255 - alpha);
    assert 255 * alpha + 255 * (255 - alpha) == 255 * 255;
  }

  function Blend(c: Color, d: Color): Color {
    Color(Mix(c.r, d.r, c.a), Mix(c.g, d.g, c.a), Mix(c.b, d.b, c.a), if c.a > d.a then c.a else d.a)
  }

  /** How a pixel of format sf is put over one of format df. */
  datatype Job = Job(sf: Format, df: Format, para: Para)

  predicate ValidJob(j: Job) {
    InTable(j.sf) && InTable(j.df)
  }

  lemma PixelSizes(f: Format)
    requires InTable(f)
    ensures 1 <= f.bpp <= 4 && (f.kind.Palette256? ==> f.bpp == 1)
  {
  }

  /** The colour of a source pixel. */
  function SourceColor(f: Format, pix: nat): Color {
    if f.kind.Palette256? then PaletteColor(f, pix) else ToColor(f, pix)
  }

  /** The blending of an RGB destination; one tells whether one-byte destination pixels are looked at. */
  function Over(j: Job, col: Color, d: seq<byte>, one: bool): (r: seq<byte>)
    requires ValidJob(j) && |d| == j.df.bpp
    ensures |r| == j.df.bpp
  {
    PixelSizes(j.df);
    if j.para.alpha && col.a == 0 then d
    else if j.para.alpha && col.a != 0xFF then
      var dp := if j.df.bpp == 1 && !one then 0 else Get(j.df.bpp, d);
      Put(j.df.bpp, ToPixel(j.df, Blend(col, ToColor(j.df, dp))))
    else Put(j.df.bpp, ToPixel(j.df, col))
  }

  /** The per-pixel body of sw_normal_blit (one set) and of sw_stretch_blit (not set). */
  function Drawn(j: Job, s: seq<byte>, d: seq<byte>, one: bool): (r: seq<byte>)
    requires ValidJob(j) && |s| == j.sf.bpp && |d| == j.df.bpp
    ensures |r| == j.df.bpp
  {
    PixelSizes(j.sf);
    PixelSizes(j.df);
    var pix := Get(j.sf.bpp, s);
    if j.para.useKey && pix == j.para.key then d
    else if j.df.kind.Palette256? then [pix % 256]
    else Over(j, SourceColor(j.sf, pix), d, one)
  }

  /** Not looking at one-byte destinations makes no difference for any format of the table. */
  lemma OneByteNeverMatters(j: Job, s: seq<byte>, d: seq<byte>)
    requires ValidJob(j) && |s| == j.sf.bpp && |d| == j.df.bpp
    ensures Drawn(j, s, d, false) == Drawn(j, s, d, true)
  {
    if j.df.bpp == 1 && !j.df.kind.Palette256? {
      assert IsYuv(j.df.kind);
      YuvColor(j.df, 0, Get(1, d));
    }
  }

  lemma YuvColor(f: Format, p: nat, q: nat)
    requires InTable(f) && IsYuv(f.kind)
    ensures ToColor(f, p) == ToColor(f, q)
  {
    assert f.r == NONE && f.g == NONE && f.b == NONE && f.a == NONE;
    NothingWeighsNothing(NONE, p);
    NothingWeighsNothing(NONE, q);
    assert Pow2(0) == 1;
  }

  // ---------------------------------------------------------------- the fast path

  /** The formats are equal and neither key nor alpha is asked for: rows are copied with memcpy. */
  predicate Fast(j: Job) {
    j.sf.kind == j.df.kind && Plain(j.para)
  }

  /** What sw_normal_blit makes of a pixel. */
  function Blitted(j: Job, s: seq<byte>, d: seq<byte>): (r: seq<byte>)
    requires ValidJob(j) && |s| == j.sf.bpp && |d| == j.df.bpp
    ensures |r| == j.df.bpp
  {
    if Fast(j) then SameSize(j); s else Drawn(j, s, d, true)
  }

  lemma SameSize(j: Job)
    requires ValidJob(j) && j.sf.kind == j.df.kind
    ensures j.sf.bpp == j.df.bpp && (!j.sf.kind.Palette256? ==> j.sf == j.df)
  {
  }

  /** The slow path would give the same bytes as memcpy for every palette and RGB format. */
  lemma FastIsSlow(j: Job, s: seq<byte>, d: seq<byte>)
    requires ValidJob(j) && Fast(j) && !IsYuv(j.sf.kind) && |s| == j.sf.bpp && |d| == j.df.bpp
    ensures Drawn(j, s, d, true) == s
  {
    hide ToColor, ToPixel, InTable, Row;
    SameSize(j);
    PixelSizes(j.sf);
    BytesRoundTrip(j.sf.bpp, s);
    if !j.sf.kind.Palette256? {
      PixelRoundTrip(j.sf, Get(j.sf.bpp, s));
    }
  }

  lemma YuvSlowIsZero(j: Job)
    requires ValidJob(j) && Fast(j) && IsYuv(j.sf.kind)
    ensures |[1 as byte]| == j.sf.bpp == j.df.bpp && Drawn(j, [1], [0], true) == [0]
  {
    hide ToColor, ToPixel;
    SameSize(j);
    PixelSizes(j.sf);
    PixelRoundTrip(j.sf, 1);
  }

  /** Memcpy and per-pixel conversion agree on all pixels exactly for the formats that are not YUV. */
  lemma FastIsSlowIff(j: Job)
    requires ValidJob(j) && Fast(j)
    ensures (forall s: seq<byte>, d: seq<byte> :: |s| == j.sf.bpp && |d| == j.df.bpp ==> Drawn(j, s, d, true) == s)
       <==> !IsYuv(j.sf.kind)
  {
    hide Drawn, InTable;
    if IsYuv(j.sf.kind) {
      YuvSlowIsZero(j);
      assert [1 as byte][0] != [0 as byte][0];
    } else {
      forall s: seq<byte>, d: seq<byte> | |s| == j.sf.bpp && |d| == j.df.bpp
        ensures Drawn(j, s, d, true) == s
      {
        FastIsSlow(j, s, d);
      }
    }
  }

  /** Key and alpha leave a pixel alone exactly as asked for. */
  lemma Transparent(j: Job, s: seq<byte>, d: seq<byte>)
    requires ValidJob(j) && |s| == j.sf.bpp && |d| == j.df.bpp
    requires 1 <= j.sf.bpp <= 4
    requires var pix := Get(j.sf.bpp, s);
             || (j.para.useKey && pix == j.para.key)
             || (j.para.alpha && !j.df.kind.Palette256? && SourceColor(j.sf, pix).a == 0)
    ensures Blitted(j, s, d) == d
  {
  }

  /** A blended component is the weighted sum of the two, over 256 and rounded down. */
  lemma MixIs(s: byte, d: byte, alpha: byte)
    ensures 0 <= s as int * alpha as int + d as int * (255 - alpha as int) - 256 * Mix(s, d, alpha) as int < 256
  {
  }

  /** More of either source never gives less. */
  lemma MixIsMonotone(s: byte, s2: byte, d: byte, d2: byte, alpha: byte)
    requires s <= s2 && d <= d2
    ensures Mix(s, d, alpha) <= Mix(s2, d2, alpha)
  {
    MixIs(s, d, alpha);
    MixIs(s2, d2, alpha);
    MulOrder(s, s2, alpha);
    MulOrder(d, d2, 255 - alpha as int);
  }

  /** A blended component lies between those it is mixed from, up to one for the rounding. */
  lemma MixIsBetween(s: byte, d: byte, alpha: byte)
    ensures Mix(s, d, alpha) as int <= (if s > d then s else d) as int
    ensures Mix(s, d, alpha) as int >= (if s < d then s else d) as int - 1
    ensures alpha == 0xFF ==> s as int - 1 <= Mix(s, d, alpha) as int <= s as int
    ensures alpha == 0 ==> d as int - 1 <= Mix(s, d, alpha) as int <= d as int
  {
    var hi: int, lo: int := if s > d then s else d, if s < d then s else d;
    var t := s as int * alpha as int + d as int * (255 - alpha as int);
    MulOrder(s, hi, alpha);
    MulOrder(d, hi, 255 - alpha as int);
    MulOrder(lo, s, alpha);
    MulOrder(lo, d, 255 - alpha as int);
    assert hi * alpha as int + hi * (255 - alpha as int) == hi * 255;
    assert lo * alpha as int + lo * (255 - alpha as int) == lo * 255;
    assert lo * 255 <= t <= hi * 255;
  }
}
