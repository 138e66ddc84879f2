/** The software blitter's loops over two byte-addressed surfaces. */
module Blit {
  import opened Bytes
  import opened Clip
  import opened Pixel
  import opened PixelOp

  const MAX_W := 1920

  class Surface {
    const format: Format
    const width: nat
    const height: nat
    const pitch: nat
    const clip: Rect
    const buffer: array<byte>

    constructor (format: Format, width: nat, height: nat, pitch: nat, clip: Rect, buffer: array<byte>)
      ensures this.format == format && this.width == width && this.height == height && this.pitch == pitch
      ensures this.clip == clip && this.buffer == buffer
    {
      this.format, this.width, this.height, this.pitch := format, width, height, pitch;
      this.clip, this.buffer := clip, buffer;
    }
  }

  /** The buffer holds all the rows, and the clip rectangle does not leave the surface. */
  predicate Valid(s: Surface) {
    && InTable(s.format) && 1 <= s.format.bpp
    && s.width * s.format.bpp <= s.pitch && s.pitch * s.height <= s.buffer.Length
    && 0 <= s.clip.x && s.clip.x + s.clip.w <= s.width && 0 <= s.clip.y && s.clip.y + s.clip.h <= s.height
  }

  function Whole(s: Surface): Rect {
    Rect(0, 0, s.width, s.height)
  }

  /** Where the pixel (x, y) begins in the buffer. */
  function At(s: Surface, x: int, y: int): int {
    y * s.pitch + x * s.format.bpp
  }

  // ---------------------------------------------------------------- addresses

  lemma AtStep(s: Surface, x: int, y: int)
    ensures At(s, x + 1, y) == At(s, x, y) + s.format.bpp && At(s, x, y + 1) == At(s, x, y) + s.pitch
  {
  }

  lemma AtOrder(s: Surface, x: int, x2: int, y: int)
    requires x <= x2
    ensures At(s, x, y) <= At(s, x2, y) && (x < x2 ==> At(s, x, y) + s.format.bpp <= At(s, x2, y))
  {
    MulOrder(x, x2, s.format.bpp);
    if x < x2 { MulOrder(x + 1, x2, s.format.bpp); }
  }

  /** Rows of pixels inside the surface do not overlap. */
  lemma RowsApart(s: Surface, x: int, x2: int, y: int, y2: int)
    requires Valid(s) && 0 <= x && x2 <= s.width && y < y2
    ensures At(s, x2, y) <= At(s, x, y2)
  {
    hide Row, InTable;
    AtStep(s, x, y);
    MulOrder(y + 1, y2, s.pitch);
    MulOrder(x2, s.width, s.format.bpp);
    MulOrder(0, x, s.format.bpp);
  }

  lemma AtInside(s: Surface, x: int, y: int)
    requires Valid(s) && In(Whole(s), x, y)
    ensures 0 <= At(s, x, y) && At(s, x, y) + s.format.bpp <= At(s, s.width, y) <= s.buffer.Length
  {
    hide Row, InTable;
    AtOrder(s, 0, x, y);
    AtOrder(s, x, s.width, y);
    AtStep(s, 0, y);
    MulOrder(0, y, s.pitch);
    MulOrder(y + 1, s.height, s.pitch);
  }

  // ---------------------------------------------------------------- what has been drawn

  /** Which source pixel goes to a destination pixel. */
  datatype Sampling = Translate(dx: int, dy: int)
                    | Scale(x0: int, sw: int, dw: nat, sx: int, y0: int, sh: int, dh: nat, sy: int)

  predicate ValidSampling(m: Sampling) {
    m.Scale? ==> m.dw > 0 && m.dh > 0
  }

  function Column(m: Sampling, x: int): int
    requires ValidSampling(m)
  {
    if m.Translate? then x + m.dx else (x - m.x0) * m.sw / m.dw + m.sx
  }

  function Line(m: Sampling, y: int): int
    requires ValidSampling(m)
  {
    if m.Translate? then y + m.dy else (y - m.y0) * m.sh / m.dh + m.sy
  }

  /** A blit under way: the surfaces, the pixels' treatment, the target rectangle and the sampling. */
  datatype Plan = Plan(src: Surface, dst: Surface, para: Para, stretch: bool, area: Rect, m: Sampling)

  function JobOf(k: Plan): Job {
    Job(k.src.format, k.dst.format, k.para)
  }

  /** The area lies in the destination and is sampled from inside the source. */
  ghost predicate ValidPlan(k: Plan) {
    && Valid(k.src) && Valid(k.dst) && ValidSampling(k.m) && k.src.buffer != k.dst.buffer
    && k.area.w >= 0 && k.area.h >= 0
    && 0 <= k.area.x && k.area.x + k.area.w <= k.dst.width && 0 <= k.area.y && k.area.y + k.area.h <= k.dst.height
    && (forall x, y {:trigger In(k.area, x, y)} :: In(k.area, x, y) ==> In(Whole(k.src), Column(k.m, x), Line(k.m, y)))
  }

  /** The treatment of one pixel by this blit. */
  function Op(k: Plan, s: seq<byte>, d: seq<byte>): (r: seq<byte>)
    requires ValidJob(JobOf(k)) && |s| == k.src.format.bpp && |d| == k.dst.format.bpp
    ensures |r| == k.dst.format.bpp
  {
    if k.stretch then Drawn(JobOf(k), s, d, false) else Blitted(JobOf(k), s, d)
  }

  function PixelAt(s: Surface, buf: seq<byte>, x: int, y: int): (p: seq<byte>)
    requires Valid(s) && In(Whole(s), x, y) && |buf| == s.buffer.Length
    ensures |p| == s.format.bpp
  {
    AtInside(s, x, y);
    buf[At(s, x, y)..At(s, x, y) + s.format.bpp]
  }

  /** Pixel (x, y) of the result b is made of its source pixel and of what a had there. */
  ghost predicate PixelDone(k: Plan, a: seq<byte>, b: seq<byte>, s: seq<byte>, x: int, y: int)
    requires ValidPlan(k) && In(k.area, x, y)
    requires |a| == |b| == k.dst.buffer.Length && |s| == k.src.buffer.Length
  {
    PixelAt(k.dst, b, x, y) == Op(k, PixelAt(k.src, s, Column(k.m, x), Line(k.m, y)), PixelAt(k.dst, a, x, y))
  }

  /** The first column behind the area. */
  function Right(k: Plan): int {
    k.area.x + k.area.w
  }

  /** Byte i belongs to row y of the area and to a column before x. */
  predicate InRow(k: Plan, i: int, x: int, y: int) {
    At(k.dst, k.area.x, y) <= i < At(k.dst, x, y)
  }

  /** Byte i belongs to a pixel of the area that comes before (x, y). */
  predicate Touched(k: Plan, i: int, x: int, y: int) {
    InRow(k, i, x, y) || exists py :: k.area.y <= py < y && InRow(k, i, Right(k), py)
  }

  predicate Before(px: int, py: int, x: int, y: int) {
    py < y || (py == y && px < x)
  }

  predicate Sizes(k: Plan, a: seq<byte>, b: seq<byte>, s: seq<byte>) {
    |a| == |b| == k.dst.buffer.Length && |s| == k.src.buffer.Length
  }

  /** All pixels of the area before (x, y) are done and all other bytes are as in a. */
  ghost predicate DoneUpTo(k: Plan, a: seq<byte>, b: seq<byte>, s: seq<byte>, x: int, y: int)
    requires ValidPlan(k)
  {
    && Sizes(k, a, b, s)
    && (forall px, py {:trigger In(k.area, px, py)} ::
          In(k.area, px, py) && Before(px, py, x, y) ==> PixelDone(k, a, b, s, px, py))
    && (forall i {:trigger b[i]} :: 0 <= i < |b| && !Touched(k, i, x, y) ==> b[i] == a[i])
  }

  lemma NothingDone(k: Plan, a: seq<byte>, s: seq<byte>)
    requires ValidPlan(k) && Sizes(k, a, a, s)
    ensures DoneUpTo(k, a, a, s, k.area.x, k.area.y)
  {
  }

  /** A pixel's own bytes have not been touched when its turn comes. */
  lemma Fresh(k: Plan, i: int, x: int, y: int)
    requires ValidPlan(k) && k.area.x <= x && At(k.dst, x, y) <= i
    ensures !Touched(k, i, x, y)
  {
    forall py | k.area.y <= py < y
      ensures !InRow(k, i, Right(k), py)
    {
      RowsApart(k.dst, k.area.x, Right(k), py, y);
      AtOrder(k.dst, k.area.x, x, y);
    }
  }

  lemma FreshPixel(k: Plan, a: seq<byte>, b: seq<byte>, s: seq<byte>, x: int, y: int)
    requires ValidPlan(k) && In(k.area, x, y) && DoneUpTo(k, a, b, s, x, y)
    ensures PixelAt(k.dst, b, x, y) == PixelAt(k.dst, a, x, y)
  {
    AtInside(k.dst, x, y);
    forall i | At(k.dst, x, y) <= i < At(k.dst, x, y) + k.dst.format.bpp
      ensures b[i] == a[i]
    {
      Fresh(k, i, x, y);
    }
  }

  /** Bytes of an earlier pixel lie before those of a later one. */
  lemma EarlierIsLower(k: Plan, px: int, py: int, x: int, y: int)
    requires ValidPlan(k) && In(k.area, px, py) && In(k.area, x, y) && Before(px, py, x, y)
    ensures At(k.dst, px, py) + k.dst.format.bpp <= At(k.dst, x, y)
  {
    AtOrder(k.dst, px, Right(k), py);
    AtOrder(k.dst, k.area.x, x, y);
    if py < y { RowsApart(k.dst, k.area.x, Right(k), py, y); } else { AtOrder(k.dst, px, x, y); }
  }

  /** b2 is b but for the bytes from lo up to hi. */
  predicate SameOutside(b: seq<byte>, b2: seq<byte>, lo: int, hi: int) {
    |b| == |b2| && forall i {:trigger b2[i]} :: 0 <= i < |b| && !(lo <= i < hi) ==> b2[i] == b[i]
  }

  lemma KeepsDone(k: Plan, a: seq<byte>, b: seq<byte>, b2: seq<byte>, s: seq<byte>, x: int, y: int, hi: int,
                  px: int, py: int)
    requires ValidPlan(k) && In(k.area, px, py) && In(k.area, x, y) && Before(px, py, x, y)
    requires DoneUpTo(k, a, b, s, x, y) && SameOutside(b, b2, At(k.dst, x, y), hi)
    ensures PixelDone(k, a, b2, s, px, py)
  {
    EarlierIsLower(k, px, py, x, y);
    AtInside(k.dst, px, py);
    assert PixelAt(k.dst, b2, px, py) == PixelAt(k.dst, b, px, py);
  }

  /** Drawing pixel (x, y). */
  lemma StepPixel(k: Plan, a: seq<byte>, b: seq<byte>, b2: seq<byte>, s: seq<byte>, x: int, y: int)
    requires ValidPlan(k) && In(k.area, x, y) && DoneUpTo(k, a, b, s, x, y)
    requires SameOutside(b, b2, At(k.dst, x, y), At(k.dst, x, y) + k.dst.format.bpp)
    requires PixelDone(k, b, b2, s, x, y)
    ensures DoneUpTo(k, a, b2, s, x + 1, y)
  {
    FreshPixel(k, a, b, s, x, y);
    forall px, py | In(k.area, px, py) && Before(px, py, x + 1, y)
      ensures PixelDone(k, a, b2, s, px, py)
    {
      if Before(px, py, x, y) {
        KeepsDone(k, a, b, b2, s, x, y, At(k.dst, x, y) + k.dst.format.bpp, px, py);
      }
    }
    AtStep(k.dst, x, y);
    AtOrder(k.dst, k.area.x, x, y);
    forall i | 0 <= i < |b2| && !Touched(k, i, x + 1, y)
      ensures b2[i] == a[i]
    {
      assert !Touched(k, i, x, y);
    }
  }

  /** The end of row y is the beginning of the next. */
  lemma StepRow(k: Plan, a: seq<byte>, b: seq<byte>, s: seq<byte>, y: int)
    requires ValidPlan(k) && k.area.y <= y && DoneUpTo(k, a, b, s, Right(k), y)
    ensures DoneUpTo(k, a, b, s, k.area.x, y + 1)
  {
  }
}
