/** sw_stretch_blit: its integer sampling and its loops, and sw_blit. */
module Stretch {
  import opened Bytes
  import opened Clip
  import opened Pixel
  import opened PixelOp
  import opened Blit
  import opened SwOp

  // ---------------------------------------------------------------- integer sampling

  /** Two divisions where one would do: the clipped part and the rest are scaled apart. */
  function Sample(i: nat, a: nat, s: nat, d: nat): nat
    requires d > 0
  {
    i * s / d + a * s / d
  }

  lemma MulCancel(a: int, b: int, d: nat)
    requires a * d < b * d
    ensures a < b
  {
    if b <= a { MulOrder(b, a, d); }
  }

  lemma DivAdd(p: nat, q: nat, d: nat)
    requires d > 0
    ensures (p + q) / d - 1 <= p / d + q / d <= (p + q) / d
  {
    var u, v, w := p / d, q / d, (p + q) / d;
    DivBounds(p, d, u);
    DivBounds(q, d, v);
    DivBounds(p + q, d, w);
    SumBounds(u, v, w, p, q, d);
  }

  lemma SumBounds(u: nat, v: nat, w: nat, p: nat, q: nat, d: nat)
    requires u * d <= p < (u + 1) * d && v * d <= q < (v + 1) * d && w * d <= p + q < (w + 1) * d
    ensures w - 1 <= u + v <= w
  {
    assert (u + v) * d == u * d + v * d;
    assert (u + v + 2) * d == (u + 1) * d + (v + 1) * d;
    MulCancel(u + v, w + 1, d);
    MulCancel(w, u + v + 2, d);
  }

  lemma QuotientIsLess(p: nat, s: nat, d: nat)
    requires d > 0 && p < s * d
    ensures p / d < s
  {
    DivBounds(p, d, p / d);
    MulCancel(p / d, s, d);
  }

  /** The sample is the exact position rounded down, or one less; never less at the uncut edge. */
  lemma SampleIsClose(i: nat, a: nat, s: nat, d: nat)
    requires d > 0
    ensures (i + a) * s / d - 1 <= Sample(i, a, s, d) <= (i + a) * s / d
    ensures a == 0 ==> Sample(i, a, s, d) == (i + a) * s / d
  {
    assert (i + a) * s == i * s + a * s;
    DivAdd(i * s, a * s, d);
    if a == 0 { ZeroDiv(d); }
  }

  lemma SampleIsExactIff(i: nat, a: nat, s: nat, d: nat)
    requires d > 0
    ensures Sample(i, a, s, d) == (i + a) * s / d <==> i * s % d + a * s % d < d
  {
    MulOrder(0, i, s);
    MulOrder(0, a, s);
    assert (i + a) * s == i * s + a * s;
    DivAddIff(i * s, a * s, d);
  }

  lemma DivAddIff(p: nat, q: nat, d: nat)
    requires d > 0
    ensures p / d + q / d == (p + q) / d <==> p % d + q % d < d
  {
    DivMod(p, d);
    DivMod(q, d);
    QuotientOfSum(p + q, p / d, p % d, q / d, q % d, d);
  }

  lemma QuotientOfSum(n: nat, u: nat, r: nat, v: nat, t: nat, d: nat)
    requires n == u * d + r + (v * d + t) && r < d && t < d
    ensures n / d == u + v + if r + t < d then 0 else 1
  {
    Regroup(u, 1, v, d);
    Regroup(u + v, 1, 1, d);
    Regroup(u + v, 1, 2, d);
    QuotientIs(n, d, if r + t < d then u + v else u + v + 1);
  }

  /** It lies in the source and does not run backwards. */
  lemma SampleInRange(i: nat, a: nat, s: nat, d: nat)
    requires d > 0 && s > 0 && i + a < d
    ensures Sample(i, a, s, d) < s
  {
    SampleIsClose(i, a, s, d);
    MulOrder(i + a, d, s);
    QuotientIsLess((i + a) * s, s, d);
  }

  lemma DivOrder(p: nat, q: nat, d: nat)
    requires d > 0 && p <= q
    ensures p / d <= q / d
  {
    var u, v := p / d, q / d;
    DivBounds(p, d, u);
    DivBounds(q, d, v);
    if v < u { MulOrder(v + 1, u, d); }
  }

  lemma SampleIsMonotone(i: nat, j: nat, a: nat, s: nat, d: nat)
    requires d > 0 && i <= j
    ensures Sample(i, a, s, d) <= Sample(j, a, s, d)
  {
    MulOrder(i, j, s);
    DivOrder(i * s, j * s, d);
  }

  lemma SampleOfEqualSizes(i: nat, a: nat, d: nat)
    requires d > 0
    ensures Sample(i, a, d, d) == i + a
  {
    DivOfProduct(i, d);
    DivOfProduct(a, d);
  }

  // ---------------------------------------------------------------- where is drawn

  /** C's division by a positive number rounds towards zero. */
  function Quot(a: int, b: int): int
    requires b > 0
  {
    if a >= 0 then a / b else -(-a / b)
  }

  /** The rectangle that the part dsr of the source rectangle sr is stretched to. */
  function Scaled(dsr: Rect, sr: Rect, dr: Rect): Rect
    requires sr.w > 0 && sr.h > 0
  {
    Rect(Quot((dsr.x - sr.x) * dr.w, sr.w) + dr.x, Quot((dsr.y - sr.y) * dr.h, sr.h) + dr.y,
         Quot(dsr.w * dr.w, sr.w), Quot(dsr.h * dr.h, sr.h))
  }

  /** The area drawn: what the source has of the source rectangle, stretched and clipped. */
  function Area(whole: Rect, sr: Rect, clip: Rect, dr: Rect): (o: Option<Rect>)
    ensures o.Some? ==> sr.w > 0 && sr.h > 0 && dr.w > 0 && dr.h > 0 && o.value.w > 0 && o.value.h > 0
    ensures o.Some? ==> forall x, y :: In(o.value, x, y) ==> In(clip, x, y)
  {
    var c := ClipRect(whole, sr);
    if c.None? then None else
    PositiveSizes(c.value, sr, dr);
    ClipRect(clip, Scaled(c.value, sr, dr))
  }

  /** Rectangles without points draw nothing. */
  lemma PositiveSizes(dsr: Rect, sr: Rect, dr: Rect)
    requires sr.w > 0 && sr.h > 0 && dsr.w > 0 && dsr.h > 0
    ensures Scaled(dsr, sr, dr).w > 0 ==> dr.w > 0
    ensures Scaled(dsr, sr, dr).h > 0 ==> dr.h > 0
  {
    QuotSign(dsr.w, dr.w, sr.w);
    QuotSign(dsr.h, dr.h, sr.h);
  }

  lemma QuotSign(a: int, b: int, d: int)
    requires a > 0 && d > 0
    ensures b <= 0 ==> Quot(a * b, d) <= 0
  {
    if b <= 0 {
      assert a * -b >= 0 && a * -b == -(a * b);
      DivBounds(a * -b, d, a * -b / d);
    }
  }

  /** Of the columns from s up to s + n a source of w columns has those from First up to End. */
  function First(s: int): int { Max(0, s) }

  function End(w: int, s: int, n: int): int { Min(w, s + n) }

  /**
   Column x of the destination shows something of the source: the source has some columns from s
   to s + sw, which go, each end rounded down on its own, to columns from d on.
   */
  predicate Shows(w: int, s: int, sw: int, d: int, dw: int, x: int) {
    && First(s) < End(w, s, sw)
    && var left := d + (First(s) - s) * dw / sw;
       left <= x < left + (End(w, s, sw) - First(s)) * dw / sw
  }

  /** For all rectangles whatever: the area drawn is the clip's part of what shows something of the source. */
  lemma AreaIff(whole: Rect, sr: Rect, clip: Rect, dr: Rect, x: int, y: int)
    requires whole.x == 0 && whole.y == 0
    ensures var area := Area(whole, sr, clip, dr);
            area.Some? && In(area.value, x, y)
            <==> && In(clip, x, y)
                 && Shows(whole.w, sr.x, sr.w, dr.x, dr.w, x) && Shows(whole.h, sr.y, sr.h, dr.y, dr.h, y)
  {
  }

  lemma AreaOrigin(whole: Rect, sr: Rect, clip: Rect, dr: Rect)
    requires whole.x == 0 && whole.y == 0 && Area(whole, sr, clip, dr).Some?
    ensures var area := Area(whole, sr, clip, dr).value;
            && area.x == Max(clip.x, dr.x + (First(sr.x) - sr.x) * dr.w / sr.w)
            && area.y == Max(clip.y, dr.y + (First(sr.y) - sr.y) * dr.h / sr.h)
  {
    MulOrder(0, First(sr.x) - sr.x, dr.w);
    MulOrder(0, First(sr.y) - sr.y, dr.h);
  }

  /**
   The stretched part begins at its exact position rounded down, ends there or one column before,
   and does not leave the destination rectangle; cut nowhere, it is that rectangle.
   */
  lemma ShowsIsClose(w: int, s: int, sw: int, d: int, dw: int, x: int)
    requires sw > 0 && dw > 0 && First(s) < End(w, s, sw)
    ensures var cut, end := First(s) - s, d + (End(w, s, sw) - s) * dw / sw;
            && (Shows(w, s, sw, d, dw, x) ==> d <= d + cut * dw / sw <= x < end <= d + dw)
            && (d + cut * dw / sw <= x < end - 1 ==> Shows(w, s, sw, d, dw, x))
            && (cut == 0 ==> (Shows(w, s, sw, d, dw, x) <==> d <= x < end))
            && (0 <= s && s + sw <= w ==> (Shows(w, s, sw, d, dw, x) <==> d <= x < d + dw))
  {
    StretchedEnds(First(s) - s, End(w, s, sw) - First(s), sw, dw);
    assert End(w, s, sw) - s == First(s) - s + (End(w, s, sw) - First(s));
  }

  lemma StretchedEnds(cut: nat, kept: nat, sw: nat, dw: nat)
    requires sw > 0 && cut + kept <= sw
    ensures var end := (cut + kept) * dw / sw;
            && 0 <= cut * dw / sw && end - 1 <= cut * dw / sw + kept * dw / sw <= end <= dw
            && (cut == 0 ==> cut * dw / sw == 0 && kept * dw / sw == end)
            && (kept == sw ==> end == dw)
  {
    MulOrder(cut + kept, sw, dw);
    MulOrder(0, cut, dw);
    MulOrder(0, kept, dw);
    assert (cut + kept) * dw == cut * dw + kept * dw;
    Quotients(cut * dw, kept * dw, sw, dw);
    DivOfProduct(dw, sw);
    ZeroDiv(sw);
  }

  lemma Quotients(p: nat, q: nat, sw: nat, dw: nat)
    requires sw > 0 && p + q <= sw * dw
    ensures 0 <= p / sw && (p + q) / sw - 1 <= p / sw + q / sw <= (p + q) / sw <= dw
  {
    DivAdd(p, q, sw);
    DivOfProduct(dw, sw);
    DivOrder(p + q, sw * dw, sw);
    DivOrder(0, p, sw);
    ZeroDiv(sw);
  }

  // ---------------------------------------------------------------- which source pixel is taken

  /** The column sampled for x; the counting starts at the left edge of the area drawn. */
  function SourceColumn(sr: Rect, area: Rect, dr: Rect, x: int): int
    requires dr.w > 0
  {
    (x - area.x) * sr.w / dr.w + ((area.x - dr.x) * sr.w / dr.w + sr.x)
  }

  function SourceLine(sr: Rect, area: Rect, dr: Rect, y: int): int
    requires dr.h > 0
  {
    (y - area.y) * sr.h / dr.h + ((area.y - dr.y) * sr.h / dr.h + sr.y)
  }

  /** Transposing turns lines into columns. */
  function Turned(r: Rect): Rect {
    Rect(r.y, r.x, r.h, r.w)
  }

  /**
   For every drawn column: the sample is inside the source rectangle, at most one left of the exact
   position, and exact when the drawing starts at the rectangle's left edge.
   */
  lemma ColumnIsClose(sr: Rect, area: Rect, dr: Rect, x: int)
    requires sr.w > 0 && dr.w > 0 && dr.x <= area.x <= x < dr.x + dr.w
    ensures var exact := (x - dr.x) * sr.w / dr.w + sr.x;
            && exact - 1 <= SourceColumn(sr, area, dr, x) <= exact
            && (area.x == dr.x ==> SourceColumn(sr, area, dr, x) == exact)
            && sr.x <= SourceColumn(sr, area, dr, x) < sr.x + sr.w
            && (sr.w == dr.w ==> SourceColumn(sr, area, dr, x) == x + sr.x - dr.x)
  {
    SampleIsClose(x - area.x, area.x - dr.x, sr.w, dr.w);
    SampleInRange(x - area.x, area.x - dr.x, sr.w, dr.w);
    if sr.w == dr.w { SampleOfEqualSizes(x - area.x, area.x - dr.x, dr.w); }
  }

  lemma LineIsClose(sr: Rect, area: Rect, dr: Rect, y: int)
    requires sr.h > 0 && dr.h > 0 && dr.y <= area.y <= y < dr.y + dr.h
    ensures var exact := (y - dr.y) * sr.h / dr.h + sr.y;
            && exact - 1 <= SourceLine(sr, area, dr, y) <= exact
            && (area.y == dr.y ==> SourceLine(sr, area, dr, y) == exact)
            && sr.y <= SourceLine(sr, area, dr, y) < sr.y + sr.h
            && (sr.h == dr.h ==> SourceLine(sr, area, dr, y) == y + sr.y - dr.y)
  {
    ColumnIsClose(Turned(sr), Turned(area), Turned(dr), y);
  }

  lemma ColumnsAreMonotone(sr: Rect, area: Rect, dr: Rect, x: int, x2: int)
    requires sr.w > 0 && dr.w > 0 && dr.x <= area.x <= x <= x2
    ensures SourceColumn(sr, area, dr, x) <= SourceColumn(sr, area, dr, x2)
  {
    SampleIsMonotone(x - area.x, x2 - area.x, area.x - dr.x, sr.w, dr.w);
  }

  lemma LinesAreMonotone(sr: Rect, area: Rect, dr: Rect, y: int, y2: int)
    requires sr.h > 0 && dr.h > 0 && dr.y <= area.y <= y <= y2
    ensures SourceLine(sr, area, dr, y) <= SourceLine(sr, area, dr, y2)
  {
    ColumnsAreMonotone(Turned(sr), Turned(area), Turned(dr), y, y2);
  }

  /** Exactly when a sample is not one off: the two remainders lost do not make up a whole. */
  lemma ColumnIsExactIff(sr: Rect, area: Rect, dr: Rect, x: int)
    requires sr.w > 0 && dr.w > 0 && dr.x <= area.x <= x
    ensures SourceColumn(sr, area, dr, x) == (x - dr.x) * sr.w / dr.w + sr.x
       <==> (x - area.x) * sr.w % dr.w + (area.x - dr.x) * sr.w % dr.w < dr.w
  {
    SampleIsExactIff(x - area.x, area.x - dr.x, sr.w, dr.w);
  }

  lemma LineIsExactIff(sr: Rect, area: Rect, dr: Rect, y: int)
    requires sr.h > 0 && dr.h > 0 && dr.y <= area.y <= y
    ensures SourceLine(sr, area, dr, y) == (y - dr.y) * sr.h / dr.h + sr.y
       <==> (y - area.y) * sr.h % dr.h + (area.y - dr.y) * sr.h % dr.h < dr.h
  {
    SampleIsExactIff(y - area.y, area.y - dr.y, sr.h, dr.h);
  }

  /** The one-off error is real: three columns from two, cut by one on the left. */
  lemma CutColumnIsOff()
    ensures var sr, area, dr := Rect(0, 0, 2, 1), Rect(1, 0, 2, 1), Rect(0, 0, 3, 1);
            SourceColumn(sr, area, dr, 2) == (2 - 0) * 2 / 3 + 0 - 1
  {
  }

  // ---------------------------------------------------------------- when the samples are in the source

  /** No sample lies beyond the last column that source and source rectangle share. */
  lemma ColumnEnds(w: int, sr: Rect, area: Rect, dr: Rect, x: int)
    requires sr.w > 0 && dr.w > 0 && dr.x <= area.x <= x && Shows(w, sr.x, sr.w, dr.x, dr.w, x)
    ensures SourceColumn(sr, area, dr, x) < End(w, sr.x, sr.w)
  {
    var n, k := x - dr.x, End(w, sr.x, sr.w) - sr.x;
    ShowsIsClose(w, sr.x, sr.w, dr.x, dr.w, x);
    SampleIsClose(x - area.x, area.x - dr.x, sr.w, dr.w);
    DivBounds(k * dr.w, sr.w, k * dr.w / sr.w);
    MulOrder(n + 1, k * dr.w / sr.w, sr.w);
    assert (n + 1) * sr.w == n * sr.w + sr.w;
    QuotientIsLess(n * sr.w, k, dr.w);
  }

  /**
   The first column sampled is one of the source: the source rectangle begins there, or its first
   column in the source is stretched to the beginning of a column, or the clip cuts that one off.
   */
  predicate StartsInside(s: int, sw: int, d: int, dw: int, clip: int)
    requires sw > 0
  {
    s >= 0 || -s * dw % sw == 0 || clip > d + -s * dw / sw
  }

  lemma StartsInsideIff(s: int, sw: int, d: int, dw: int, clip: int)
    requires sw > 0 && dw > 0
    ensures var left := Max(clip, d + (First(s) - s) * dw / sw);
            StartsInside(s, sw, d, dw, clip) <==> (left - d) * sw / dw + s >= 0
  {
    var n := Max(clip, d + (First(s) - s) * dw / sw) - d;
    if s >= 0 {
      ZeroDiv(sw);
      assert (First(s) - s) * dw == 0;
      MulOrder(0, n, sw);
      DivOrder(0, n * sw, dw);
      ZeroDiv(dw);
    } else {
      assert First(s) - s == -s;
      MulOrder(0, -s, dw);
      DivOrder(0, -s * dw, sw);
      ZeroDiv(sw);
      ReachesIff(-s, n, sw, dw);
    }
  }

  lemma ReachesIff(m: nat, n: nat, sw: nat, dw: nat)
    requires sw > 0 && dw > 0 && n >= m * dw / sw
    ensures n * sw / dw >= m <==> m * dw % sw == 0 || n > m * dw / sw
  {
    var t := m * dw / sw;
    DivMod(m * dw, sw);
    DivBounds(m * dw, sw, t);
    AtLeast(n * sw, dw, m);
    if n > t { MulOrder(t + 1, n, sw); }
  }

  lemma AtLeast(p: nat, d: nat, m: nat)
    requires d > 0
    ensures p / d >= m <==> p >= m * d
  {
    DivBounds(p, d, p / d);
    if p / d >= m { MulOrder(m, p / d, d); } else { MulOrder(p / d + 1, m, d); }
  }

  /** Both for columns and for lines. */
  predicate Starts(sr: Rect, clip: Rect, dr: Rect)
    requires sr.w > 0 && sr.h > 0
  {
    StartsInside(sr.x, sr.w, dr.x, dr.w, clip.x) && StartsInside(sr.y, sr.h, dr.y, dr.h, clip.y)
  }

  /** Every pixel of the area is sampled from inside the source. */
  ghost predicate SampledInside(whole: Rect, sr: Rect, area: Rect, dr: Rect)
    requires dr.w > 0 && dr.h > 0
  {
    forall x, y {:trigger In(area, x, y)} ::
      In(area, x, y) ==> In(whole, SourceColumn(sr, area, dr, x), SourceLine(sr, area, dr, y))
  }

  /** Exactly when all samples are taken from inside the source, for all rectangles whatever. */
  lemma SampledInsideIff(whole: Rect, sr: Rect, clip: Rect, dr: Rect)
    requires whole.x == 0 && whole.y == 0 && Area(whole, sr, clip, dr).Some?
    ensures SampledInside(whole, sr, Area(whole, sr, clip, dr).value, dr) <==> Starts(sr, clip, dr)
  {
    hide Area, Starts, SourceColumn, SourceLine;
    var area := Area(whole, sr, clip, dr).value;
    StartsIff(whole, sr, clip, dr);
    assert In(area, area.x, area.y);
    forall x, y | In(area, x, y)
      ensures SourceColumn(sr, area, dr, area.x) <= SourceColumn(sr, area, dr, x) < whole.w
      ensures SourceLine(sr, area, dr, area.y) <= SourceLine(sr, area, dr, y) < whole.h
    {
      SampleBounds(whole, sr, clip, dr, x, y);
    }
  }

  lemma StartsIff(whole: Rect, sr: Rect, clip: Rect, dr: Rect)
    requires whole.x == 0 && whole.y == 0 && Area(whole, sr, clip, dr).Some?
    ensures var area := Area(whole, sr, clip, dr).value;
            Starts(sr, clip, dr)
            <==> SourceColumn(sr, area, dr, area.x) >= 0 && SourceLine(sr, area, dr, area.y) >= 0
  {
    hide Area, StartsInside, SourceColumn, SourceLine, First, Max;
    var area := Area(whole, sr, clip, dr).value;
    AreaOrigin(whole, sr, clip, dr);
    StartsColumn(sr, area, clip, dr);
    StartsColumn(Turned(sr), Turned(area), Turned(clip), Turned(dr));
    LineIsColumn(sr, area, dr, area.y);
  }

  lemma StartsColumn(sr: Rect, area: Rect, clip: Rect, dr: Rect)
    requires sr.w > 0 && dr.w > 0 && area.x == Max(clip.x, dr.x + (First(sr.x) - sr.x) * dr.w / sr.w)
    ensures StartsInside(sr.x, sr.w, dr.x, dr.w, clip.x) <==> SourceColumn(sr, area, dr, area.x) >= 0
  {
    hide *;
    StartsInsideIff(sr.x, sr.w, dr.x, dr.w, clip.x);
    FirstColumn(sr, area, dr);
  }

  lemma FirstColumn(sr: Rect, area: Rect, dr: Rect)
    requires dr.w > 0
    ensures SourceColumn(sr, area, dr, area.x) == (area.x - dr.x) * sr.w / dr.w + sr.x
  {
    NoColumns(area.x, sr.w, dr.w);
  }

  lemma NoColumns(x: int, s: int, d: int)
    requires d > 0
    ensures (x - x) * s / d == 0
  {
    ZeroDiv(d);
  }

  lemma LineIsColumn(sr: Rect, area: Rect, dr: Rect, y: int)
    requires dr.h > 0
    ensures SourceLine(sr, area, dr, y) == SourceColumn(Turned(sr), Turned(area), Turned(dr), y)
  {
  }

  /** The samples of a drawn pixel are not before the area's first ones and not beyond the source's ends. */
  lemma SampleBounds(whole: Rect, sr: Rect, clip: Rect, dr: Rect, x: int, y: int)
    requires whole.x == 0 && whole.y == 0 && Area(whole, sr, clip, dr).Some?
    requires In(Area(whole, sr, clip, dr).value, x, y)
    ensures var area := Area(whole, sr, clip, dr).value;
            && dr.x <= area.x <= x < dr.x + dr.w && dr.y <= area.y <= y < dr.y + dr.h
            && SourceColumn(sr, area, dr, area.x) <= SourceColumn(sr, area, dr, x) < whole.w
            && SourceLine(sr, area, dr, area.y) <= SourceLine(sr, area, dr, y) < whole.h
  {
    hide Area, Shows;
    var area := Area(whole, sr, clip, dr).value;
    AreaIff(whole, sr, clip, dr, x, y);
    AreaOrigin(whole, sr, clip, dr);
    ShowsSome(whole.w, sr.x, sr.w, dr.x, dr.w, x);
    ShowsSome(whole.h, sr.y, sr.h, dr.y, dr.h, y);
    ShowsIsClose(whole.w, sr.x, sr.w, dr.x, dr.w, x);
    ShowsIsClose(whole.h, sr.y, sr.h, dr.y, dr.h, y);
    ColumnsAreMonotone(sr, area, dr, area.x, x);
    LinesAreMonotone(sr, area, dr, area.y, y);
    ColumnEnds(whole.w, sr, area, dr, x);
    ColumnEnds(whole.h, Turned(sr), Turned(area), Turned(dr), y);
  }

  lemma ShowsSome(w: int, s: int, sw: int, d: int, dw: int, x: int)
    requires sw > 0 && Shows(w, s, sw, d, dw, x)
    ensures First(s) < End(w, s, sw)
  {
  }

  /** A source rectangle that leaves the source to the right or at the bottom only does no harm. */
  lemma RightAndBottomAreHarmless(whole: Rect, sr: Rect, clip: Rect, dr: Rect)
    requires whole.x == 0 && whole.y == 0 && Area(whole, sr, clip, dr).Some? && sr.x >= 0 && sr.y >= 0
    ensures SampledInside(whole, sr, Area(whole, sr, clip, dr).value, dr)
  {
    hide Area, SampledInside;
    SampledInsideIff(whole, sr, clip, dr);
  }

  /**
   A failure: two columns from -1 on, stretched to three, are clipped to the one that shows the
   source's only column, and yet the sample comes from column -1.
   */
  lemma OutsideIsSampled()
    ensures var whole, sr, dr, clip := Rect(0, 0, 1, 1), Rect(-1, 0, 2, 1), Rect(0, 0, 3, 1), Rect(0, 0, 3, 1);
            && Area(whole, sr, clip, dr) == Some(Rect(1, 0, 1, 1))
            && SourceColumn(sr, Rect(1, 0, 1, 1), dr, 1) == -1
            && !Starts(sr, clip, dr)
  {
    hide *;
    AreaOfOne(Rect(0, 0, 1, 1), Rect(-1, 0, 2, 1), Rect(0, 0, 3, 1), Rect(0, 0, 3, 1));
    SampleOfOne(Rect(-1, 0, 2, 1), Rect(0, 0, 3, 1), Rect(0, 0, 3, 1));
  }

  lemma AreaOfOne(whole: Rect, sr: Rect, dr: Rect, clip: Rect)
    requires whole == Rect(0, 0, 1, 1) && sr == Rect(-1, 0, 2, 1) && dr == clip == Rect(0, 0, 3, 1)
    ensures Area(whole, sr, clip, dr) == Some(Rect(1, 0, 1, 1))
  {
    hide Scaled;
    ScaledOne(Rect(0, 0, 1, 1), sr, dr);
    assert ClipRect(whole, sr) == Some(Rect(0, 0, 1, 1));
    assert ClipRect(clip, Rect(1, 0, 1, 1)) == Some(Rect(1, 0, 1, 1));
  }

  lemma ScaledOne(dsr: Rect, sr: Rect, dr: Rect)
    requires dsr == Rect(0, 0, 1, 1) && sr == Rect(-1, 0, 2, 1) && dr == Rect(0, 0, 3, 1)
    ensures Scaled(dsr, sr, dr) == Rect(1, 0, 1, 1)
  {
  }

  lemma SampleOfOne(sr: Rect, dr: Rect, clip: Rect)
    requires sr == Rect(-1, 0, 2, 1) && dr == clip == Rect(0, 0, 3, 1)
    ensures SourceColumn(sr, Rect(1, 0, 1, 1), dr, 1) == -1
    ensures !Starts(sr, clip, dr)
  {
  }

  // ---------------------------------------------------------------- the loops

  function AreaOf(src: Surface, sr: Rect, dst: Surface, dr: Rect): (o: Option<Rect>)
    ensures o.Some? ==> sr.w > 0 && sr.h > 0 && dr.w > 0 && dr.h > 0 && o.value.w > 0 && o.value.h > 0
    ensures o.Some? ==> forall x, y :: In(o.value, x, y) ==> In(dst.clip, x, y)
  {
    Area(Whole(src), sr, dst.clip, dr)
  }

  /** Something is drawn: the areas that are too wide for the table of column offsets are not. */
  predicate Draws(src: Surface, sr: Rect, dst: Surface, dr: Rect) {
    AreaOf(src, sr, dst, dr).Some? && AreaOf(src, sr, dst, dr).value.w <= MAX_W
  }

  /** What is drawn, if anything, is sampled from inside the source (by SampledInsideIff). */
  predicate Stretchable(src: Surface, sr: Rect, dst: Surface, dr: Rect) {
    Draws(src, sr, dst, dr) ==> Starts(sr, dst.clip, dr)
  }

  /** The pixels of the area become what the sampled source pixels make of them, and every other byte stays. */
  ghost predicate StretchSpec(src: Surface, sr: Rect, dst: Surface, dr: Rect, para: Para,
                              a: seq<byte>, b: seq<byte>, s: seq<byte>)
    requires Valid(src) && Valid(dst) && AreaOf(src, sr, dst, dr).Some?
  {
    var area := AreaOf(src, sr, dst, dr).value;
    && |a| == |b| == dst.buffer.Length && |s| == src.buffer.Length
    && (forall x, y {:trigger In(area, x, y)} :: In(area, x, y) ==>
          && In(Whole(src), SourceColumn(sr, area, dr, x), SourceLine(sr, area, dr, y))
          && PixelAt(dst, b, x, y)
          == Drawn(Job(src.format, dst.format, para),
                   PixelAt(src, s, SourceColumn(sr, area, dr, x), SourceLine(sr, area, dr, y)),
                   PixelAt(dst, a, x, y), false))
    && (forall i {:trigger b[i]} :: 0 <= i < |b| && OffArea(dst, area, i) ==> b[i] == a[i])
  }

  /** Byte i belongs to no pixel of the area. */
  ghost predicate OffArea(dst: Surface, area: Rect, i: int) {
    forall x, y {:trigger In(area, x, y)} {:trigger Inside(dst, i, x, y)} :: In(area, x, y) ==> !Inside(dst, i, x, y)
  }

  /** A row of sw_stretch_blit. */
  method StretchRow(k: Plan, psline: int, convx: array<int>, pdline: int, ghost a: seq<byte>, ghost y: int)
    requires ValidPlan(k) && k.stretch && In(k.area, k.area.x, y) && k.area.w <= convx.Length
    requires psline == Line(k.m, y) * k.src.pitch && pdline == At(k.dst, k.area.x, y)
    requires forall i :: 0 <= i < k.area.w ==> convx[i] == Column(k.m, k.area.x + i) * k.src.format.bpp
    requires InProgress(k, a, k.area.x, y)
    modifies k.dst.buffer
    ensures InProgress(k, a, Right(k), y)
  {
    hide Valid, DoneUpTo;
    var dw, x, pd := k.area.w, 0, pdline;
    while dw != 0
      invariant 0 <= dw <= k.area.w && x + dw == k.area.w
      invariant pd == At(k.dst, k.area.x + x, y)
      invariant InProgress(k, a, k.area.x + x, y)
    {
      var ps := psline + convx[x];
      PlanPixel(k, ps, pd, a, k.area.x + x, y);
      AtStep(k.dst, k.area.x + x, y);
      pd := pd + k.dst.format.bpp;
      x := x + 1;
      dw := dw - 1;
    }
  }

  /** The loop over the rows. */
  method StretchRows(k: Plan, sr: Rect, dr: Rect, dsrY: int, convx: array<int>, pdline0: int, ghost a: seq<byte>)
    requires ValidPlan(k) && k.stretch && 0 < k.area.w <= convx.Length && k.m.Scale?
    requires k.m.y0 == k.area.y && k.m.sh == sr.h && k.m.dh == dr.h && k.m.sy == dsrY
    requires pdline0 == At(k.dst, k.area.x, k.area.y)
    requires forall i :: 0 <= i < k.area.w ==> convx[i] == Column(k.m, k.area.x + i) * k.src.format.bpp
    requires InProgress(k, a, k.area.x, k.area.y)
    modifies k.dst.buffer
    ensures InProgress(k, a, k.area.x, k.area.y + k.area.h)
  {
    hide Valid, DoneUpTo, At;
    var pdline, h, y := pdline0, k.area.h, 0;
    while h != 0
      invariant 0 <= h <= k.area.h && y + h == k.area.h
      invariant pdline == At(k.dst, k.area.x, k.area.y + y)
      invariant InProgress(k, a, k.area.x, k.area.y + y)
    {
      var psline := (y * sr.h / dr.h + dsrY) * k.src.pitch;
      StretchRow(k, psline, convx, pdline, a, k.area.y + y);
      StepRow(k, a, k.dst.buffer[..], k.src.buffer[..], k.area.y + y);
      AtStep(k.dst, k.area.x, k.area.y + y);
      pdline := pdline + k.dst.pitch;
      y := y + 1;
      h := h - 1;
    }
  }

  /** The plan of a stretch blit whose drawn area is ddr. */
  function StretchPlan(src: Surface, sr: Rect, dst: Surface, dr: Rect, para: Para, ddr: Rect): Plan
    requires dr.w > 0 && dr.h > 0
  {
    Plan(src, dst, para, true, ddr,
         Scale(ddr.x, sr.w, dr.w, (ddr.x - dr.x) * sr.w / dr.w + sr.x,
               ddr.y, sr.h, dr.h, (ddr.y - dr.y) * sr.h / dr.h + sr.y))
  }

  lemma StretchPlanIsValid(src: Surface, sr: Rect, dst: Surface, dr: Rect, para: Para)
    requires Valid(src) && Valid(dst) && src.buffer != dst.buffer
    requires AreaOf(src, sr, dst, dr).Some? && Starts(sr, dst.clip, dr)
    ensures var area := AreaOf(src, sr, dst, dr).value;
            var k := StretchPlan(src, sr, dst, dr, para, area);
            && ValidPlan(k)
            && (forall x :: Column(k.m, x) == SourceColumn(sr, area, dr, x))
            && (forall y :: Line(k.m, y) == SourceLine(sr, area, dr, y))
  {
    hide Valid, Drawn, Area, Starts;
    var area := AreaOf(src, sr, dst, dr).value;
    var k := StretchPlan(src, sr, dst, dr, para, area);
    AreaInside(k);
    SampledInsideIff(Whole(src), sr, dst.clip, dr);
    forall x, y | In(area, x, y)
      ensures In(Whole(src), Column(k.m, x), Line(k.m, y))
    {
      assert In(Whole(src), SourceColumn(sr, area, dr, x), SourceLine(sr, area, dr, y));
    }
  }

  lemma StretchIsDone(k: Plan, sr: Rect, dr: Rect, a: seq<byte>, b: seq<byte>, s: seq<byte>)
    requires ValidPlan(k) && k.stretch && AreaOf(k.src, sr, k.dst, dr) == Some(k.area)
    requires forall x :: Column(k.m, x) == SourceColumn(sr, k.area, dr, x)
    requires forall y :: Line(k.m, y) == SourceLine(sr, k.area, dr, y)
    requires DoneUpTo(k, a, b, s, k.area.x, k.area.y + k.area.h)
    ensures StretchSpec(k.src, sr, k.dst, dr, k.para, a, b, s)
  {
    hide Op, Touched, DoneUpTo, At, PixelDone, Drawn, Valid, Column, Line, SourceColumn, SourceLine, Area;
    JobIsValid(k);
    Finished(k, a, b, s);
    forall x, y | In(k.area, x, y)
      ensures In(Whole(k.src), SourceColumn(sr, k.area, dr, x), SourceLine(sr, k.area, dr, y))
      ensures In(Whole(k.dst), x, y)
      ensures PixelAt(k.dst, b, x, y)
           == Drawn(Job(k.src.format, k.dst.format, k.para),
                    PixelAt(k.src, s, SourceColumn(sr, k.area, dr, x), SourceLine(sr, k.area, dr, y)),
                    PixelAt(k.dst, a, x, y), false)
    {
      AreaIsInside(k, x, y);
      StretchOp(k, a, b, s, x, y);
    }
    forall i | 0 <= i < |b| && OffArea(k.dst, k.area, i)
      ensures b[i] == a[i]
    {
      assert Outside(k, i);
    }
  }

  lemma StretchOp(k: Plan, a: seq<byte>, b: seq<byte>, s: seq<byte>, x: int, y: int)
    requires ValidPlan(k) && k.stretch && In(k.area, x, y) && Sizes(k, a, b, s) && PixelDone(k, a, b, s, x, y)
    ensures PixelAt(k.dst, b, x, y)
         == Drawn(JobOf(k), PixelAt(k.src, s, Column(k.m, x), Line(k.m, y)), PixelAt(k.dst, a, x, y), false)
  {
  }

  /** The two clips at the beginning of sw_stretch_blit. */
  method ClipBoth(src: Surface, sr: Rect, dst: Surface, dr: Rect) returns (ddr: Option<Rect>)
    ensures ddr == AreaOf(src, sr, dst, dr)
  {
    ddr := ClipRect(Rect(0, 0, src.width, src.height), sr);
    if ddr.None? { return; }
    var dsr := ddr.value;
    PositiveSizes(dsr, sr, dr);
    var tmpr := Rect(Quot((dsr.x - sr.x) * dr.w, sr.w) + dr.x, Quot((dsr.y - sr.y) * dr.h, sr.h) + dr.y,
                     Quot(dsr.w * dr.w, sr.w), Quot(dsr.h * dr.h, sr.h));
    ddr := ClipRect(dst.clip, tmpr);
  }

  /** sw_stretch_blit; convx is its static table of column offsets. */
  method StretchBlit(src: Surface, sr: Rect, dst: Surface, dr: Rect, para: Para, convx: array<int>)
    requires Valid(src) && Valid(dst) && src.buffer != dst.buffer && convx.Length == MAX_W
    requires Stretchable(src, sr, dst, dr)
    modifies dst.buffer, convx
    ensures if Draws(src, sr, dst, dr)
            then StretchSpec(src, sr, dst, dr, para, old(dst.buffer[..]), dst.buffer[..], src.buffer[..])
            else dst.buffer[..] == old(dst.buffer[..])
  {
    hide Valid, StretchSpec, DoneUpTo, Starts, AreaOf, Drawn;
    ghost var a := dst.buffer[..];
    var c := ClipBoth(src, sr, dst, dr);
    if c.None? { return; }
    var ddr := c.value;
    var dsr := Rect((ddr.x - dr.x) * sr.w / dr.w + sr.x, (ddr.y - dr.y) * sr.h / dr.h + sr.y,
                    ddr.w * sr.w / dr.w, ddr.h * sr.h / dr.h);
    if ddr.w > MAX_W { return; }
    var k := StretchPlan(src, sr, dst, dr, para, ddr);
    StretchPlanIsValid(src, sr, dst, dr, para);
    NothingDone(k, a, src.buffer[..]);
    var i := 0;
    while i < ddr.w
      invariant 0 <= i <= ddr.w
      invariant forall j :: 0 <= j < i ==> convx[j] == Column(k.m, k.area.x + j) * src.format.bpp
      modifies convx
    {
      convx[i] := (i * sr.w / dr.w + dsr.x) * src.format.bpp;
      i := i + 1;
    }
    StretchRows(k, sr, dr, dsr.y, convx, At(dst, ddr.x, ddr.y), a);
    StretchIsDone(k, sr, dr, a, dst.buffer[..], src.buffer[..]);
  }

  // ---------------------------------------------------------------- both blits

  /** With equal sizes the area is the normal blit's targets, and every sample its target's translate. */
  lemma EqualSizesDraw(src: Surface, sr: Rect, dst: Surface, dr: Rect, x: int, y: int)
    requires AreaOf(src, sr, dst, dr).Some? && sr.w == dr.w && sr.h == dr.h
    ensures Starts(sr, dst.clip, dr)
    ensures var area := AreaOf(src, sr, dst, dr).value;
            && (In(area, x, y) <==> Target(src, sr, dst, dr, x, y))
            && (In(area, x, y) ==> SourceColumn(sr, area, dr, x) == x + sr.x - dr.x)
            && (In(area, x, y) ==> SourceLine(sr, area, dr, y) == y + sr.y - dr.y)
  {
    hide Area;
    var area := AreaOf(src, sr, dst, dr).value;
    AreaIff(Whole(src), sr, dst.clip, dr, x, y);
    EqualAxis(src.width, sr.x, sr.w, dr.x, dst.clip.x, x);
    EqualAxis(src.height, sr.y, sr.h, dr.y, dst.clip.y, y);
    if In(area, x, y) {
      SampleBounds(Whole(src), sr, dst.clip, dr, x, y);
      ColumnIsClose(sr, area, dr, x);
      LineIsClose(sr, area, dr, y);
    }
  }

  lemma EqualAxis(w: int, s: int, n: int, d: int, clip: int, x: int)
    requires n > 0
    ensures StartsInside(s, n, d, n, clip)
    ensures Shows(w, s, n, d, n, x) <==> 0 <= x - d + s < w && 0 <= x - d < n
  {
    DivOfProduct(First(s) - s, n);
    if First(s) < End(w, s, n) { DivOfProduct(End(w, s, n) - First(s), n); }
    if s < 0 { ProductMod(-s, n); }
  }

  lemma ProductMod(a: nat, n: nat)
    requires n > 0
    ensures a * n % n == 0
  {
    DivOfProduct(a, n);
    DivMod(a * n, n);
  }

  /** With equal sizes stretching is asked to do what the normal blit is, but for copied YUV pixels. */
  lemma EqualSizesAgree(src: Surface, sr: Rect, dst: Surface, dr: Rect, para: Para,
                        a: seq<byte>, b: seq<byte>, s: seq<byte>)
    requires Valid(src) && Valid(dst) && AreaOf(src, sr, dst, dr).Some? && sr.w == dr.w && sr.h == dr.h
    requires !(Fast(Job(src.format, dst.format, para)) && IsYuv(src.format.kind))
    requires StretchSpec(src, sr, dst, dr, para, a, b, s)
    ensures NormalSpec(src, sr, dst, dr, para, a, b, s)
  {
    hide Valid, Drawn, Blitted, At, AreaOf, Target, SourceColumn, SourceLine;
    ValidParts(src, dst, para);
    forall x, y | Target(src, sr, dst, dr, x, y)
      ensures In(AreaOf(src, sr, dst, dr).value, x, y) && In(Whole(src), x + sr.x - dr.x, y + sr.y - dr.y)
      ensures PixelAt(dst, b, x, y) == Blitted(Job(src.format, dst.format, para),
                                               PixelAt(src, s, x + sr.x - dr.x, y + sr.y - dr.y), PixelAt(dst, a, x, y))
    {
      EqualSizesDraw(src, sr, dst, dr, x, y);
      assert In(Whole(src), x + sr.x - dr.x, y + sr.y - dr.y) by { TargetIsInside(src, sr, dst, dr, x, y); }
      DrawnIsBlitted(Job(src.format, dst.format, para),
                     PixelAt(src, s, x + sr.x - dr.x, y + sr.y - dr.y), PixelAt(dst, a, x, y));
    }
    forall i | 0 <= i < |b| && OffTarget(src, sr, dst, dr, i)
      ensures b[i] == a[i]
    {
      forall x, y | In(AreaOf(src, sr, dst, dr).value, x, y)
        ensures !Inside(dst, i, x, y)
      {
        EqualSizesDraw(src, sr, dst, dr, x, y);
      }
      assert OffArea(dst, AreaOf(src, sr, dst, dr).value, i);
    }
  }

  lemma TargetIsInside(src: Surface, sr: Rect, dst: Surface, dr: Rect, x: int, y: int)
    requires Target(src, sr, dst, dr, x, y)
    ensures In(Whole(src), x + sr.x - dr.x, y + sr.y - dr.y)
  {
  }

  lemma ValidParts(src: Surface, dst: Surface, para: Para)
    requires Valid(src) && Valid(dst)
    ensures ValidJob(Job(src.format, dst.format, para))
    ensures forall x, y {:trigger In(dst.clip, x, y)} :: In(dst.clip, x, y) ==> In(Whole(dst), x, y)
  {
  }

  /** But for copied YUV pixels the stretch blit's pixel is the normal blit's. */
  lemma DrawnIsBlitted(j: Job, s: seq<byte>, d: seq<byte>)
    requires ValidJob(j) && |s| == j.sf.bpp && |d| == j.df.bpp
    requires !(Fast(j) && IsYuv(j.sf.kind))
    ensures Drawn(j, s, d, false) == Blitted(j, s, d)
  {
    hide Drawn, InTable;
    OneByteNeverMatters(j, s, d);
    if Fast(j) { FastIsSlow(j, s, d); }
  }

  /** sw_blit */
  method SwBlit(src: Surface, sr: Rect, dst: Surface, dr: Rect, para: Para, convx: array<int>)
    requires Valid(src) && Valid(dst) && src.buffer != dst.buffer && convx.Length == MAX_W
    requires (sr.w == dr.w && sr.h == dr.h) || Stretchable(src, sr, dst, dr)
    modifies dst.buffer, convx
    ensures sr.w == dr.w && sr.h == dr.h ==>
              NormalSpec(src, sr, dst, dr, para, old(dst.buffer[..]), dst.buffer[..], src.buffer[..])
    ensures sr.w != dr.w || sr.h != dr.h ==>
              if Draws(src, sr, dst, dr)
              then StretchSpec(src, sr, dst, dr, para, old(dst.buffer[..]), dst.buffer[..], src.buffer[..])
              else dst.buffer[..] == old(dst.buffer[..])
  {
    hide Valid, StretchSpec, NormalSpec, AreaOf;
    if sr.w == dr.w && sr.h == dr.h {
      NormalBlit(src, sr, dst, dr, para);
    } else {
      StretchBlit(src, sr, dst, dr, para, convx);
    }
  }
}
