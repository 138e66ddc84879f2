/** sw_normal_blit: its two ways of drawing a row, its loops, and what it is to do. */
module SwOp {
  import opened Bytes
  import opened Clip
  import opened Pixel
  import opened PixelOp
  import opened Blit

  /** One pixel is read, treated and written. */
  method DrawPixel(j: Job, one: bool, src: array<byte>, ps: int, dst: array<byte>, pd: int)
    requires ValidJob(j) && src != dst
    requires 0 <= ps && ps + j.sf.bpp <= src.Length && 0 <= pd && pd + j.df.bpp <= dst.Length
    modifies dst
    ensures SameOutside(old(dst[..]), dst[..], pd, pd + j.df.bpp)
    ensures dst[..][pd..pd + j.df.bpp] == Drawn(j, src[..][ps..ps + j.sf.bpp], old(dst[..])[pd..pd + j.df.bpp], one)
  {
    hide Drawn, InTable;
    ghost var sv, dv := src[..], dst[..];
    var s := src[ps..ps + j.sf.bpp];
    var d := dst[pd..pd + j.df.bpp];
    var out := Drawn(j, s, d, one);
    assert s == sv[ps..ps + j.sf.bpp] && d == dv[pd..pd + j.df.bpp];
    forall c | 0 <= c < j.df.bpp {
      dst[pd + c] := out[c];
    }
    assert src[..] == sv;
    assert dst[..][pd..pd + j.df.bpp] == out;
  }

  ghost predicate InProgress(k: Plan, a: seq<byte>, x: int, y: int)
    requires ValidPlan(k)
    reads k.src.buffer, k.dst.buffer
  {
    DoneUpTo(k, a, k.dst.buffer[..], k.src.buffer[..], x, y)
  }

  /** Pixel (x, y) of a plan without the fast path. */
  method PlanPixel(k: Plan, ps: int, pd: int, ghost a: seq<byte>, ghost x: int, ghost y: int)
    requires ValidPlan(k) && In(k.area, x, y) && (k.stretch || !Fast(JobOf(k)))
    requires ps == At(k.src, Column(k.m, x), Line(k.m, y)) && pd == At(k.dst, x, y)
    requires InProgress(k, a, x, y)
    modifies k.dst.buffer
    ensures InProgress(k, a, x + 1, y)
  {
    hide Drawn, DoneUpTo, PixelDone, At, InTable;
    AtInside(k.src, Column(k.m, x), Line(k.m, y));
    AtInside(k.dst, x, y);
    ghost var b, s := k.dst.buffer[..], k.src.buffer[..];
    SizesOf(k, a, b, s, x, y);
    DrawPixel(JobOf(k), !k.stretch, k.src.buffer, ps, k.dst.buffer, pd);
    assert k.src.buffer[..] == s;
    DrawnIsDone(k, b, k.dst.buffer[..], s, x, y);
    StepPixel(k, a, b, k.dst.buffer[..], s, x, y);
  }

  lemma SizesOf(k: Plan, a: seq<byte>, b: seq<byte>, s: seq<byte>, x: int, y: int)
    requires ValidPlan(k) && DoneUpTo(k, a, b, s, x, y)
    ensures Sizes(k, a, b, s)
  {
  }

  lemma DrawnIsDone(k: Plan, b: seq<byte>, b2: seq<byte>, s: seq<byte>, x: int, y: int)
    requires ValidPlan(k) && In(k.area, x, y) && (k.stretch || !Fast(JobOf(k)))
    requires Sizes(k, b, b2, s)
    requires PixelAt(k.dst, b2, x, y)
          == Drawn(JobOf(k), PixelAt(k.src, s, Column(k.m, x), Line(k.m, y)), PixelAt(k.dst, b, x, y), !k.stretch)
    ensures PixelDone(k, b, b2, s, x, y)
  {
  }

  /** A row of sw_normal_blit's slow path, from left to right. */
  method SlowRow(k: Plan, psline: int, pdline: int, ghost a: seq<byte>, ghost y: int)
    requires ValidPlan(k) && k.m.Translate? && !k.stretch && !Fast(JobOf(k)) && In(k.area, k.area.x, y)
    requires psline == At(k.src, Column(k.m, k.area.x), Line(k.m, y)) && pdline == At(k.dst, k.area.x, y)
    requires InProgress(k, a, k.area.x, y)
    modifies k.dst.buffer
    ensures InProgress(k, a, Right(k), y)
  {
    hide Valid, DoneUpTo, At;
    var dw, ps, pd := k.area.w, psline, pdline;
    while dw != 0
      invariant 0 <= dw <= k.area.w
      invariant ps == At(k.src, Column(k.m, Right(k) - dw), Line(k.m, y)) && pd == At(k.dst, Right(k) - dw, y)
      invariant InProgress(k, a, Right(k) - dw, y)
    {
      ghost var x := Right(k) - dw;
      PlanPixel(k, ps, pd, a, x, y);
      AtStep(k.src, Column(k.m, x), Line(k.m, y));
      AtStep(k.dst, x, y);
      ps := ps + k.src.format.bpp;
      pd := pd + k.dst.format.bpp;
      dw := dw - 1;
    }
  }

  // ---------------------------------------------------------------- the fast path

  lemma AtDiff(s: Surface, d: Surface, x: int, y: int, dx: int, y2: int, n: int)
    requires s.format.bpp == d.format.bpp
    ensures At(d, x + n, y) - At(d, x, y) == At(s, x + dx + n, y2) - At(s, x + dx, y2) == n * d.format.bpp
  {
  }

  /** A row copied from source to destination is a row done when memcpy is what is asked for. */
  lemma StepFastRow(k: Plan, a: seq<byte>, b: seq<byte>, b2: seq<byte>, s: seq<byte>, y: int)
    requires ValidPlan(k) && k.m.Translate? && !k.stretch && Fast(JobOf(k)) && In(k.area, k.area.x, y)
    requires DoneUpTo(k, a, b, s, k.area.x, y)
    requires SameOutside(b, b2, At(k.dst, k.area.x, y), At(k.dst, Right(k), y))
    requires CopiedRow(k, b2, s, y)
    ensures DoneUpTo(k, a, b2, s, Right(k), y)
  {
    var x0 := k.area.x;
    forall px, py | In(k.area, px, py) && Before(px, py, Right(k), y)
      ensures PixelDone(k, a, b2, s, px, py)
    {
      if py < y {
        KeepsDone(k, a, b, b2, s, x0, y, At(k.dst, Right(k), y), px, py);
      } else {
        CopiedPixel(k, b2, s, px, y);
      }
    }
    forall i | 0 <= i < |b2| && !Touched(k, i, Right(k), y)
      ensures b2[i] == a[i]
    {
      assert !InRow(k, i, Right(k), y);
      assert !Touched(k, i, x0, y);
    }
  }

  ghost predicate CopiedRow(k: Plan, b2: seq<byte>, s: seq<byte>, y: int)
    requires ValidPlan(k)
  {
    SliceCopied(b2, s, At(k.dst, k.area.x, y), At(k.src, Column(k.m, k.area.x), Line(k.m, y)),
                k.area.w * k.src.format.bpp)
  }

  lemma CopiedPixel(k: Plan, b2: seq<byte>, s: seq<byte>, x: int, y: int)
    requires ValidPlan(k) && k.m.Translate? && !k.stretch && Fast(JobOf(k)) && In(k.area, x, y)
    requires |b2| == k.dst.buffer.Length && |s| == k.src.buffer.Length && CopiedRow(k, b2, s, y)
    ensures PixelAt(k.dst, b2, x, y) == PixelAt(k.src, s, Column(k.m, x), Line(k.m, y))
  {
    hide DoneUpTo, PixelDone, At, Blitted, Valid, SliceCopied;
    JobIsValid(k);
    SameSize(JobOf(k));
    var n, bpp := x - k.area.x, k.src.format.bpp;
    RowOffset(n, k.area.w, bpp);
    AtDiff(k.src, k.dst, k.area.x, y, k.m.dx, Line(k.m, y), n);
    AtInside(k.dst, x, y);
    AtInside(k.src, Column(k.m, x), Line(k.m, y));
    var off := n * bpp;
    SubSlice(b2, s, At(k.dst, k.area.x, y), At(k.src, Column(k.m, k.area.x), Line(k.m, y)), k.area.w * bpp, off, bpp);
    SlicesAgree(b2, s, At(k.dst, x, y), At(k.src, Column(k.m, x), Line(k.m, y)), bpp);
  }

  lemma SlicesAgree(a: seq<byte>, b: seq<byte>, p: int, q: int, n: int)
    requires SliceCopied(a, b, p, q, n)
    ensures 0 <= p && 0 <= q && 0 <= n && p + n <= |a| && q + n <= |b| && a[p..p + n] == b[q..q + n]
  {
  }

  lemma RowOffset(n: int, w: int, bpp: nat)
    requires 0 <= n < w
    ensures 0 <= n * bpp && n * bpp + bpp <= w * bpp
  {
    MulOrder(0, n, bpp);
    MulOrder(n + 1, w, bpp);
  }

  predicate SliceCopied(a: seq<byte>, b: seq<byte>, p: int, q: int, len: int) {
    && 0 <= p && 0 <= q && 0 <= len && p + len <= |a| && q + len <= |b|
    && a[p..p + len] == b[q..q + len]
  }

  lemma SubSlice(a: seq<byte>, b: seq<byte>, p: int, q: int, len: int, off: int, n: int)
    requires SliceCopied(a, b, p, q, len) && 0 <= off && 0 <= n && off + n <= len
    ensures SliceCopied(a, b, p + off, q + off, n)
  {
    var u, v := a[p..p + len], b[q..q + len];
    forall i {:trigger a[i]} | p + off <= i < p + off + n
      ensures a[i] == b[i - p + q]
    {
      assert a[i] == u[i - p] && b[i - p + q] == v[i - p];
    }
  }

  /** memcpy of len bytes. */
  method FastRow(k: Plan, psline: int, pdline: int, len: int, ghost a: seq<byte>, ghost y: int)
    requires ValidPlan(k) && k.m.Translate? && !k.stretch && Fast(JobOf(k)) && In(k.area, k.area.x, y)
    requires psline == At(k.src, Column(k.m, k.area.x), Line(k.m, y)) && pdline == At(k.dst, k.area.x, y)
    requires len == k.area.w * k.src.format.bpp
    requires InProgress(k, a, k.area.x, y)
    modifies k.dst.buffer
    ensures InProgress(k, a, Right(k), y)
  {
    hide DoneUpTo, Valid, At, Op, PixelDone;
    var src, dst := k.src.buffer, k.dst.buffer;
    ghost var b, s := dst[..], src[..];
    RowFits(k, y);
    forall c | 0 <= c < len {
      dst[pdline + c] := src[psline + c];
    }
    assert src[..] == s;
    StepFastRow(k, a, b, dst[..], s, y);
  }

  lemma RowFits(k: Plan, y: int)
    requires ValidPlan(k) && k.m.Translate? && Fast(JobOf(k)) && In(k.area, k.area.x, y)
    ensures var len, pd := k.area.w * k.src.format.bpp, At(k.dst, k.area.x, y);
            var ps := At(k.src, Column(k.m, k.area.x), Line(k.m, y));
            && 0 <= pd && pd + len == At(k.dst, Right(k), y) <= k.dst.buffer.Length
            && 0 <= ps && ps + len <= k.src.buffer.Length && len >= 0
  {
    SameSize(JobOf(k));
    var n := k.area.w - 1;
    assert In(k.area, k.area.x + n, y);
    AtDiff(k.src, k.dst, k.area.x, y, k.m.dx, Line(k.m, y), n);
    AtStep(k.dst, k.area.x + n, y);
    AtStep(k.src, Column(k.m, k.area.x + n), Line(k.m, y));
    AtInside(k.dst, k.area.x, y);
    AtInside(k.src, Column(k.m, k.area.x), Line(k.m, y));
    AtInside(k.dst, k.area.x + n, y);
    AtInside(k.src, Column(k.m, k.area.x + n), Line(k.m, y));
    MulOrder(0, k.area.w, k.src.format.bpp);
  }

  // ---------------------------------------------------------------- rows of rows

  /** The loop over the rows of sw_normal_blit. */
  method NormalRows(k: Plan, psline0: int, pdline0: int, ghost a: seq<byte>)
    requires ValidPlan(k) && k.m.Translate? && !k.stretch && k.area.w > 0
    requires psline0 == At(k.src, Column(k.m, k.area.x), Line(k.m, k.area.y))
    requires pdline0 == At(k.dst, k.area.x, k.area.y)
    requires InProgress(k, a, k.area.x, k.area.y)
    modifies k.dst.buffer
    ensures InProgress(k, a, k.area.x, k.area.y + k.area.h)
  {
    hide Valid, DoneUpTo, At, Touched, PixelDone;
    var psline, pdline, h := psline0, pdline0, k.area.h;
    var len := k.area.w * k.src.format.bpp;
    while h != 0
      invariant 0 <= h <= k.area.h
      invariant psline == At(k.src, Column(k.m, k.area.x), Line(k.m, k.area.y + (k.area.h - h)))
      invariant pdline == At(k.dst, k.area.x, k.area.y + (k.area.h - h))
      invariant InProgress(k, a, k.area.x, k.area.y + (k.area.h - h))
    {
      ghost var y := k.area.y + (k.area.h - h);
      if Fast(JobOf(k)) {
        FastRow(k, psline, pdline, len, a, y);
      } else {
        SlowRow(k, psline, pdline, a, y);
      }
      StepRow(k, a, k.dst.buffer[..], k.src.buffer[..], y);
      AtStep(k.src, Column(k.m, k.area.x), Line(k.m, y));
      AtStep(k.dst, k.area.x, y);
      psline := psline + k.src.pitch;
      pdline := pdline + k.dst.pitch;
      h := h - 1;
    }
  }

  // ---------------------------------------------------------------- what a blit is to do

  /** A destination pixel that is inside the clip and whose translate is in the source rectangle and surface. */
  predicate Target(src: Surface, sr: Rect, dst: Surface, dr: Rect, x: int, y: int) {
    && In(dst.clip, x, y)
    && In(sr, x + sr.x - dr.x, y + sr.y - dr.y) && In(Whole(src), x + sr.x - dr.x, y + sr.y - dr.y)
  }

  /** Byte i belongs to the pixel (x, y). */
  predicate Inside(s: Surface, i: int, x: int, y: int) {
    At(s, x, y) <= i < At(s, x, y) + s.format.bpp
  }

  /** One pixel, with the fast path where it applies or always by the slow one. */
  function Made(slow: bool, j: Job, s: seq<byte>, d: seq<byte>): seq<byte>
    requires ValidJob(j) && |s| == j.sf.bpp && |d| == j.df.bpp
  {
    if slow then Drawn(j, s, d, true) else Blitted(j, s, d)
  }

  /** The targets become what their source pixels make of them, and every other byte stays. */
  ghost predicate MadeBy(slow: bool, src: Surface, sr: Rect, dst: Surface, dr: Rect, para: Para,
                         a: seq<byte>, b: seq<byte>, s: seq<byte>)
    requires Valid(src) && Valid(dst)
  {
    && |a| == |b| == dst.buffer.Length && |s| == src.buffer.Length
    && (forall x, y {:trigger Target(src, sr, dst, dr, x, y)} :: Target(src, sr, dst, dr, x, y) ==>
          PixelAt(dst, b, x, y) == Made(slow, Job(src.format, dst.format, para),
                                        PixelAt(src, s, x + sr.x - dr.x, y + sr.y - dr.y), PixelAt(dst, a, x, y)))
    && (forall i {:trigger b[i]} :: 0 <= i < |b| && OffTarget(src, sr, dst, dr, i) ==> b[i] == a[i])
  }

  ghost predicate NormalSpec(src: Surface, sr: Rect, dst: Surface, dr: Rect, para: Para,
                             a: seq<byte>, b: seq<byte>, s: seq<byte>)
    requires Valid(src) && Valid(dst)
  {
    MadeBy(false, src, sr, dst, dr, para, a, b, s)
  }

  /** Byte i belongs to no target. */
  ghost predicate OffTarget(src: Surface, sr: Rect, dst: Surface, dr: Rect, i: int) {
    forall x, y {:trigger Target(src, sr, dst, dr, x, y)} {:trigger Inside(dst, i, x, y)} ::
      Target(src, sr, dst, dr, x, y) ==> !Inside(dst, i, x, y)
  }

  /** What is asked for leaves no byte of the result open. */
  lemma ResultIsFixed(slow: bool, src: Surface, sr: Rect, dst: Surface, dr: Rect, para: Para,
                      a: seq<byte>, b: seq<byte>, b2: seq<byte>, s: seq<byte>)
    requires Valid(src) && Valid(dst)
    requires MadeBy(slow, src, sr, dst, dr, para, a, b, s) && MadeBy(slow, src, sr, dst, dr, para, a, b2, s)
    ensures b == b2
  {
    hide Made, Valid, InTable, At;
    forall i | 0 <= i < |b|
      ensures b[i] == b2[i]
    {
      if !OffTarget(src, sr, dst, dr, i) {
        var x, y :| Target(src, sr, dst, dr, x, y) && Inside(dst, i, x, y);
        ClipIsInside(dst, x, y);
        ByteOfPixel(dst, b, x, y, i);
        ByteOfPixel(dst, b2, x, y, i);
      }
    }
  }

  lemma ByteOfPixel(s: Surface, buf: seq<byte>, x: int, y: int, i: nat)
    requires Valid(s) && In(Whole(s), x, y) && |buf| == s.buffer.Length && Inside(s, i, x, y)
    ensures i < |buf| && 0 <= i - At(s, x, y) < s.format.bpp
    ensures buf[i] == PixelAt(s, buf, x, y)[i - At(s, x, y)]
  {
    AtInside(s, x, y);
  }

  lemma ClipIsInside(s: Surface, x: int, y: int)
    requires Valid(s) && In(s.clip, x, y)
    ensures In(Whole(s), x, y) && 0 <= At(s, x, y)
  {
    AtInside(s, x, y);
  }

  /** Whole blits by the fast path and by the slow one give the same buffer, but for copied YUV pixels. */
  lemma FastBlitIsSlowBlit(src: Surface, sr: Rect, dst: Surface, dr: Rect, para: Para,
                           a: seq<byte>, b: seq<byte>, b2: seq<byte>, s: seq<byte>)
    requires Valid(src) && Valid(dst) && !(Fast(Job(src.format, dst.format, para)) && IsYuv(src.format.kind))
    requires MadeBy(false, src, sr, dst, dr, para, a, b, s) && MadeBy(true, src, sr, dst, dr, para, a, b2, s)
    ensures b == b2
  {
    hide Valid, InTable, At, Drawn, Blitted;
    var j := Job(src.format, dst.format, para);
    forall x, y | Target(src, sr, dst, dr, x, y)
      ensures In(Whole(dst), x, y) && ValidJob(j)
      ensures PixelAt(dst, b2, x, y) == Made(false, j, PixelAt(src, s, x + sr.x - dr.x, y + sr.y - dr.y),
                                             PixelAt(dst, a, x, y))
    {
      ClipIsInside(dst, x, y);
      ValidIsJob(src, dst, para);
      MadeAlike(j, PixelAt(src, s, x + sr.x - dr.x, y + sr.y - dr.y), PixelAt(dst, a, x, y));
    }
    ResultIsFixed(false, src, sr, dst, dr, para, a, b, b2, s);
  }

  lemma ValidIsJob(src: Surface, dst: Surface, para: Para)
    requires Valid(src) && Valid(dst)
    ensures ValidJob(Job(src.format, dst.format, para))
  {
  }

  lemma MadeAlike(j: Job, s: seq<byte>, d: seq<byte>)
    requires ValidJob(j) && |s| == j.sf.bpp && |d| == j.df.bpp
    requires !(Fast(j) && IsYuv(j.sf.kind))
    ensures Made(true, j, s, d) == Made(false, j, s, d)
  {
    hide Drawn, InTable;
    if Fast(j) { FastIsSlow(j, s, d); }
  }

  /** Every byte of a row of the area belongs to one of its pixels. */
  lemma {:induction false} PixelOfByte(k: Plan, i: int, x: int, y: int)
    requires Valid(k.dst) && k.area.x <= x && InRow(k, i, x, y)
    ensures exists px :: k.area.x <= px < x && Inside(k.dst, i, px, y)
    decreases x - k.area.x
  {
    if x == k.area.x {
      assert false;
    } else {
      AtStep(k.dst, x - 1, y);
      if At(k.dst, x - 1, y) <= i {
        assert Inside(k.dst, i, x - 1, y);
      } else {
        PixelOfByte(k, i, x - 1, y);
      }
    }
  }

  /** Byte i belongs to no pixel of the area. */
  ghost predicate Outside(k: Plan, i: int) {
    forall x, y {:trigger In(k.area, x, y)} {:trigger Inside(k.dst, i, x, y)} ::
      In(k.area, x, y) ==> !Inside(k.dst, i, x, y)
  }

  lemma OutsideIsUntouched(k: Plan, i: int)
    requires ValidPlan(k)
    requires Outside(k, i)
    ensures !Touched(k, i, k.area.x, k.area.y + k.area.h)
  {
    forall py | k.area.y <= py < k.area.y + k.area.h
      ensures !InRow(k, i, Right(k), py)
    {
      if InRow(k, i, Right(k), py) {
        PixelOfByte(k, i, Right(k), py);
        var px :| k.area.x <= px < Right(k) && Inside(k.dst, i, px, py);
        assert In(k.area, px, py);
        assert false;
      }
    }
  }

  lemma NormalIsDone(k: Plan, sr: Rect, dr: Rect, a: seq<byte>, b: seq<byte>, s: seq<byte>)
    requires ValidPlan(k) && !k.stretch && k.m == Translate(sr.x - dr.x, sr.y - dr.y)
    requires forall x, y :: In(k.area, x, y) <==> Target(k.src, sr, k.dst, dr, x, y)
    requires DoneUpTo(k, a, b, s, k.area.x, k.area.y + k.area.h)
    ensures NormalSpec(k.src, sr, k.dst, dr, k.para, a, b, s)
  {
    hide Op, Touched, DoneUpTo, At, PixelDone, Blitted, Valid;
    JobIsValid(k);
    Finished(k, a, b, s);
    forall x, y | Target(k.src, sr, k.dst, dr, x, y)
      ensures PixelAt(k.dst, b, x, y) == Blitted(Job(k.src.format, k.dst.format, k.para),
                                                 PixelAt(k.src, s, x + sr.x - dr.x, y + sr.y - dr.y),
                                                 PixelAt(k.dst, a, x, y))
    {
      assert In(k.area, x, y);
      AreaIsInside(k, x, y);
      NormalOp(k, a, b, s, x, y);
    }
    forall i | 0 <= i < |b| && OffTarget(k.src, sr, k.dst, dr, i)
      ensures b[i] == a[i]
    {
      assert Outside(k, i);
    }
  }

  lemma JobIsValid(k: Plan)
    requires ValidPlan(k)
    ensures ValidJob(JobOf(k))
  {
  }

  lemma AreaIsInside(k: Plan, x: int, y: int)
    requires ValidPlan(k) && In(k.area, x, y)
    ensures In(Whole(k.dst), x, y) && In(Whole(k.src), Column(k.m, x), Line(k.m, y))
  {
  }

  lemma NormalOp(k: Plan, a: seq<byte>, b: seq<byte>, s: seq<byte>, x: int, y: int)
    requires ValidPlan(k) && !k.stretch && In(k.area, x, y) && Sizes(k, a, b, s) && PixelDone(k, a, b, s, x, y)
    ensures PixelAt(k.dst, b, x, y)
         == Blitted(JobOf(k), PixelAt(k.src, s, Column(k.m, x), Line(k.m, y)), PixelAt(k.dst, a, x, y))
  {
  }

  /** At the end of a blit all pixels of the area are done and no other byte has changed. */
  lemma Finished(k: Plan, a: seq<byte>, b: seq<byte>, s: seq<byte>)
    requires ValidPlan(k) && DoneUpTo(k, a, b, s, k.area.x, k.area.y + k.area.h)
    ensures Sizes(k, a, b, s)
    ensures forall x, y {:trigger In(k.area, x, y)} :: In(k.area, x, y) ==> PixelDone(k, a, b, s, x, y)
    ensures forall i {:trigger b[i]} :: 0 <= i < |b| && Outside(k, i) ==> b[i] == a[i]
  {
    forall i | 0 <= i < |b| && Outside(k, i)
      ensures b[i] == a[i]
    {
      OutsideIsUntouched(k, i);
    }
  }

  /** sw_normal_blit */
  method NormalBlit(src: Surface, sr: Rect, dst: Surface, dr: Rect, para: Para)
    requires Valid(src) && Valid(dst) && src.buffer != dst.buffer
    modifies dst.buffer
    ensures NormalSpec(src, sr, dst, dr, para, old(dst.buffer[..]), dst.buffer[..], src.buffer[..])
  {
    ghost var a := dst.buffer[..];
    var c := ClipRect(Rect(0, 0, src.width, src.height), sr);
    if c.None? { return; }
    var dsr := c.value;
    c := ClipRect(dst.clip, Rect(dsr.x + dr.x - sr.x, dsr.y + dr.y - sr.y, dsr.w, dsr.h));
    if c.None? { return; }
    var ddr := c.value;
    dsr := Rect(ddr.x + sr.x - dr.x, ddr.y + sr.y - dr.y, ddr.w, ddr.h);
    var k := Plan(src, dst, para, false, ddr, Translate(sr.x - dr.x, sr.y - dr.y));
    assert forall x, y :: In(ddr, x, y) <==> Target(src, sr, dst, dr, x, y);
    AreaInside(k);
    NothingDone(k, a, src.buffer[..]);
    NormalRows(k, At(src, dsr.x, dsr.y), At(dst, ddr.x, ddr.y), a);
    NormalIsDone(k, sr, dr, a, dst.buffer[..], src.buffer[..]);
  }

  /** A non-empty rectangle all of whose points are in the clip lies in the surface. */
  lemma AreaInside(k: Plan)
    requires Valid(k.dst) && k.area.w > 0 && k.area.h > 0
    requires forall x, y :: In(k.area, x, y) ==> In(k.dst.clip, x, y)
    ensures 0 <= k.area.x && Right(k) <= k.dst.width && 0 <= k.area.y && k.area.y + k.area.h <= k.dst.height
  {
    assert In(k.area, k.area.x, k.area.y) && In(k.area, Right(k) - 1, k.area.y + k.area.h - 1);
  }
}
