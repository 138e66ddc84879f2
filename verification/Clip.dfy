/** Rectangles and clipping. */
module Clip {
  import opened Bytes

  datatype Rect = Rect(x: int, y: int, w: int, h: int)

  /** A line after clipping: where it starts and how long it is. */
  datatype Span = Span(start: int, len: int)

  function Min(a: int, b: int): int {
    if a < b then a else b
  }

  function Max(a: int, b: int): int {
    if a > b then a else b
  }

  /** The points of a rectangle. */
  predicate In(r: Rect, x: int, y: int) {
    r.x <= x < r.x + r.w && r.y <= y < r.y + r.h
  }

  /** AM_OSD_ClipPoint */
  predicate ClipPoint(c: Rect, x: int, y: int)
    ensures ClipPoint(c, x, y) <==> In(c, x, y)
  {
    !(x < c.x || x >= c.x + c.w || y < c.y || y >= c.y + c.h)
  }

  /** AM_OSD_ClipRect: exactly the common points, or nothing when there are none. */
  function ClipRect(c: Rect, r: Rect): (o: Option<Rect>)
    ensures o.Some? ==> o.value.w > 0 && o.value.h > 0
    ensures o.Some? ==> forall x, y :: In(o.value, x, y) <==> In(c, x, y) && In(r, x, y)
    ensures o.None? ==> forall x, y :: !(In(c, x, y) && In(r, x, y))
  {
    var minx := Max(c.x, r.x);
    var miny := Max(c.y, r.y);
    var maxx := Min(c.x + c.w, r.x + r.w);
    var maxy := Min(c.y + c.h, r.y + r.h);
    if maxx <= minx || maxy <= miny then None
    else Some(Rect(minx, miny, maxx - minx, maxy - miny))
  }

  /** AM_OSD_ClipHLine */
  function ClipHLine(c: Rect, x: int, y: int, w: int): Option<Span> {
    if y < c.y || y >= c.y + c.h then None
    else
      var minx := Max(x, c.x);
      Some(Span(minx, Min(x + w, c.x + c.w) - minx))
  }

  /** AM_OSD_ClipVLine */
  function ClipVLine(c: Rect, x: int, y: int, h: int): Option<Span> {
    if x < c.x || x >= c.x + c.w then None
    else
      var miny := Max(y, c.y);
      Some(Span(miny, Min(y + h, c.y + c.h) - miny))
  }

  /**
   The clipped line is the common part whenever a line is reported, but its length is usable as a
   count only when line and clip overlap (or touch) along the line: otherwise it is negative.
   */
  lemma ClipHLineExact(c: Rect, x: int, y: int, w: int)
    ensures var o := ClipHLine(c, x, y, w);
            && (o.Some? ==> forall px :: o.value.start <= px < o.value.start + o.value.len
                              <==> In(c, px, y) && x <= px < x + w)
            && (o.None? ==> forall px :: !(In(c, px, y) && x <= px < x + w))
            && (o.Some? ==> (o.value.len >= 0 <==> Max(x, c.x) <= Min(x + w, c.x + c.w)))
  {
  }

  lemma ClipVLineExact(c: Rect, x: int, y: int, h: int)
    ensures var o := ClipVLine(c, x, y, h);
            && (o.Some? ==> forall py :: o.value.start <= py < o.value.start + o.value.len
                              <==> In(c, x, py) && y <= py < y + h)
            && (o.None? ==> forall py :: !(In(c, x, py) && y <= py < y + h))
            && (o.Some? ==> (o.value.len >= 0 <==> Max(y, c.y) <= Min(y + h, c.y + c.h)))
  {
  }
}
