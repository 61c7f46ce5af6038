/** Axis-aligned rectangles on the tile grid. */
module Geometry {
  datatype Rect = Rect(x: int, y: int, w: int, h: int)

  function Max(a: int, b: int): int { if a >= b then a else b }
  function Min(a: int, b: int): int { if a <= b then a else b }

  predicate Contains(r: Rect, px: int, py: int) {
    r.x <= px < r.x + r.w && r.y <= py < r.y + r.h
  }

  predicate IsEmpty(r: Rect) { r.w == 0 || r.h == 0 }

  /** The length of the overlap of `[a0, a0 + alen)` and `[b0, b0 + blen)`,
      0 when they are disjoint. */
  function Overlap(a0: int, alen: int, b0: int, blen: int): (len: int)
    ensures len >= 0
  {
    Max(0, Min(a0 + alen, b0 + blen) - Max(a0, b0))
  }

  /** `rectIntersect(ax, ay, aw, ah, bx, by, bw, bh)`. Each axis is computed
      on its own: the width from the two x ranges, the height from the two
      y ranges. */
  function RectIntersect(a: Rect, b: Rect): (r: Rect)
    ensures r.w >= 0 && r.h >= 0
    ensures r.x == Max(a.x, b.x) && r.y == Max(a.y, b.y)
    ensures r.w == Overlap(a.x, a.w, b.x, b.w) && r.h == Overlap(a.y, a.h, b.y, b.h)
  {
    var x, y := Max(a.x, b.x), Max(a.y, b.y);
    var right, bottom := Min(a.x + a.w, b.x + b.w), Min(a.y + a.h, b.y + b.h);
    Rect(x, y, Max(0, right - x), Max(0, bottom - y))
  }

  /** The intersection covers exactly the points covered by both inputs. */
  lemma RectIntersectPoints(a: Rect, b: Rect, px: int, py: int)
    ensures Contains(RectIntersect(a, b), px, py) <==> Contains(a, px, py) && Contains(b, px, py)
  {
  }

  lemma RectIntersectSymmetric(a: Rect, b: Rect)
    ensures RectIntersect(a, b) == RectIntersect(b, a)
  {
  }

  /** A non-empty intersection lies inside both rectangles. */
  lemma RectIntersectInside(a: Rect, b: Rect)
    requires var r := RectIntersect(a, b); r.w > 0 && r.h > 0
    ensures var r := RectIntersect(a, b);
      a.x <= r.x && r.x + r.w <= a.x + a.w && a.y <= r.y && r.y + r.h <= a.y + a.h &&
      b.x <= r.x && r.x + r.w <= b.x + b.w && b.y <= r.y && r.y + r.h <= b.y + b.h
  {
  }
}
