/** Plane geometry shared by the collision pass and the lighting pass.
    Coordinates are integers: the floating-point rounding of android.graphics
    PointF and RectF is not part of this model. */
module Geometry {

  /** A point, or the vector between two points (PointF). */
  datatype Point = Point(x: int, y: int)

  /** A directed segment from p1 to p2: a wall edge or a ray. */
  datatype Segment = Segment(p1: Point, p2: Point)

  /** An axis-aligned rectangle with y growing downwards (RectF). */
  datatype Rect = Rect(left: int, top: int, right: int, bottom: int)

  /** The vector that leads from `from` to `to`. */
  function Vector(from: Point, to: Point): Point
  {
    Point(to.x - from.x, to.y - from.y)
  }

  /** The two-dimensional cross product; its sign tells on which side of v the
      vector w points. */
  function Cross(v: Point, w: Point): int
  {
    v.x * w.y - v.y * w.x
  }

  /** The overlap test of RectF.intersect: strict on every side, so rectangles
      that only touch do not intersect. */
  predicate Intersects(a: Rect, b: Rect)
  {
    a.left < b.right && b.left < a.right && a.top < b.bottom && b.top < a.bottom
  }

  /** r lies inside a. */
  predicate Within(r: Rect, a: Rect)
  {
    a.left <= r.left && a.top <= r.top && r.right <= a.right && r.bottom <= a.bottom
  }

  /** What a.intersect(b) (RectF) leaves in its receiver a: the common part of
      the two rectangles when they intersect, a unchanged when they do not. */
  function Intersection(a: Rect, b: Rect): (r: Rect)
    ensures Intersects(a, b) ==> Within(r, a) && Within(r, b)
    ensures !Intersects(a, b) ==> r == a
  {
    if Intersects(a, b) then
      Rect(if a.left < b.left then b.left else a.left,
           if a.top < b.top then b.top else a.top,
           if a.right > b.right then b.right else a.right,
           if a.bottom > b.bottom then b.bottom else a.bottom)
    else a
  }

  /** The common part is the largest rectangle inside both. */
  lemma IntersectionLargest(a: Rect, b: Rect, s: Rect)
    requires Intersects(a, b) && Within(s, a) && Within(s, b)
    ensures Within(s, Intersection(a, b))
  {
  }
}
