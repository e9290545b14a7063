/**
 * The Core Graphics values the selection surface computes with: points,
 * sizes and rectangles over `real` (standing for CGFloat).
 */
module Geometry {
  import opened Wrappers

  datatype Point = Point(x: real, y: real)

  datatype Size = Size(width: real, height: real)

  function Min(a: real, b: real): (m: real)
    ensures m <= a && m <= b
    ensures m == a || m == b
  {
    if a <= b then a else b
  }

  function Max(a: real, b: real): (m: real)
    ensures m >= a && m >= b
    ensures m == a || m == b
  {
    if a >= b then a else b
  }

  function Abs(a: real): (r: real)
    ensures r >= 0.0
    ensures r == a || r == -a
  {
    if a >= 0.0 then a else -a
  }

  /** Square of the Euclidean distance; `hypot(dx, dy) <= r` is `SquaredDistance <= r * r`. */
  function SquaredDistance(p: Point, q: Point): (d: real)
    ensures d >= 0.0
    ensures p == q ==> d == 0.0
  {
    var dx, dy := p.x - q.x, p.y - q.y;
    assert dx * dx >= 0.0 && dy * dy >= 0.0;
    dx * dx + dy * dy
  }

  /**
   * A CGRect: an origin and a size. Every rectangle the selection surface
   * builds has a non-negative size (it is "standardized"), and for those
   * minX is the origin and maxX the origin plus the width.
   */
  datatype Rect = Rect(x: real, y: real, width: real, height: real) {

    function MinX(): real { x }
    function MaxX(): real { x + width }
    function MidX(): real { x + width / 2.0 }
    function MinY(): real { y }
    function MaxY(): real { y + height }
    function MidY(): real { y + height / 2.0 }

    predicate Standardized() { width >= 0.0 && height >= 0.0 }

    /** CGRect.standardized: the same area with a non-negative size. */
    function Standardize(): (r: Rect)
      ensures r.Standardized()
      ensures Standardized() ==> r == this
      ensures r.width == Abs(width) && r.height == Abs(height)
      ensures r.MinX() == Min(x, x + width) && r.MaxX() == Max(x, x + width)
      ensures r.MinY() == Min(y, y + height) && r.MaxY() == Max(y, y + height)
    {
      Rect(if width >= 0.0 then x else x + width,
           if height >= 0.0 then y else y + height,
           Abs(width), Abs(height))
    }

    /** CGRect.contains(point): closed on the minimum edges, open on the maximum ones. */
    predicate Contains(p: Point) {
      MinX() <= p.x < MaxX() && MinY() <= p.y < MaxY()
    }

    /** This rectangle lies within `outer` (edges may touch). */
    predicate Inside(outer: Rect) {
      outer.MinX() <= MinX() && MaxX() <= outer.MaxX() &&
      outer.MinY() <= MinY() && MaxY() <= outer.MaxY()
    }

    /** CGRect.offsetBy(dx:dy:) */
    function Offset(dx: real, dy: real): (r: Rect)
      ensures r.width == width && r.height == height
      ensures r.MinX() - MinX() == dx && r.MinY() - MinY() == dy
    {
      Rect(x + dx, y + dy, width, height)
    }
  }

  /**
   * CGRect.intersection: both rectangles are standardized first; disjoint
   * rectangles give the null rectangle, written None here.
   */
  function Intersection(a: Rect, b: Rect): (r: Option<Rect>)
    ensures r.Some? ==> r.value.Standardized()
    ensures r.Some? ==> r.value.Inside(a.Standardize()) && r.value.Inside(b.Standardize())
  {
    var a', b' := a.Standardize(), b.Standardize();
    var x1, x2 := Max(a'.MinX(), b'.MinX()), Min(a'.MaxX(), b'.MaxX());
    var y1, y2 := Max(a'.MinY(), b'.MinY()), Min(a'.MaxY(), b'.MaxY());
    if x2 < x1 || y2 < y1 then None else Some(Rect(x1, y1, x2 - x1, y2 - y1))
  }

  /** CGRect.isEmpty on an intersection: the null rectangle, or a zero width or height. */
  predicate IsEmptyRect(r: Option<Rect>) {
    r.None? || r.value.width == 0.0 || r.value.height == 0.0
  }

  /**
   * A point lies in a rectangle of the intersection exactly when it lies in
   * both (standardized) rectangles: the intersection is the largest common part.
   */
  lemma IntersectionIsCommonPart(a: Rect, b: Rect, p: Point)
    ensures (Intersection(a, b).Some? && Intersection(a, b).value.Contains(p))
            <==> (a.Standardize().Contains(p) && b.Standardize().Contains(p))
  {
  }
}
