/** The embedded-graphics primitives the engine and the panel drivers use. */
module Geometry {
  /** A point with signed coordinates (embedded-graphics `Point`, i32 fields). */
  datatype Point = Point(x: int, y: int)

  /** A rectangle given by its top-left corner and its unsigned size. */
  datatype Rectangle = Rectangle(topLeft: Point, width: nat, height: nat)

  datatype Option<T> = None | Some(value: T)

  /** The inclusive bottom-right corner, absent for a rectangle of zero width or height. */
  function BottomRight(r: Rectangle): (br: Option<Point>)
    ensures br.None? <==> r.width == 0 || r.height == 0
    ensures br.Some? ==> br.value.x - r.topLeft.x + 1 == r.width && br.value.y - r.topLeft.y + 1 == r.height
  {
    if r.width == 0 || r.height == 0 then None
    else Some(Point(r.topLeft.x + r.width - 1, r.topLeft.y + r.height - 1))
  }

  /** Whether `p` lies inside `r`. */
  predicate Contains(r: Rectangle, p: Point) {
    r.topLeft.x <= p.x < r.topLeft.x + r.width && r.topLeft.y <= p.y < r.topLeft.y + r.height
  }

  function Max(a: int, b: int): int { if a < b then b else a }
  function Min(a: int, b: int): int { if a < b then a else b }

  /** The overlap of two rectangles; a zero-sized rectangle when they do not overlap. */
  function Intersection(a: Rectangle, b: Rectangle): (r: Rectangle)
    ensures forall p :: Contains(r, p) <==> Contains(a, p) && Contains(b, p)
  {
    var left := Max(a.topLeft.x, b.topLeft.x);
    var top := Max(a.topLeft.y, b.topLeft.y);
    var right := Min(a.topLeft.x + a.width, b.topLeft.x + b.width);
    var bottom := Min(a.topLeft.y + a.height, b.topLeft.y + b.height);
    if left < right && top < bottom then Rectangle(Point(left, top), right - left, bottom - top)
    else Rectangle(Point(0, 0), 0, 0)
  }
}
