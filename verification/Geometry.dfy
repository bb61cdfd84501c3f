/** Points, sizes, rectangles and C++ integer division (libs/rMlib/include/MathUtil.h). */
module Geometry {

  datatype Point = Point(x: int, y: int)

  datatype Size = Size(width: int, height: int)

  /** Both corners belong to the rectangle, so an empty one has its bottom right before its top left. */
  datatype Rect = Rect(topLeft: Point, bottomRight: Point) {
    function Width(): int { bottomRight.x - topLeft.x + 1 }

    function Height(): int { bottomRight.y - topLeft.y + 1 }

    function Extents(): Size { Size(Width(), Height()) }

    predicate Contains(p: Point) {
      topLeft.x <= p.x <= bottomRight.x && topLeft.y <= p.y <= bottomRight.y
    }

    /** `inner` lies within this rectangle; also meaningful when `inner` is empty. */
    predicate Encloses(inner: Rect) {
      && topLeft.x <= inner.topLeft.x
      && inner.bottomRight.x <= bottomRight.x
      && topLeft.y <= inner.topLeft.y
      && inner.bottomRight.y <= bottomRight.y
    }

    ghost predicate DisjointFrom(other: Rect) {
      forall p :: !(Contains(p) && other.Contains(p))
    }
  }

  /** The rectangle of size `s` whose top left corner is `p`. */
  function RectAt(p: Point, s: Size): Rect {
    Rect(p, Point(p.x + s.width - 1, p.y + s.height - 1))
  }

  function Max(a: int, b: int): int { if a < b then b else a }

  function Min(a: int, b: int): int { if b < a then b else a }

  function Abs(a: int): nat { if a < 0 then -a else a }

  /** C++ division, which truncates toward zero. */
  function TruncDiv(a: int, b: int): int
    requires b > 0
  {
    if a >= 0 then a / b else -((-a) / b)
  }
}
