/** Layout constraints and insets (libs/rMlib/include/UI/Util.h:13-95). */
module Constraints {
  import opened Geometry

  /** The largest int, which stands for "no limit" in a maximum. */
  const UNBOUND := 0x7fff_ffff

  datatype Insets = Insets(top: int, bottom: int, left: int, right: int) {
    function Horizontal(): int { left + right }

    function Vertical(): int { top + bottom }

    function Shrink(r: Rect): Rect {
      Rect(Point(r.topLeft.x + left, r.topLeft.y + top), Point(r.bottomRight.x - right, r.bottomRight.y - bottom))
    }

    predicate NonNegative() { top >= 0 && bottom >= 0 && left >= 0 && right >= 0 }
  }

  datatype Constraints = Constraints(min: Size, max: Size) {
    predicate HasBoundedWidth() { max.width != UNBOUND }

    predicate HasBoundedHeight() { max.height != UNBOUND }

    predicate Contain(s: Size) { min.width <= s.width <= max.width && min.height <= s.height <= max.height }

    function Inset(insets: Insets): Constraints {
      var minHorizontal := Max(0, min.width - insets.Horizontal());
      var minVertical := Max(0, min.height - insets.Vertical());
      var maxHorizontal :=
        if HasBoundedWidth() then Max(minHorizontal, max.width - insets.Horizontal()) else UNBOUND;
      var maxVertical :=
        if HasBoundedHeight() then Max(minVertical, max.height - insets.Vertical()) else UNBOUND;
      Constraints(Size(minHorizontal, minVertical), Size(maxHorizontal, maxVertical))
    }

    function Expand(s: Size, insets: Insets): Size {
      Size(Min(s.width + insets.Horizontal(), max.width), Min(s.height + insets.Vertical(), max.height))
    }

    /** What layouts rely on: 0 <= min <= max, and no minimum where there is no maximum. */
    predicate Good() {
      && 0 <= min.width <= max.width <= UNBOUND && 0 <= min.height <= max.height <= UNBOUND
      && (!HasBoundedWidth() ==> min.width == 0) && (!HasBoundedHeight() ==> min.height == 0)
    }
  }

  /** std::clamp. */
  function Clamp(v: int, lo: int, hi: int): int { if v < lo then lo else if hi < v then hi else v }

  // ----- Axes

  datatype Axis = Horizontal | Vertical

  function Main(axis: Axis, s: Size): int { if axis.Horizontal? then s.width else s.height }

  function Cross(axis: Axis, s: Size): int { if axis.Horizontal? then s.height else s.width }

  function Along(axis: Axis, main: int, cross: int): Size {
    if axis.Horizontal? then Size(main, cross) else Size(cross, main)
  }

  function MainOf(axis: Axis, p: Point): int { if axis.Horizontal? then p.x else p.y }

  function CrossOf(axis: Axis, p: Point): int { if axis.Horizontal? then p.y else p.x }

  function PointAlong(axis: Axis, main: int, cross: int): Point {
    if axis.Horizontal? then Point(main, cross) else Point(cross, main)
  }

  // ----- Insets in layout and in draw

  /** Insetting keeps constraints good. */
  lemma InsetGood(c: Constraints, insets: Insets)
    requires c.Good() && insets.NonNegative()
    ensures c.Inset(insets).Good()
  {
  }

  /** A child size within the inset constraints gives a size within the constraints. */
  lemma ExpandContained(c: Constraints, insets: Insets, child: Size)
    requires c.Good() && insets.NonNegative() && c.Inset(insets).Contain(child)
    ensures c.Contain(c.Expand(child, insets))
  {
  }

  /**
   Padding and Border draw their child in the shrunk rectangle. It has the size the child was laid out with exactly
   when the insets fit into the maximum on both axes.
   */
  lemma ShrinkUndoesExpand(c: Constraints, insets: Insets, child: Size, rect: Rect)
    requires c.Good() && insets.NonNegative() && c.Inset(insets).Contain(child)
    requires child.width < UNBOUND - insets.Horizontal() && child.height < UNBOUND - insets.Vertical()
    requires rect.Extents() == c.Expand(child, insets)
    ensures insets.Shrink(rect).Extents() == child
       <==> insets.Horizontal() <= c.max.width && insets.Vertical() <= c.max.height
  {
  }
}
