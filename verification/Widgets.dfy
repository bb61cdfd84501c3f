/**
 Layout from scratch and drawing of a widget tree: the doLayout and doDraw functions of Layout.h, Text.h, Image.h,
 Stack.h, Flex.h and Wrap.h in libs/rMlib/include/UI, without the caches of their render objects.
 */
module Widgets {
  import opened Options
  import opened Geometry
  import opened Constraints
  import Flex
  import Wrap

  datatype Widget =
    | Text(text: string, fontSize: int, size: Size)  // the size is what the font gives for the text
    | Image(size: Size)
    | Colored
    | Padding(insets: Insets)
    | Border(insets: Insets)
    | Center
    | Corner(corner: int)
    | Sized(width: Option<int>, height: Option<int>)
    | Cleared
    | Stack(shouldUpdate: bool)
    | FlexBox(axis: Axis, weights: seq<real>)
    | WrapBox(axis: Axis)

  datatype Tree = Node(widget: Widget, children: seq<Tree>)

  predicate IsLeaf(w: Widget) { w.Text? || w.Image? || w.Colored? }

  predicate IsMulti(w: Widget) { w.Stack? || w.FlexBox? || w.WrapBox? }

  /** Number of children that a widget can have. */
  predicate ArityOk(w: Widget, count: nat) {
    if IsLeaf(w) then count == 0
    else if w.FlexBox? then count == |w.weights|
    else IsMulti(w) || count == 1
  }

  predicate WellFormed(t: Tree) {
    ArityOk(t.widget, |t.children|) && forall child | child in t.children :: WellFormed(child)
  }

  // ----- Layout

  function OptClamp(v: Option<int>, otherwise: int, lo: int, hi: int): int {
    if v.Some? then Clamp(v.value, lo, hi) else otherwise
  }

  /** Constraints for every child of a widget other than a FlexBox. */
  function InnerConstraints(w: Widget, c: Constraints): Constraints {
    match w
    case Padding(insets) => c.Inset(insets)
    case Border(insets) => c.Inset(insets)
    case Center => Constraints(Size(0, 0), c.max)
    case Corner(_) => Constraints(Size(0, 0), c.max)
    case Sized(width, height) =>
      Constraints(Size(OptClamp(width, c.min.width, c.min.width, c.max.width),
                       OptClamp(height, c.min.height, c.min.height, c.max.height)),
                  Size(OptClamp(width, c.max.width, c.min.width, c.max.width),
                       OptClamp(height, c.max.height, c.min.height, c.max.height)))
    case WrapBox(axis) => Constraints(Size(0, 0), Along(axis, UNBOUND, Cross(axis, c.max)))
    case _ => c
  }

  /** Text chooses the maximum first where minimum and maximum conflict. */
  function Limit(v: int, lo: int, hi: int): int { if v > hi then hi else if v < lo then lo else v }

  function StackSize(least: Size, sizes: seq<Size>): Size {
    if sizes == [] then least
    else
      var s, last := StackSize(least, sizes[..|sizes| - 1]), sizes[|sizes| - 1];
      Size(Max(s.width, last.width), Max(s.height, last.height))
  }

  /** The size a widget returns once its children have theirs. */
  function Combine(w: Widget, c: Constraints, sizes: seq<Size>): Size
    requires ArityOk(w, |sizes|)
  {
    match w
    case Text(_, _, size) => Size(Limit(size.width, c.min.width, c.max.width), Limit(size.height, c.min.height, c.max.height))
    case Image(size) => Size(Clamp(size.width, c.min.width, c.max.width), Clamp(size.height, c.min.height, c.max.height))
    case Colored => Size(if c.HasBoundedWidth() then c.max.width else c.min.width,
                         if c.HasBoundedHeight() then c.max.height else c.min.height)
    case Padding(insets) => c.Expand(sizes[0], insets)
    case Border(insets) => c.Expand(sizes[0], insets)
    case Center => FillMax(c, sizes[0])
    case Corner(_) => FillMax(c, sizes[0])
    case Sized(_, _) => sizes[0]
    case Cleared => sizes[0]
    case Stack(_) => StackSize(c.min, sizes)
    case FlexBox(axis, _) => Flex.FlexSize(axis, c, sizes)
    case WrapBox(axis) => Wrap.WrapSize(axis, c, sizes)
  }

  function FillMax(c: Constraints, child: Size): Size {
    Size(if c.HasBoundedWidth() then c.max.width else child.width,
         if c.HasBoundedHeight() then c.max.height else child.height)
  }

  function LayoutEach(ts: seq<Tree>, cs: seq<Constraints>): (sizes: seq<Size>)
    requires |cs| == |ts| && forall t | t in ts :: WellFormed(t)
    ensures |sizes| == |ts|
    decreases ts, 3
  {
    seq(|ts|, i requires 0 <= i < |ts| => Layout(ts[i], cs[i]))
  }

  function Same(c: Constraints, count: nat): seq<Constraints> { seq(count, _ => c) }

  /** The constraints a widget passes to each of its children. */
  function ChildConstraints(t: Tree, c: Constraints): (cs: seq<Constraints>)
    requires WellFormed(t)
    ensures |cs| == |t.children|
    decreases t, 1
  {
    if t.widget.FlexBox? then
      var (axis, weights) := (t.widget.axis, t.widget.weights);
      var loose := LayoutEach(t.children, Same(Flex.LooseConstraints(axis, c), |t.children|));
      var remaining := Flex.Remaining(axis, c, weights, loose);
      seq(|weights|, i requires 0 <= i < |weights| => Flex.ChildConstraints(axis, c, weights, remaining, i))
    else Same(InnerConstraints(t.widget, c), |t.children|)
  }

  /** Layout from scratch. */
  function Layout(t: Tree, c: Constraints): Size
    requires WellFormed(t)
    decreases t, 2
  {
    Combine(t.widget, c, LayoutEach(t.children, ChildConstraints(t, c)))
  }

  // ----- What a render object keeps from layout for draw

  datatype DrawFields =
    | NoFields
    | ChildField(childSize: Size)                          // Center, Corner
    | FlexFields(childSizes: seq<Size>, totalMain: int)
    | WrapFields(runSizes: seq<int>, totalSize: Size)

  function FieldsOf(w: Widget, c: Constraints, sizes: seq<Size>): DrawFields
    requires ArityOk(w, |sizes|)
  {
    match w
    case Center => ChildField(sizes[0])
    case Corner(_) => ChildField(sizes[0])
    case FlexBox(axis, _) => FlexFields(sizes, Flex.MainSum(axis, sizes))
    case WrapBox(axis) =>
      WrapFields(Wrap.Final(axis, Main(axis, c.max), sizes).runSizes, Wrap.TotalSize(axis, Main(axis, c.max), sizes))
    case _ => NoFields
  }

  /** The fields after a layout from scratch. */
  function Fields(t: Tree, c: Constraints): DrawFields
    requires WellFormed(t)
  {
    FieldsOf(t.widget, c, LayoutEach(t.children, ChildConstraints(t, c)))
  }

  // ----- Draw

  /** Where a widget drawn in `rect` draws child `k`. */
  function ChildRect(w: Widget, c: Constraints, sizes: seq<Size>, rect: Rect, k: nat): Rect
    requires ArityOk(w, |sizes|) && k < |sizes|
  {
    var (dx, dy) := (rect.Width() - sizes[k].width, rect.Height() - sizes[k].height);
    match w
    case Padding(insets) => insets.Shrink(rect)
    case Border(insets) => insets.Shrink(rect)
    case Center => RectAt(Point(rect.topLeft.x + TruncDiv(dx, 2), rect.topLeft.y + TruncDiv(dy, 2)), sizes[k])
    case Corner(corner) =>
      var x := if corner == 1 || corner == 2 then dx else 0;
      var y := if corner == 0 || corner == 1 then 0 else dy;
      RectAt(Point(rect.topLeft.x + x, rect.topLeft.y + y), sizes[k])
    case Stack(_) => RectAt(rect.topLeft, sizes[k])
    case FlexBox(axis, _) => Flex.ChildRect(axis, sizes, rect, k)
    case WrapBox(axis) => Wrap.ChildRect(axis, Main(axis, c.max), sizes, rect, k)
    case _ => rect
  }
}
