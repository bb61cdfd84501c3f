/** Where drawn widgets lie in the rectangle of their parent, in margins and gaps between drawn rectangles. */
module WidgetMargins {
  import opened Geometry
  import opened Constraints
  import opened Widgets
  import opened LayoutSoundness
  import Flex
  import Wrap

  // ----- Margins of a rectangle within another

  function Left(outer: Rect, inner: Rect): int { inner.topLeft.x - outer.topLeft.x }

  function Right(outer: Rect, inner: Rect): int { outer.bottomRight.x - inner.bottomRight.x }

  function Top(outer: Rect, inner: Rect): int { inner.topLeft.y - outer.topLeft.y }

  function Bottom(outer: Rect, inner: Rect): int { outer.bottomRight.y - inner.bottomRight.y }

  /** Opposite margins are equal, or the second is one larger. */
  predicate Even(before: int, after: int) { before <= after <= before + 1 }

  /** Margins in the direction of an axis, before and after the inner rectangle. */
  function Before(axis: Axis, outer: Rect, inner: Rect): int {
    if axis == Horizontal then Left(outer, inner) else Top(outer, inner)
  }

  function Behind(axis: Axis, outer: Rect, inner: Rect): int {
    if axis == Horizontal then Right(outer, inner) else Bottom(outer, inner)
  }

  function Other(axis: Axis): Axis { if axis == Horizontal then Vertical else Horizontal }

  /** From the start of one rectangle to the start of another, and from the end of one to the start of another. */
  function Shift(axis: Axis, a: Rect, b: Rect): int {
    if axis == Horizontal then b.topLeft.x - a.topLeft.x else b.topLeft.y - a.topLeft.y
  }

  function Gap(axis: Axis, a: Rect, b: Rect): int {
    if axis == Horizontal then b.topLeft.x - a.bottomRight.x - 1 else b.topLeft.y - a.bottomRight.y - 1
  }

  function Length(axis: Axis, r: Rect): int {
    if axis == Horizontal then r.bottomRight.x - r.topLeft.x + 1 else r.bottomRight.y - r.topLeft.y + 1
  }

  /** Each child starts where the one before ends; the block is centred along the axis and each child across it. */
  ghost predicate InARow(axis: Axis, outer: Rect, inner: seq<Rect>) {
    && (forall k | 0 < k < |inner| :: Gap(axis, inner[k - 1], inner[k]) == 0)
    && (inner != [] ==> Even(Before(axis, outer, inner[0]), Behind(axis, outer, inner[|inner| - 1])))
    && forall k | 0 <= k < |inner| :: Even(Before(Other(axis), outer, inner[k]), Behind(Other(axis), outer, inner[k]))
  }

  /** The least of the margins behind some rectangles. */
  ghost predicate IsLeastBehind(axis: Axis, outer: Rect, inner: seq<Rect>, margin: int) {
    && (exists k :: 0 <= k < |inner| && Behind(axis, outer, inner[k]) == margin)
    && forall k | 0 <= k < |inner| :: margin <= Behind(axis, outer, inner[k])
  }

  /** The block of all rectangles is centred. */
  ghost predicate Centred(axis: Axis, outer: Rect, inner: seq<Rect>) {
    inner != [] ==> exists margin :: IsLeastBehind(axis, outer, inner, margin) && Even(Before(axis, outer, inner[0]), margin)
  }

  /** `next` starts where the farthest of some rectangles ends. */
  ghost predicate StartsPast(axis: Axis, inner: seq<Rect>, next: Rect) {
    && (exists k :: 0 <= k < |inner| && Gap(axis, inner[k], next) == 0)
    && forall k | 0 <= k < |inner| :: Gap(axis, inner[k], next) >= 0
  }

  /**
   Each child starts where the one before ends, if it has room there. One without room starts a new run, beside the first
   child and past all children so far.
   */
  ghost predicate InRuns(axis: Axis, outer: Rect, inner: seq<Rect>) {
    && Centred(axis, outer, inner) && Centred(Other(axis), outer, inner)
    && forall k | 0 < k < |inner| :: FollowsInRuns(axis, outer, inner, k)
  }

  ghost predicate FollowsInRuns(axis: Axis, outer: Rect, inner: seq<Rect>, k: nat)
    requires 0 < k < |inner|
  {
    if Length(axis, inner[k]) <= Behind(axis, outer, inner[k - 1]) then
      Gap(axis, inner[k - 1], inner[k]) == 0 && Shift(Other(axis), inner[k - 1], inner[k]) == 0
    else Shift(axis, inner[0], inner[k]) == 0 && StartsPast(Other(axis), inner[..k], inner[k])
  }

  /** Where a widget drawn in `outer` has its children. */
  ghost predicate Arranged(w: Widget, outer: Rect, inner: seq<Rect>)
    requires ArityOk(w, |inner|)
  {
    match w
    case Padding(insets) => HasMargins(outer, inner[0], insets)
    case Border(insets) => HasMargins(outer, inner[0], insets)
    case Center =>
      && Even(Left(outer, inner[0]), Right(outer, inner[0]))
      && Even(Top(outer, inner[0]), Bottom(outer, inner[0]))
    case Corner(corner) => // clockwise from the top left
      && (if corner == 1 || corner == 2 then Right(outer, inner[0]) == 0 else Left(outer, inner[0]) == 0)
      && (if corner == 0 || corner == 1 then Top(outer, inner[0]) == 0 else Bottom(outer, inner[0]) == 0)
    case Sized(_, _) => inner[0] == outer
    case Cleared => inner[0] == outer
    case Stack(_) => forall k | 0 <= k < |inner| :: Left(outer, inner[k]) == 0 && Top(outer, inner[k]) == 0
    case FlexBox(axis, _) => InARow(axis, outer, inner)
    case WrapBox(axis) => InRuns(axis, outer, inner)
    case _ => true
  }

  ghost predicate HasMargins(outer: Rect, inner: Rect, insets: Insets) {
    && Left(outer, inner) == insets.left && Right(outer, inner) == insets.right
    && Top(outer, inner) == insets.top && Bottom(outer, inner) == insets.bottom
  }

  // ----- What the draw functions give

  /** The rectangles of the children of a widget drawn in a rectangle of its size. */
  lemma ArrangedByDraw(w: Widget, c: Constraints, sizes: seq<Size>, outer: Rect, inner: seq<Rect>)
    requires ArityOk(w, |sizes|) && |inner| == |sizes| && outer.Extents() == Combine(w, c, sizes)
    requires forall k | 0 <= k < |sizes| :: inner[k] == ChildRect(w, c, sizes, outer, k)
    requires forall k | 0 <= k < |sizes| :: inner[k].Extents() == sizes[k] && outer.Encloses(inner[k])
    requires w.WrapBox? ==> Wrap.Drawable(w.axis, c, sizes, outer)
    requires w.FlexBox? ==> Flex.NonNegative(sizes)
    ensures Arranged(w, outer, inner)
  {
    if w.FlexBox? {
      RowArranged(w.axis, c, sizes, outer, inner);
    } else if w.WrapBox? {
      RunsArranged(w.axis, c, sizes, outer, inner);
    }
  }

  /** In a tree that fits. */
  lemma NodeArranged(t: Tree, c: Constraints, outer: Rect, inner: seq<Rect>)
    requires WellFormed(t) && FitsScreen(t, c) && outer.Extents() == Layout(t, c) && |inner| == |t.children|
    requires forall k | 0 <= k < |inner| ::
               inner[k] == ChildRect(t.widget, c, LayoutEach(t.children, ChildConstraints(t, c)), outer, k)
    ensures Arranged(t.widget, outer, inner)
  {
    var sizes := LayoutEach(t.children, ChildConstraints(t, c));
    DrawNode(t, c, outer);
    DrawSound(t, c, outer);
    NodeFits(t, c);
    ChildConstraintsGood(t, c);
    EachSound(t.children, ChildConstraints(t, c), |t.children|);
    hide Fits, InsetsFit, Layout, ChildConstraints, ChildRect, Arranged, SizeOk, Extent, Combine, FitsScreen;
    ArrangedByDraw(t.widget, c, sizes, outer, inner);
  }

  lemma RowArranged(axis: Axis, c: Constraints, sizes: seq<Size>, outer: Rect, inner: seq<Rect>)
    requires |inner| == |sizes| && outer.Extents() == Flex.FlexSize(axis, c, sizes) && Flex.NonNegative(sizes)
    requires forall k | 0 <= k < |sizes| :: inner[k] == Flex.ChildRect(axis, sizes, outer, k)
    ensures InARow(axis, outer, inner)
  {
    var n := |sizes|;
    forall k | 0 < k < n ensures Gap(axis, inner[k - 1], inner[k]) == 0 {
      Flex.ChildrenContiguous(axis, sizes, outer, k - 1);
    }
    forall k | 0 <= k < n ensures Even(Before(Other(axis), outer, inner[k]), Behind(Other(axis), outer, inner[k])) {
      Flex.CrossWithinMax(axis, sizes, k);
    }
    if n > 0 {
      assert sizes[..0] == [] && sizes[..n] == sizes;
      Flex.MainSumGrows(axis, sizes, 0, n);
      assert Flex.MainSum(axis, sizes) == Flex.MainSum(axis, sizes[..n - 1]) + Main(axis, sizes[n - 1]);
    }
  }

  /** Some child reaches the end of the longest run so far, and some the far side of the runs. */
  lemma {:induction false} Reached(axis: Axis, maxMain: int, sizes: seq<Size>, k: nat) returns (i: nat, j: nat)
    requires 0 < k <= |sizes| && Wrap.NonNegative(sizes)
    ensures i < k && j < k
    ensures var r := Wrap.After(axis, maxMain, sizes, k);
            && Wrap.After(axis, maxMain, sizes, i + 1).rowMain == Max(r.main, r.rowMain)
            && Wrap.After(axis, maxMain, sizes, j + 1).cross + Cross(axis, sizes[j]) == r.cross + r.rowCross
  {
    hide Wrap.After, Wrap.Add, Main, Cross;
    i, j := k - 1, k - 1;
    Wrap.AfterOne(axis, maxMain, sizes, k - 1);
    Wrap.Extents(axis, maxMain, sizes, k - 1);
    var (r, next) := (Wrap.After(axis, maxMain, sizes, k - 1), Wrap.After(axis, maxMain, sizes, k));
    ReachedByAdd(axis, maxMain, r, sizes[k - 1]);
    if k == 1 {
      Wrap.AfterNone(axis, maxMain, sizes);
    } else {
      var a, b := Reached(axis, maxMain, sizes, k - 1);
      if Max(next.main, next.rowMain) != next.rowMain { i := a; }
      if next.cross + next.rowCross != next.cross + Cross(axis, sizes[k - 1]) { j := b; }
    }
  }

  /** The new child, or what was reached before, reaches farthest. */
  lemma ReachedByAdd(axis: Axis, maxMain: int, r: Wrap.Runs, s: Size)
    requires r.main >= 0 && r.rowMain >= 0 && s.width >= 0 && s.height >= 0
    ensures var next := Wrap.Add(r, axis, maxMain, s);
            && Max(next.main, next.rowMain) == Max(Max(r.main, r.rowMain), next.rowMain)
            && next.cross + next.rowCross == Max(r.cross + r.rowCross, next.cross + Cross(axis, s))
            && (r == Wrap.NO_RUNS ==> next.main == 0 <= next.rowMain && next.cross == 0 && next.rowCross == Cross(axis, s))
  {
  }

  lemma FirstInRuns(axis: Axis, maxMain: int, sizes: seq<Size>)
    requires sizes != []
    ensures var r := Wrap.After(axis, maxMain, sizes, 1); r.rowMain == Main(axis, sizes[0]) && r.cross == 0
  {
    Wrap.AfterOne(axis, maxMain, sizes, 0);
  }

  lemma TotalIs(axis: Axis, maxMain: int, sizes: seq<Size>)
    ensures var (total, r) := (Wrap.TotalSize(axis, maxMain, sizes), Wrap.After(axis, maxMain, sizes, |sizes|));
            Main(axis, total) == Max(r.main, r.rowMain) && Cross(axis, total) == r.cross + r.rowCross
  {
    hide Wrap.After;
  }

  lemma RunsArranged(axis: Axis, c: Constraints, sizes: seq<Size>, outer: Rect, inner: seq<Rect>)
    requires |inner| == |sizes| && Wrap.Drawable(axis, c, sizes, outer)
    requires forall k | 0 <= k < |sizes| :: inner[k] == Wrap.ChildRect(axis, Main(axis, c.max), sizes, outer, k)
    ensures InRuns(axis, outer, inner)
  {
    if sizes != [] { BlockCentred(axis, c, sizes, outer, inner); }
    forall k | 0 < k < |inner| ensures FollowsInRuns(axis, outer, inner, k) {
      NextInRuns(axis, c, sizes, outer, inner, k);
    }
  }

  /** The place of one child in the block of runs. */
  lemma ChildAt(axis: Axis, c: Constraints, sizes: seq<Size>, outer: Rect, k: nat)
    requires k < |sizes| && Wrap.Drawable(axis, c, sizes, outer)
    ensures var (total, maxMain) := (Wrap.TotalSize(axis, Main(axis, c.max), sizes), Main(axis, c.max));
            var (lead, side) := ((Length(axis, outer) - Main(axis, total)) / 2,
                                 (Length(Other(axis), outer) - Cross(axis, total)) / 2);
            var (r, inner) := (Wrap.After(axis, maxMain, sizes, k + 1), Wrap.ChildRect(axis, maxMain, sizes, outer, k));
            && Length(axis, outer) >= Main(axis, total) && Length(Other(axis), outer) >= Cross(axis, total)
            && Before(axis, outer, inner) == lead + r.rowMain - Main(axis, sizes[k])
            && Before(Other(axis), outer, inner) == side + r.cross
            && Behind(axis, outer, inner) == Length(axis, outer) - lead - r.rowMain
            && Behind(Other(axis), outer, inner) == Length(Other(axis), outer) - side - r.cross - Cross(axis, sizes[k])
            && Length(axis, inner) == Main(axis, sizes[k])
  {
    hide Wrap.After, Wrap.TotalSize;
  }

  /** What centring leaves behind the block. */
  function LeastBehind(axis: Axis, outer: Rect, extent: int): int {
    Length(axis, outer) - extent - (Length(axis, outer) - extent) / 2
  }

  lemma LeastMargins(axis: Axis, c: Constraints, sizes: seq<Size>, outer: Rect, inner: seq<Rect>)
    requires |inner| == |sizes| > 0 && Wrap.Drawable(axis, c, sizes, outer)
    requires forall k | 0 <= k < |sizes| :: inner[k] == Wrap.ChildRect(axis, Main(axis, c.max), sizes, outer, k)
    ensures var total := Wrap.TotalSize(axis, Main(axis, c.max), sizes);
            && IsLeastBehind(axis, outer, inner, LeastBehind(axis, outer, Main(axis, total)))
            && IsLeastBehind(Other(axis), outer, inner, LeastBehind(Other(axis), outer, Cross(axis, total)))
  {
    var (n, maxMain) := (|sizes|, Main(axis, c.max));
    var total := Wrap.TotalSize(axis, maxMain, sizes);
    var i, j := Reached(axis, maxMain, sizes, n);
    Wrap.Extents(axis, maxMain, sizes, n);
    TotalIs(axis, maxMain, sizes);
    hide Wrap.After, Wrap.ChildRect, Wrap.Drawable, Wrap.TotalSize, Length, Before, Behind, Main, Cross, Other;
    forall k | 0 <= k < n
      ensures LeastBehind(axis, outer, Main(axis, total)) <= Behind(axis, outer, inner[k])
      ensures LeastBehind(Other(axis), outer, Cross(axis, total)) <= Behind(Other(axis), outer, inner[k])
    {
      Wrap.WithinTotal(axis, maxMain, sizes, k);
      ChildAt(axis, c, sizes, outer, k);
    }
    ChildAt(axis, c, sizes, outer, i);
    ChildAt(axis, c, sizes, outer, j);
  }

  lemma BlockCentred(axis: Axis, c: Constraints, sizes: seq<Size>, outer: Rect, inner: seq<Rect>)
    requires |inner| == |sizes| > 0 && Wrap.Drawable(axis, c, sizes, outer)
    requires forall k | 0 <= k < |sizes| :: inner[k] == Wrap.ChildRect(axis, Main(axis, c.max), sizes, outer, k)
    ensures Centred(axis, outer, inner) && Centred(Other(axis), outer, inner)
  {
    hide Wrap.After, Wrap.ChildRect, Wrap.Drawable, Wrap.TotalSize, Length, Before, Behind, Main, Cross, Other, IsLeastBehind;
    LeastMargins(axis, c, sizes, outer, inner);
    FirstInRuns(axis, Main(axis, c.max), sizes);
    ChildAt(axis, c, sizes, outer, 0);
  }

  lemma NextInRuns(axis: Axis, c: Constraints, sizes: seq<Size>, outer: Rect, inner: seq<Rect>, k: nat)
    requires 0 < k < |inner| == |sizes| && Wrap.Drawable(axis, c, sizes, outer)
    requires forall k | 0 <= k < |sizes| :: inner[k] == Wrap.ChildRect(axis, Main(axis, c.max), sizes, outer, k)
    ensures FollowsInRuns(axis, outer, inner, k)
  {
    hide Wrap.After, Wrap.Drawable, Wrap.ChildRect, Length, Behind, Main, Gap, Shift, StartsPast, Wrap.Breaks;
    SameBreak(axis, c, sizes, outer, k);
    if Wrap.Breaks(Wrap.After(axis, Main(axis, c.max), sizes, k), axis, Main(axis, c.max), sizes[k]) {
      Wrap.AfterOne(axis, Main(axis, c.max), sizes, k);
      BesideFirst(axis, c, sizes, outer, k);
      AllBefore(axis, c, sizes, outer, inner, k);
    } else {
      BesideLast(axis, c, sizes, outer, k);
    }
  }

  lemma BesideFirst(axis: Axis, c: Constraints, sizes: seq<Size>, outer: Rect, k: nat)
    requires 0 < k < |sizes| && Wrap.Drawable(axis, c, sizes, outer)
    requires Wrap.Breaks(Wrap.After(axis, Main(axis, c.max), sizes, k), axis, Main(axis, c.max), sizes[k])
    ensures var maxMain := Main(axis, c.max);
            Shift(axis, Wrap.ChildRect(axis, maxMain, sizes, outer, 0), Wrap.ChildRect(axis, maxMain, sizes, outer, k)) == 0
  {
    hide Wrap.After, Wrap.ChildRect, Wrap.Drawable, Wrap.TotalSize, Length, Behind, Before, Main, Cross, Gap, Shift;
    var maxMain := Main(axis, c.max);
    FirstInRuns(axis, maxMain, sizes);
    Wrap.AfterOne(axis, maxMain, sizes, k);
    ChildAt(axis, c, sizes, outer, 0);
    ChildAt(axis, c, sizes, outer, k);
    Distances(axis, outer, Wrap.ChildRect(axis, maxMain, sizes, outer, 0), Wrap.ChildRect(axis, maxMain, sizes, outer, k));
  }

  lemma BesideLast(axis: Axis, c: Constraints, sizes: seq<Size>, outer: Rect, k: nat)
    requires 0 < k < |sizes| && Wrap.Drawable(axis, c, sizes, outer)
    requires !Wrap.Breaks(Wrap.After(axis, Main(axis, c.max), sizes, k), axis, Main(axis, c.max), sizes[k])
    ensures var maxMain := Main(axis, c.max);
            var (a, b) := (Wrap.ChildRect(axis, maxMain, sizes, outer, k - 1), Wrap.ChildRect(axis, maxMain, sizes, outer, k));
            Gap(axis, a, b) == 0 && Shift(Other(axis), a, b) == 0
  {
    hide Wrap.After, Wrap.ChildRect, Wrap.Drawable, Wrap.TotalSize, Length, Behind, Before, Main, Cross, Gap, Shift;
    var maxMain := Main(axis, c.max);
    Wrap.AfterOne(axis, maxMain, sizes, k);
    var (a, b) := (Wrap.ChildRect(axis, maxMain, sizes, outer, k - 1), Wrap.ChildRect(axis, maxMain, sizes, outer, k));
    ChildAt(axis, c, sizes, outer, k - 1);
    ChildAt(axis, c, sizes, outer, k);
    Distances(axis, outer, a, b);
    Distances(Other(axis), outer, a, b);
  }

  /** Distances between two rectangles from their margins in a third. */
  lemma Distances(axis: Axis, outer: Rect, a: Rect, b: Rect)
    ensures Gap(axis, a, b) == Before(axis, outer, b) + Behind(axis, outer, a) - Length(axis, outer)
    ensures Shift(axis, a, b) == Before(axis, outer, b) - Before(axis, outer, a)
  {
  }

  lemma AllBefore(axis: Axis, c: Constraints, sizes: seq<Size>, outer: Rect, inner: seq<Rect>, k: nat)
    requires 0 < k < |inner| == |sizes| && Wrap.Drawable(axis, c, sizes, outer)
    requires forall k | 0 <= k < |sizes| :: inner[k] == Wrap.ChildRect(axis, Main(axis, c.max), sizes, outer, k)
    requires var (r, next) := (Wrap.After(axis, Main(axis, c.max), sizes, k), Wrap.After(axis, Main(axis, c.max), sizes, k + 1));
             next.cross == r.cross + r.rowCross
    ensures StartsPast(Other(axis), inner[..k], inner[k])
  {
    var maxMain := Main(axis, c.max);
    var i, j := Reached(axis, maxMain, sizes, k);
    hide Wrap.After, Wrap.ChildRect, Wrap.Drawable, Wrap.TotalSize, Length, Behind, Before, Main, Cross, Gap, Shift;
    ChildAt(axis, c, sizes, outer, k);
    ChildAt(axis, c, sizes, outer, j);
    Distances(Other(axis), outer, inner[j], inner[k]);
    forall m | 0 <= m < k ensures Gap(Other(axis), inner[m], inner[k]) >= 0 {
      Wrap.WithinTotal(axis, maxMain, sizes, m);
      Wrap.Growth(axis, maxMain, sizes, m + 1, k);
      Wrap.Extents(axis, maxMain, sizes, k);
      ChildAt(axis, c, sizes, outer, m);
      Distances(Other(axis), outer, inner[m], inner[k]);
    }
    assert Gap(Other(axis), inner[..k][j], inner[k]) == 0;
  }

  /** The test of the layout pass, in drawn rectangles. */
  lemma SameBreak(axis: Axis, c: Constraints, sizes: seq<Size>, outer: Rect, k: nat)
    requires 0 < k < |sizes| && Wrap.Drawable(axis, c, sizes, outer)
    ensures var (maxMain, before) := (Main(axis, c.max), Wrap.ChildRect(axis, Main(axis, c.max), sizes, outer, k - 1));
            Wrap.Breaks(Wrap.After(axis, maxMain, sizes, k), axis, maxMain, sizes[k])
            <==> Length(axis, Wrap.ChildRect(axis, maxMain, sizes, outer, k)) > Behind(axis, outer, before)
  {
    Wrap.SameBreak(axis, c, sizes, outer, k);
    ChildAt(axis, c, sizes, outer, k - 1);
    ChildAt(axis, c, sizes, outer, k);
  }
}
