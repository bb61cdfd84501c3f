/**
 Soundness of layout and draw over whole widget trees: sizes stay within their constraints, and every widget is drawn
 inside its parent with exactly the size it was laid out with.
 */
module LayoutSoundness {
  import opened Geometry
  import opened Constraints
  import opened Widgets
  import Flex
  import Wrap

  // ----- Premises

  /** Sizes and insets are not negative, and weights are whole. */
  predicate NumbersOk(w: Widget) {
    match w
    case Text(_, _, size) => size.width >= 0 && size.height >= 0
    case Image(size) => size.width >= 0 && size.height >= 0
    case Padding(insets) => insets.NonNegative()
    case Border(insets) => insets.NonNegative()
    case FlexBox(_, weights) =>
      forall i | 0 <= i < |weights| :: weights[i] >= 0.0 && weights[i] == weights[i].Floor as real
    case _ => true
  }

  /** Componentwise sum of the extents of several trees. */
  function ExtentSum(ts: seq<Tree>): Size
    decreases ts, 1
  {
    if ts == [] then Size(0, 0)
    else
      var (a, b) := (ExtentSum(ts[..|ts| - 1]), Extent(ts[|ts| - 1]));
      Size(a.width + b.width, a.height + b.height)
  }

  /** A bound on the space a tree takes along an axis without a maximum. */
  function Extent(t: Tree): Size
    decreases t, 0
  {
    var inner := ExtentSum(t.children);
    match t.widget
    case Text(_, _, size) => size
    case Image(size) => size
    case Padding(insets) => Size(inner.width + insets.Horizontal(), inner.height + insets.Vertical())
    case Border(insets) => Size(inner.width + insets.Horizontal(), inner.height + insets.Vertical())
    case Sized(width, height) =>
      Size(if width.Some? then Max(width.value, inner.width) else inner.width,
           if height.Some? then Max(height.value, inner.height) else inner.height)
    case _ => inner
  }

  /**
   The children of a row or column find room, each child of a wrap fits along the main axis and its runs across it;
   Expanded is used only where there is a maximum.
   */
  predicate RoomFor(w: Widget, c: Constraints, sizes: seq<Size>)
    requires ArityOk(w, |sizes|)
  {
    match w
    case FlexBox(axis, weights) =>
      && Flex.FixedMain(axis, weights, sizes) <= Main(axis, c.max)
      && (Main(axis, c.max) == UNBOUND ==> forall i | 0 <= i < |weights| :: weights[i] == 0.0)
    case WrapBox(axis) =>
      && (forall i | 0 <= i < |sizes| :: Main(axis, sizes[i]) <= Main(axis, c.max))
      && Cross(axis, Wrap.TotalSize(axis, Main(axis, c.max), sizes)) <= Cross(axis, c.max)
    case _ => true
  }

  predicate Small(t: Tree) { Extent(t).width < UNBOUND && Extent(t).height < UNBOUND }

  /** The premises at every node, under the constraints that reach it. */
  predicate Fits(t: Tree, c: Constraints)
    requires WellFormed(t)
    decreases t, 0
  {
    && NumbersOk(t.widget) && Small(t)
    && RoomFor(t.widget, c, LayoutEach(t.children, ChildConstraints(t, c)))
    && FitEach(t.children, ChildConstraints(t, c))
  }

  predicate FitEach(ts: seq<Tree>, cs: seq<Constraints>)
    requires |cs| == |ts| && forall t | t in ts :: WellFormed(t)
    decreases ts, 1
  {
    forall i | 0 <= i < |ts| :: Fits(ts[i], cs[i])
  }

  // ----- Results

  /** A size within its constraints that has a value on every axis, bounded by the extent where there is no maximum. */
  predicate SizeOk(c: Constraints, s: Size, extent: Size) {
    && c.Contain(s) && s.width < UNBOUND && s.height < UNBOUND
    && (!c.HasBoundedWidth() ==> s.width <= extent.width)
    && (!c.HasBoundedHeight() ==> s.height <= extent.height)
  }

  lemma {:induction false} ExtentsNonNegative(t: Tree, c: Constraints)
    requires WellFormed(t) && Fits(t, c)
    ensures Extent(t).width >= 0 && Extent(t).height >= 0
  {
    ExtentSumNonNegative(t.children, ChildConstraints(t, c));
  }

  lemma {:induction false} ExtentSumNonNegative(ts: seq<Tree>, cs: seq<Constraints>)
    requires |cs| == |ts| && (forall t | t in ts :: WellFormed(t)) && FitEach(ts, cs)
    ensures ExtentSum(ts).width >= 0 && ExtentSum(ts).height >= 0
    ensures forall i | 0 <= i < |ts| :: 0 <= Extent(ts[i]).width <= ExtentSum(ts).width
    ensures forall i | 0 <= i < |ts| :: 0 <= Extent(ts[i]).height <= ExtentSum(ts).height
    decreases ts
  {
    if ts != [] {
      var n := |ts| - 1;
      assert FitEach(ts[..n], cs[..n]);
      ExtentSumNonNegative(ts[..n], cs[..n]);
      assert Fits(ts[n], cs[n]);
      ExtentsNonNegative(ts[n], cs[n]);
    }
  }

  // ----- One widget at a time

  /** Extents along an axis, for children that respect given bounds. */
  ghost predicate ChildrenOk(ts: seq<Tree>, cs: seq<Constraints>, sizes: seq<Size>)
  {
    && |cs| == |sizes| == |ts|
    && forall i | 0 <= i < |ts| :: SizeOk(cs[i], sizes[i], Extent(ts[i])) && sizes[i].width >= 0 && sizes[i].height >= 0
  }

  lemma InnerGood(t: Tree, c: Constraints)
    requires c.Good() && NumbersOk(t.widget) && !t.widget.FlexBox? && Small(t)
    ensures InnerConstraints(t.widget, c).Good()
  {
    if t.widget.Padding? || t.widget.Border? { InsetGood(c, t.widget.insets); }
  }

  /** Widgets with one child, and leaves. */
  lemma SingleSound(t: Tree, c: Constraints, sizes: seq<Size>)
    requires ArityOk(t.widget, |t.children|) && |sizes| == |t.children| && !IsMulti(t.widget)
    requires c.Good() && NumbersOk(t.widget) && Small(t)
    requires ExtentSum(t.children).width >= 0 && ExtentSum(t.children).height >= 0
    requires ChildrenOk(t.children, Same(InnerConstraints(t.widget, c), |t.children|), sizes)
    ensures SizeOk(c, Combine(t.widget, c, sizes), Extent(t))
  {
    assert ExtentSum([]) == Size(0, 0);
    if IsLeaf(t.widget) {
      assert t.children == [];
    } else {
      var (w, s, child) := (t.widget, sizes[0], t.children[0]);
      assert t.children[..0] == [];
      assert Extent(child) == ExtentSum(t.children);
      assert SizeOk(InnerConstraints(w, c), s, Extent(child));
      if w.Padding? || w.Border? { ExpandContained(c, w.insets, s); }
    }
  }

  /** Stack. */
  lemma {:induction false} StackSound(ts: seq<Tree>, c: Constraints, sizes: seq<Size>)
    requires c.Good() && ChildrenOk(ts, Same(c, |ts|), sizes)
    requires forall t | t in ts :: Extent(t).width >= 0 && Extent(t).height >= 0
    ensures SizeOk(c, StackSize(c.min, sizes), ExtentSum(ts))
    ensures ExtentSum(ts).width >= 0 && ExtentSum(ts).height >= 0
  {
    if ts != [] {
      var n := |ts| - 1;
      assert forall i | 0 <= i < n :: SizeOk(Same(c, n)[i], sizes[..n][i], Extent(ts[..n][i]));
      StackSound(ts[..n], c, sizes[..n]);
      assert SizeOk(Same(c, |ts|)[n], sizes[n], Extent(ts[n]));
      assert ts[n] in ts;
    }
  }

  /** The runs of a wrap take no more space than all children in one row or in one column. */
  lemma {:induction false} RunsWithinSums(axis: Axis, maxMain: int, ts: seq<Tree>, sizes: seq<Size>, k: nat)
    requires |sizes| == |ts| && k <= |ts| && Wrap.NonNegative(sizes)
    requires forall t | t in ts :: Extent(t).width >= 0 && Extent(t).height >= 0
    requires forall i | 0 <= i < |ts| :: Main(axis, sizes[i]) <= Main(axis, Extent(ts[i]))
    ensures var (r, e) := (Wrap.After(axis, maxMain, sizes, k), ExtentSum(ts[..k]));
            && r.main <= Main(axis, e) && r.rowMain <= Main(axis, e) && 0 <= Cross(axis, e)
            && ((forall i | 0 <= i < |ts| :: Cross(axis, sizes[i]) <= Cross(axis, Extent(ts[i])))
                ==> r.cross + r.rowCross <= Cross(axis, e))
  {
    if k > 0 {
      RunsWithinSums(axis, maxMain, ts, sizes, k - 1);
      Wrap.Extents(axis, maxMain, sizes, k - 1);
      assert ts[..k][..k - 1] == ts[..k - 1];
      assert ts[k - 1] in ts;
    } else {
      assert ts[..0] == [];
    }
  }

  /** Runs of children that fit along the main axis fit too. */
  lemma {:induction false} RunsFit(axis: Axis, maxMain: int, sizes: seq<Size>, k: nat)
    requires k <= |sizes| && 0 <= maxMain && forall i | 0 <= i < |sizes| :: Main(axis, sizes[i]) <= maxMain
    ensures var r := Wrap.After(axis, maxMain, sizes, k); r.main <= maxMain && r.rowMain <= maxMain
  {
    if k > 0 { RunsFit(axis, maxMain, sizes, k - 1); }
  }

  lemma WrapSound(t: Tree, c: Constraints, sizes: seq<Size>)
    requires t.widget.WrapBox? && c.Good()
    requires |sizes| == |t.children| && RoomFor(t.widget, c, sizes) && Small(t)
    requires ChildrenOk(t.children, Same(InnerConstraints(t.widget, c), |t.children|), sizes)
    requires forall child | child in t.children :: Extent(child).width >= 0 && Extent(child).height >= 0
    ensures SizeOk(c, Combine(t.widget, c, sizes), Extent(t))
  {
    hide Wrap.WrapSize, Wrap.TotalSize, Wrap.After;
    var (axis, n) := (t.widget.axis, |t.children|);
    var inner := InnerConstraints(t.widget, c);
    forall i | 0 <= i < n
      ensures Main(axis, sizes[i]) <= Main(axis, Extent(t.children[i]))
      ensures Cross(axis, c.max) == UNBOUND ==> Cross(axis, sizes[i]) <= Cross(axis, Extent(t.children[i]))
    {
      assert SizeOk(Same(inner, n)[i], sizes[i], Extent(t.children[i]));
    }
    RunsWithinSums(axis, Main(axis, c.max), t.children, sizes, n);
    assert t.children[..n] == t.children && sizes[..n] == sizes;
    Wrap.Extents(axis, Main(axis, c.max), sizes, n);
    RunsFit(axis, Main(axis, c.max), sizes, n);
    WrapTotalOk(axis, c, sizes, ExtentSum(t.children));
  }

  lemma WrapTotalOk(axis: Axis, c: Constraints, sizes: seq<Size>, extent: Size)
    requires c.Good() && RoomFor(WrapBox(axis), c, sizes) && extent.width < UNBOUND && extent.height < UNBOUND
    requires var r := Wrap.After(axis, Main(axis, c.max), sizes, |sizes|);
             && 0 <= r.main <= Main(axis, extent) && 0 <= r.rowMain <= Main(axis, extent)
             && r.main <= Main(axis, c.max) && r.rowMain <= Main(axis, c.max) && 0 <= r.cross && 0 <= r.rowCross
             && (Cross(axis, c.max) == UNBOUND ==> r.cross + r.rowCross <= Cross(axis, extent))
    ensures SizeOk(c, Wrap.WrapSize(axis, c, sizes), extent)
  {
    hide Wrap.After;
  }

  // ----- Rows and columns

  /** The space that is left for Expanded children, from the sizes of the others. */
  lemma RemainingFrom(t: Tree, c: Constraints) returns (remaining: int)
    requires WellFormed(t) && t.widget.FlexBox?
    ensures remaining == Main(t.widget.axis, c.max)
              - Flex.FixedMain(t.widget.axis, t.widget.weights, LayoutEach(t.children, ChildConstraints(t, c)))
    ensures forall i | 0 <= i < |t.children| ::
              ChildConstraints(t, c)[i] == Flex.ChildConstraints(t.widget.axis, c, t.widget.weights, remaining, i)
  {
    var (axis, weights, cs) := (t.widget.axis, t.widget.weights, ChildConstraints(t, c));
    var loose := LayoutEach(t.children, Same(Flex.LooseConstraints(axis, c), |t.children|));
    Flex.FlexRenderObject.FixedOnly(axis, weights, loose, LayoutEach(t.children, cs));
    remaining := Flex.Remaining(axis, c, weights, loose);
  }

  lemma {:induction false} FixedMainNonNegative(axis: Axis, weights: seq<real>, sizes: seq<Size>)
    requires |sizes| == |weights| && forall i | 0 <= i < |weights| && weights[i] == 0.0 :: Main(axis, sizes[i]) >= 0
    ensures Flex.FixedMain(axis, weights, sizes) >= 0
  {
    if weights != [] {
      var n := |weights| - 1;
      FixedMainNonNegative(axis, weights[..n], sizes[..n]);
    }
  }

  /** Each allocation is part of the sum. */
  lemma {:induction false} AllocationWithinSum(weights: seq<real>, remaining: int, total: int, i: nat)
    requires Flex.NonNegativeWeights(weights) && remaining >= 0 && total > 0 && i < |weights|
    ensures 0 <= Flex.Allocation(weights[i], remaining, total) <= Flex.AllocationSum(weights, remaining, total)
  {
    var n := |weights| - 1;
    Flex.SharesRoundedDown(weights[..n], remaining, total);
    Flex.AllocationBounds(weights[n], remaining, total);
    if i < n { AllocationWithinSum(weights[..n], remaining, total, i); }
  }

  lemma {:induction false} TotalPositive(weights: seq<real>, i: nat)
    requires Flex.NonNegativeWeights(weights) && Flex.IntegerWeights(weights) && i < |weights| && weights[i] != 0.0
    ensures Flex.TotalFlex(weights) > 0
  {
    var n := |weights| - 1;
    Flex.TotalIsFloorSum(weights[..n]);
    Flex.FloorOfSum(Flex.TotalFlex(weights[..n]), weights[n]);
    if i < n { TotalPositive(weights[..n], i); }
  }

  /** Once the fixed children have sizes, all children get good constraints. */
  lemma FlexConstraintsGood(axis: Axis, c: Constraints, weights: seq<real>, sizes: seq<Size>, remaining: int, i: nat)
    requires c.Good() && |sizes| == |weights| && i < |weights|
    requires NumbersOk(FlexBox(axis, weights)) && RoomFor(FlexBox(axis, weights), c, sizes)
    requires remaining == Main(axis, c.max) - Flex.FixedMain(axis, weights, sizes)
    requires weights[i] != 0.0 ==> forall k | 0 <= k < |weights| && weights[k] == 0.0 :: Main(axis, sizes[k]) >= 0
    ensures Flex.ChildConstraints(axis, c, weights, remaining, i).Good()
  {
    if weights[i] != 0.0 {
      FixedMainNonNegative(axis, weights, sizes);
      TotalPositive(weights, i);
      Flex.SpaceIsDivided(weights, remaining);
      AllocationWithinSum(weights, remaining, Flex.TotalFlex(weights), i);
    }
  }

  /** Tight constraints make the Expanded children as large as their allocations. */
  lemma {:induction false} ExpandedFill(axis: Axis, weights: seq<real>, sizes: seq<Size>, remaining: int, total: int)
    requires |sizes| == |weights| && total != 0
    requires forall i | 0 <= i < |weights| && weights[i] != 0.0 ::
               Main(axis, sizes[i]) == Flex.Allocation(weights[i], remaining, total)
    ensures Flex.ExpandedMain(axis, weights, sizes) == Flex.AllocationSum(weights, remaining, total)
  {
    if weights != [] {
      var n := |weights| - 1;
      ExpandedFill(axis, weights[..n], sizes[..n], remaining, total);
      if weights[n] == 0.0 { ZeroAllocation(remaining, total); }
    }
  }

  lemma ZeroAllocation(remaining: int, total: int)
    ensures Flex.Allocation(0.0, remaining, total) == 0
  {
    Flex.One(remaining as real);
  }

  lemma {:induction false} NoneExpanded(axis: Axis, weights: seq<real>, sizes: seq<Size>)
    requires |sizes| == |weights| && forall i | 0 <= i < |weights| :: weights[i] == 0.0
    ensures Flex.ExpandedMain(axis, weights, sizes) == 0
  {
    if weights != [] { NoneExpanded(axis, weights[..|weights| - 1], sizes[..|weights| - 1]); }
  }

  /** Sums and maxima of sizes against sums of extents. */
  lemma {:induction false} WithinSums(axis: Axis, ts: seq<Tree>, sizes: seq<Size>, limit: int)
    requires |sizes| == |ts| && limit >= 0
    requires forall i | 0 <= i < |ts| :: 0 <= Cross(axis, sizes[i]) <= limit
    requires forall t | t in ts :: Extent(t).width >= 0 && Extent(t).height >= 0
    ensures 0 <= Flex.CrossMax(axis, sizes) <= limit
    ensures Cross(axis, ExtentSum(ts)) >= 0 && Main(axis, ExtentSum(ts)) >= 0
    ensures (forall i | 0 <= i < |ts| :: Main(axis, sizes[i]) <= Main(axis, Extent(ts[i]))) ==>
              Flex.MainSum(axis, sizes) <= Main(axis, ExtentSum(ts))
    ensures (forall i | 0 <= i < |ts| :: Cross(axis, sizes[i]) <= Cross(axis, Extent(ts[i]))) ==>
              Flex.CrossMax(axis, sizes) <= Cross(axis, ExtentSum(ts))
  {
    if ts != [] {
      var n := |ts| - 1;
      WithinSums(axis, ts[..n], sizes[..n], limit);
      assert ts[n] in ts;
    }
  }

  /** The main extent of all children stays within the maximum. */
  lemma MainFits(axis: Axis, c: Constraints, weights: seq<real>, sizes: seq<Size>, remaining: int)
    requires c.Good() && |sizes| == |weights|
    requires NumbersOk(FlexBox(axis, weights)) && RoomFor(FlexBox(axis, weights), c, sizes)
    requires remaining == Main(axis, c.max) - Flex.FixedMain(axis, weights, sizes)
    requires forall i | 0 <= i < |weights| && weights[i] != 0.0 ::
               Main(axis, sizes[i]) == Flex.Allocation(weights[i], remaining, Flex.TotalFlex(weights))
    ensures Flex.MainSum(axis, sizes) <= Main(axis, c.max)
  {
    Flex.MainSumSplits(axis, weights, sizes);
    if i :| 0 <= i < |weights| && weights[i] != 0.0 {
      TotalPositive(weights, i);
      Flex.SpaceIsDivided(weights, remaining);
      ExpandedFill(axis, weights, sizes, remaining, Flex.TotalFlex(weights));
    } else {
      NoneExpanded(axis, weights, sizes);
    }
  }

  lemma FlexSound(t: Tree, c: Constraints, cs: seq<Constraints>, sizes: seq<Size>, remaining: int)
    requires t.widget.FlexBox? && c.Good() && Small(t) && ArityOk(t.widget, |t.children|)
    requires |sizes| == |t.children| && NumbersOk(t.widget) && RoomFor(t.widget, c, sizes)
    requires remaining == Main(t.widget.axis, c.max) - Flex.FixedMain(t.widget.axis, t.widget.weights, sizes)
    requires |cs| == |t.children| && forall i | 0 <= i < |cs| ::
               cs[i] == Flex.ChildConstraints(t.widget.axis, c, t.widget.weights, remaining, i)
    requires ChildrenOk(t.children, cs, sizes)
    requires forall child | child in t.children :: Extent(child).width >= 0 && Extent(child).height >= 0
    ensures SizeOk(c, Combine(t.widget, c, sizes), Extent(t))
  {
    var (axis, weights) := (t.widget.axis, t.widget.weights);
    forall i | 0 <= i < |sizes|
      ensures var allocation := Flex.Allocation(weights[i], remaining, Flex.TotalFlex(weights));
              FlexChildOk(axis, c, weights[i], allocation, sizes[i], Extent(t.children[i]))
    {
      FlexChild(axis, c, weights, remaining, i, sizes[i], Extent(t.children[i]));
    }
    hide Flex.Allocation, Extent;
    MainFits(axis, c, weights, sizes, remaining);
    WithinSums(axis, t.children, sizes, Cross(axis, c.max));
    ExtentOfBox(t);
    FlexSizeOk(axis, c, sizes, ExtentSum(t.children));
  }

  ghost predicate FlexChildOk(axis: Axis, c: Constraints, weight: real, allocation: int, size: Size, extent: Size) {
    && (weight != 0.0 ==> Main(axis, size) == allocation)
    && 0 <= Cross(axis, size) <= Cross(axis, c.max)
    && (Main(axis, c.max) == UNBOUND && weight == 0.0 ==> Main(axis, size) <= Main(axis, extent))
    && (Cross(axis, c.max) == UNBOUND ==> Cross(axis, size) <= Cross(axis, extent))
  }

  lemma FlexChild(axis: Axis, c: Constraints, weights: seq<real>, remaining: int, i: nat, size: Size, extent: Size)
    requires i < |weights| && c.Good()
    requires SizeOk(Flex.ChildConstraints(axis, c, weights, remaining, i), size, extent)
    ensures FlexChildOk(axis, c, weights[i], Flex.Allocation(weights[i], remaining, Flex.TotalFlex(weights)), size, extent)
  {
    hide Flex.Allocation;
  }

  lemma ExtentOfBox(t: Tree)
    requires t.widget.FlexBox?
    ensures Extent(t) == ExtentSum(t.children)
  {
  }

  lemma FlexSizeOk(axis: Axis, c: Constraints, sizes: seq<Size>, extent: Size)
    requires c.Good() && extent.width < UNBOUND && extent.height < UNBOUND
    requires Flex.MainSum(axis, sizes) <= Main(axis, c.max) && 0 <= Flex.CrossMax(axis, sizes) <= Cross(axis, c.max)
    requires Main(axis, c.max) == UNBOUND ==> Flex.MainSum(axis, sizes) <= Main(axis, extent) && 0 <= Main(axis, extent)
    requires Cross(axis, c.max) == UNBOUND ==> Flex.CrossMax(axis, sizes) <= Cross(axis, extent)
    ensures SizeOk(c, Flex.FlexSize(axis, c, sizes), extent)
  {
  }

  // ----- Whole trees

  /**
   Layout returns a size within its constraints, with a value on both axes, for every tree whose nodes fit; this is what
   RenderObject::layout asserts at every node.
   */
  lemma {:induction false} LayoutSound(t: Tree, c: Constraints)
    requires c.Good() && WellFormed(t) && Fits(t, c)
    ensures SizeOk(c, Layout(t, c), Extent(t)) && Layout(t, c).width >= 0 && Layout(t, c).height >= 0
    decreases t, 3
  {
    var cs := ChildConstraints(t, c);
    var sizes := LayoutEach(t.children, cs);
    ExtentSumNonNegative(t.children, cs);
    ChildConstraintsGood(t, c);
    EachSound(t.children, cs, |cs|);
    CombineSound(t, c);
  }

  /** The first `n` children, or all of them but the Expanded ones when only those have good constraints. */
  lemma {:induction false} EachSound(ts: seq<Tree>, cs: seq<Constraints>, n: nat)
    requires |cs| == |ts| && (forall t | t in ts :: WellFormed(t)) && FitEach(ts, cs)
    requires n <= |ts| && forall i | 0 <= i < n :: cs[i].Good()
    ensures forall i | 0 <= i < n ::
              var s := LayoutEach(ts, cs)[i]; SizeOk(cs[i], s, Extent(ts[i])) && s.width >= 0 && s.height >= 0
    decreases ts, 0, n
  {
    if n > 0 {
      EachSound(ts, cs, n - 1);
      assert Fits(ts[n - 1], cs[n - 1]);
      LayoutSound(ts[n - 1], cs[n - 1]);
    }
  }

  lemma {:induction false} OneSound(t: Tree, c: Constraints, i: nat)
    requires WellFormed(t) && Fits(t, c) && i < |t.children| && ChildConstraints(t, c)[i].Good()
    ensures var (s, d) := (LayoutEach(t.children, ChildConstraints(t, c))[i], ChildConstraints(t, c)[i]);
            SizeOk(d, s, Extent(t.children[i])) && s.width >= 0 && s.height >= 0
    decreases t, 1
  {
    assert Fits(t.children[i], ChildConstraints(t, c)[i]);
    LayoutSound(t.children[i], ChildConstraints(t, c)[i]);
  }

  /** Good constraints are passed on as good constraints; for a row or column this needs the sizes of the fixed children. */
  lemma {:induction false} ChildConstraintsGood(t: Tree, c: Constraints)
    requires c.Good() && WellFormed(t) && Fits(t, c)
    ensures forall i | 0 <= i < |t.children| :: ChildConstraints(t, c)[i].Good()
    decreases t, 2
  {
    var cs := ChildConstraints(t, c);
    if !t.widget.FlexBox? {
      InnerGood(t, c);
    } else {
      var (axis, weights, sizes) := (t.widget.axis, t.widget.weights, LayoutEach(t.children, cs));
      var remaining := RemainingFrom(t, c);
      hide Flex.FixedMain, Flex.ChildConstraints, ChildConstraints, LayoutEach, Extent;
      forall i | 0 <= i < |weights| && weights[i] == 0.0 ensures cs[i].Good() && Main(axis, sizes[i]) >= 0 {
        FlexConstraintsGood(axis, c, weights, sizes, remaining, i);
        OneSound(t, c, i);
      }
      forall i | 0 <= i < |weights| ensures cs[i].Good() {
        FlexConstraintsGood(axis, c, weights, sizes, remaining, i);
      }
    }
  }

  lemma CombineSound(t: Tree, c: Constraints)
    requires c.Good() && WellFormed(t) && Fits(t, c)
    requires ChildrenOk(t.children, ChildConstraints(t, c), LayoutEach(t.children, ChildConstraints(t, c)))
    requires ExtentSum(t.children).width >= 0 && ExtentSum(t.children).height >= 0
    requires forall child | child in t.children :: Extent(child).width >= 0 && Extent(child).height >= 0
    ensures SizeOk(c, Layout(t, c), Extent(t))
  {
    var sizes := LayoutEach(t.children, ChildConstraints(t, c));
    NodeFits(t, c);
    if t.widget.FlexBox? {
      CombineFlex(t, c);
    } else {
      PlainConstraints(t, c);
      hide ChildConstraints, LayoutEach, Combine, Extent, ExtentSum;
      if t.widget.WrapBox? {
        WrapSound(t, c, sizes);
      } else if t.widget.Stack? {
        CombineStack(t, c, sizes);
      } else {
        SingleSound(t, c, sizes);
      }
    }
  }

  /** The premises at the node itself. */
  lemma NodeFits(t: Tree, c: Constraints)
    requires WellFormed(t) && Fits(t, c)
    ensures NumbersOk(t.widget) && Small(t) && RoomFor(t.widget, c, LayoutEach(t.children, ChildConstraints(t, c)))
    ensures Layout(t, c) == Combine(t.widget, c, LayoutEach(t.children, ChildConstraints(t, c)))
  {
  }

  lemma PlainConstraints(t: Tree, c: Constraints)
    requires WellFormed(t) && !t.widget.FlexBox?
    ensures ChildConstraints(t, c) == Same(InnerConstraints(t.widget, c), |t.children|)
  {
  }

  lemma CombineStack(t: Tree, c: Constraints, sizes: seq<Size>)
    requires t.widget.Stack? && c.Good() && ChildrenOk(t.children, Same(InnerConstraints(t.widget, c), |t.children|), sizes)
    requires forall child | child in t.children :: Extent(child).width >= 0 && Extent(child).height >= 0
    ensures SizeOk(c, Combine(t.widget, c, sizes), Extent(t))
  {
    StackSound(t.children, c, sizes);
    assert Extent(t) == ExtentSum(t.children);
  }

  lemma CombineFlex(t: Tree, c: Constraints)
    requires t.widget.FlexBox? && c.Good() && WellFormed(t) && NumbersOk(t.widget) && Small(t)
    requires RoomFor(t.widget, c, LayoutEach(t.children, ChildConstraints(t, c)))
    requires ChildrenOk(t.children, ChildConstraints(t, c), LayoutEach(t.children, ChildConstraints(t, c)))
    requires forall child | child in t.children :: Extent(child).width >= 0 && Extent(child).height >= 0
    ensures SizeOk(c, Layout(t, c), Extent(t))
  {
    var remaining := RemainingFrom(t, c);
    hide ChildConstraints, Flex.ChildConstraints, Flex.FixedMain, Extent;
    FlexSound(t, c, ChildConstraints(t, c), LayoutEach(t.children, ChildConstraints(t, c)), remaining);
  }

  // ----- Draw

  /** The insets of every Padding and Border fit into the maximum that reaches it. */
  predicate InsetsFit(t: Tree, c: Constraints)
    requires WellFormed(t)
    decreases t
  {
    && (t.widget.Padding? || t.widget.Border? ==>
          t.widget.insets.Horizontal() <= c.max.width && t.widget.insets.Vertical() <= c.max.height)
    && forall i | 0 <= i < |t.children| :: InsetsFit(t.children[i], ChildConstraints(t, c)[i])
  }

  /**
   Drawn in `rect`, every widget below gets a rectangle of exactly the size it was laid out with, inside that of its
   parent, and the children of rows, columns and wraps do not overlap.
   */
  ghost predicate DrawnRight(t: Tree, c: Constraints, rect: Rect)
    requires WellFormed(t)
    decreases t
  {
    var (w, cs, sizes) := (t.widget, ChildConstraints(t, c), LayoutEach(t.children, ChildConstraints(t, c)));
    && rect.Extents() == Layout(t, c)
    && (forall i | 0 <= i < |t.children| ::
          var inner := ChildRect(w, c, sizes, rect, i);
          rect.Encloses(inner) && DrawnRight(t.children[i], cs[i], inner))
    && (w.FlexBox? || w.WrapBox? ==> forall i, j | 0 <= i < j < |t.children| ::
          ChildRect(w, c, sizes, rect, i).DisjointFrom(ChildRect(w, c, sizes, rect, j)))
  }

  lemma {:induction false} StackCovers(least: Size, sizes: seq<Size>, k: nat)
    requires k < |sizes|
    ensures StackSize(least, sizes).width >= sizes[k].width && StackSize(least, sizes).height >= sizes[k].height
  {
    if k < |sizes| - 1 { StackCovers(least, sizes[..|sizes| - 1], k); }
  }

  /** A widget drawn in a rectangle of its size draws each child inside, with the child's size. */
  lemma PlaceSound(w: Widget, c: Constraints, cs: seq<Constraints>, sizes: seq<Size>, rect: Rect, k: nat, extent: Size)
    requires c.Good() && ArityOk(w, |sizes|) && NumbersOk(w) && k < |sizes| == |cs|
    requires rect.Extents() == Combine(w, c, sizes) && SizeOk(c, rect.Extents(), extent)
    requires Flex.NonNegative(sizes)
    requires !w.FlexBox? ==> cs[k] == InnerConstraints(w, c) && cs[k].Contain(sizes[k])
    requires w.Padding? || w.Border? ==>
               && w.insets.Horizontal() <= c.max.width && w.insets.Vertical() <= c.max.height
               && sizes[k].width + w.insets.Horizontal() < UNBOUND && sizes[k].height + w.insets.Vertical() < UNBOUND
    ensures rect.Encloses(ChildRect(w, c, sizes, rect, k))
    ensures ChildRect(w, c, sizes, rect, k).Extents() == sizes[k]
  {
    match w
    case Padding(insets) => ShrinkUndoesExpand(c, insets, sizes[0], rect);
    case Border(insets) => ShrinkUndoesExpand(c, insets, sizes[0], rect);
    case Stack(_) => StackCovers(c.min, sizes, k);
    case FlexBox(axis, _) => Flex.ChildInside(axis, c, sizes, rect, k);
    case WrapBox(axis) => Wrap.ChildInside(axis, c, sizes, rect, k);
    case _ =>
  }

  lemma PlaceDisjoint(w: Widget, c: Constraints, sizes: seq<Size>, rect: Rect, i: nat, j: nat)
    requires ArityOk(w, |sizes|) && (w.FlexBox? || w.WrapBox?) && Flex.NonNegative(sizes) && i < j < |sizes|
    ensures ChildRect(w, c, sizes, rect, i).DisjointFrom(ChildRect(w, c, sizes, rect, j))
  {
    if w.FlexBox? {
      Flex.ChildrenDisjoint(w.axis, sizes, rect, i, j);
    } else {
      Wrap.ChildrenDisjoint(w.axis, Main(w.axis, c.max), sizes, rect, i, j);
    }
  }

  /** The padded child's size and the insets together stay below the sentinel. */
  lemma InsetsSmall(t: Tree, c: Constraints)
    requires c.Good() && WellFormed(t) && Fits(t, c) && InsetsFit(t, c) && (t.widget.Padding? || t.widget.Border?)
    requires SizeOk(c.Inset(t.widget.insets), Layout(t.children[0], c.Inset(t.widget.insets)), Extent(t.children[0]))
    ensures var s := Layout(t.children[0], c.Inset(t.widget.insets));
            s.width + t.widget.insets.Horizontal() < UNBOUND && s.height + t.widget.insets.Vertical() < UNBOUND
  {
    assert ExtentSum([]) == Size(0, 0);
    assert t.children[..0] == [];
    assert ExtentSum(t.children) == Extent(t.children[0]);
  }

  lemma {:induction false} DrawSound(t: Tree, c: Constraints, rect: Rect)
    requires c.Good() && WellFormed(t) && Fits(t, c) && InsetsFit(t, c)
    requires rect.Extents() == Layout(t, c)
    ensures DrawnRight(t, c, rect)
    decreases t
  {
    var (w, cs, sizes) := (t.widget, ChildConstraints(t, c), LayoutEach(t.children, ChildConstraints(t, c)));
    LayoutSound(t, c);
    ChildConstraintsGood(t, c);
    EachSound(t.children, cs, |cs|);
    forall i | 0 <= i < |t.children|
      ensures rect.Encloses(ChildRect(w, c, sizes, rect, i))
      ensures DrawnRight(t.children[i], cs[i], ChildRect(w, c, sizes, rect, i))
    {
      if w.Padding? || w.Border? { InsetsSmall(t, c); }
      PlaceSound(w, c, cs, sizes, rect, i, Extent(t));
      assert Fits(t.children[i], cs[i]);
      DrawSound(t.children[i], cs[i], ChildRect(w, c, sizes, rect, i));
    }
    if w.FlexBox? || w.WrapBox? {
      forall i, j | 0 <= i < j < |t.children|
        ensures ChildRect(w, c, sizes, rect, i).DisjointFrom(ChildRect(w, c, sizes, rect, j))
      {
        PlaceDisjoint(w, c, sizes, rect, i, j);
      }
    }
  }

  /** The premises of both results. */
  predicate FitsScreen(t: Tree, c: Constraints)
    requires WellFormed(t)
  {
    c.Good() && Fits(t, c) && InsetsFit(t, c)
  }

  /** What the draw function of one widget may rely on, and what its children may. */
  lemma DrawNode(t: Tree, c: Constraints, rect: Rect)
    requires WellFormed(t) && FitsScreen(t, c) && rect.Extents() == Layout(t, c)
    ensures var (w, cs, sizes) := (t.widget, ChildConstraints(t, c), LayoutEach(t.children, ChildConstraints(t, c)));
            && ArityOk(w, |sizes|) && (w.WrapBox? ==> Wrap.Drawable(w.axis, c, sizes, rect))
            && forall k | 0 <= k < |t.children| ::
                 FitsScreen(t.children[k], cs[k]) && ChildRect(w, c, sizes, rect, k).Extents() == Layout(t.children[k], cs[k])
  {
    var (w, cs, sizes) := (t.widget, ChildConstraints(t, c), LayoutEach(t.children, ChildConstraints(t, c)));
    LayoutSound(t, c);
    DrawSound(t, c, rect);
    ChildConstraintsGood(t, c);
    EachSound(t.children, cs, |cs|);
    hide SizeOk, Extent, ChildRect;
    forall k | 0 <= k < |t.children|
      ensures FitsScreen(t.children[k], cs[k]) && ChildRect(w, c, sizes, rect, k).Extents() == Layout(t.children[k], cs[k])
    {
      assert DrawnRight(t.children[k], cs[k], ChildRect(w, c, sizes, rect, k));
      assert Fits(t.children[k], cs[k]);
    }
    if w.WrapBox? { WrapDrawable(t, c, sizes, rect); }
  }

  lemma WrapDrawable(t: Tree, c: Constraints, sizes: seq<Size>, rect: Rect)
    requires WellFormed(t) && t.widget.WrapBox? && sizes == LayoutEach(t.children, ChildConstraints(t, c))
    requires forall k | 0 <= k < |sizes| :: sizes[k].width >= 0 && sizes[k].height >= 0
    requires SizeOk(c, Layout(t, c), Extent(t)) && rect.Extents() == Layout(t, c)
    ensures Wrap.Drawable(t.widget.axis, c, sizes, rect)
  {
    WrapLayout(t, c);
    hide Wrap.WrapSize, LayoutEach, ChildConstraints, Extent, Layout;
  }

  lemma WrapLayout(t: Tree, c: Constraints)
    requires WellFormed(t) && t.widget.WrapBox?
    ensures Layout(t, c) == Wrap.WrapSize(t.widget.axis, c, LayoutEach(t.children, ChildConstraints(t, c)))
  {
    CombineWrap(t.widget, c, LayoutEach(t.children, ChildConstraints(t, c)));
    hide Wrap.WrapSize, Combine, LayoutEach, ChildConstraints;
  }

  lemma CombineWrap(w: Widget, c: Constraints, sizes: seq<Size>)
    requires w.WrapBox?
    ensures Combine(w, c, sizes) == Wrap.WrapSize(w.axis, c, sizes)
  {
    hide Wrap.WrapSize;
  }
}
