/** What layout gives, widget by widget: the size of each in numbers, or in the sizes of its children under bounds in numbers. */
module WidgetSizes {
  import opened Options
  import opened Geometry
  import opened Constraints
  import opened Widgets
  import opened LayoutSoundness
  import Flex
  import Wrap

  /** `v` where it lies between the bounds, else the nearer bound. */
  function Nearest(v: int, lo: int, hi: int): int { if lo <= v <= hi then v else if v < lo then lo else hi }

  function Larger(a: int, b: int): int { if a >= b then a else b }

  function Smaller(a: int, b: int): int { if a <= b then a else b }

  /** For statements about one axis: widths for a row, heights for a column. */
  function Turned(axis: Axis, s: Size): Size { if axis == Horizontal then s else Size(s.height, s.width) }

  // ----- Leaves

  /** A text and an image take their own size, or the nearer bound. */
  lemma OwnSize(w: Widget, c: Constraints)
    requires (w.Text? || w.Image?) && c.Good()
    ensures Layout(Node(w, []), c) == Size(Nearest(w.size.width, c.min.width, c.max.width),
                                           Nearest(w.size.height, c.min.height, c.max.height))
  {
  }

  /** A filler takes the maximum, or the minimum where there is none. */
  lemma FillerSize(c: Constraints)
    ensures Layout(Node(Colored, []), c) == Size(if c.max.width == UNBOUND then c.min.width else c.max.width,
                                                 if c.max.height == UNBOUND then c.min.height else c.max.height)
  {
    var t := Node(Colored, []);
    assert Layout(t, c) == Combine(Colored, c, LayoutEach(t.children, ChildConstraints(t, c)));
  }

  // ----- One child

  lemma OneChild(w: Widget, child: Tree, c: Constraints)
    requires WellFormed(Node(w, [child])) && !IsMulti(w) && !IsLeaf(w)
    ensures WellFormed(child)
    ensures var inner := Layout(child, InnerConstraints(w, c)); Layout(Node(w, [child]), c) == Combine(w, c, [inner])
  {
    var t := Node(w, [child]);
    assert child in t.children;
    assert LayoutEach(t.children, ChildConstraints(t, c)) == [Layout(child, InnerConstraints(w, c))];
  }

  /** A Sized widget has the size asked for, or the nearer bound; a side not asked for is the child's. */
  lemma SizedSize(width: Option<int>, height: Option<int>, child: Tree, c: Constraints)
    requires c.Good() && WellFormed(Node(Sized(width, height), [child]))
    ensures WellFormed(child)
    ensures var (lo, hi) := (Size(if width == None then c.min.width else Nearest(width.value, c.min.width, c.max.width),
                                  if height == None then c.min.height else Nearest(height.value, c.min.height, c.max.height)),
                             Size(if width == None then c.max.width else Nearest(width.value, c.min.width, c.max.width),
                                  if height == None then c.max.height else Nearest(height.value, c.min.height, c.max.height)));
            var s := Layout(Node(Sized(width, height), [child]), c);
            && s == Layout(child, Constraints(lo, hi))
            && (Fits(Node(Sized(width, height), [child]), c) ==>
                  (width != None ==> s.width == lo.width == hi.width) && (height != None ==> s.height == lo.height == hi.height))
  {
    var t := Node(Sized(width, height), [child]);
    OneChild(t.widget, child, c);
    if Fits(t, c) { ChildFits(t, c, 0); }
    hide Layout, Fits;
  }

  /** The child of a fitting tree stays within its own constraints. */
  lemma ChildFits(t: Tree, c: Constraints, i: nat)
    requires c.Good() && WellFormed(t) && Fits(t, c) && i < |t.children|
    ensures WellFormed(t.children[i])
    ensures var d := ChildConstraints(t, c)[i];
            d.Good() && SizeOk(d, Layout(t.children[i], d), Extent(t.children[i]))
    ensures var s := Layout(t.children[i], ChildConstraints(t, c)[i]); s.width >= 0 && s.height >= 0
    ensures !t.widget.FlexBox? ==> ChildConstraints(t, c)[i] == InnerConstraints(t.widget, c)
  {
    ChildConstraintsGood(t, c);
    OneSound(t, c, i);
  }

  /** Center and Corner take the maximum, or the size of the child where there is none; the child has no minimum. */
  lemma CenterSize(w: Widget, child: Tree, c: Constraints)
    requires (w.Center? || w.Corner?) && WellFormed(Node(w, [child]))
    ensures WellFormed(child)
    ensures var inner := Layout(child, Constraints(Size(0, 0), c.max));
            Layout(Node(w, [child]), c) == Size(if c.max.width == UNBOUND then inner.width else c.max.width,
                                                if c.max.height == UNBOUND then inner.height else c.max.height)
  {
    OneChild(w, child, c);
    hide Layout;
  }

  lemma ClearedSize(child: Tree, c: Constraints)
    requires WellFormed(Node(Cleared, [child]))
    ensures WellFormed(child) && Layout(Node(Cleared, [child]), c) == Layout(child, c)
  {
    OneChild(Cleared, child, c);
    hide Layout;
  }

  /** Bounds inside insets on two sides: less by these, but not below 0. */
  function Inside(bound: int, insets: int): int { if bound >= insets then bound - insets else 0 }

  function InsideMax(max: int, insets: int): int { if max == UNBOUND then UNBOUND else Inside(max, insets) }

  /** Padding and Border take the size of the child and the insets, as far as the maximum goes; the child gets what they leave. */
  lemma PaddedSize(w: Widget, child: Tree, c: Constraints)
    requires (w.Padding? || w.Border?) && w.insets.NonNegative() && c.Good() && WellFormed(Node(w, [child]))
    ensures WellFormed(child)
    ensures var (h, v) := (w.insets.left + w.insets.right, w.insets.top + w.insets.bottom);
            var inner := Layout(child, Constraints(Size(Inside(c.min.width, h), Inside(c.min.height, v)),
                                                   Size(InsideMax(c.max.width, h), InsideMax(c.max.height, v))));
            Layout(Node(w, [child]), c) == Size(Smaller(inner.width + h, c.max.width), Smaller(inner.height + v, c.max.height))
  {
    hide Layout, Constraints.Inset, Inside, InsideMax;
    OneChild(w, child, c);
    InsetsAre(c, w.insets);
  }

  lemma InsetsAre(c: Constraints, insets: Insets)
    requires c.Good() && insets.NonNegative()
    ensures var (h, v) := (insets.left + insets.right, insets.top + insets.bottom);
            c.Inset(insets) == Constraints(Size(Inside(c.min.width, h), Inside(c.min.height, v)),
                                           Size(InsideMax(c.max.width, h), InsideMax(c.max.height, v)))
  {
  }

  /** In a tree that fits it is all of both. */
  lemma PaddedFits(w: Widget, child: Tree, c: Constraints)
    requires w.Padding? || w.Border?
    requires var t := Node(w, [child]); c.Good() && WellFormed(t) && Fits(t, c) && InsetsFit(t, c)
    ensures WellFormed(child)
    ensures var inner := Layout(child, c.Inset(w.insets));
            Layout(Node(w, [child]), c) == Size(inner.width + w.insets.left + w.insets.right,
                                                inner.height + w.insets.top + w.insets.bottom)
  {
    hide Layout, Fits;
    var t := Node(w, [child]);
    OneChild(w, child, c);
    NodeFits(t, c);
    ChildFits(t, c, 0);
    InsetsSmall(t, c);
  }

  // ----- Several children

  function Sum(s: seq<int>): int { if s == [] then 0 else Sum(s[..|s| - 1]) + s[|s| - 1] }

  /** The largest of some numbers and 0. */
  function Largest(s: seq<int>): (r: int)
    ensures r >= 0 && (r == 0 || r in s) && forall x | x in s :: x <= r
  {
    if s == [] then 0
    else
      assert s == s[..|s| - 1] + [s[|s| - 1]];
      Larger(Largest(s[..|s| - 1]), s[|s| - 1])
  }

  /** Extents along an axis and across it. */
  function Lengths(axis: Axis, sizes: seq<Size>): (r: seq<int>)
    ensures |r| == |sizes|
  {
    seq(|sizes|, i requires 0 <= i < |sizes| => Turned(axis, sizes[i]).width)
  }

  function Widths(axis: Axis, sizes: seq<Size>): (r: seq<int>)
    ensures |r| == |sizes|
  {
    seq(|sizes|, i requires 0 <= i < |sizes| => Turned(axis, sizes[i]).height)
  }

  /** A stack lays out all children under its own constraints, and takes the largest extents or its minimum. */
  lemma StackSizeIs(t: Tree, c: Constraints)
    requires t.widget.Stack? && c.Good() && WellFormed(t)
    ensures var sizes := seq(|t.children|, i requires 0 <= i < |t.children| => Layout(t.children[i], c));
            Layout(t, c) == Size(Larger(c.min.width, Largest(Lengths(Horizontal, sizes))),
                                 Larger(c.min.height, Largest(Widths(Horizontal, sizes))))
  {
    var sizes := seq(|t.children|, i requires 0 <= i < |t.children| => Layout(t.children[i], c));
    assert LayoutEach(t.children, ChildConstraints(t, c)) == sizes;
    StackLargest(c.min, sizes);
  }

  lemma {:induction false} StackLargest(least: Size, sizes: seq<Size>)
    requires least.width >= 0 && least.height >= 0
    ensures StackSize(least, sizes) == Size(Larger(least.width, Largest(Lengths(Horizontal, sizes))),
                                            Larger(least.height, Largest(Widths(Horizontal, sizes))))
  {
    if sizes != [] {
      var n := |sizes| - 1;
      StackLargest(least, sizes[..n]);
      assert Lengths(Horizontal, sizes)[..n] == Lengths(Horizontal, sizes[..n]);
      assert Widths(Horizontal, sizes)[..n] == Widths(Horizontal, sizes[..n]);
    }
  }

  // ----- Rows and columns

  /** The lengths of the children that are not Expanded; 0 for the others. */
  function FixedLengths(axis: Axis, weights: seq<real>, sizes: seq<Size>): (r: seq<int>)
    requires |sizes| == |weights|
    ensures |r| == |sizes|
  {
    seq(|sizes|, i requires 0 <= i < |sizes| => if weights[i] == 0.0 then Turned(axis, sizes[i]).width else 0)
  }

  /**
   A child that is not Expanded may be of any length; an Expanded one has exactly its share of the remaining space, in
   proportion to the weights and rounded down. Across, both are bounded as the row or column is.
   */
  ghost predicate FlexChildIs(axis: Axis, weights: seq<real>, c: Constraints, child: Tree, sizes: seq<Size>, i: nat)
    requires |sizes| == |weights| && i < |sizes| && WellFormed(child)
  {
    var (least, most, length) := (Turned(axis, c.min).height, Turned(axis, c.max).height, Turned(axis, sizes[i]).width);
    var remaining := Turned(axis, c.max).width - Sum(FixedLengths(axis, weights, sizes));
    if weights[i] == 0.0 then
      sizes[i] == Layout(child, Constraints(Turned(axis, Size(0, least)), Turned(axis, Size(UNBOUND, most))))
    else
      && sizes[i] == Layout(child, Constraints(Turned(axis, Size(length, least)), Turned(axis, Size(length, most))))
      && IsShare(length, weights[i], remaining, Flex.WeightSum(weights))
  }

  /** `a` is the part `weight` of `total` of the space, rounded down. */
  ghost predicate IsShare(a: int, weight: real, space: int, total: real) {
    a as real * total <= weight * space as real < (a + 1) as real * total
  }

  /** The children of a row or column, and its size: the sum of their lengths and the largest width, or its minimum. */
  lemma FlexSizeIs(t: Tree, c: Constraints)
    requires t.widget.FlexBox? && c.Good() && WellFormed(t) && Fits(t, c)
    ensures var sizes := LayoutEach(t.children, ChildConstraints(t, c));
            var (s, least) := (Turned(t.widget.axis, Layout(t, c)), Turned(t.widget.axis, c.min));
            && (forall i | 0 <= i < |sizes| :: FlexChildIs(t.widget.axis, t.widget.weights, c, t.children[i], sizes, i))
            && s.width == Larger(least.width, Sum(Lengths(t.widget.axis, sizes)))
            && s.height == Larger(least.height, Largest(Widths(t.widget.axis, sizes)))
  {
    var (axis, weights, cs) := (t.widget.axis, t.widget.weights, ChildConstraints(t, c));
    var sizes := LayoutEach(t.children, cs);
    var remaining := RemainingFrom(t, c);
    NodeFits(t, c);
    ChildConstraintsGood(t, c);
    EachSound(t.children, cs, |cs|);
    FixedIs(axis, weights, sizes);
    FlexTotals(axis, sizes);
    hide Fits, ChildConstraints, Layout, Extent, Flex.ChildConstraints;
    forall i | 0 <= i < |t.children| ensures FlexChildIs(axis, weights, c, t.children[i], sizes, i) {
      assert sizes[i] == Layout(t.children[i], cs[i]);
      assert SizeOk(cs[i], sizes[i], Extent(t.children[i]));
      OneFlexChild(axis, weights, c, t.children[i], sizes, i, remaining);
    }
    assert Layout(t, c) == Flex.FlexSize(axis, c, sizes);
  }

  lemma OneFlexChild(axis: Axis, weights: seq<real>, c: Constraints, child: Tree, sizes: seq<Size>, i: nat, remaining: int)
    requires |sizes| == |weights| && i < |sizes| && WellFormed(child) && NumbersOk(FlexBox(axis, weights))
    requires remaining == Turned(axis, c.max).width - Sum(FixedLengths(axis, weights, sizes)) && remaining >= 0
    requires var d := Flex.ChildConstraints(axis, c, weights, remaining, i); sizes[i] == Layout(child, d) && d.Contain(sizes[i])
    ensures FlexChildIs(axis, weights, c, child, sizes, i)
  {
    hide Layout, Flex.Allocation, IsShare;
    if weights[i] != 0.0 {
      ShareIs(weights, remaining, i);
    }
  }

  lemma ShareIs(weights: seq<real>, remaining: int, i: nat)
    requires Flex.NonNegativeWeights(weights) && Flex.IntegerWeights(weights) && i < |weights| && weights[i] != 0.0
    requires remaining >= 0
    ensures IsShare(Flex.Allocation(weights[i], remaining, Flex.TotalFlex(weights)), weights[i], remaining,
                    Flex.WeightSum(weights))
  {
    TotalPositive(weights, i);
    Flex.TotalIsFloorSum(weights);
    Flex.AllocationBounds(weights[i], remaining, Flex.TotalFlex(weights));
    ShareBounds(Flex.Allocation(weights[i], remaining, Flex.TotalFlex(weights)), weights[i], remaining,
                Flex.TotalFlex(weights));
  }

  lemma ShareBounds(a: int, weight: real, space: int, total: int)
    requires var t := total as real;
             Flex.Times(a as real, t) <= Flex.Times(weight, space as real) < Flex.Times(a as real, t) + t
    ensures IsShare(a, weight, space, total as real)
  {
    assert (a + 1) as real * total as real == a as real * total as real + total as real;
  }

  lemma {:induction false} FixedIs(axis: Axis, weights: seq<real>, sizes: seq<Size>)
    requires |sizes| == |weights|
    ensures Flex.FixedMain(axis, weights, sizes) == Sum(FixedLengths(axis, weights, sizes))
  {
    if sizes != [] {
      var n := |sizes| - 1;
      FixedIs(axis, weights[..n], sizes[..n]);
      assert FixedLengths(axis, weights, sizes)[..n] == FixedLengths(axis, weights[..n], sizes[..n]);
    }
  }

  lemma {:induction false} FlexTotals(axis: Axis, sizes: seq<Size>)
    ensures Flex.MainSum(axis, sizes) == Sum(Lengths(axis, sizes))
    ensures Flex.CrossMax(axis, sizes) == Largest(Widths(axis, sizes))
  {
    if sizes != [] {
      var n := |sizes| - 1;
      FlexTotals(axis, sizes[..n]);
      assert Lengths(axis, sizes)[..n] == Lengths(axis, sizes[..n]);
      assert Widths(axis, sizes)[..n] == Widths(axis, sizes[..n]);
    }
  }

  // ----- Wraps

  function Joined(runs: seq<seq<Size>>): seq<Size> {
    if runs == [] then [] else Joined(runs[..|runs| - 1]) + runs[|runs| - 1]
  }

  /** Lengths and widths of runs. */
  function RunLengths(axis: Axis, runs: seq<seq<Size>>): (r: seq<int>)
    ensures |r| == |runs|
  {
    seq(|runs|, i requires 0 <= i < |runs| => Sum(Lengths(axis, runs[i])))
  }

  function RunWidths(axis: Axis, runs: seq<seq<Size>>): (r: seq<int>)
    ensures |r| == |runs|
  {
    seq(|runs|, i requires 0 <= i < |runs| => Largest(Widths(axis, runs[i])))
  }

  /** No run has room for the child that follows it. */
  ghost predicate Breaking(axis: Axis, most: int, runs: seq<seq<Size>>) {
    forall i | 0 < i < |runs| :: runs[i] != [] && RunLengths(axis, runs)[i - 1] + Turned(axis, runs[i][0]).width > most
  }

  /** The children in order, in runs that fit and are as long as possible. */
  ghost predicate IsWrapped(axis: Axis, most: int, sizes: seq<Size>, runs: seq<seq<Size>>) {
    && Joined(runs) == sizes && (forall i | 0 <= i < |runs| :: RunLengths(axis, runs)[i] <= most)
    && Breaking(axis, most, runs)
  }

  /** The runs before the open one, and the open one. */
  datatype Lines = Lines(closed: seq<seq<Size>>, last: seq<Size>) {
    function All(): seq<seq<Size>> { closed + [last] }
  }

  /** The runs of the first `k` children, taken one after another. */
  function LinesOf(axis: Axis, most: int, sizes: seq<Size>, k: nat): Lines
    requires k <= |sizes|
  {
    if k == 0 then Lines([], [])
    else
      var (l, s) := (LinesOf(axis, most, sizes, k - 1), sizes[k - 1]);
      if Sum(Lengths(axis, l.last)) + Turned(axis, s).width > most then Lines(l.All(), [s])
      else Lines(l.closed, l.last + [s])
  }

  lemma OneMore(axis: Axis, run: seq<Size>, s: Size)
    ensures Sum(Lengths(axis, run + [s])) == Sum(Lengths(axis, run)) + Turned(axis, s).width
    ensures Largest(Widths(axis, run + [s])) == Larger(Largest(Widths(axis, run)), Turned(axis, s).height)
  {
    assert Lengths(axis, run + [s])[..|run|] == Lengths(axis, run);
    assert Widths(axis, run + [s])[..|run|] == Widths(axis, run);
  }

  lemma OneMoreRun(axis: Axis, runs: seq<seq<Size>>, run: seq<Size>)
    ensures Joined(runs + [run]) == Joined(runs) + run
    ensures RunLengths(axis, runs + [run]) == RunLengths(axis, runs) + [Sum(Lengths(axis, run))]
    ensures RunWidths(axis, runs + [run]) == RunWidths(axis, runs) + [Largest(Widths(axis, run))]
    ensures Largest(RunLengths(axis, runs + [run])) == Larger(Largest(RunLengths(axis, runs)), Sum(Lengths(axis, run)))
    ensures Sum(RunWidths(axis, runs + [run])) == Sum(RunWidths(axis, runs)) + Largest(Widths(axis, run))
  {
    assert (runs + [run])[..|runs|] == runs;
    var (a, b) := (RunLengths(axis, runs), RunWidths(axis, runs));
    assert (a + [Sum(Lengths(axis, run))])[..|a|] == a;
    assert (b + [Largest(Widths(axis, run))])[..|b|] == b;
  }

  lemma NoChildYet(axis: Axis)
    ensures Sum(Lengths(axis, [])) == 0 && Largest(Widths(axis, [])) == 0
    ensures Largest(RunLengths(axis, [])) == 0 && Sum(RunWidths(axis, [])) == 0 && Joined([]) == []
  {
  }

  lemma FirstOfRun(axis: Axis, s: Size)
    ensures Sum(Lengths(axis, [s])) == Turned(axis, s).width
    ensures Largest(Widths(axis, [s])) == Larger(0, Turned(axis, s).height)
  {
    NoChildYet(axis);
    OneMore(axis, [], s);
    assert [] + [s] == [s];
  }

  /** The state of the layout pass has the extents of the open run and of the closed ones. */
  ghost predicate Tracks(axis: Axis, r: Wrap.Runs, l: Lines) {
    && r.rowMain == Sum(Lengths(axis, l.last)) && r.rowCross == Largest(Widths(axis, l.last))
    && r.main == Largest(RunLengths(axis, l.closed)) && r.cross == Sum(RunWidths(axis, l.closed))
  }

  lemma {:induction false} LinesAreAfter(axis: Axis, most: int, sizes: seq<Size>, k: nat)
    requires k <= |sizes| && Flex.NonNegative(sizes)
    ensures Tracks(axis, Wrap.After(axis, most, sizes, k), LinesOf(axis, most, sizes, k))
  {
    hide Sum, Largest, Lengths, Widths, RunLengths, RunWidths;
    NoChildYet(axis);
    if k > 0 {
      var (l, s) := (LinesOf(axis, most, sizes, k - 1), sizes[k - 1]);
      LinesAreAfter(axis, most, sizes, k - 1);
      OneMoreRun(axis, l.closed, l.last);
      OneMore(axis, l.last, s);
      FirstOfRun(axis, s);
    }
  }

  lemma {:induction false} LinesAreWrapped(axis: Axis, most: int, sizes: seq<Size>, k: nat)
    requires k <= |sizes| && 0 <= most && forall i | 0 <= i < |sizes| :: Turned(axis, sizes[i]).width <= most
    ensures IsWrapped(axis, most, sizes[..k], LinesOf(axis, most, sizes, k).All())
    ensures k > 0 ==> LinesOf(axis, most, sizes, k).last != []
    ensures k == 0 ==> LinesOf(axis, most, sizes, k).closed == []
  {
    hide IsWrapped, Sum, Lengths;
    if k == 0 {
      NothingWrapped(axis, most);
    } else {
      var (l, s) := (LinesOf(axis, most, sizes, k - 1), sizes[k - 1]);
      LinesAreWrapped(axis, most, sizes, k - 1);
      assert sizes[..k] == sizes[..k - 1] + [s];
      if Sum(Lengths(axis, l.last)) + Turned(axis, s).width > most {
        NewRun(axis, most, sizes[..k - 1], l, s);
      } else {
        LongerRun(axis, most, sizes[..k - 1], l, s);
      }
    }
  }

  lemma NothingWrapped(axis: Axis, most: int)
    requires 0 <= most
    ensures IsWrapped(axis, most, [], Lines([], []).All())
  {
    NoChildYet(axis);
    OneMoreRun(axis, [], []);
  }

  lemma NewRun(axis: Axis, most: int, sizes: seq<Size>, l: Lines, s: Size)
    requires IsWrapped(axis, most, sizes, l.All()) && Turned(axis, s).width <= most
    requires Sum(Lengths(axis, l.last)) + Turned(axis, s).width > most
    ensures IsWrapped(axis, most, sizes + [s], l.All() + [[s]])
  {
    hide Sum, Largest, Lengths, Widths, RunWidths, Joined, RunLengths, Turned;
    FirstOfRun(axis, s);
    OneMoreRun(axis, l.All(), [s]);
    OneMoreRun(axis, l.closed, l.last);
  }

  lemma LongerRun(axis: Axis, most: int, sizes: seq<Size>, l: Lines, s: Size)
    requires IsWrapped(axis, most, sizes, l.All()) && (l.closed != [] ==> l.last != [])
    requires Sum(Lengths(axis, l.last)) + Turned(axis, s).width <= most
    ensures IsWrapped(axis, most, sizes + [s], l.closed + [l.last + [s]])
  {
    hide Sum, Largest, Lengths, Widths, RunWidths, Joined, RunLengths, Turned;
    OneMore(axis, l.last, s);
    OneMoreRun(axis, l.closed, l.last);
    OneMoreRun(axis, l.closed, l.last + [s]);
    assert Joined(l.closed) + (l.last + [s]) == (Joined(l.closed) + l.last) + [s];
    assert forall i | 0 <= i < |l.closed| :: RunLengths(axis, l.All())[i] == RunLengths(axis, l.closed + [l.last + [s]])[i];
    assert RunLengths(axis, l.closed + [l.last + [s]])[|l.closed|] <= most;
    LongerBreaks(axis, most, l, s);
  }

  lemma LongerBreaks(axis: Axis, most: int, l: Lines, s: Size)
    requires Breaking(axis, most, l.All()) && (l.closed != [] ==> l.last != [])
    ensures Breaking(axis, most, l.closed + [l.last + [s]])
  {
    hide Turned, Sum, Lengths;
    var (a, b) := (l.All(), l.closed + [l.last + [s]]);
    forall i | 0 < i < |b|
      ensures b[i] != [] && RunLengths(axis, b)[i - 1] + Turned(axis, b[i][0]).width > most
    {
      assert a[i] != [] && a[i - 1] == b[i - 1] && a[i][0] == b[i][0];
      assert RunLengths(axis, a)[i - 1] + Turned(axis, a[i][0]).width > most;
    }
  }

  /** A wrap is as long as its longest run and as wide as its runs together, or its minimum. */
  lemma WrapSizeIs(t: Tree, c: Constraints)
    requires t.widget.WrapBox? && c.Good() && WellFormed(t) && Fits(t, c)
    ensures var (axis, most) := (t.widget.axis, Turned(t.widget.axis, c.max));
            var inner := Constraints(Size(0, 0), Turned(axis, Size(UNBOUND, most.height)));
            var sizes := seq(|t.children|, i requires 0 <= i < |t.children| => Layout(t.children[i], inner));
            var runs := LinesOf(axis, most.width, sizes, |sizes|).All();
            var (s, least) := (Turned(axis, Layout(t, c)), Turned(axis, c.min));
            && IsWrapped(axis, most.width, sizes, runs)
            && s.width == Larger(least.width, Largest(RunLengths(axis, runs)))
            && s.height == Larger(least.height, Sum(RunWidths(axis, runs)))
  {
    var (axis, most) := (t.widget.axis, Turned(t.widget.axis, c.max));
    var inner := Constraints(Size(0, 0), Turned(axis, Size(UNBOUND, most.height)));
    var sizes := seq(|t.children|, i requires 0 <= i < |t.children| => Layout(t.children[i], inner));
    PlainConstraints(t, c);
    assert LayoutEach(t.children, ChildConstraints(t, c)) == sizes;
    NodeFits(t, c);
    WrapLayout(t, c);
    ChildConstraintsGood(t, c);
    EachSound(t.children, ChildConstraints(t, c), |t.children|);
    hide Fits, Layout, Extent;
    assert sizes[..|sizes|] == sizes;
    LinesAreWrapped(axis, most.width, sizes, |sizes|);
    LinesAreAfter(axis, most.width, sizes, |sizes|);
    WrapTotals(axis, c, sizes);
  }

  lemma WrapTotals(axis: Axis, c: Constraints, sizes: seq<Size>)
    requires Flex.NonNegative(sizes) && c.Good()
    ensures var runs := LinesOf(axis, Turned(axis, c.max).width, sizes, |sizes|).All();
            Turned(axis, Wrap.WrapSize(axis, c, sizes))
            == Size(Larger(Turned(axis, c.min).width, Largest(RunLengths(axis, runs))),
                    Larger(Turned(axis, c.min).height, Sum(RunWidths(axis, runs))))
  {
    hide LinesOf, Wrap.After, Sum, Largest, RunLengths, RunWidths;
    var l := LinesOf(axis, Turned(axis, c.max).width, sizes, |sizes|);
    LinesAreAfter(axis, Turned(axis, c.max).width, sizes, |sizes|);
    OneMoreRun(axis, l.closed, l.last);
  }
}
