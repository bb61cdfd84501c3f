/**
 Division of space among the children of a row or column: FlexRenderObject (libs/rMlib/include/UI/Flex.h:62-200).

 Weights are real numbers here where the source has floats; rounding of float operations is not part of this model.
 A weight of 0 marks a child that is not Expanded.
 */
module Flex {
  import opened Geometry
  import opened Constraints

  function Times(a: real, b: real): real { a * b }

  // ----- Allocation of the remaining space

  /** Conversion from float to int. */
  function Truncate(r: real): int { if r >= 0.0 then r.Floor else -((-r).Floor) }

  /** std::accumulate with an int start value: the running sum is truncated at every step. */
  function TotalFlex(weights: seq<real>): int {
    if weights == [] then 0 else Truncate(TotalFlex(weights[..|weights| - 1]) as real + weights[|weights| - 1])
  }

  /** Space given to one Expanded child; a zero total with a nonzero weight has no defined value in C++. */
  function Allocation(weight: real, remaining: int, total: int): int {
    if total == 0 then 0 else Truncate(Times(weight, remaining as real) / (total as real))
  }

  function AllocationSum(weights: seq<real>, remaining: int, total: int): int {
    if weights == [] then 0
    else AllocationSum(weights[..|weights| - 1], remaining, total) + Allocation(weights[|weights| - 1], remaining, total)
  }

  /** Number of Expanded children. */
  function ExpandedCount(weights: seq<real>): nat {
    if weights == [] then 0
    else ExpandedCount(weights[..|weights| - 1]) + if weights[|weights| - 1] != 0.0 then 1 else 0
  }

  function WeightSum(weights: seq<real>): real {
    if weights == [] then 0.0 else WeightSum(weights[..|weights| - 1]) + weights[|weights| - 1]
  }

  ghost predicate NonNegativeWeights(weights: seq<real>) {
    forall i | 0 <= i < |weights| :: weights[i] >= 0.0
  }

  ghost predicate IntegerWeights(weights: seq<real>) {
    forall i | 0 <= i < |weights| :: weights[i] == weights[i].Floor as real
  }

  /** The truncated total is the sum of the whole parts, so it is the sum exactly when all weights are whole. */
  lemma {:induction false} TotalIsFloorSum(weights: seq<real>)
    requires NonNegativeWeights(weights)
    ensures 0 <= TotalFlex(weights)
    ensures TotalFlex(weights) as real <= WeightSum(weights)
    ensures TotalFlex(weights) as real == WeightSum(weights) <==> IntegerWeights(weights)
  {
    if weights != [] {
      var rest := weights[..|weights| - 1];
      TotalIsFloorSum(rest);
      FloorOfSum(TotalFlex(rest), weights[|weights| - 1]);
    }
  }

  lemma FloorOfSum(n: int, r: real)
    ensures (n as real + r).Floor == n + r.Floor
  {
  }

  // ----- Products of reals, kept folded away in the proofs below

  lemma Distribute(a: real, b: real, t: real)
    ensures Times(a + b, t) == Times(a, t) + Times(b, t)
  {
  }

  lemma One(t: real)
    ensures Times(1.0, t) == t && Times(0.0, t) == 0.0 && Times(t, 0.0) == 0.0
  {
  }

  lemma Swap(a: real, b: real)
    ensures Times(a, b) == Times(b, a)
  {
  }

  lemma Positive(a: real, t: real)
    requires t > 0.0
    ensures Times(a, t) > 0.0 <==> a > 0.0
    ensures Times(a, t) < 0.0 <==> a < 0.0
  {
  }

  /** Comparing multiples of a positive number. */
  lemma Compare(a: real, b: real, t: real)
    requires t > 0.0
    ensures Times(a, t) <= Times(b, t) <==> a <= b
    ensures Times(a, t) < Times(b, t) <==> a < b
  {
    hide Times;
    Distribute(a - b, b, t);
    Positive(a - b, t);
    assert (a - b) + b == a;
  }

  lemma Quotient(w: real, t: real)
    requires t > 0.0
    ensures Times(w / t, t) == w
  {
  }

  /** Each allocation is the exact share rounded down. */
  lemma AllocationBounds(weight: real, remaining: int, total: int)
    requires weight >= 0.0 && remaining >= 0 && total > 0
    ensures Allocation(weight, remaining, total) >= 0
    ensures weight == 0.0 ==> Allocation(weight, remaining, total) == 0
    ensures var (a, t) := (Allocation(weight, remaining, total) as real, total as real);
            Times(a, t) <= Times(weight, remaining as real) < Times(a, t) + t
  {
    var (w, t) := (Times(weight, remaining as real), total as real);
    assert w >= 0.0;
    hide Times;
    Quotient(w, t);
    Positive(w / t, t);
    var f := (w / t).Floor as real;
    Compare(f, w / t, t);
    Compare(w / t, f + 1.0, t);
    Distribute(f, 1.0, t);
    One(t);
    AllocationIs(weight, remaining, total);
  }

  lemma AllocationIs(weight: real, remaining: int, total: int)
    requires total > 0
    ensures Allocation(weight, remaining, total) == Truncate(Times(weight, remaining as real) / (total as real))
    ensures weight == 0.0 ==> Allocation(weight, remaining, total) == 0
  {
  }

  /** Every child loses less than one unit by rounding down; all sides are scaled by the total weight. */
  lemma {:induction false} SharesRoundedDown(weights: seq<real>, remaining: int, total: int)
    requires NonNegativeWeights(weights) && remaining >= 0 && total > 0
    ensures AllocationSum(weights, remaining, total) >= 0
    ensures var t := total as real;
            var s := Times(AllocationSum(weights, remaining, total) as real, t);
            var share := Times(WeightSum(weights), remaining as real);
            var n := Times(ExpandedCount(weights) as real, t);
            s <= share <= s + n && (ExpandedCount(weights) > 0 ==> share < s + n)
  {
    hide Times, Allocation;
    var t := total as real;
    One(t);
    One(remaining as real);
    if weights != [] {
      var (rest, w) := (weights[..|weights| - 1], weights[|weights| - 1]);
      SharesRoundedDown(rest, remaining, total);
      AllocationBounds(w, remaining, total);
      Distribute(WeightSum(rest), w, remaining as real);
      Distribute(AllocationSum(rest, remaining, total) as real, Allocation(w, remaining, total) as real, t);
      Distribute(ExpandedCount(rest) as real, 1.0, t);
      Distribute(ExpandedCount(rest) as real, 0.0, t);
    }
  }

  /**
   With whole weights the Expanded children never get more than the remaining space, and miss it by less than one unit
   each.
   */
  lemma SpaceIsDivided(weights: seq<real>, remaining: int)
    requires NonNegativeWeights(weights) && IntegerWeights(weights) && remaining >= 0 && TotalFlex(weights) > 0
    ensures 0 <= AllocationSum(weights, remaining, TotalFlex(weights)) <= remaining
    ensures remaining - AllocationSum(weights, remaining, TotalFlex(weights)) < ExpandedCount(weights)
  {
    hide Times;
    var total := TotalFlex(weights);
    TotalIsFloorSum(weights);
    NoneExpanded(weights);
    SharesRoundedDown(weights, remaining, total);
    var (s, n, t) := (AllocationSum(weights, remaining, total), ExpandedCount(weights), total as real);
    Swap(t, remaining as real);
    Compare(s as real, remaining as real, t);
    Compare(remaining as real, s as real + n as real, t);
    Distribute(s as real, n as real, t);
  }

  /** All weights are multiples of 1 / n. */
  ghost predicate OnGrid(weights: seq<real>, n: nat) {
    n > 0 && forall i | 0 <= i < |weights| :: Times(weights[i], n as real) == Times(weights[i], n as real).Floor as real
  }

  /** In a space of n times the total, a multiple of 1 / n is allocated its exact share. */
  lemma GridAllocation(weight: real, n: nat, total: int)
    requires weight >= 0.0 && total > 0 && Times(weight, n as real) == Times(weight, n as real).Floor as real
    ensures Allocation(weight, n * total, total) as real == Times(weight, n as real)
  {
    var (share, space) := (Times(weight, n as real), n * total);
    assert share >= 0.0;
    AsReals(n, total, space);
    Cancel(weight, n as real, total as real);
    WholeAllocation(weight, space, total, share);
  }

  lemma AsReals(a: int, b: int, c: int)
    requires c == a * b
    ensures c as real == a as real * b as real
  {
  }

  lemma WholeAllocation(weight: real, remaining: int, total: int, share: real)
    requires total > 0 && share >= 0.0 && share == share.Floor as real
    requires Times(weight, remaining as real) / (total as real) == share
    ensures Allocation(weight, remaining, total) as real == share
  {
    hide Times;
    AllocationIs(weight, remaining, total);
  }

  lemma Cancel(a: real, b: real, t: real)
    requires t > 0.0
    ensures Times(a, b * t) / t == Times(a, b)
  {
    assert (a * (b * t)) / t == a * b by { assert a * (b * t) == (a * b) * t; }
  }

  lemma {:induction false} GridSum(weights: seq<real>, n: nat, total: int)
    requires NonNegativeWeights(weights) && OnGrid(weights, n) && total > 0
    ensures AllocationSum(weights, n * total, total) as real == Times(WeightSum(weights), n as real)
  {
    hide Times, Allocation;
    One(n as real);
    if weights != [] {
      var (rest, w) := (weights[..|weights| - 1], weights[|weights| - 1]);
      GridSum(rest, n, total);
      GridAllocation(w, n, total);
      Distribute(WeightSum(rest), w, n as real);
    }
  }

  /**
   With any fractional weight the truncated total is too small: in a space of n times the total the Expanded children
   together get more than there is.
   */
  lemma FractionsOverAllocate(weights: seq<real>, n: nat)
    requires NonNegativeWeights(weights) && !IntegerWeights(weights) && OnGrid(weights, n) && TotalFlex(weights) > 0
    ensures AllocationSum(weights, n * TotalFlex(weights), TotalFlex(weights)) > n * TotalFlex(weights)
  {
    hide Times;
    var total := TotalFlex(weights);
    TotalIsFloorSum(weights);
    GridSum(weights, n, total);
    Compare(total as real, WeightSum(weights), n as real);
    Swap(n as real, total as real);
    Product(total, n);
  }

  lemma Product(a: int, b: int)
    ensures Times(a as real, b as real) == (b * a) as real
  {
  }

  /** So the space is never exceeded, whatever its amount, exactly when all weights are whole. */
  lemma NeverOverAllocates(weights: seq<real>, n: nat)
    requires NonNegativeWeights(weights) && OnGrid(weights, n) && 0 < n * TotalFlex(weights) < UNBOUND
    ensures (forall remaining: nat | remaining < UNBOUND ::
               AllocationSum(weights, remaining, TotalFlex(weights)) <= remaining)
       <==> IntegerWeights(weights)
  {
    TotalIsFloorSum(weights);
    var space := n * TotalFlex(weights);
    if IntegerWeights(weights) {
      forall remaining: nat ensures AllocationSum(weights, remaining, TotalFlex(weights)) <= remaining {
        SpaceIsDivided(weights, remaining);
      }
    } else {
      FractionsOverAllocate(weights, n);
      assert AllocationSum(weights, space, TotalFlex(weights)) > space;
    }
  }

  /** Two weights of 1.5 in a space of 4: the truncated total is 2, and each child gets 3. */
  lemma OverAllocatesHere()
    ensures TotalFlex([1.5, 1.5]) == 2 && AllocationSum([1.5, 1.5], 4, 2) == 6 > 4
  {
    assert [1.5, 1.5][..1] == [1.5] && [1.5][..0] == [];
    assert Allocation(1.5, 4, 2) == 3;
    assert AllocationSum([1.5], 4, 2) == 3;
  }

  lemma NoneExpanded(weights: seq<real>)
    ensures ExpandedCount(weights) == 0 ==> WeightSum(weights) == 0.0 && TotalFlex(weights) == 0
  {
    if weights != [] { NoneExpanded(weights[..|weights| - 1]); }
  }

  // ----- Sizes

  function MainSum(axis: Axis, sizes: seq<Size>): int {
    if sizes == [] then 0 else MainSum(axis, sizes[..|sizes| - 1]) + Main(axis, sizes[|sizes| - 1])
  }

  function CrossMax(axis: Axis, sizes: seq<Size>): int {
    if sizes == [] then 0 else Max(Cross(axis, sizes[|sizes| - 1]), CrossMax(axis, sizes[..|sizes| - 1]))
  }

  /** Main extent of the children that are not Expanded. */
  function FixedMain(axis: Axis, weights: seq<real>, sizes: seq<Size>): int
    requires |sizes| == |weights|
  {
    if sizes == [] then 0
    else FixedMain(axis, weights[..|sizes| - 1], sizes[..|sizes| - 1])
         + if weights[|sizes| - 1] == 0.0 then Main(axis, sizes[|sizes| - 1]) else 0
  }

  /** Main extent of the Expanded children. */
  function ExpandedMain(axis: Axis, weights: seq<real>, sizes: seq<Size>): int
    requires |sizes| == |weights|
  {
    if sizes == [] then 0
    else ExpandedMain(axis, weights[..|sizes| - 1], sizes[..|sizes| - 1])
         + if weights[|sizes| - 1] == 0.0 then 0 else Main(axis, sizes[|sizes| - 1])
  }

  lemma {:induction false} MainSumSplits(axis: Axis, weights: seq<real>, sizes: seq<Size>)
    requires |sizes| == |weights|
    ensures MainSum(axis, sizes) == FixedMain(axis, weights, sizes) + ExpandedMain(axis, weights, sizes)
  {
    if sizes != [] { MainSumSplits(axis, weights[..|sizes| - 1], sizes[..|sizes| - 1]); }
  }

  /** Children that are not Expanded may take any space along the main axis. */
  function LooseConstraints(axis: Axis, c: Constraints): Constraints {
    Constraints(Along(axis, 0, Cross(axis, c.min)), Along(axis, UNBOUND, Cross(axis, c.max)))
  }

  /** An Expanded child gets exactly its allocation. */
  function TightConstraints(axis: Axis, c: Constraints, allocation: int): Constraints {
    Constraints(Along(axis, allocation, Cross(axis, c.min)), Along(axis, allocation, Cross(axis, c.max)))
  }

  function FlexSize(axis: Axis, c: Constraints, sizes: seq<Size>): Size {
    var total := Along(axis, MainSum(axis, sizes), CrossMax(axis, sizes));
    Size(Max(total.width, c.min.width), Max(total.height, c.min.height))
  }

  // ----- Draw: the children one after another along the main axis, centred

  function ChildRect(axis: Axis, sizes: seq<Size>, rect: Rect, k: nat): Rect
    requires k < |sizes|
  {
    var main := TruncDiv(Main(axis, rect.Extents()) - MainSum(axis, sizes), 2) + MainSum(axis, sizes[..k]);
    var cross := TruncDiv(Cross(axis, rect.Extents()) - Cross(axis, sizes[k]), 2);
    var offset := PointAlong(axis, main, cross);
    RectAt(Point(rect.topLeft.x + offset.x, rect.topLeft.y + offset.y), sizes[k])
  }

  ghost predicate NonNegative(sizes: seq<Size>) {
    forall i | 0 <= i < |sizes| :: sizes[i].width >= 0 && sizes[i].height >= 0
  }

  lemma {:induction false} MainSumGrows(axis: Axis, sizes: seq<Size>, j: nat, k: nat)
    requires NonNegative(sizes) && j <= k <= |sizes|
    ensures 0 <= MainSum(axis, sizes[..j]) <= MainSum(axis, sizes[..k])
    ensures j < k ==> MainSum(axis, sizes[..j]) + Main(axis, sizes[j]) <= MainSum(axis, sizes[..k])
    decreases k
  {
    if k > 0 {
      assert sizes[..k][..k - 1] == sizes[..k - 1];
      if j == k { MainSumGrows(axis, sizes, j - 1, k - 1); } else { MainSumGrows(axis, sizes, j, k - 1); }
    }
  }

  lemma {:induction false} CrossWithinMax(axis: Axis, sizes: seq<Size>, k: nat)
    requires k < |sizes|
    ensures Cross(axis, sizes[k]) <= CrossMax(axis, sizes)
  {
    if k < |sizes| - 1 { CrossWithinMax(axis, sizes[..|sizes| - 1], k); }
  }

  /** Children are drawn inside a rectangle of the size layout returned, with the sizes they were laid out with. */
  lemma ChildInside(axis: Axis, c: Constraints, sizes: seq<Size>, rect: Rect, k: nat)
    requires NonNegative(sizes) && rect.Extents() == FlexSize(axis, c, sizes) && k < |sizes|
    ensures rect.Encloses(ChildRect(axis, sizes, rect, k)) && ChildRect(axis, sizes, rect, k).Extents() == sizes[k]
  {
    MainSumGrows(axis, sizes, k, |sizes|);
    assert sizes[..|sizes|] == sizes;
    CrossWithinMax(axis, sizes, k);
  }

  /** Each child starts right after the previous one, so no two overlap. */
  lemma ChildrenContiguous(axis: Axis, sizes: seq<Size>, rect: Rect, k: nat)
    requires k + 1 < |sizes|
    ensures MainOf(axis, ChildRect(axis, sizes, rect, k + 1).topLeft)
         == MainOf(axis, ChildRect(axis, sizes, rect, k).bottomRight) + 1
  {
    assert sizes[..k + 1][..k] == sizes[..k];
  }

  lemma ChildrenDisjoint(axis: Axis, sizes: seq<Size>, rect: Rect, j: nat, k: nat)
    requires NonNegative(sizes) && j < k < |sizes|
    ensures ChildRect(axis, sizes, rect, j).DisjointFrom(ChildRect(axis, sizes, rect, k))
  {
    MainSumGrows(axis, sizes, j, k);
  }

  // ----- Layout: the children that are not Expanded first, then the Expanded ones

  /** The sizes of the children, when child `i` laid out under `c` has size `layout(i, c)`. */
  function LooseSizes(axis: Axis, c: Constraints, count: nat, layout: (nat, Constraints) -> Size): seq<Size> {
    seq(count, i requires 0 <= i < count => layout(i, LooseConstraints(axis, c)))
  }

  function Remaining(axis: Axis, c: Constraints, weights: seq<real>, loose: seq<Size>): int
    requires |loose| == |weights|
  {
    Main(axis, c.max) - FixedMain(axis, weights, loose)
  }

  function ChildConstraints(axis: Axis, c: Constraints, weights: seq<real>, remaining: int, i: nat): Constraints
    requires i < |weights|
  {
    if weights[i] == 0.0 then LooseConstraints(axis, c)
    else TightConstraints(axis, c, Allocation(weights[i], remaining, TotalFlex(weights)))
  }

  function ChildSizes(axis: Axis, c: Constraints, weights: seq<real>, layout: (nat, Constraints) -> Size): seq<Size> {
    var remaining := Remaining(axis, c, weights, LooseSizes(axis, c, |weights|, layout));
    seq(|weights|, i requires 0 <= i < |weights| => layout(i, ChildConstraints(axis, c, weights, remaining, i)))
  }

  /** Extents along both axes of the children selected so far. */
  function CrossMaxOf(axis: Axis, weights: seq<real>, sizes: seq<Size>, expanded: bool): int
    requires |sizes| == |weights|
  {
    if sizes == [] then 0
    else
      var rest := CrossMaxOf(axis, weights[..|sizes| - 1], sizes[..|sizes| - 1], expanded);
      if (weights[|sizes| - 1] != 0.0) == expanded then Max(Cross(axis, sizes[|sizes| - 1]), rest) else rest
  }

  lemma {:induction false} CrossMaxSplits(axis: Axis, weights: seq<real>, sizes: seq<Size>)
    requires |sizes| == |weights|
    ensures CrossMax(axis, sizes) == Max(CrossMaxOf(axis, weights, sizes, false), CrossMaxOf(axis, weights, sizes, true))
  {
    if sizes != [] { CrossMaxSplits(axis, weights[..|sizes| - 1], sizes[..|sizes| - 1]); }
  }

  class FlexRenderObject {
    const axis: Axis
    const flexes: seq<real>
    const layoutChild: (nat, Constraints) -> Size  // the children's layout functions
    var childSizes: seq<Size>
    var totalSize: int

    constructor (axis: Axis, flexes: seq<real>, layoutChild: (nat, Constraints) -> Size)
      ensures this.axis == axis && this.flexes == flexes && this.layoutChild == layoutChild
      ensures |childSizes| == |flexes|
    {
      this.axis, this.flexes, this.layoutChild, totalSize := axis, flexes, layoutChild, 0;
      childSizes := seq(|flexes|, _ => Size(0, 0));
    }

    /** The sizes of one kind of children are stored, those of the other kind are as given. */
    ghost predicate Stored(sizes: seq<Size>, before: seq<Size>, upTo: nat, expanded: bool)
      reads this
    {
      && |sizes| == |before| == |childSizes| == |flexes|
      && forall i | 0 <= i < |flexes| ::
           childSizes[i] == if i < upTo && (flexes[i] != 0.0) == expanded then sizes[i] else before[i]
    }

    /** layoutNonFlex and layoutFlex differ only in the children they take and the constraints they pass. */
    method LayoutKind(c: Constraints, remaining: int, expanded: bool, ghost sizes: seq<Size>) returns (main: int, cross: int)
      requires |childSizes| == |flexes| == |sizes|
      requires forall i | 0 <= i < |flexes| && (flexes[i] != 0.0) == expanded ::
                 sizes[i] == layoutChild(i, ChildConstraints(axis, c, flexes, remaining, i))
      modifies this`childSizes
      ensures Stored(sizes, old(childSizes), |flexes|, expanded)
      ensures main == if expanded then ExpandedMain(axis, flexes, sizes) else FixedMain(axis, flexes, sizes)
      ensures cross == CrossMaxOf(axis, flexes, sizes, expanded)
    {
      main, cross := 0, 0;
      var i := 0;
      while i < |flexes|
        invariant i <= |flexes| && Stored(sizes, old(childSizes), i, expanded)
        invariant main == if expanded then ExpandedMain(axis, flexes[..i], sizes[..i]) else FixedMain(axis, flexes[..i], sizes[..i])
        invariant cross == CrossMaxOf(axis, flexes[..i], sizes[..i], expanded)
      {
        assert flexes[..i + 1][..i] == flexes[..i] && sizes[..i + 1][..i] == sizes[..i];
        if (flexes[i] != 0.0) == expanded {
          var newSize := layoutChild(i, ChildConstraints(axis, c, flexes, remaining, i));
          childSizes := childSizes[i := newSize];
          main := main + Main(axis, newSize);
          cross := Max(Cross(axis, newSize), cross);
        }
        i := i + 1;
      }
      assert flexes[..i] == flexes && sizes[..i] == sizes;
    }

    method DoLayout(c: Constraints) returns (result: Size)
      requires |childSizes| == |flexes|
      modifies this
      ensures childSizes == ChildSizes(axis, c, flexes, layoutChild) && totalSize == MainSum(axis, childSizes)
      ensures result == FlexSize(axis, c, childSizes)
    {
      ghost var loose := LooseSizes(axis, c, |flexes|, layoutChild);
      var fixedMain, fixedCross := LayoutKind(c, 0, false, loose);
      var remainingSpace := Main(axis, c.max) - fixedMain;
      ghost var sizes := ChildSizes(axis, c, flexes, layoutChild);
      SameFixed(c, loose, sizes);
      var flexMain, flexCross := LayoutKind(c, remainingSpace, true, sizes);
      forall i | 0 <= i < |flexes| ensures childSizes[i] == sizes[i] {
        if flexes[i] == 0.0 { assert loose[i] == sizes[i]; }
      }
      assert childSizes == sizes;
      MainSumSplits(axis, flexes, sizes);
      CrossMaxSplits(axis, flexes, sizes);
      totalSize := fixedMain + flexMain;
      result := Along(axis, totalSize, Max(fixedCross, flexCross));
      if result.height < c.min.height { result := result.(height := c.min.height); }
      if result.width < c.min.width { result := result.(width := c.min.width); }
    }

    lemma SameFixed(c: Constraints, loose: seq<Size>, sizes: seq<Size>)
      requires loose == LooseSizes(axis, c, |flexes|, layoutChild) && sizes == ChildSizes(axis, c, flexes, layoutChild)
      ensures forall i | 0 <= i < |flexes| && flexes[i] == 0.0 :: loose[i] == sizes[i]
      ensures FixedMain(axis, flexes, loose) == FixedMain(axis, flexes, sizes)
      ensures CrossMaxOf(axis, flexes, loose, false) == CrossMaxOf(axis, flexes, sizes, false)
    {
      var remaining := Remaining(axis, c, flexes, loose);
      forall i | 0 <= i < |flexes| && flexes[i] == 0.0 ensures loose[i] == sizes[i] {
        assert ChildConstraints(axis, c, flexes, remaining, i) == LooseConstraints(axis, c);
      }
      FixedOnly(axis, flexes, loose, sizes);
    }

    static lemma {:induction false} FixedOnly(axis: Axis, weights: seq<real>, a: seq<Size>, b: seq<Size>)
      requires |a| == |b| == |weights|
      requires forall i | 0 <= i < |weights| && weights[i] == 0.0 :: a[i] == b[i]
      ensures FixedMain(axis, weights, a) == FixedMain(axis, weights, b)
      ensures CrossMaxOf(axis, weights, a, false) == CrossMaxOf(axis, weights, b, false)
    {
      if weights != [] { FixedOnly(axis, weights[..|a| - 1], a[..|a| - 1], b[..|a| - 1]); }
    }

    method DoDraw(rect: Rect) returns (rects: seq<Rect>)
      requires totalSize == MainSum(axis, childSizes)  // left by DoLayout
      ensures |rects| == |childSizes|
      ensures forall k | 0 <= k < |rects| :: rects[k] == ChildRect(axis, childSizes, rect, k)
    {
      rects := DrawInOrder(axis, childSizes, totalSize, rect);
    }

    /** The loop, on the fields it reads. */
    static method DrawInOrder(axis: Axis, childSizes: seq<Size>, totalSize: int, rect: Rect) returns (rects: seq<Rect>)
      requires totalSize == MainSum(axis, childSizes)
      ensures |rects| == |childSizes|
      ensures forall k | 0 <= k < |rects| :: rects[k] == ChildRect(axis, childSizes, rect, k)
    {
      var maxSize := Main(axis, rect.Extents());
      var offset := TruncDiv(maxSize - totalSize, 2);
      rects := [];
      var i := 0;
      while i < |childSizes|
        invariant i <= |childSizes| && |rects| == i
        invariant offset == TruncDiv(maxSize - totalSize, 2) + MainSum(axis, childSizes[..i])
        invariant forall k | 0 <= k < i :: rects[k] == ChildRect(axis, childSizes, rect, k)
      {
        var size := childSizes[i];
        var otherOffset := TruncDiv(Cross(axis, rect.Extents()) - Cross(axis, size), 2);
        var offsetPoint := PointAlong(axis, offset, otherOffset);
        rects := rects + [RectAt(Point(rect.topLeft.x + offsetPoint.x, rect.topLeft.y + offsetPoint.y), size)];
        assert childSizes[..i + 1][..i] == childSizes[..i];
        offset := offset + Main(axis, size);
        i := i + 1;
      }
    }
  }
}
