/**
 What an update marks, and when an update that marks nothing leaves every layout as it is: the update functions of
 Layout.h, Text.h, Image.h, Stack.h, Flex.h and Wrap.h in libs/rMlib/include/UI.
 */
module Updates {
  import opened Geometry
  import opened Constraints
  import opened Widgets
  import Flex

  /** C++ types agree: the same widget class, and for a row or column the same number of children. */
  predicate SameKind(w: Widget, v: Widget) {
    match w
    case Text(_, _, _) => v.Text?
    case Image(_) => v.Image?
    case Colored => v.Colored?
    case Padding(_) => v.Padding?
    case Border(_) => v.Border?
    case Center => v.Center?
    case Corner(_) => v.Corner?
    case Sized(_, _) => v.Sized?
    case Cleared => v.Cleared?
    case Stack(_) => v.Stack?
    case FlexBox(_, weights) => v.FlexBox? && |v.weights| == |weights|
    case WrapBox(_) => v.WrapBox?
  }

  /** The update of a `w` with `before` children to a `v` with `after` children marks the object. */
  predicate Marks(w: Widget, v: Widget, before: nat, after: nat)
    requires SameKind(w, v)
  {
    match w
    case Text(text, fontSize, _) => text != v.text || fontSize != v.fontSize
    case Padding(insets) => insets != v.insets
    case Border(insets) => insets != v.insets
    case Sized(width, height) => width != v.width || height != v.height
    case Stack(shouldUpdate) => after < before || shouldUpdate
    case FlexBox(axis, _) => axis != v.axis
    case WrapBox(axis) => axis != v.axis || after != before
    case _ => false
  }

  /** The weights of two rows divide any space in the same way. */
  ghost predicate Proportional(w: seq<real>, v: seq<real>) {
    || w == v
    || (&& |w| == |v| && Flex.TotalFlex(w) > 0 && Flex.TotalFlex(v) > 0
        && forall i | 0 <= i < |w| ::
             Flex.Times(w[i], Flex.TotalFlex(v) as real) == Flex.Times(v[i], Flex.TotalFlex(w) as real))
  }

  /** Widgets that treat the same children alike in layout. */
  ghost predicate AlikeWidgets(w: Widget, v: Widget)
    requires SameKind(w, v)
  {
    match w
    case Text(_, _, size) => v.size == size
    case Corner(_) => true
    case Stack(_) => true
    case FlexBox(axis, weights) => v.axis == axis && Proportional(weights, v.weights)
    case _ => v == w
  }

  /** A text has the size that the font gives it. */
  predicate Measured(w: Widget, measure: (string, int) -> Size) { w.Text? ==> w.size == measure(w.text, w.fontSize) }

  /**
   Where texts are measured, only images and rows that change can be left unmarked without being alike. A widget that
   stays as it is is marked only if it is a stack that asks for that or loses children, or a wrap with more or fewer.
   */
  lemma MarksWhatShows(w: Widget, v: Widget, before: nat, after: nat, measure: (string, int) -> Size)
    requires SameKind(w, v) && Measured(w, measure) && Measured(v, measure)
    ensures !Marks(w, v, before, after) ==> AlikeWidgets(w, v) || w.Image? || (w.FlexBox? && w.axis == v.axis)
    ensures Marks(w, w, before, after) ==> Marks(w, v, before, after)
    ensures Marks(w, w, before, after) <==>
            (w.Stack? && (w.shouldUpdate || after < before)) || (w.WrapBox? && after != before)
  {
  }

  ghost predicate AlikeTrees(t: Tree, u: Tree) {
    && SameKind(t.widget, u.widget) && AlikeWidgets(t.widget, u.widget) && |t.children| == |u.children|
    && forall i | 0 <= i < |t.children| :: AlikeTrees(t.children[i], u.children[i])
  }

  // ----- Alike trees have the same layouts

  lemma AlikeReflexive(t: Tree)
    ensures AlikeTrees(t, t)
  {
    forall i | 0 <= i < |t.children| ensures AlikeTrees(t.children[i], t.children[i]) { AlikeReflexive(t.children[i]); }
  }

  /** Proportional weights give every child the same constraints. */
  lemma ProportionalConstraints(axis: Axis, c: Constraints, w: seq<real>, v: seq<real>, remaining: int, i: nat)
    requires Proportional(w, v) && i < |w|
    ensures |w| == |v| && (w[i] == 0.0 <==> v[i] == 0.0)
    ensures Flex.ChildConstraints(axis, c, w, remaining, i) == Flex.ChildConstraints(axis, c, v, remaining, i)
  {
    if w != v {
      SameShare(w[i], v[i], remaining, Flex.TotalFlex(w), Flex.TotalFlex(v));
    }
  }

  lemma SameShare(a: real, b: real, remaining: int, s: int, t: int)
    requires s > 0 && t > 0 && Flex.Times(a, t as real) == Flex.Times(b, s as real)
    ensures Flex.Allocation(a, remaining, s) == Flex.Allocation(b, remaining, t)
    ensures a == 0.0 <==> b == 0.0
  {
    Flex.AllocationIs(a, remaining, s);
    Flex.AllocationIs(b, remaining, t);
    var (x, y, r) := (s as real, t as real, remaining as real);
    Exchange(a, r, y);
    Exchange(b, r, x);
    assert Flex.Times(Flex.Times(a, r), y) == Flex.Times(Flex.Times(b, r), x);
    CrossMultiply(Flex.Times(a, r), Flex.Times(b, r), x, y);
  }

  lemma Exchange(a: real, r: real, y: real)
    ensures Flex.Times(Flex.Times(a, r), y) == Flex.Times(Flex.Times(a, y), r)
  {
  }

  lemma CrossMultiply(p: real, q: real, x: real, y: real)
    requires x > 0.0 && y > 0.0 && Flex.Times(p, y) == Flex.Times(q, x)
    ensures p / x == q / y
  {
    var (f, g) := (p / x, q / y);
    assert f * x == p && g * y == q;
    assert (f * x) * y == (g * y) * x;
    assert (f - g) * (x * y) == 0.0;
    assert x * y > 0.0;
  }

  lemma FixedMainAgrees(axis: Axis, w: seq<real>, v: seq<real>, sizes: seq<Size>)
    requires |w| == |v| == |sizes| && forall i | 0 <= i < |w| :: w[i] == 0.0 <==> v[i] == 0.0
    ensures Flex.FixedMain(axis, w, sizes) == Flex.FixedMain(axis, v, sizes)
  {
    if sizes != [] { FixedMainAgrees(axis, w[..|w| - 1], v[..|w| - 1], sizes[..|w| - 1]); }
  }

  /** Two rows with the same sizes of their children pass on the same constraints. */
  lemma AlikeFlexConstraints(axis: Axis, c: Constraints, w: seq<real>, v: seq<real>, loose: seq<Size>)
    requires Proportional(w, v) && |loose| == |w|
    ensures |v| == |w| && Flex.Remaining(axis, c, w, loose) == Flex.Remaining(axis, c, v, loose)
    ensures forall i | 0 <= i < |w| ::
              Flex.ChildConstraints(axis, c, w, Flex.Remaining(axis, c, w, loose), i)
              == Flex.ChildConstraints(axis, c, v, Flex.Remaining(axis, c, v, loose), i)
  {
    hide Flex.ChildConstraints;
    forall i | 0 <= i < |w|
      ensures w[i] == 0.0 <==> v[i] == 0.0
    {
      ProportionalConstraints(axis, c, w, v, 0, i);
    }
    FixedMainAgrees(axis, w, v, loose);
    forall i | 0 <= i < |w|
      ensures Flex.ChildConstraints(axis, c, w, Flex.Remaining(axis, c, w, loose), i)
           == Flex.ChildConstraints(axis, c, v, Flex.Remaining(axis, c, v, loose), i)
    {
      ProportionalConstraints(axis, c, w, v, Flex.Remaining(axis, c, w, loose), i);
    }
  }

  /** Alike trees have the same layout under any constraints. */
  lemma {:induction false} AlikeLayout(t: Tree, u: Tree, c: Constraints)
    requires AlikeTrees(t, u) && WellFormed(t) && WellFormed(u)
    ensures Layout(t, c) == Layout(u, c) && ChildConstraints(t, c) == ChildConstraints(u, c)
    ensures Fields(t, c) == Fields(u, c)
    decreases t, 2
  {
    hide Combine, FieldsOf, InnerConstraints, AlikeWidgets, Proportional;
    AlikeChildConstraints(t, u, c);
    var cs := ChildConstraints(t, c);
    AlikeEach(t, u, cs);
    AlikeCombine(t.widget, u.widget, c, LayoutEach(t.children, cs));
  }

  lemma AlikeCombine(w: Widget, v: Widget, c: Constraints, sizes: seq<Size>)
    requires SameKind(w, v) && AlikeWidgets(w, v) && ArityOk(w, |sizes|)
    ensures ArityOk(v, |sizes|) && Combine(w, c, sizes) == Combine(v, c, sizes)
    ensures FieldsOf(w, c, sizes) == FieldsOf(v, c, sizes)
    ensures !w.FlexBox? ==> InnerConstraints(w, c) == InnerConstraints(v, c)
  {
  }

  lemma {:induction false} AlikeEach(t: Tree, u: Tree, cs: seq<Constraints>)
    requires AlikeTrees(t, u) && WellFormed(t) && WellFormed(u) && |cs| == |t.children|
    ensures LayoutEach(t.children, cs) == LayoutEach(u.children, cs)
    decreases t, 0
  {
    hide Layout, AlikeWidgets;
    forall i | 0 <= i < |t.children| ensures Layout(t.children[i], cs[i]) == Layout(u.children[i], cs[i]) {
      AlikeLayout(t.children[i], u.children[i], cs[i]);
    }
  }

  lemma {:induction false} AlikeChildConstraints(t: Tree, u: Tree, c: Constraints)
    requires AlikeTrees(t, u) && WellFormed(t) && WellFormed(u)
    ensures ChildConstraints(t, c) == ChildConstraints(u, c)
    decreases t, 1
  {
    if t.widget.FlexBox? {
      hide Combine, InnerConstraints, Proportional, Flex.ChildConstraints, Flex.Remaining, LayoutEach;
      var cs := Same(Flex.LooseConstraints(t.widget.axis, c), |t.children|);
      AlikeEach(t, u, cs);
      AlikeFlexConstraints(t.widget.axis, c, t.widget.weights, u.widget.weights, LayoutEach(t.children, cs));
    } else {
      AlikeInner(t.widget, u.widget, c);
    }
  }

  lemma AlikeInner(w: Widget, v: Widget, c: Constraints)
    requires SameKind(w, v) && AlikeWidgets(w, v) && !w.FlexBox?
    ensures InnerConstraints(w, c) == InnerConstraints(v, c)
  {
  }

  // ----- Without a mark, only alike widgets are safe

  /** All layouts with these widgets at the root agree, under all constraints that layout can be given. */
  ghost predicate SameLayouts(w: Widget, v: Widget)
    requires SameKind(w, v)
  {
    forall ts: seq<Tree>, c: Constraints | c.Good() && ArityOk(w, |ts|) && WellFormed(Node(w, ts)) ::
      && WellFormed(Node(v, ts)) && Layout(Node(w, ts), c) == Layout(Node(v, ts), c)
      && ChildConstraints(Node(w, ts), c) == ChildConstraints(Node(v, ts), c)
  }

  /** Sizes are not negative and stay below the largest int; weights are multiples of 1 / n with a moderate total. */
  ghost predicate Representable(w: Widget, n: nat) {
    match w
    case Text(_, _, size) => 0 <= size.width < UNBOUND && 0 <= size.height < UNBOUND
    case Image(size) => 0 <= size.width < UNBOUND && 0 <= size.height < UNBOUND
    case FlexBox(_, weights) =>
      Flex.NonNegativeWeights(weights) && Flex.OnGrid(weights, n) && 0 < n * Flex.TotalFlex(weights) < UNBOUND
    case _ => true
  }

  /** Different shares of two rows differ in a space of n times the total of the row with the larger share. */
  lemma SharesDiffer(a: real, b: real, s: int, t: int, n: nat)
    requires a >= 0.0 && b >= 0.0 && s > 0 && t > 0 && n > 0 && Flex.Times(a, t as real) > Flex.Times(b, s as real)
    requires Flex.Times(a, n as real) == Flex.Times(a, n as real).Floor as real
    ensures Flex.Allocation(a, n * s, s) > Flex.Allocation(b, n * s, t)
  {
    var (x, y, m) := (s as real, t as real, n as real);
    Flex.GridAllocation(a, n, s);
    Flex.AllocationBounds(b, n * s, t);
    Flex.Product(s, n);
    Rearrange(a, m, y);
    Rearrange(b, x, m);
    hide Flex.Times, Flex.Allocation;
    Flex.Swap(x, m);
    Flex.Compare(Flex.Times(b, x), Flex.Times(a, y), m);
    Flex.Compare(Flex.Allocation(b, n * s, t) as real, Flex.Times(a, m), y);
  }

  lemma Rearrange(a: real, b: real, c: real)
    ensures Flex.Times(Flex.Times(a, b), c) == Flex.Times(Flex.Times(a, c), b) == Flex.Times(a, Flex.Times(b, c))
  {
  }

  function Fillers(n: nat): seq<Tree> { seq(n, _ => Node(Colored, [])) }

  /** A row of fillers has no fixed extent: all the space is for the Expanded children. */
  lemma FillersLeaveAll(axis: Axis, c: Constraints, weights: seq<real>)
    requires c.min == Size(0, 0)
    ensures var ts := Fillers(|weights|);
            && WellFormed(Node(FlexBox(axis, weights), ts))
            && forall i | 0 <= i < |weights| :: ChildConstraints(Node(FlexBox(axis, weights), ts), c)[i]
                 == Flex.ChildConstraints(axis, c, weights, Main(axis, c.max), i)
  {
    hide Flex.ChildConstraints;
    var ts := Fillers(|weights|);
    var loose := LayoutEach(ts, Same(Flex.LooseConstraints(axis, c), |ts|));
    forall i | 0 <= i < |weights| ensures Main(axis, loose[i]) == 0 {
      FillerIsLoose(axis, c);
    }
    NoFixedMain(axis, weights, loose);
  }

  lemma FillerIsLoose(axis: Axis, c: Constraints)
    ensures WellFormed(Node(Colored, [])) && Main(axis, Layout(Node(Colored, []), Flex.LooseConstraints(axis, c))) == 0
  {
    var t := Node(Colored, []);
    var loose := Flex.LooseConstraints(axis, c);
    assert Layout(t, loose) == Combine(Colored, loose, LayoutEach(t.children, ChildConstraints(t, loose)));
  }

  lemma NoFixedMain(axis: Axis, weights: seq<real>, sizes: seq<Size>)
    requires |sizes| == |weights| && forall i | 0 <= i < |sizes| :: Main(axis, sizes[i]) == 0
    ensures Flex.FixedMain(axis, weights, sizes) == 0
  {
    if sizes != [] { NoFixedMain(axis, weights[..|sizes| - 1], sizes[..|sizes| - 1]); }
  }

  /** Disproportional weights show on a row of fillers. */
  lemma DisproportionShows(axis: Axis, w: seq<real>, v: seq<real>, n: nat)
    requires |w| == |v| && !Proportional(w, v)
    requires Representable(FlexBox(axis, w), n) && Representable(FlexBox(axis, v), n)
    ensures !SameLayouts(FlexBox(axis, w), FlexBox(axis, v))
  {
    Flex.TotalIsFloorSum(w);
    Flex.TotalIsFloorSum(v);
    hide Layout, ChildConstraints, WellFormed, Flex.ChildConstraints, Flex.Allocation, Flex.Times;
    var (s, t) := (Flex.TotalFlex(w), Flex.TotalFlex(v));
    var i :| 0 <= i < |w| && Flex.Times(w[i], t as real) != Flex.Times(v[i], s as real);
    if Flex.Times(w[i], t as real) > Flex.Times(v[i], s as real) {
      SharesDiffer(w[i], v[i], s, t, n);
      DifferenceShows(axis, w, v, n * s, i);
    } else {
      SharesDiffer(v[i], w[i], t, s, n);
      DifferenceShows(axis, w, v, n * t, i);
    }
  }

  /** Different allocations in a space `r` show on a row of fillers in that space. */
  lemma DifferenceShows(axis: Axis, w: seq<real>, v: seq<real>, r: nat, i: nat)
    requires i < |w| == |v| && r < UNBOUND
    requires Flex.Allocation(w[i], r, Flex.TotalFlex(w)) != Flex.Allocation(v[i], r, Flex.TotalFlex(v))
    ensures !SameLayouts(FlexBox(axis, w), FlexBox(axis, v))
  {
    hide Layout, ChildConstraints, WellFormed, Flex.ChildConstraints, Flex.Allocation, Flex.TotalFlex;
    var c := Constraints(Size(0, 0), Along(axis, r, 0));
    assert c.Good();
    var ts := Fillers(|w|);
    FillersLeaveAll(axis, c, w);
    FillersLeaveAll(axis, c, v);
    ShareShows(axis, c, w, v, r, i);
    assert Main(axis, c.max) == r && WellFormed(Node(FlexBox(axis, w), ts)) && ArityOk(FlexBox(axis, w), |ts|);
    assert ChildConstraints(Node(FlexBox(axis, w), ts), c)[i] != ChildConstraints(Node(FlexBox(axis, v), ts), c)[i];
  }

  /** A row of fillers, and the constraints of a space of `r` by nothing. */
  function Row(axis: Axis, weights: seq<real>): Tree { Node(FlexBox(axis, weights), Fillers(|weights|)) }

  function Space(axis: Axis, r: nat): Constraints { Constraints(Size(0, 0), Along(axis, r, 0)) }

  /** A filler takes its allocation, which is nothing for a child that is not Expanded. */
  lemma RowSize(axis: Axis, weights: seq<real>, r: nat, i: nat)
    requires i < |weights|
    ensures WellFormed(Row(axis, weights)) && Fields(Row(axis, weights), Space(axis, r)).FlexFields?
    ensures |Fields(Row(axis, weights), Space(axis, r)).childSizes| == |weights|
    ensures Main(axis, Fields(Row(axis, weights), Space(axis, r)).childSizes[i])
         == Flex.Allocation(weights[i], r, Flex.TotalFlex(weights))
  {
    var (t, c) := (Row(axis, weights), Space(axis, r));
    FillersLeaveAll(axis, c, weights);
    FillerSize(axis, Flex.ChildConstraints(axis, c, weights, r, i));
    NoShare(r, Flex.TotalFlex(weights));
    hide Layout, Flex.Allocation, Flex.TotalFlex;
    assert LayoutEach(t.children, ChildConstraints(t, c))[i] == Layout(Node(Colored, []), ChildConstraints(t, c)[i]);
  }

  lemma FillerSize(axis: Axis, c: Constraints)
    requires Main(axis, c.min) == Main(axis, c.max) || (Main(axis, c.min) == 0 && Main(axis, c.max) == UNBOUND)
    ensures WellFormed(Node(Colored, [])) && Main(axis, Layout(Node(Colored, []), c)) == Main(axis, c.min)
  {
    var t := Node(Colored, []);
    assert Layout(t, c) == Combine(Colored, c, LayoutEach(t.children, ChildConstraints(t, c)));
  }

  /** Weights 1 and 1, then 1 and 2, in a space of 6: the first child should shrink from 3 to 2. */
  lemma HalfToThird()
    ensures Flex.Allocation(1.0, 6, Flex.TotalFlex([1.0, 1.0])) == 3
    ensures Flex.Allocation(1.0, 6, Flex.TotalFlex([1.0, 2.0])) == 2
  {
    assert [1.0, 1.0][..1] == [1.0] && [1.0, 2.0][..1] == [1.0] && [1.0][..0] == [];
    assert Flex.TotalFlex([1.0, 1.0]) == 2 && Flex.TotalFlex([1.0, 2.0]) == 3;
  }

  lemma ShareShows(axis: Axis, c: Constraints, w: seq<real>, v: seq<real>, r: nat, i: nat)
    requires i < |w| == |v|
    requires Flex.Allocation(w[i], r, Flex.TotalFlex(w)) != Flex.Allocation(v[i], r, Flex.TotalFlex(v))
    ensures Flex.ChildConstraints(axis, c, w, r, i) != Flex.ChildConstraints(axis, c, v, r, i)
  {
    hide Flex.Allocation, Flex.TotalFlex;
    NoShare(r, Flex.TotalFlex(w));
    NoShare(r, Flex.TotalFlex(v));
  }

  lemma NoShare(remaining: int, total: int)
    ensures Flex.Allocation(0.0, remaining, total) == 0
  {
  }

  /**
   An update that marks nothing keeps the layout of every tree under all good constraints exactly when the two widgets are
   alike. The source breaks this for images of another size (Image.h:78-83) and for rows whose weights change out of
   proportion (Flex.h:46-60).
   */
  lemma UnmarkedIsSafeIff(w: Widget, v: Widget, count: nat, n: nat)
    requires SameKind(w, v) && !Marks(w, v, count, count) && Representable(w, n) && Representable(v, n)
    ensures SameLayouts(w, v) <==> AlikeWidgets(w, v)
  {
    if AlikeWidgets(w, v) {
      forall ts: seq<Tree>, c: Constraints | c.Good() && ArityOk(w, |ts|) && WellFormed(Node(w, ts))
        ensures WellFormed(Node(v, ts)) && Layout(Node(w, ts), c) == Layout(Node(v, ts), c)
        ensures ChildConstraints(Node(w, ts), c) == ChildConstraints(Node(v, ts), c)
      {
        forall i | 0 <= i < |ts| ensures AlikeTrees(ts[i], ts[i]) { AlikeReflexive(ts[i]); }
        AlikeLayout(Node(w, ts), Node(v, ts), c);
      }
    } else if w.FlexBox? {
      DisproportionShows(w.axis, w.weights, v.weights, n);
    } else {
      OtherSizeShows(w, v, Constraints(Size(0, 0), Size(UNBOUND - 1, UNBOUND - 1)));
    }
  }

  lemma OtherSizeShows(w: Widget, v: Widget, c: Constraints)
    requires SameKind(w, v) && (w.Image? || w.Text?) && w.size != v.size
    requires c.Good() && c.Contain(w.size) && c.Contain(v.size)
    ensures !SameLayouts(w, v)
  {
    var none: seq<Tree> := [];
    assert ArityOk(w, |none|) && WellFormed(Node(w, none));
    assert Layout(Node(w, none), c) == w.size && Layout(Node(v, none), c) == v.size;
  }

  // ----- Updates of whole trees

  /** The object of `t` can be updated to `u`; with `safe`, every size-changing difference is marked. */
  ghost predicate CanUpdate(t: Tree, u: Tree, safe: bool) {
    && SameKind(t.widget, u.widget)
    && (safe ==> Marks(t.widget, u.widget, |t.children|, |u.children|) || AlikeWidgets(t.widget, u.widget))
    && forall i | 0 <= i < |t.children| && i < |u.children| :: CanUpdate(t.children[i], u.children[i], safe)
  }

  /** Updating `t` to `u` marks some object, or makes a new one, which is marked. */
  ghost predicate MarksIn(t: Tree, u: Tree) {
    && SameKind(t.widget, u.widget)
    && (|| Marks(t.widget, u.widget, |t.children|, |u.children|) || |u.children| > |t.children|
        || exists i | 0 <= i < |t.children| && i < |u.children| :: MarksIn(t.children[i], u.children[i]))
  }

  /** The number of children changes only where it can: in a Stack or a WrapBox. */
  lemma OnlyListsResize(t: Tree, u: Tree)
    requires SameKind(t.widget, u.widget) && WellFormed(t) && WellFormed(u) && |t.children| != |u.children|
    ensures t.widget.Stack? || t.widget.WrapBox?
  {
  }

  /** `path` leads to an object of the tree. */
  predicate HasNode(t: Tree, path: seq<nat>) {
    path != [] ==> path[0] < |t.children| && HasNode(t.children[path[0]], path[1..])
  }

  function NodeAt(t: Tree, path: seq<nat>): Tree
    requires HasNode(t, path)
  {
    if path == [] then t else NodeAt(t.children[path[0]], path[1..])
  }

  function ReplaceAt(t: Tree, path: seq<nat>, u: Tree): Tree
    requires HasNode(t, path)
  {
    if path == [] then u
    else t.(children := t.children[path[0] := ReplaceAt(t.children[path[0]], path[1..], u)])
  }

  lemma {:induction false} ReplaceKeepsWellFormed(t: Tree, path: seq<nat>, u: Tree)
    requires HasNode(t, path) && WellFormed(t) && WellFormed(u)
    ensures WellFormed(ReplaceAt(t, path, u))
  {
    if path != [] { ReplaceKeepsWellFormed(t.children[path[0]], path[1..], u); }
  }

  lemma AlikeExceptAt(t: Tree, u: Tree, k: nat)
    requires k < |t.children| && u.widget == t.widget && |u.children| == |t.children|
    requires forall i | 0 <= i < |t.children| && i != k :: u.children[i] == t.children[i]
    ensures AlikeTrees(t.children[k], u.children[k]) ==> AlikeTrees(t, u)
  {
    forall i | 0 <= i < |t.children| ensures AlikeTrees(t.children[i], t.children[i]) { AlikeReflexive(t.children[i]); }
  }

  // ----- Frames

  /** A rebuild below the object at the end of `path` gives it the new widget tree. */
  datatype Change = Change(path: seq<nat>, tree: Tree)

  datatype Frame = Frame(changes: seq<Change>, constraints: Constraints)

  /** A change that the C++ types allow and, with `safe`, whose size-changing differences are marked. */
  ghost predicate Legal(t: Tree, change: Change, safe: bool) {
    HasNode(t, change.path) && WellFormed(change.tree) && CanUpdate(NodeAt(t, change.path), change.tree, safe)
  }

  ghost predicate AllLegal(t: Tree, changes: seq<Change>)
    decreases |changes|
  {
    changes != [] ==>
      && Legal(t, changes[0], true)
      && AllLegal(ReplaceAt(t, changes[0].path, changes[0].tree), changes[1..])
  }

  ghost function Changed(t: Tree, changes: seq<Change>): Tree
    requires AllLegal(t, changes)
    decreases |changes|
  {
    if changes == [] then t else Changed(ReplaceAt(t, changes[0].path, changes[0].tree), changes[1..])
  }

  lemma {:induction false} ChangedIsWellFormed(t: Tree, changes: seq<Change>)
    requires AllLegal(t, changes) && WellFormed(t)
    ensures WellFormed(Changed(t, changes))
    decreases |changes|
  {
    if changes != [] {
      ReplaceKeepsWellFormed(t, changes[0].path, changes[0].tree);
      ChangedIsWellFormed(ReplaceAt(t, changes[0].path, changes[0].tree), changes[1..]);
    }
  }

  ghost predicate LegalRun(t: Tree, frames: seq<Frame>)
    decreases |frames|
  {
    frames != [] ==> AllLegal(t, frames[0].changes) && LegalRun(Changed(t, frames[0].changes), frames[1..])
  }

  ghost function TreeAfter(t: Tree, frames: seq<Frame>): Tree
    requires LegalRun(t, frames)
    decreases |frames|
  {
    if frames == [] then t else TreeAfter(Changed(t, frames[0].changes), frames[1..])
  }

  /** The sizes of layouts from scratch in every frame. */
  ghost function SizesFromScratch(t: Tree, frames: seq<Frame>): seq<Size>
    requires WellFormed(t) && LegalRun(t, frames)
    decreases |frames|
  {
    if frames == [] then []
    else
      ChangedIsWellFormed(t, frames[0].changes);
      var now := Changed(t, frames[0].changes);
      [Layout(now, frames[0].constraints)] + SizesFromScratch(now, frames[1..])
  }
}
