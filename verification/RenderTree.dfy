/** The layout cache over a tree of render objects (libs/rMlib/include/UI/RenderObject.h). */
module RenderTree {
  import opened Geometry
  import opened Constraints
  import opened Widgets
  import opened Updates
  import opened LayoutSoundness
  import opened WidgetMargins
  import Flex
  import Wrap

  /** CachedBool (Util.h:141-158). */
  datatype CachedBool = Unset | Known(value: bool)

  class RenderObject {
    var widget: Widget
    var children: seq<RenderObject>
    var lastSize: Size
    var lastConstraints: Constraints
    var fields: DrawFields
    var rect: Rect
    var needsLayoutCache: CachedBool
    var mNeedsLayout: bool
    ghost var Repr: set<RenderObject>  // this object and everything below it

    ghost predicate Valid()
      reads this`Repr, this`children, this`widget, Repr`Repr, Repr`children, Repr`widget
      decreases Repr
    {
      && this in Repr && ArityOk(widget, |children|)
      && (forall i | 0 <= i < |children| ::
            && children[i] in Repr && children[i].Repr <= Repr && this !in children[i].Repr
            && children[i].Valid())
      && (forall i, j | 0 <= i < j < |children| :: children[i].Repr !! children[j].Repr)
    }

    /** The widget tree that this object renders. */
    ghost function Shape(): (t: Tree)
      requires Valid()
      reads this`Repr, this`children, this`widget, Repr`Repr, Repr`children, Repr`widget
      ensures WellFormed(t) && |t.children| == |children| && t.widget == widget
      decreases Repr, 1
    {
      Node(widget, Shapes(|children|))
    }

    ghost function Shapes(n: nat): (ts: seq<Tree>)
      requires Valid() && n <= |children|
      reads this`Repr, this`children, this`widget, Repr`Repr, Repr`children, Repr`widget
      ensures |ts| == n && (forall t | t in ts :: WellFormed(t))
      decreases Repr, 0, n
    {
      if n == 0 then [] else Shapes(n - 1) + [children[n - 1].Shape()]
    }

    lemma ShapesAre(n: nat)
      requires Valid() && n <= |children|
      ensures forall i | 0 <= i < n :: Shapes(n)[i] == children[i].Shape()
    {
    }

    /** Some object of the subtree is marked as needing layout. */
    ghost predicate Marked()
      requires Valid()
      reads this`Repr, this`children, this`widget, Repr`Repr, Repr`children, Repr`widget
      reads this`mNeedsLayout, Repr`mNeedsLayout
      decreases Repr
    {
      mNeedsLayout || exists i | 0 <= i < |children| :: children[i].Marked()
    }

    /** This object and its children remember what layout of `t` from scratch gives, and getSize of a child is what draw needs. */
    ghost predicate Recalls(t: Tree)
      requires Valid() && WellFormed(t) && |t.children| == |children|
      reads this`Repr, this`children, this`widget, Repr`Repr, Repr`children, Repr`widget
      reads this`lastSize, this`lastConstraints, this`fields, Repr`lastConstraints
    {
      && lastSize == Widgets.Layout(t, lastConstraints) && fields == Fields(t, lastConstraints)
      && forall i | 0 <= i < |children| ::
           children[i].lastConstraints == Widgets.ChildConstraints(t, lastConstraints)[i]
    }

    /** Every object of the subtree that has no mark at or below it remembers a correct layout. */
    ghost predicate Consistent()
      requires Valid()
      reads this`Repr, this`children, this`widget, Repr`Repr, Repr`children, Repr`widget
      reads this`mNeedsLayout, Repr`mNeedsLayout
      reads this`lastSize, this`lastConstraints, this`fields, Repr`lastSize, Repr`lastConstraints, Repr`fields
      decreases Repr
    {
      && (!Marked() ==> Recalls(Shape()))
      && forall i | 0 <= i < |children| :: children[i].Consistent()
    }

    /** Cached answers in the subtree are up to date. */
    ghost predicate Fresh()
      requires Valid()
      reads this`Repr, this`children, this`widget, Repr`Repr, Repr`children, Repr`widget
      reads this`mNeedsLayout, Repr`mNeedsLayout
      reads this`needsLayoutCache, Repr`needsLayoutCache
      decreases Repr
    {
      && (needsLayoutCache.Known? ==> needsLayoutCache.value == Marked())
      && forall i | 0 <= i < |children| :: children[i].Fresh()
    }

    // ----- Marks and cached answers

    method NeedsLayout() returns (r: bool)
      requires Valid() && Fresh()
      modifies this`needsLayoutCache, Repr`needsLayoutCache
      ensures r == Marked() && Fresh()
      decreases Repr, 1
    {
      if needsLayoutCache.Known? { return needsLayoutCache.value; }
      r := GetNeedsLayout();
      needsLayoutCache := Known(r);
    }

    /** Asks the children only as long as the answer is open. */
    method GetNeedsLayout() returns (r: bool)
      requires Valid() && forall i | 0 <= i < |children| :: children[i].Fresh()
      modifies (Repr - {this})`needsLayoutCache
      ensures r == Marked() && forall i | 0 <= i < |children| :: children[i].Fresh()
      decreases Repr, 0
    {
      hide Fresh, Shape;
      r := mNeedsLayout;
      var i := 0;
      while !r && i < |children|
        invariant i <= |children| && forall k | 0 <= k < |children| :: children[k].Fresh()
        invariant r ==> Marked()
        invariant !r ==> !mNeedsLayout && forall k | 0 <= k < i :: !children[k].Marked()
      {
        r := children[i].NeedsLayout();
        i := i + 1;
      }
    }

    /** Every object of the subtree is marked. */
    ghost predicate AllMarked()
      requires Valid()
      reads this`Repr, this`children, this`widget, Repr`Repr, Repr`children, Repr`widget
      reads this`mNeedsLayout, Repr`mNeedsLayout
      decreases Repr
    {
      mNeedsLayout && forall i | 0 <= i < |children| :: children[i].AllMarked()
    }

    /** Marks leave nothing to remember. */
    lemma {:induction false} AllMarkedIsConsistent()
      requires Valid() && AllMarked()
      ensures Marked() && Consistent()
      decreases Repr
    {
      forall i | 0 <= i < |children| ensures children[i].Marked() && children[i].Consistent() {
        children[i].AllMarkedIsConsistent();
      }
    }

    /** markNeedsLayout: marks the whole subtree. */
    method MarkNeedsLayout()
      requires Valid()
      modifies this`mNeedsLayout, Repr`mNeedsLayout
      ensures AllMarked() && mNeedsLayout
      decreases Repr
    {
      mNeedsLayout := true;
      var i := 0;
      while i < |children|
        invariant i <= |children| && mNeedsLayout
        invariant forall k | 0 <= k < i :: children[k].AllMarked()
      {
        children[i].MarkNeedsLayout();
        i := i + 1;
      }
    }

    /** No cached answers in the subtree. */
    ghost predicate Forgotten()
      requires Valid()
      reads this`Repr, this`children, this`widget, Repr`Repr, Repr`children, Repr`widget
      reads this`needsLayoutCache, Repr`needsLayoutCache
      decreases Repr
    {
      needsLayoutCache.Unset? && forall i | 0 <= i < |children| :: children[i].Forgotten()
    }

    /** reset: forgets the cached answers of the whole subtree. */
    method Reset()
      requires Valid()
      modifies this`needsLayoutCache, Repr`needsLayoutCache
      ensures Forgotten()
      decreases Repr
    {
      needsLayoutCache := Unset;
      var i := 0;
      while i < |children|
        invariant i <= |children| && needsLayoutCache == Unset
        invariant forall k | 0 <= k < i :: children[k].Forgotten()
      {
        children[i].Reset();
        i := i + 1;
      }
    }

    // ----- Layout

    /** Not laid out yet in this pass. */
    ghost predicate Pending()
      requires Valid()
      reads this`Repr, this`children, this`widget, Repr`Repr, Repr`children, Repr`widget
      reads this`mNeedsLayout, Repr`mNeedsLayout
      reads this`needsLayoutCache, Repr`needsLayoutCache
      reads this`lastSize, this`lastConstraints, this`fields, Repr`lastSize, Repr`lastConstraints, Repr`fields
    {
      Fresh() && Consistent()
    }

    /** Laid out under `c`. */
    ghost predicate Settled(c: Constraints)
      requires Valid()
      reads this`Repr, this`children, this`widget, Repr`Repr, Repr`children, Repr`widget
      reads this`mNeedsLayout, Repr`mNeedsLayout
      reads this`lastSize, this`lastConstraints, this`fields, Repr`lastSize, Repr`lastConstraints, Repr`fields
    {
      Consistent() && !Marked() && lastConstraints == c
    }

    ghost predicate Status(c: Constraints, done: bool)
      requires Valid()
      reads this`Repr, this`children, this`widget, Repr`Repr, Repr`children, Repr`widget
      reads this`mNeedsLayout, Repr`mNeedsLayout
      reads this`needsLayoutCache, Repr`needsLayoutCache
      reads this`lastSize, this`lastConstraints, this`fields, Repr`lastSize, Repr`lastConstraints, Repr`fields
    {
      if done then Settled(c) else Pending()
    }

    /** The children that are `done` are laid out, the others are pending. */
    ghost predicate Progress(cs: seq<Constraints>, done: seq<bool>)
      requires Valid() && |cs| == |done| == |children|
      reads this`Repr, this`children, this`widget, Repr`Repr, Repr`children, Repr`widget
      reads Repr`mNeedsLayout
      reads Repr`needsLayoutCache
      reads Repr`lastSize, Repr`lastConstraints, Repr`fields
    {
      forall i | 0 <= i < |children| :: children[i].Status(cs[i], done[i])
    }

    /** layout: answers from memory if nothing below is marked and the constraints are those of the last time. */
    method Layout(c: Constraints) returns (size: Size)
      requires Valid() && Fresh() && (Consistent() || (!Marked() && c == lastConstraints))
      modifies this`needsLayoutCache, this`mNeedsLayout, this`lastSize, this`lastConstraints, this`fields
      modifies Repr`needsLayoutCache, Repr`mNeedsLayout, Repr`lastSize, Repr`lastConstraints, Repr`fields
      ensures old(Consistent()) ==> size == lastSize == Widgets.Layout(Shape(), c) && Settled(c)
      // whether or not the memory is right
      ensures !old(Marked()) && c == old(lastConstraints) ==> size == old(lastSize) && fields == old(fields)
      decreases Repr, 4
    {
      hide Widgets.Layout, Widgets.ChildConstraints, Consistent, Marked, Fresh, Settled, Shape;
      var stale := NeedsLayout();
      if stale || c != lastConstraints {
        ChildrenPending();
        size := LayoutAnew(c);
      } else {
        if Consistent() { ChildrenPending(); }
        size := lastSize;
      }
    }

    /** Its first branch. */
    method LayoutAnew(c: Constraints) returns (size: Size)
      requires Valid() && forall i | 0 <= i < |children| :: children[i].Pending()
      modifies this`mNeedsLayout, this`lastSize, this`lastConstraints, this`fields
      modifies (Repr - {this})`needsLayoutCache, (Repr - {this})`mNeedsLayout
      modifies (Repr - {this})`lastSize, (Repr - {this})`lastConstraints, (Repr - {this})`fields
      ensures size == lastSize == Widgets.Layout(Shape(), c) && Settled(c)
      decreases Repr, 3
    {
      hide Widgets.Layout, Widgets.ChildConstraints, Fields, Consistent, Marked, Fresh, Pending, Settled, Shape;
      lastConstraints := c;
      size := DoLayout(c);
      mNeedsLayout := false;
      lastSize := size;
      LaidOut();
    }

    /** Laying out the children and removing the mark makes the memory of the object right. */
    lemma LaidOut()
      requires Valid() && !mNeedsLayout
      requires lastSize == Widgets.Layout(Shape(), lastConstraints) && fields == Fields(Shape(), lastConstraints)
      requires forall i | 0 <= i < |children| :: children[i].Settled(Widgets.ChildConstraints(Shape(), lastConstraints)[i])
      ensures Settled(lastConstraints)
    {
    }

    lemma ChildrenPending()
      requires Valid() && Pending()
      ensures !Marked() ==> Settled(lastConstraints) && lastSize == Widgets.Layout(Shape(), lastConstraints)
      ensures forall i | 0 <= i < |children| :: children[i].Pending()
    {
    }

    /** What doDraw reads, the object's own fields and getSize of its children, is then as after a layout from scratch. */
    lemma SizesForDraw(c: Constraints)
      requires Valid() && Settled(c)
      ensures fields == Fields(Shape(), c)
      ensures forall k | 0 <= k < |children| ::
                && children[k].lastSize == LayoutEach(Shape().children, Widgets.ChildConstraints(Shape(), c))[k]
                && children[k].Settled(Widgets.ChildConstraints(Shape(), c)[k])
    {
      ShapesAre(|children|);
      var cs := Widgets.ChildConstraints(Shape(), c);
      hide Widgets.ChildConstraints, Widgets.Layout;
      forall k | 0 <= k < |children|
        ensures children[k].lastSize == LayoutEach(Shape().children, cs)[k] && children[k].Settled(cs[k])
      {
        children[k].MemoryIsRight();
      }
    }

    lemma MemoryIsRight()
      requires Valid() && Consistent() && !Marked()
      ensures lastSize == Widgets.Layout(Shape(), lastConstraints)
    {
    }

    /** Lays out the chosen children, in order. */
    method LayoutChosen(cs: seq<Constraints>, chosen: seq<bool>, ghost done: seq<bool>, sizes: seq<Size>)
      returns (r: seq<Size>)
      requires Valid() && |cs| == |chosen| == |done| == |sizes| == |children|
      requires Progress(cs, done) && forall i | 0 <= i < |children| :: !(done[i] && chosen[i])
      modifies (Repr - {this})`needsLayoutCache, (Repr - {this})`mNeedsLayout
      modifies (Repr - {this})`lastSize, (Repr - {this})`lastConstraints, (Repr - {this})`fields
      ensures Progress(cs, seq(|done|, i requires 0 <= i < |done| == |chosen| => done[i] || chosen[i]))
      ensures |r| == |sizes|
      ensures forall i | 0 <= i < |r| :: r[i] == if chosen[i] then Widgets.Layout(children[i].Shape(), cs[i]) else sizes[i]
      decreases Repr, 1
    {
      hide Widgets.Layout, Widgets.ChildConstraints, Consistent, Marked, Fresh, Pending, Settled, Status, Shape;
      r := sizes;
      var i := 0;
      while i < |children|
        invariant i <= |children| && |r| == |sizes|
        invariant forall k | 0 <= k < |children| :: children[k].Status(cs[k], done[k] || (k < i && chosen[k]))
        invariant forall k | 0 <= k < |children| ::
                    r[k] == if k < i && chosen[k] then Widgets.Layout(children[k].Shape(), cs[k]) else sizes[k]
      {
        if chosen[i] {
          var size := LayoutChild(i, cs[i]);
          r := r[i := size];
        }
        i := i + 1;
      }
    }

    method LayoutChild(i: nat, c: Constraints) returns (size: Size)
      requires Valid() && i < |children| && children[i].Status(c, false)
      modifies children[i].Repr`needsLayoutCache, children[i].Repr`mNeedsLayout
      modifies children[i].Repr`lastSize, children[i].Repr`lastConstraints, children[i].Repr`fields
      ensures size == Widgets.Layout(children[i].Shape(), c) && children[i].Status(c, true)
      decreases Repr, 0
    {
      hide Widgets.Layout, Consistent, Marked, Fresh, Settled, Shape;
      size := children[i].Layout(c);
    }

    /** doLayout: Combine stands for the arithmetic of the widgets, which follows the layout of the children. */
    method DoLayout(c: Constraints) returns (size: Size)
      requires Valid() && forall i | 0 <= i < |children| :: children[i].Pending()
      modifies this`fields, (Repr - {this})`needsLayoutCache, (Repr - {this})`mNeedsLayout
      modifies (Repr - {this})`lastSize, (Repr - {this})`lastConstraints, (Repr - {this})`fields
      ensures size == Widgets.Layout(Shape(), c) && fields == Fields(Shape(), c)
      ensures forall i | 0 <= i < |children| :: children[i].Settled(Widgets.ChildConstraints(Shape(), c)[i])
      decreases Repr, 2, 2
    {
      hide Consistent, Marked, Fresh, Pending, Settled, Combine, FieldsOf, WellFormed, LayoutEach;
      var sizes := LayoutChildren(c);
      size := Combine(widget, c, sizes);
      fields := FieldsOf(widget, c, sizes);
    }

    method LayoutChildren(c: Constraints) returns (sizes: seq<Size>)
      requires Valid() && forall i | 0 <= i < |children| :: children[i].Pending()
      modifies (Repr - {this})`needsLayoutCache, (Repr - {this})`mNeedsLayout
      modifies (Repr - {this})`lastSize, (Repr - {this})`lastConstraints, (Repr - {this})`fields
      ensures sizes == LayoutEach(Shape().children, Widgets.ChildConstraints(Shape(), c))
      ensures forall i | 0 <= i < |children| :: children[i].Settled(Widgets.ChildConstraints(Shape(), c)[i])
      decreases Repr, 2, 1
    {
      hide Consistent, Marked, Fresh, Pending, Settled, Combine, WellFormed;
      var none, zeros := seq(|children|, _ => false), seq(|children|, _ => Size(0, 0));
      ghost var cs := Widgets.ChildConstraints(Shape(), c);
      if widget.FlexBox? {
        sizes := LayoutFlex(c);
      } else {
        var all := seq(|children|, _ => true);
        sizes := LayoutChosen(Same(InnerConstraints(widget, c), |children|), all, none, zeros);
        assert Same(InnerConstraints(widget, c), |children|) == cs;
      }
      ShapesAre(|children|);
      assert sizes == LayoutEach(Shape().children, cs);
    }

    /** layoutNonFlex, then layoutFlex. */
    method LayoutFlex(c: Constraints) returns (sizes: seq<Size>)
      requires Valid() && widget.FlexBox? && forall i | 0 <= i < |children| :: children[i].Pending()
      modifies (Repr - {this})`needsLayoutCache, (Repr - {this})`mNeedsLayout
      modifies (Repr - {this})`lastSize, (Repr - {this})`lastConstraints, (Repr - {this})`fields
      ensures |sizes| == |children|
      ensures forall i | 0 <= i < |children| ::
                var inner := Widgets.ChildConstraints(Shape(), c)[i];
                sizes[i] == Widgets.Layout(children[i].Shape(), inner) && children[i].Settled(inner)
      decreases Repr, 2, 0
    {
      hide Consistent, Marked, Fresh, Pending, Settled, Widgets.Layout, Widgets.ChildConstraints, Shape, WellFormed;
      var (axis, weights) := (widget.axis, widget.weights);
      var none, zeros := seq(|children|, _ => false), seq(|children|, _ => Size(0, 0));
      var fixed := seq(|weights|, i requires 0 <= i < |weights| => weights[i] == 0.0);
      var expanded := seq(|weights|, i requires 0 <= i < |weights| => weights[i] != 0.0);
      var loose := Flex.LooseConstraints(axis, c);
      sizes := LayoutChosen(Same(loose, |children|), fixed, none, zeros);
      var remaining := Flex.Remaining(axis, c, weights, sizes);
      var cs := seq(|weights|, i requires 0 <= i < |weights| =>
                      Flex.ChildConstraints(axis, c, weights, remaining, i));
      FlexConstraints(c, sizes, cs);
      sizes := LayoutChosen(cs, expanded, fixed, sizes);
    }

    lemma FlexConstraints(c: Constraints, sizes: seq<Size>, cs: seq<Constraints>)
      requires Valid() && widget.FlexBox? && |sizes| == |cs| == |children|
      requires forall i | 0 <= i < |children| && widget.weights[i] == 0.0 ::
                 sizes[i] == Widgets.Layout(children[i].Shape(), Flex.LooseConstraints(widget.axis, c))
      requires forall i | 0 <= i < |children| ::
                 cs[i] == Flex.ChildConstraints(widget.axis, c, widget.weights,
                                                Flex.Remaining(widget.axis, c, widget.weights, sizes), i)
      ensures cs == Widgets.ChildConstraints(Shape(), c)
    {
      ShapesAre(|children|);
      var (axis, weights) := (widget.axis, widget.weights);
      var loose := LayoutEach(Shape().children, Same(Flex.LooseConstraints(axis, c), |children|));
      Flex.FlexRenderObject.FixedOnly(axis, weights, loose, sizes);
      assert Flex.Remaining(axis, c, weights, loose) == Flex.Remaining(axis, c, weights, sizes);
    }

    // ----- Draw

    /** The object and all below are drawn where a layout from scratch under `c` puts them. */
    ghost predicate Placed(c: Constraints, place: Rect)
      requires Valid()
      reads this`Repr, this`children, this`widget, Repr`Repr, Repr`children, Repr`widget
      reads this`rect, Repr`rect
      decreases Repr
    {
      var (cs, sizes) := (Widgets.ChildConstraints(Shape(), c), Sizes(c));
      && rect == place
      && forall k | 0 <= k < |children| :: children[k].Placed(cs[k], ChildRect(widget, c, sizes, place, k))
    }

    /** The sizes of the children in a layout from scratch. */
    ghost function Sizes(c: Constraints): (sizes: seq<Size>)
      requires Valid()
      reads this`Repr, this`children, this`widget, Repr`Repr, Repr`children, Repr`widget
      ensures |sizes| == |children|
    {
      LayoutEach(Shape().children, Widgets.ChildConstraints(Shape(), c))
    }

    /** doDraw: places the children by what the object and its children remember. */
    method ChildRects(ghost c: Constraints, place: Rect) returns (rects: seq<Rect>)
      requires Valid() && Drawable(c, place)
      ensures |rects| == |children|
      ensures forall k | 0 <= k < |children| :: rects[k] == ChildRect(widget, c, Sizes(c), place, k)
    {
      BeforeDraw(c, place);
      hide Consistent, Marked, Settled, Shape, FitsScreen, Fits, LayoutEach, ChildRect, Sizes, FieldsOf;
      var sizes := GetSizes();
      assert sizes == Sizes(c);
      rects := PlaceChildren(widget, fields, c, sizes, place);
    }

    lemma BeforeDraw(c: Constraints, place: Rect)
      requires Valid() && Drawable(c, place)
      ensures ArityOk(widget, |children|) && fields == FieldsOf(widget, c, Sizes(c))
      ensures forall k | 0 <= k < |children| :: children[k].lastSize == Sizes(c)[k]
      ensures widget.WrapBox? ==> Wrap.Drawable(widget.axis, c, Sizes(c), place)
    {
      MemoryIsRight();
      SizesForDraw(c);
      DrawNode(Shape(), c, place);
    }

    /** By kind of widget; the sizes are what getSize of the children returns. */
    static method PlaceChildren(w: Widget, fields: DrawFields, ghost c: Constraints, sizes: seq<Size>, place: Rect)
      returns (rects: seq<Rect>)
      requires ArityOk(w, |sizes|) && fields == FieldsOf(w, c, sizes)
      requires w.WrapBox? ==> Wrap.Drawable(w.axis, c, sizes, place)
      ensures |rects| == |sizes| && forall k | 0 <= k < |sizes| :: rects[k] == ChildRect(w, c, sizes, place, k)
    {
      FieldsByKind(w, c, sizes);
      hide ChildRect, FieldsOf, Wrap.Final, Wrap.TotalSize, Wrap.Drawable, Flex.MainSum;
      if w.FlexBox? {
        rects := Flex.FlexRenderObject.DrawInOrder(w.axis, fields.childSizes, fields.totalMain, place);
        FlexRects(w.axis, w.weights, c, sizes, place);
      } else if w.WrapBox? {
        rects := Wrap.WrapRenderObject.DrawRuns(w.axis, fields.runSizes, fields.totalSize, place, c, sizes);
        WrapRects(w.axis, c, sizes, place);
      } else {
        var drawn := if fields.ChildField? then [fields.childSize] else sizes;
        rects := seq(|drawn|, k requires 0 <= k < |drawn| && ArityOk(w, |drawn|) =>
                       ChildRect(w, Constraints(place.Extents(), place.Extents()), drawn, place, k));
        AnyConstraints(w, c, sizes, place);
      }
    }

    static lemma FieldsByKind(w: Widget, c: Constraints, sizes: seq<Size>)
      requires ArityOk(w, |sizes|)
      ensures w.FlexBox? ==> FieldsOf(w, c, sizes) == FlexFields(sizes, Flex.MainSum(w.axis, sizes))
      ensures w.WrapBox? ==>
                var main := Main(w.axis, c.max);
                FieldsOf(w, c, sizes) == WrapFields(Wrap.Final(w.axis, main, sizes).runSizes,
                                                    Wrap.TotalSize(w.axis, main, sizes))
      ensures !w.FlexBox? && !w.WrapBox? && FieldsOf(w, c, sizes).ChildField? ==>
                sizes == [FieldsOf(w, c, sizes).childSize]
      ensures FieldsOf(w, c, sizes).ChildField? <==> w.Center? || w.Corner?
    {
      hide Wrap.Final, Wrap.TotalSize, Flex.MainSum;
    }

    /** Only a wrap looks at the constraints in draw. */
    static lemma AnyConstraints(w: Widget, c: Constraints, sizes: seq<Size>, place: Rect)
      requires ArityOk(w, |sizes|) && !w.WrapBox?
      ensures forall k, d: Constraints | 0 <= k < |sizes| ::
                ChildRect(w, d, sizes, place, k) == ChildRect(w, c, sizes, place, k)
    {
    }

    static lemma FlexRects(axis: Axis, weights: seq<real>, c: Constraints, sizes: seq<Size>, place: Rect)
      requires |weights| == |sizes|
      ensures forall k | 0 <= k < |sizes| ::
                ChildRect(FlexBox(axis, weights), c, sizes, place, k) == Flex.ChildRect(axis, sizes, place, k)
    {
    }

    static lemma WrapRects(axis: Axis, c: Constraints, sizes: seq<Size>, place: Rect)
      ensures forall k | 0 <= k < |sizes| ::
                ChildRect(WrapBox(axis), c, sizes, place, k) == Wrap.ChildRect(axis, Main(axis, c.max), sizes, place, k)
    {
    }

    /** getSize of all children. */
    method GetSizes() returns (sizes: seq<Size>)
      ensures |sizes| == |children| && forall k | 0 <= k < |children| :: sizes[k] == children[k].lastSize
    {
      sizes := [];
      while |sizes| < |children|
        invariant |sizes| <= |children| && forall k | 0 <= k < |sizes| :: sizes[k] == children[k].lastSize
      {
        sizes := sizes + [children[|sizes|].lastSize];
      }
    }

    /** Laid out under `c`, with everything below, in a tree that fits, and to be drawn in a rectangle of its size. */
    ghost predicate Drawable(c: Constraints, place: Rect)
      requires Valid()
      reads this`Repr, this`children, this`widget, Repr`Repr, Repr`children, Repr`widget
      reads this`mNeedsLayout, Repr`mNeedsLayout
      reads this`lastSize, this`lastConstraints, this`fields, Repr`lastSize, Repr`lastConstraints, Repr`fields
    {
      Settled(c) && FitsScreen(Shape(), c) && place.Extents() == lastSize
    }

    /** Where the first `n` children are drawn. */
    ghost function Rects(n: nat): (rects: seq<Rect>)
      requires Valid() && n <= |children|
      reads this`Repr, this`children, this`widget, Repr`Repr, Repr`children, Repr`widget, Repr`rect
      ensures |rects| == n && forall k | 0 <= k < n :: rects[k] == children[k].rect
    {
      if n == 0 then [] else Rects(n - 1) + [children[n - 1].rect]
    }

    /** The object and all below are drawn with the sizes they remember, and with the margins and gaps of their widgets. */
    ghost predicate InPlace()
      requires Valid()
      reads this`Repr, this`children, this`widget, Repr`Repr, Repr`children, Repr`widget
      reads this`rect, Repr`rect, this`lastSize, Repr`lastSize
      decreases Repr
    {
      && rect.Extents() == lastSize && Arranged(widget, rect, Rects(|children|))
      && forall k | 0 <= k < |children| :: children[k].InPlace()
    }

    /** What being placed as by a layout from scratch means in margins. */
    lemma {:induction false} PlacedInPlace(c: Constraints, place: Rect)
      requires Valid() && Drawable(c, place) && Placed(c, place)
      ensures InPlace()
      decreases Repr
    {
      hide Arranged, FitsScreen, ChildRect, Settled, Shape, Widgets.Layout, WellFormed, Widgets.ChildConstraints, Sizes;
      ChildrenFit(c, place);
      PlacedChildren(c, place);
      forall k | 0 <= k < |children| ensures children[k].InPlace() {
        children[k].PlacedInPlace(Widgets.ChildConstraints(Shape(), c)[k], ChildRect(widget, c, Sizes(c), place, k));
      }
    }

    lemma PlacedChildren(c: Constraints, place: Rect)
      requires Valid() && Drawable(c, place) && Placed(c, place)
      ensures Arranged(widget, rect, Rects(|children|))
    {
      MemoryIsRight();
      hide Arranged, FitsScreen, ChildRect, Consistent, Marked;
      assert forall k | 0 <= k < |children| :: children[k].rect == ChildRect(widget, c, Sizes(c), place, k);
      NodeArranged(Shape(), c, rect, Rects(|children|));
    }

    /** draw of an object that is marked for drawing, as are all below it. */
    method Draw(ghost c: Constraints, place: Rect)
      requires Valid() && Drawable(c, place)
      modifies this`rect, Repr`rect
      ensures Placed(c, place) && InPlace()
      decreases Repr, 1
    {
      hide Drawable, Consistent, Marked, Settled, Shape, Sizes, Placed, FitsScreen, LayoutEach, ChildRect, WellFormed;
      hide InPlace;
      hide Widgets.ChildConstraints;
      ChildrenFit(c, place);
      rect := place;
      var rects := ChildRects(c, place);
      DrawEach(Widgets.ChildConstraints(Shape(), c), rects);
      AllPlaced(c, place, rects);
      PlacedInPlace(c, place);
    }

    method DrawEach(ghost cs: seq<Constraints>, rects: seq<Rect>)
      requires Valid() && |cs| == |rects| == |children|
      requires forall k | 0 <= k < |children| :: children[k].Drawable(cs[k], rects[k])
      modifies (Repr - {this})`rect
      ensures forall k | 0 <= k < |children| :: children[k].Placed(cs[k], rects[k])
      decreases Repr, 0
    {
      hide Drawable, Placed, InPlace, Shape, Settled, FitsScreen;
      var k := 0;
      while k < |children|
        invariant k <= |children|
        invariant forall i | 0 <= i < k :: children[i].Placed(cs[i], rects[i])
      {
        children[k].Draw(cs[k], rects[k]);
        k := k + 1;
      }
    }

    lemma AllPlaced(c: Constraints, place: Rect, rects: seq<Rect>)
      requires Valid() && rect == place && |rects| == |children|
      requires forall k | 0 <= k < |children| ::
                 && rects[k] == ChildRect(widget, c, Sizes(c), place, k)
                 && children[k].Placed(Widgets.ChildConstraints(Shape(), c)[k], rects[k])
      ensures Placed(c, place)
    {
    }

    lemma ChildrenFit(c: Constraints, place: Rect)
      requires Valid() && Drawable(c, place)
      ensures |Widgets.ChildConstraints(Shape(), c)| == |children|
      ensures forall k | 0 <= k < |children| ::
                children[k].Drawable(Widgets.ChildConstraints(Shape(), c)[k], ChildRect(widget, c, Sizes(c), place, k))
    {
      MemoryIsRight();
      SizesForDraw(c);
      DrawNode(Shape(), c, place);
      ShapesAre(|children|);
      hide FitsScreen, ChildRect, Widgets.ChildConstraints, Widgets.Layout, Settled;
    }

    // ----- Updates

    lemma {:induction false} ForgottenIsFresh()
      requires Valid() && Forgotten()
      ensures Fresh()
      decreases Repr
    {
      forall i | 0 <= i < |children| ensures children[i].Fresh() { children[i].ForgottenIsFresh(); }
    }

    /** Between two frames: renders `t`, with cached answers forgotten; `marked` tells the mark, `right` that the memory is right. */
    ghost predicate Shows(t: Tree, marked: bool, right: bool)
      reads this`Repr, this`children, this`widget, Repr`Repr, Repr`children, Repr`widget
      reads this`mNeedsLayout, Repr`mNeedsLayout
      reads this`needsLayoutCache, Repr`needsLayoutCache
      reads this`lastSize, this`lastConstraints, this`fields, Repr`lastSize, Repr`lastConstraints, Repr`fields
    {
      Valid() && Shape() == t && Forgotten() && Marked() == marked && (right ==> Consistent())
    }

    /**
     After an update from `t` to `u`: only an unmarked object still relies on its memory, and then `u` is like `t`; and
     no mark is there without a reason.
     */
    ghost predicate Updated(t: Tree, marked: bool, right: bool, u: Tree)
      reads this`Repr, this`children, this`widget, Repr`Repr, Repr`children, Repr`widget
      reads this`mNeedsLayout, Repr`mNeedsLayout
      reads this`needsLayoutCache, Repr`needsLayoutCache
      reads this`lastSize, this`lastConstraints, this`fields, Repr`lastSize, Repr`lastConstraints, Repr`fields
    {
      && Valid() && Shows(u, Marked(), right)
      && (!Marked() ==> !marked && (right ==> AlikeTrees(t, u))) && (Marked() ==> marked || MarksIn(t, u))
    }

    /** createRenderObject. */
    constructor (t: Tree)
      requires WellFormed(t)
      ensures Shows(t, true, true) && fresh(Repr)
      decreases t, 1
    {
      hide Consistent, Forgotten;
      var kids, below := CreateAll(t.children);
      widget, children := t.widget, kids;
      lastSize, lastConstraints, fields := Size(0, 0), Constraints(Size(0, 0), Size(0, 0)), NoFields;
      needsLayoutCache, mNeedsLayout := Unset, true;
      Repr := {this} + below;
      new;
      Created(t);
    }

    lemma Created(t: Tree)
      requires WellFormed(t) && this in Repr && widget == t.widget && |children| == |t.children|
      requires forall i | 0 <= i < |children| ::
                 && children[i] in Repr && children[i].Repr <= Repr && this !in children[i].Repr
                 && children[i].Shows(t.children[i], true, true)
      requires forall i, j | 0 <= i < j < |children| :: children[i].Repr !! children[j].Repr
      requires needsLayoutCache == Unset && mNeedsLayout
      ensures Shows(t, true, true)
    {
      assert Valid();
      ShapesAre(|children|);
      assert Shape().children == t.children;
    }

    /** getChildren: objects for all widgets of a list. */
    static method CreateAll(ts: seq<Tree>) returns (kids: seq<RenderObject>, ghost below: set<RenderObject>)
      requires forall t | t in ts :: WellFormed(t)
      ensures |kids| == |ts| && fresh(below)
      ensures forall i | 0 <= i < |kids| :: kids[i] in below && kids[i].Repr <= below && kids[i].Shows(ts[i], true, true)
      ensures forall i, j | 0 <= i < j < |kids| :: kids[i].Repr !! kids[j].Repr
      decreases ts, 0
    {
      hide RenderObject.Consistent, RenderObject.Forgotten, RenderObject.Marked, RenderObject.Shape;
      kids, below := [], {};
      while |kids| < |ts|
        invariant |kids| <= |ts| && fresh(below)
        invariant forall i | 0 <= i < |kids| :: kids[i] in below && kids[i].Repr <= below && kids[i].Shows(ts[i], true, true)
        invariant forall i, j | 0 <= i < j < |kids| :: kids[i].Repr !! kids[j].Repr
      {
        var kid := new RenderObject(ts[|kids|]);
        kids, below := kids + [kid], below + kid.Repr;
      }
    }

    /** Updated children make an updated object, unless it relies on memory that no longer fits. */
    lemma Reconciled(t: Tree, marked: bool, right: bool, u: Tree)
      requires Valid() && needsLayoutCache.Unset? && widget == u.widget && |children| == |u.children|
      requires WellFormed(t) && WellFormed(u)
      requires forall k | 0 <= k < |children| :: children[k].Valid() && children[k].Shows(u.children[k], children[k].Marked(), right)
      requires !Marked() ==> !marked && (right ==> AlikeTrees(t, u) && Recalls(t))
      requires Marked() ==> marked || MarksIn(t, u)
      ensures Updated(t, marked, right, u)
    {
      hide Widgets.Layout, Widgets.ChildConstraints, Fields, AlikeTrees, WellFormed, MarksIn;
      ShapesAre(|children|);
      assert Shape().children == u.children;
      if !Marked() && right { AlikeLayout(t, u, lastConstraints); }
    }

    /** Drops children without a widget in the new list, or creates the missing ones. */
    method Resize(ghost right: bool, us: seq<Tree>)
      requires Valid() && (|us| != |children| ==> widget.Stack? || widget.WrapBox?)
      requires forall u | u in us :: WellFormed(u)
      modifies this`children, this`Repr
      ensures Valid() && |children| == |us| && Repr >= old(Repr) && fresh(Repr - old(Repr))
      ensures forall k | 0 <= k < |us| && k < |old(children)| :: children[k] == old(children[k])
      ensures forall k | |old(children)| <= k < |us| :: fresh(children[k]) && children[k].Shows(us[k], true, right)
      decreases us, 0
    {
      hide Consistent, Forgotten, Marked, Shape;
      if |us| < |children| {
        children := children[..|us|];
      } else {
        var kids, below := CreateAll(us[|children|..]);
        children := children + kids;
        Repr := Repr + below;
      }
    }

    /** updateChildren: `ts` and `marked` tell what the children showed before. */
    method UpdateChildren(ghost right: bool, us: seq<Tree>, ghost ts: seq<Tree>, ghost marked: seq<bool>)
      requires Valid() && |ts| == |marked| == |children| && (|us| != |children| ==> widget.Stack? || widget.WrapBox?)
      requires forall u | u in us :: WellFormed(u)
      requires forall k | 0 <= k < |ts| :: children[k].Shows(ts[k], marked[k], right) && (k < |us| ==> CanUpdate(ts[k], us[k], right))
      modifies this`children, this`Repr
      modifies (Repr - {this})`children, (Repr - {this})`Repr, (Repr - {this})`widget, (Repr - {this})`mNeedsLayout
      ensures Valid() && |children| == |us| && Repr >= old(Repr) && fresh(Repr - old(Repr))
      ensures forall k | 0 <= k < |us| && k < |ts| ::
                children[k] == old(children[k]) && children[k].Updated(ts[k], marked[k], right, us[k])
      ensures forall k | |ts| <= k < |us| :: children[k].Shows(us[k], true, right)
      decreases us, 1
    {
      hide Consistent, Forgotten, Marked, Shape, Updated, Shows, CanUpdate, WellFormed;
      var common := if |us| < |children| then |us| else |children|;
      Resize(right, us);
      UpdateFirst(right, common, us, ts, marked);
    }

    method UpdateFirst(ghost right: bool, common: nat, us: seq<Tree>, ghost ts: seq<Tree>, ghost marked: seq<bool>)
      requires Valid() && common <= |us| == |children| && common <= |ts| == |marked|
      requires forall u | u in us :: WellFormed(u)
      requires forall k | 0 <= k < common :: children[k].Shows(ts[k], marked[k], right) && CanUpdate(ts[k], us[k], right)
      requires forall k | common <= k < |us| :: children[k].Shows(us[k], true, right)
      modifies this`Repr
      modifies (Repr - {this})`children, (Repr - {this})`Repr, (Repr - {this})`widget, (Repr - {this})`mNeedsLayout
      ensures Valid() && Repr >= old(Repr) && fresh(Repr - old(Repr))
      ensures forall k | 0 <= k < common :: children[k].Updated(ts[k], marked[k], right, us[k])
      ensures forall k | common <= k < |us| :: children[k].Shows(us[k], true, right)
      decreases us, 0
    {
      hide Consistent, Forgotten, Marked, Shape, Updated, Shows, CanUpdate, WellFormed;
      var i := 0;
      while i < common
        invariant i <= common && Valid() && Repr >= old(Repr) && fresh(Repr - old(Repr))
        invariant forall k | 0 <= k < i :: children[k].Updated(ts[k], marked[k], right, us[k])
        invariant forall k | i <= k < common :: children[k].Shows(ts[k], marked[k], right)
        invariant forall k | common <= k < |us| :: children[k].Shows(us[k], true, right)
      {
        UpdateChild(i, ts[i], marked[i], right, us[i]);
        i := i + 1;
      }
    }

    method UpdateChild(i: nat, ghost t: Tree, ghost marked: bool, ghost right: bool, u: Tree)
      requires Valid() && i < |children| && children[i].Shows(t, marked, right) && WellFormed(u) && CanUpdate(t, u, right)
      modifies this`Repr
      modifies children[i].Repr`children, children[i].Repr`Repr, children[i].Repr`widget, children[i].Repr`mNeedsLayout
      ensures Valid() && Repr >= old(Repr) && fresh(Repr - old(Repr)) && children[i].Updated(t, marked, right, u)
      ensures forall k | 0 <= k < |children| && k != i :: children[k].Repr !! (children[i].Repr + old(children[i].Repr))
      decreases u, 4
    {
      hide Consistent, Forgotten, Marked, Shape;
      children[i].Update(t, marked, right, u);
      Repr := Repr + children[i].Repr;
    }

    /** update: marks what changes size; lists are marked after their children are updated, other widgets before. */
    method Update(ghost t: Tree, ghost marked: bool, ghost right: bool, u: Tree)
      requires Shows(t, marked, right) && WellFormed(u) && CanUpdate(t, u, right)
      modifies Repr`children, Repr`Repr, Repr`widget, Repr`mNeedsLayout
      ensures Updated(t, marked, right, u) && Repr >= old(Repr) && fresh(Repr - old(Repr))
      ensures mNeedsLayout <==> old(mNeedsLayout) || Marks(t.widget, u.widget, |t.children|, |u.children|)
      decreases u, 3
    {
      hide Consistent, Forgotten, Marked, Shape, Updated, WellFormed, CanUpdate, AlikeTrees, AlikeWidgets, Marks;
      hide Widgets.Layout, Widgets.ChildConstraints;
      ghost var childMarks := Opened(t, marked, right);
      ghost var marksNow := UpdateParts(right, t, childMarks, u);
      SafeParts(right, t, u);
      widget := u.widget;
      Concluded(t, marked, right, childMarks, marksNow, u);
    }

    /** Marks and children, without the widget itself. */
    method UpdateParts(ghost right: bool, ghost t: Tree, ghost childMarks: seq<bool>, u: Tree) returns (ghost marksNow: seq<bool>)
      requires Valid() && needsLayoutCache.Unset? && widget == t.widget && |childMarks| == |children| == |t.children|
      requires WellFormed(t) && WellFormed(u) && CanUpdate(t, u, right)
      requires forall k | 0 <= k < |children| :: children[k].Shows(t.children[k], childMarks[k], right)
      modifies Repr`children, Repr`Repr, (Repr - {this})`widget, Repr`mNeedsLayout
      ensures Valid() && |children| == |u.children| && Repr >= old(Repr) && fresh(Repr - old(Repr))
      ensures |marksNow| == |t.children| && forall k | 0 <= k < |t.children| && childMarks[k] :: marksNow[k]
      ensures !Marks(widget, u.widget, |t.children|, |u.children|) ==> marksNow == childMarks
      ensures mNeedsLayout <==> old(mNeedsLayout) || Marks(widget, u.widget, |t.children|, |u.children|)
      ensures forall k | 0 <= k < |t.children| && k < |u.children| ::
                children[k] == old(children[k]) && children[k].Updated(t.children[k], marksNow[k], right, u.children[k])
      ensures forall k | |t.children| <= k < |u.children| :: children[k].Shows(u.children[k], true, right)
      decreases u, 2
    {
      hide Consistent, Forgotten, Marked, Shape, Updated, WellFormed, CanUpdate, AlikeTrees, AlikeWidgets, Marks;
      SafeParts(right, t, u);
      var late := widget.Stack? || widget.WrapBox?;
      var marks := Marks(widget, u.widget, |children|, |u.children|);
      marksNow := childMarks;
      if marks && !late {
        marksNow := MarkFirst(right, t);
      }
      UpdateChildren(right, u.children, t.children, marksNow);
      if marks && late {
        marksNow := MarkLast(right, t.children, marksNow, u.children);
      }
    }

    /** What Shows says about the parts. */
    lemma Opened(t: Tree, marked: bool, right: bool) returns (childMarks: seq<bool>)
      requires Shows(t, marked, right)
      ensures Valid() && WellFormed(t) && widget == t.widget && needsLayoutCache.Unset? && |childMarks| == |children| == |t.children|
      ensures forall k | 0 <= k < |children| :: children[k].Shows(t.children[k], childMarks[k], right)
      ensures marked <==> mNeedsLayout || true in childMarks
      ensures !marked && right ==> Recalls(t)
    {
      ShapesAre(|children|);
      childMarks := [];
      while |childMarks| < |children|
        invariant |childMarks| <= |children|
        invariant forall k | 0 <= k < |childMarks| :: childMarks[k] == children[k].Marked()
      {
        childMarks := childMarks + [children[|childMarks|].Marked()];
      }
      forall k | 0 <= k < |children| ensures children[k].Shows(t.children[k], childMarks[k], right) {
      }
      assert true in childMarks ==> exists k :: 0 <= k < |childMarks| && childMarks[k] == true;
      assert forall k | 0 <= k < |childMarks| :: childMarks[k] ==> true in childMarks;
    }

    lemma SafeParts(right: bool, t: Tree, u: Tree)
      requires WellFormed(t) && WellFormed(u) && CanUpdate(t, u, right)
      ensures SameKind(t.widget, u.widget) && ArityOk(u.widget, |u.children|)
      ensures |u.children| != |t.children| ==> t.widget.Stack? || t.widget.WrapBox?
      ensures forall v | v in u.children :: WellFormed(v)
      ensures forall k | 0 <= k < |t.children| && k < |u.children| :: CanUpdate(t.children[k], u.children[k], right)
    {
      if |u.children| != |t.children| { OnlyListsResize(t, u); }
    }

    /** A mark before the children are updated. */
    method MarkFirst(ghost right: bool, ghost t: Tree) returns (ghost childMarks: seq<bool>)
      requires Valid() && |children| == |t.children| && needsLayoutCache.Unset?
      requires forall k | 0 <= k < |children| :: children[k].Valid() && children[k].Shows(t.children[k], children[k].Marked(), right)
      modifies this`mNeedsLayout, Repr`mNeedsLayout
      ensures mNeedsLayout && |childMarks| == |children| && needsLayoutCache.Unset?
      ensures forall k | 0 <= k < |children| :: children[k].Shows(t.children[k], childMarks[k], right)
      ensures forall k | 0 <= k < |children| :: childMarks[k]
    {
      hide Forgotten, Shape;
      MarkNeedsLayout();
      ChildrenMarked();
      childMarks := seq(|children|, _ => true);
    }

    /** A mark after the children were updated. */
    method MarkLast(ghost right: bool, ghost ts: seq<Tree>, ghost marked: seq<bool>, ghost us: seq<Tree>)
      returns (ghost marksNow: seq<bool>)
      requires Valid() && |children| == |us| && |ts| == |marked|
      requires forall k | 0 <= k < |us| && k < |ts| :: children[k].Updated(ts[k], marked[k], right, us[k])
      requires forall k | |ts| <= k < |us| :: children[k].Shows(us[k], true, right)
      modifies this`mNeedsLayout, Repr`mNeedsLayout
      ensures mNeedsLayout && |marksNow| == |ts| && forall k | 0 <= k < |ts| :: marksNow[k]
      ensures forall k | 0 <= k < |us| && k < |ts| :: children[k].Updated(ts[k], marksNow[k], right, us[k])
      ensures forall k | |ts| <= k < |us| :: children[k].Shows(us[k], true, right)
    {
      hide Forgotten, Shape, MarksIn, AlikeTrees;
      MarkNeedsLayout();
      ChildrenMarked();
      marksNow := seq(|ts|, _ => true);
    }

    lemma ChildrenMarked()
      requires Valid() && AllMarked()
      ensures forall k | 0 <= k < |children| :: children[k].Marked() && children[k].Consistent()
    {
      forall k | 0 <= k < |children| ensures children[k].Marked() && children[k].Consistent() {
        children[k].AllMarkedIsConsistent();
      }
    }

    lemma Concluded(t: Tree, marked: bool, right: bool, before: seq<bool>, childMarks: seq<bool>, u: Tree)
      requires Valid() && needsLayoutCache.Unset? && widget == u.widget && |children| == |u.children|
      requires WellFormed(t) && WellFormed(u) && CanUpdate(t, u, right) && |before| == |childMarks| == |t.children|
      requires forall k | 0 <= k < |before| && before[k] :: childMarks[k]
      requires var marks := Marks(t.widget, u.widget, |t.children|, |u.children|);
               && (marks ==> mNeedsLayout) && (!marks ==> childMarks == before)
               && (marked ==> mNeedsLayout || true in before) && (!marked && mNeedsLayout ==> marks)
               && (true in before ==> marked)
      requires forall k | 0 <= k < |t.children| && k < |u.children| ::
                 children[k].Updated(t.children[k], childMarks[k], right, u.children[k])
      requires forall k | |t.children| <= k < |u.children| :: children[k].Shows(u.children[k], true, right)
      requires !marked && right && |t.children| == |children| ==> Recalls(t)
      ensures Updated(t, marked, right, u)
    {
      hide Forgotten, Shape, Recalls, WellFormed, AlikeWidgets;
      SafeParts(right, t, u);
      assert |t.children| < |u.children| ==> children[|t.children|].Marked();
      if !Marked() {
        assert right ==> AlikeTrees(t, u);
        assert forall k | 0 <= k < |childMarks| :: !childMarks[k];
      }
      NoIdleMark(t, marked, right, before, childMarks, u);
      Reconciled(t, marked, right, u);
    }

    /** A mark of the object or below it was there before, or comes from the update. */
    lemma NoIdleMark(t: Tree, marked: bool, right: bool, before: seq<bool>, childMarks: seq<bool>, u: Tree)
      requires Valid() && |children| == |u.children| && |before| == |childMarks| == |t.children|
      requires SameKind(t.widget, u.widget)
      requires var marks := Marks(t.widget, u.widget, |t.children|, |u.children|);
               (!marks ==> childMarks == before) && (!marked && mNeedsLayout ==> marks) && (true in before ==> marked)
      requires forall k | 0 <= k < |t.children| && k < |u.children| ::
                 children[k].Updated(t.children[k], childMarks[k], right, u.children[k])
      ensures Marked() ==> marked || MarksIn(t, u)
    {
      hide Shows, AlikeTrees, Marks;
      assert forall k | 0 <= k < |before| && before[k] :: true in before;
    }

    // ----- Frames

    /** rebuild: walks down to the object at the end of the path and updates it there. */
    method Rebuild(ghost t: Tree, ghost marked: bool, ghost right: bool, path: seq<nat>, u: Tree)
      requires Shows(t, marked, right) && Legal(t, Change(path, u), right)
      modifies Repr`children, Repr`Repr, Repr`widget, Repr`mNeedsLayout
      ensures Updated(t, marked, right, ReplaceAt(t, path, u)) && Repr >= old(Repr) && fresh(Repr - old(Repr))
      decreases |path|, 0
    {
      hide Consistent, Forgotten, Marked, Shape, Shows, Updated, WellFormed, CanUpdate, AlikeTrees, Widgets.Layout;
      if path == [] {
        Update(t, marked, right, u);
      } else {
        ghost var childMarks := Opened(t, marked, right);
        var k := path[0];
        RebuildChild(k, t.children[k], childMarks[k], right, path[1..], u);
        Carried(t, marked, right, childMarks, path, u);
      }
    }

    method RebuildChild(i: nat, ghost t: Tree, ghost marked: bool, ghost right: bool, path: seq<nat>, u: Tree)
      requires Valid() && i < |children| && children[i].Shows(t, marked, right) && Legal(t, Change(path, u), right)
      modifies this`Repr
      modifies children[i].Repr`children, children[i].Repr`Repr, children[i].Repr`widget, children[i].Repr`mNeedsLayout
      ensures Valid() && Repr >= old(Repr) && fresh(Repr - old(Repr))
      ensures children[i].Updated(t, marked, right, ReplaceAt(t, path, u))
      ensures forall k | 0 <= k < |children| && k != i :: children[k].Repr !! (children[i].Repr + old(children[i].Repr))
      decreases |path|, 1
    {
      hide Consistent, Forgotten, Marked, Shape;
      children[i].Rebuild(t, marked, right, path, u);
      Repr := Repr + children[i].Repr;
    }

    /** A change below one child. */
    lemma Carried(t: Tree, marked: bool, right: bool, childMarks: seq<bool>, path: seq<nat>, u: Tree)
      requires Valid() && needsLayoutCache.Unset? && widget == t.widget && |children| == |t.children| == |childMarks|
      requires WellFormed(t) && path != [] && Legal(t, Change(path, u), right)
      requires forall k | 0 <= k < |children| && k != path[0] :: children[k].Shows(t.children[k], childMarks[k], right)
      requires children[path[0]].Updated(t.children[path[0]], childMarks[path[0]], right, ReplaceAt(t.children[path[0]], path[1..], u))
      requires marked <==> mNeedsLayout || true in childMarks
      requires !marked && right ==> Recalls(t)
      ensures Updated(t, marked, right, ReplaceAt(t, path, u))
    {
      hide Forgotten, Shape, Recalls, WellFormed, AlikeWidgets, Consistent;
      var now := ReplaceAt(t, path, u);
      ReplaceKeepsWellFormed(t, path, u);
      assert !Marked() ==> forall k | 0 <= k < |childMarks| :: !childMarks[k];
      assert forall k | 0 <= k < |childMarks| && childMarks[k] :: true in childMarks;
      assert MarksIn(t.children[path[0]], now.children[path[0]]) ==> MarksIn(t, now);
      AlikeExceptAt(t, now, path[0]);
      Reconciled(t, marked, right, now);
    }

    /** All rebuilds of a frame. */
    method Rebuilds(ghost t: Tree, ghost marked: bool, changes: seq<Change>) returns (ghost mark: bool)
      requires Shows(t, marked, true) && AllLegal(t, changes)
      modifies Repr`children, Repr`Repr, Repr`widget, Repr`mNeedsLayout
      ensures WellFormed(Changed(t, changes)) && Shows(Changed(t, changes), mark, true)
      ensures Repr >= old(Repr) && fresh(Repr - old(Repr))
    {
      hide Consistent, Forgotten, Marked, Shape, WellFormed, CanUpdate, AlikeTrees, Widgets.Layout, Fresh;
      mark := marked;
      ghost var now := t;
      var i := 0;
      while i < |changes|
        invariant i <= |changes| && Shows(now, mark, true) && Repr >= old(Repr) && fresh(Repr - old(Repr))
        invariant AllLegal(now, changes[i..]) && Changed(now, changes[i..]) == Changed(t, changes)
      {
        var change := changes[i];
        Rebuild(now, mark, true, change.path, change.tree);
        now, mark := ReplaceAt(now, change.path, change.tree), Marked();
        assert changes[i..][1..] == changes[i + 1..];
        i := i + 1;
      }
    }

    method RebuildAndLayout(ghost t: Tree, ghost marked: bool, frame: Frame) returns (size: Size)
      requires Shows(t, marked, true) && AllLegal(t, frame.changes)
      modifies Repr
      ensures Repr >= old(Repr) && fresh(Repr - old(Repr))
      ensures WellFormed(Changed(t, frame.changes)) && Valid() && Shape() == Changed(t, frame.changes)
      ensures size == lastSize == Widgets.Layout(Shape(), frame.constraints) && Settled(frame.constraints)
    {
      hide Consistent, Forgotten, Marked, Shape, WellFormed, Changed, AllLegal, Widgets.Layout, Fresh, Settled;
      ghost var mark := Rebuilds(t, marked, frame.changes);
      ForgottenIsFresh();
      size := Layout(frame.constraints);
    }

    /** step: rebuilds, layout and reset. */
    method Step(ghost t: Tree, ghost marked: bool, frame: Frame) returns (size: Size)
      requires Shows(t, marked, true) && AllLegal(t, frame.changes)
      modifies Repr
      ensures WellFormed(Changed(t, frame.changes))
      ensures size == Widgets.Layout(Changed(t, frame.changes), frame.constraints)
      ensures Shows(Changed(t, frame.changes), false, true) && Repr >= old(Repr) && fresh(Repr - old(Repr))
    {
      hide Consistent, Forgotten, Marked, Shape, WellFormed, Changed, AllLegal, Widgets.Layout, Fresh;
      size := RebuildAndLayout(t, marked, frame);
      Reset();
    }

    /** step with a draw of everything: all objects are placed as after a layout from scratch, inside their parents. */
    method StepAndDraw(ghost t: Tree, ghost marked: bool, frame: Frame) returns (size: Size)
      requires Shows(t, marked, true) && AllLegal(t, frame.changes)
      requires WellFormed(Changed(t, frame.changes)) && FitsScreen(Changed(t, frame.changes), frame.constraints)
      modifies Repr
      ensures size == Widgets.Layout(Changed(t, frame.changes), frame.constraints)
      ensures Shows(Changed(t, frame.changes), false, true) && Repr >= old(Repr) && fresh(Repr - old(Repr))
      ensures Placed(frame.constraints, RectAt(Point(0, 0), size)) && InPlace() && rect == RectAt(Point(0, 0), size)
      ensures DrawnRight(Changed(t, frame.changes), frame.constraints, RectAt(Point(0, 0), size))
    {
      hide Consistent, Forgotten, Marked, Settled, Shape, Shows, WellFormed, Changed, AllLegal, Widgets.Layout, Fresh;
      hide FitsScreen, DrawnRight, Placed, InPlace;
      size := RebuildAndLayout(t, marked, frame);
      DrawAndReset(frame.constraints, RectAt(Point(0, 0), size));
      PlacedAt(frame.constraints, RectAt(Point(0, 0), size));
      ScreenDrawn(Changed(t, frame.changes), frame.constraints, size);
    }

    method DrawAndReset(ghost c: Constraints, place: Rect)
      requires Valid() && Drawable(c, place)
      modifies this`rect, Repr`rect, this`needsLayoutCache, Repr`needsLayoutCache
      ensures Placed(c, place) && InPlace() && Shows(Shape(), false, true)
    {
      hide Drawable, Consistent, Forgotten, Marked, Shape, Placed, FitsScreen, Shows, Settled, InPlace;
      Draw(c, place);
      Reset();
      AfterDraw(c, place);
    }

    lemma PlacedAt(c: Constraints, place: Rect)
      requires Valid() && Placed(c, place)
      ensures rect == place
    {
    }

    lemma AfterDraw(c: Constraints, place: Rect)
      requires Valid() && Drawable(c, place) && Forgotten()
      ensures Shows(Shape(), false, true)
    {
      hide Settled, FitsScreen, Shows;
      AfterFrame(c);
    }

    lemma AfterFrame(c: Constraints)
      requires Valid() && Settled(c) && Forgotten()
      ensures Shows(Shape(), false, true)
    {
    }

    static lemma ScreenDrawn(t: Tree, c: Constraints, size: Size)
      requires WellFormed(t) && FitsScreen(t, c) && size == Widgets.Layout(t, c)
      ensures DrawnRight(t, c, RectAt(Point(0, 0), size))
    {
      DrawSound(t, c, RectAt(Point(0, 0), size));
    }

    /** Over any run, every frame gets the size that layout from scratch would give. */
    method Run(ghost t: Tree, ghost marked: bool, frames: seq<Frame>) returns (sizes: seq<Size>)
      requires Shows(t, marked, true) && LegalRun(t, frames)
      modifies Repr
      ensures WellFormed(t) && sizes == SizesFromScratch(t, frames)
      ensures Shows(TreeAfter(t, frames), if frames == [] then marked else false, true)
    {
      hide Consistent, Forgotten, Marked, Shape, Widgets.Layout, AllLegal;
      sizes := [];
      ghost var (now, mark) := (t, marked);
      var i := 0;
      while i < |frames|
        invariant i <= |frames| && Shows(now, mark, true) && fresh(Repr - old(Repr)) && LegalRun(now, frames[i..])
        invariant WellFormed(t) && WellFormed(now)
        invariant SizesFromScratch(t, frames) == sizes + SizesFromScratch(now, frames[i..])
        invariant TreeAfter(now, frames[i..]) == TreeAfter(t, frames) && mark == if i == 0 then marked else false
      {
        var size := Step(now, mark, frames[i]);
        sizes := sizes + [size];
        now, mark := Changed(now, frames[i].changes), false;
        assert frames[i..][1..] == frames[i + 1..];
        i := i + 1;
      }
    }

    /**
     An image object whose image changes size: the update marks nothing, and layout under the same constraints goes on
     returning the old size.
     */
    static method StaleImage(c: Constraints, before: Size, after: Size) returns (image: RenderObject, size: Size)
      requires c.Contain(before) && c.Contain(after) && before != after
      ensures image.Valid() && image.Shape() == Node(Image(after), [])
      ensures size == before && Widgets.Layout(image.Shape(), c) == after
    {
      var (t, u) := (Node(Image(before), []), Node(Image(after), []));
      LeafLayout(u, c);
      LeafLayout(t, c);
      ImageCanChange(before, after);
      hide RenderObject.Consistent, RenderObject.Forgotten, RenderObject.Marked, RenderObject.Shape, RenderObject.Shows;
      hide Widgets.Layout, WellFormed, CanUpdate, MarksIn, Fields;
      image, size := NewObject(t, c);
      image.AsShown(t);
      size := image.UnmarkedFrame(t, u, c);
    }

    /**
     A row whose weights change out of proportion: the update marks nothing, and after the next layout in the same space
     the row still keeps, and would draw with, the old sizes of its children.
     */
    static method StaleRow(axis: Axis, w: seq<real>, v: seq<real>, r: nat, i: nat) returns (row: RenderObject, size: Size)
      requires i < |w| == |v| && Flex.Allocation(w[i], r, Flex.TotalFlex(w)) != Flex.Allocation(v[i], r, Flex.TotalFlex(v))
      ensures row.Valid() && row.Shape() == Row(axis, v)
      ensures row.fields.FlexFields? && i < |row.fields.childSizes|
      ensures Main(axis, row.fields.childSizes[i]) == Flex.Allocation(w[i], r, Flex.TotalFlex(w))
      ensures row.fields != Fields(row.Shape(), Space(axis, r))
    {
      RowSize(axis, w, r, i);
      RowSize(axis, v, r, i);
      RowCanChange(axis, w, v);
      hide RenderObject.Consistent, RenderObject.Forgotten, RenderObject.Marked, RenderObject.Shape, RenderObject.Shows;
      hide Widgets.Layout, Fields, Row, WellFormed, CanUpdate, MarksIn, Flex.Allocation, Flex.TotalFlex;
      row, size := NewObject(Row(axis, w), Space(axis, r));
      row.AsShown(Row(axis, w));
      size := row.UnmarkedFrame(Row(axis, w), Row(axis, v), Space(axis, r));
    }

    /** A frame with an update that marks nothing: the object goes on with what it remembers, whether right or not. */
    method UnmarkedFrame(ghost t: Tree, u: Tree, c: Constraints) returns (size: Size)
      requires Shows(t, false, false) && WellFormed(u) && CanUpdate(t, u, false) && !MarksIn(t, u) && lastConstraints == c
      modifies Repr
      ensures Valid() && Shape() == u && size == old(lastSize) && fields == old(fields)
    {
      hide Consistent, Fresh, Forgotten, Marked, Shape, Shows, Updated, MarksIn, CanUpdate, WellFormed, Widgets.Layout;
      Update(t, false, false, u);
      StillUnmarked(t, u);
      size := Layout(c);
    }

    lemma StillUnmarked(t: Tree, u: Tree)
      requires Updated(t, false, false, u) && !MarksIn(t, u)
      ensures Valid() && Shape() == u && Fresh() && !Marked()
    {
      ForgottenIsFresh();
    }

    lemma AsShown(t: Tree)
      requires Shows(t, false, true)
      ensures Shows(t, false, false)
    {
    }

    static lemma RowCanChange(axis: Axis, w: seq<real>, v: seq<real>)
      requires |w| == |v|
      ensures CanUpdate(Row(axis, w), Row(axis, v), false) && !MarksIn(Row(axis, w), Row(axis, v))
    {
      var (t, u) := (Row(axis, w), Row(axis, v));
      forall k | 0 <= k < |w| ensures CanUpdate(t.children[k], u.children[k], false) && !MarksIn(t.children[k], u.children[k]) {
      }
    }

    /** A new object after its first frame. */
    static method NewObject(t: Tree, c: Constraints) returns (made: RenderObject, size: Size)
      requires WellFormed(t)
      ensures fresh(made.Repr) && made.Shows(t, false, true)
      ensures size == made.lastSize == Widgets.Layout(t, c) && made.lastConstraints == c && made.fields == Fields(t, c)
    {
      hide RenderObject.Consistent, RenderObject.Fresh, RenderObject.Forgotten, RenderObject.Marked, RenderObject.Shape;
      hide RenderObject.Settled, Widgets.Layout, Widgets.ChildConstraints, LayoutEach, WellFormed, Fields;
      made := new RenderObject(t);
      made.ForgottenIsFresh();
      size := made.Layout(c);
      made.SizesForDraw(c);
      made.LastUnder(c);
      made.Reset();
      made.AfterFrame(c);
    }

    lemma LastUnder(c: Constraints)
      requires Valid() && Settled(c)
      ensures lastConstraints == c
    {
    }

    static lemma ImageCanChange(before: Size, after: Size)
      ensures CanUpdate(Node(Image(before), []), Node(Image(after), []), false)
      ensures !MarksIn(Node(Image(before), []), Node(Image(after), []))
    {
    }

    static lemma LeafLayout(t: Tree, c: Constraints)
      requires t.widget.Image? && t.children == [] && c.Contain(t.widget.size)
      ensures WellFormed(t) && Widgets.Layout(t, c) == t.widget.size
    {
    }
  }
}
