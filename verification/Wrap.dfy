/**
 Line breaking: WrapRenderObject::doLayout and doDraw (libs/rMlib/include/UI/Wrap.h:33-135).

 Runs go along the main axis (x for a horizontal wrap) and follow each other along the cross axis.
 */
module Wrap {
  import opened Geometry
  import opened Constraints

  // ----- The layout pass, as a fold over the children's sizes

  /** `rowMain` and `rowCross` are the extents of the open run, `main` and `cross` those of the closed ones. */
  datatype Runs = Runs(main: int, cross: int, rowMain: int, rowCross: int, runSizes: seq<int>)

  const NO_RUNS := Runs(0, 0, 0, 0, [])

  predicate Breaks(r: Runs, axis: Axis, maxMain: int, s: Size) { r.rowMain + Main(axis, s) > maxMain }

  function Close(r: Runs): Runs {
    Runs(Max(r.main, r.rowMain), r.cross + r.rowCross, 0, 0, r.runSizes + [r.rowCross])
  }

  function Add(r: Runs, axis: Axis, maxMain: int, s: Size): Runs {
    if Breaks(r, axis, maxMain, s) then Close(r).(rowMain := Main(axis, s), rowCross := Cross(axis, s))
    else r.(rowMain := r.rowMain + Main(axis, s), rowCross := Max(Cross(axis, s), r.rowCross))
  }

  /** State after the first `k` children. */
  function After(axis: Axis, maxMain: int, sizes: seq<Size>, k: nat): Runs
    requires k <= |sizes|
  {
    if k == 0 then NO_RUNS else Add(After(axis, maxMain, sizes, k - 1), axis, maxMain, sizes[k - 1])
  }

  function Final(axis: Axis, maxMain: int, sizes: seq<Size>): Runs {
    Close(After(axis, maxMain, sizes, |sizes|))
  }

  /** The extent of all runs together. */
  function TotalSize(axis: Axis, maxMain: int, sizes: seq<Size>): Size {
    var r := Final(axis, maxMain, sizes);
    Along(axis, r.main, r.cross)
  }

  function WrapSize(axis: Axis, c: Constraints, sizes: seq<Size>): Size {
    var total := TotalSize(axis, Main(axis, c.max), sizes);
    Size(Max(total.width, c.min.width), Max(total.height, c.min.height))
  }

  ghost predicate NonNegative(sizes: seq<Size>) {
    forall i | 0 <= i < |sizes| :: sizes[i].width >= 0 && sizes[i].height >= 0
  }

  lemma AfterNone(axis: Axis, maxMain: int, sizes: seq<Size>)
    ensures After(axis, maxMain, sizes, 0) == NO_RUNS
  {
  }

  lemma AfterOne(axis: Axis, maxMain: int, sizes: seq<Size>, k: nat)
    requires k < |sizes|
    ensures After(axis, maxMain, sizes, k + 1) == Add(After(axis, maxMain, sizes, k), axis, maxMain, sizes[k])
  {
  }

  // ----- Growth of the fold

  lemma {:induction false} Extents(axis: Axis, maxMain: int, sizes: seq<Size>, k: nat)
    requires NonNegative(sizes) && k <= |sizes|
    ensures var r := After(axis, maxMain, sizes, k); r.main >= 0 && r.cross >= 0 && r.rowMain >= 0 && r.rowCross >= 0
  {
    if k > 0 { Extents(axis, maxMain, sizes, k - 1); }
  }

  /** Between two children the run is either still open and only grows, or it was closed and lies below. */
  lemma {:induction false} Growth(axis: Axis, maxMain: int, sizes: seq<Size>, j: nat, k: nat)
    requires NonNegative(sizes) && j <= k <= |sizes|
    ensures var (a, b) := (After(axis, maxMain, sizes, j), After(axis, maxMain, sizes, k));
            && a.runSizes <= b.runSizes
            && a.rowMain <= Max(b.main, b.rowMain) && a.main <= b.main
            && (if |a.runSizes| == |b.runSizes| then a.cross == b.cross && a.rowMain <= b.rowMain && a.rowCross <= b.rowCross
                else a.cross + a.rowCross <= b.cross)
  {
    if j < k {
      Growth(axis, maxMain, sizes, j, k - 1);
      Extents(axis, maxMain, sizes, k - 1);
    }
  }

  // ----- The draw pass

  /** Offset of the block of runs, centred in the rectangle; the two corrections by one cancel out. */
  function Origin(rect: Rect, total: Size): Point {
    Point((TruncDiv(rect.Width() - total.width, 2) - 1) + 1, (TruncDiv(rect.Height() - total.height, 2) - 1) + 1)
  }

  /** The rectangle at an offset along the axes. */
  function RectAlong(axis: Axis, rect: Rect, main: int, cross: int, size: Size): Rect {
    var offset := PointAlong(axis, main, cross);
    RectAt(Point(rect.topLeft.x + offset.x, rect.topLeft.y + offset.y), size)
  }

  /** The rectangle that the layout pass implies for child `k`. */
  function ChildRect(axis: Axis, maxMain: int, sizes: seq<Size>, rect: Rect, k: nat): Rect
    requires k < |sizes|
  {
    var origin := Origin(rect, TotalSize(axis, maxMain, sizes));
    var r := After(axis, maxMain, sizes, k + 1);
    RectAlong(axis, rect, MainOf(axis, origin) + r.rowMain - Main(axis, sizes[k]), CrossOf(axis, origin) + r.cross, sizes[k])
  }

  /** The children were laid out within the constraints, and the rectangle has the size that layout returned. */
  ghost predicate Drawable(axis: Axis, c: Constraints, sizes: seq<Size>, rect: Rect) {
    NonNegative(sizes) && c.Contain(WrapSize(axis, c, sizes)) && rect.Extents() == WrapSize(axis, c, sizes)
  }

  /** Every child ends within the total extent. */
  lemma WithinTotal(axis: Axis, maxMain: int, sizes: seq<Size>, k: nat)
    requires NonNegative(sizes) && k < |sizes|
    ensures var (r, total) := (After(axis, maxMain, sizes, k + 1), TotalSize(axis, maxMain, sizes));
            && Main(axis, sizes[k]) <= r.rowMain <= Main(axis, total)
            && 0 <= r.cross && Cross(axis, sizes[k]) <= r.rowCross && r.cross + r.rowCross <= Cross(axis, total)
  {
    Extents(axis, maxMain, sizes, k);
    Extents(axis, maxMain, sizes, |sizes|);
    Extents(axis, maxMain, sizes, k + 1);
    Growth(axis, maxMain, sizes, k + 1, |sizes|);
  }

  /**
   The draw pass tests the centred offset against the rectangle, the layout pass the run against the maximum. For a
   drawable wrap the two tests agree at every child.
   */
  lemma SameBreak(axis: Axis, c: Constraints, sizes: seq<Size>, rect: Rect, k: nat)
    requires Drawable(axis, c, sizes, rect) && k < |sizes|
    ensures var r := After(axis, Main(axis, c.max), sizes, k);
            var origin := Origin(rect, TotalSize(axis, Main(axis, c.max), sizes));
            Breaks(r, axis, Main(axis, c.max), sizes[k])
            <==> MainOf(axis, origin) + r.rowMain + Main(axis, sizes[k]) > Main(axis, rect.Extents())
  {
    WithinTotal(axis, Main(axis, c.max), sizes, k);
  }

  /** Every child is drawn inside the rectangle. */
  lemma ChildInside(axis: Axis, c: Constraints, sizes: seq<Size>, rect: Rect, k: nat)
    requires Drawable(axis, c, sizes, rect) && k < |sizes|
    ensures rect.Encloses(ChildRect(axis, Main(axis, c.max), sizes, rect, k))
    ensures ChildRect(axis, Main(axis, c.max), sizes, rect, k).Extents() == sizes[k]
  {
    WithinTotal(axis, Main(axis, c.max), sizes, k);
  }

  /** No two children overlap. */
  lemma ChildrenDisjoint(axis: Axis, maxMain: int, sizes: seq<Size>, rect: Rect, j: nat, k: nat)
    requires NonNegative(sizes) && j < k < |sizes|
    ensures ChildRect(axis, maxMain, sizes, rect, j).DisjointFrom(ChildRect(axis, maxMain, sizes, rect, k))
  {
    WithinTotal(axis, maxMain, sizes, j);
    Growth(axis, maxMain, sizes, j + 1, k);
    Extents(axis, maxMain, sizes, k);
  }

  /** The sizes of the runs closed before child `k` are a prefix of all run sizes. */
  lemma RunSizesPrefix(axis: Axis, maxMain: int, sizes: seq<Size>, k: nat)
    requires NonNegative(sizes) && k <= |sizes|
    ensures After(axis, maxMain, sizes, k).runSizes <= Final(axis, maxMain, sizes).runSizes
    ensures k < |sizes| && Breaks(After(axis, maxMain, sizes, k), axis, maxMain, sizes[k]) ==>
              var r := After(axis, maxMain, sizes, k);
              |r.runSizes| < |Final(axis, maxMain, sizes).runSizes|
              && Final(axis, maxMain, sizes).runSizes[|r.runSizes|] == r.rowCross
  {
    Growth(axis, maxMain, sizes, k, |sizes|);
    if k < |sizes| { Growth(axis, maxMain, sizes, k + 1, |sizes|); }
  }

  /** One child in the draw pass: what the test of the offset and the run size looked up mean in the layout pass. */
  lemma DrawStep(axis: Axis, c: Constraints, sizes: seq<Size>, rect: Rect, runSizes: seq<int>, k: nat)
    requires Drawable(axis, c, sizes, rect) && k < |sizes|
    requires runSizes == Final(axis, Main(axis, c.max), sizes).runSizes
    ensures var maxMain := Main(axis, c.max);
            var (r, next) := (After(axis, maxMain, sizes, k), After(axis, maxMain, sizes, k + 1));
            var origin := Origin(rect, TotalSize(axis, maxMain, sizes));
            && (if MainOf(axis, origin) + r.rowMain + Main(axis, sizes[k]) > Main(axis, rect.Extents()) then
                  && |r.runSizes| < |runSizes| && next.cross == r.cross + runSizes[|r.runSizes|]
                  && next.rowMain == Main(axis, sizes[k]) && |next.runSizes| == |r.runSizes| + 1
                else
                  && next.cross == r.cross && next.runSizes == r.runSizes
                  && next.rowMain == r.rowMain + Main(axis, sizes[k]))
            && ChildRect(axis, maxMain, sizes, rect, k)
               == RectAlong(axis, rect, MainOf(axis, origin) + next.rowMain - Main(axis, sizes[k]),
                            CrossOf(axis, origin) + next.cross, sizes[k])
  {
    SameBreak(axis, c, sizes, rect, k);
    RunSizesPrefix(axis, Main(axis, c.max), sizes, k);
    AfterOne(axis, Main(axis, c.max), sizes, k);
    hide After, Drawable, Final, TotalSize, Origin, RectAlong, Main, Cross;
  }

  // ----- The greedy runs are as few as possible

  function Sum(s: seq<int>): int { if s == [] then 0 else Sum(s[..|s| - 1]) + s[|s| - 1] }

  function Flatten(runs: seq<seq<int>>): seq<int> {
    if runs == [] then [] else Flatten(runs[..|runs| - 1]) + runs[|runs| - 1]
  }

  function Mains(axis: Axis, sizes: seq<Size>): seq<int> {
    seq(|sizes|, i requires 0 <= i < |sizes| => Main(axis, sizes[i]))
  }

  /** A division of the children, in order, into runs that fit the maximum. */
  ghost predicate IsDivision(runs: seq<seq<int>>, mains: seq<int>, maxMain: int) {
    Flatten(runs) == mains && forall i | 0 <= i < |runs| :: Sum(runs[i]) <= maxMain
  }

  /** The runs of the layout pass. */
  function GreedyRuns(axis: Axis, maxMain: int, sizes: seq<Size>, k: nat): seq<seq<int>>
    requires k <= |sizes|
  {
    if k == 0 then [[]]
    else
      var runs := GreedyRuns(axis, maxMain, sizes, k - 1);
      var s := Main(axis, sizes[k - 1]);
      if Breaks(After(axis, maxMain, sizes, k - 1), axis, maxMain, sizes[k - 1]) then runs + [[s]]
      else if runs == [] then [[s]]
      else runs[..|runs| - 1] + [runs[|runs| - 1] + [s]]
  }

  /** There are as many as run sizes were recorded, and the last one is the open run. */
  lemma {:induction false} GreedyCount(axis: Axis, maxMain: int, sizes: seq<Size>, k: nat)
    requires k <= |sizes|
    ensures var (runs, r) := (GreedyRuns(axis, maxMain, sizes, k), After(axis, maxMain, sizes, k));
            |runs| == |r.runSizes| + 1 && Sum(runs[|runs| - 1]) == r.rowMain
  {
    if k > 0 {
      GreedyCount(axis, maxMain, sizes, k - 1);
      var before := GreedyRuns(axis, maxMain, sizes, k - 1);
      SumSnoc([], Main(axis, sizes[k - 1]));
      SumSnoc(before[|before| - 1], Main(axis, sizes[k - 1]));
    }
  }

  /** Adding `s` to a division, in a run of its own or in the last one. */
  lemma ExtendDivision(runs: seq<seq<int>>, mains: seq<int>, maxMain: int, s: int)
    requires IsDivision(runs, mains, maxMain) && runs != [] && s <= maxMain
    ensures IsDivision(runs + [[s]], mains + [s], maxMain)
    ensures Sum(runs[|runs| - 1]) + s <= maxMain ==>
              IsDivision(runs[..|runs| - 1] + [runs[|runs| - 1] + [s]], mains + [s], maxMain)
  {
    var (rest, last) := (runs[..|runs| - 1], runs[|runs| - 1]);
    SumSnoc([], s);
    SumSnoc(last, s);
    assert (runs + [[s]])[..|runs|] == runs;
    assert (rest + [last + [s]])[..|rest|] == rest;
    assert (Flatten(rest) + last) + [s] == Flatten(rest) + (last + [s]);
  }

  lemma MainsSnoc(axis: Axis, sizes: seq<Size>, k: nat)
    requires k < |sizes|
    ensures Mains(axis, sizes)[..k + 1] == Mains(axis, sizes)[..k] + [Main(axis, sizes[k])]
  {
  }

  /** They are a division of the children. */
  lemma {:induction false} GreedyIsDivision(axis: Axis, maxMain: int, sizes: seq<Size>, k: nat)
    requires k <= |sizes| && 0 <= maxMain && forall i | 0 <= i < |sizes| :: Main(axis, sizes[i]) <= maxMain
    ensures IsDivision(GreedyRuns(axis, maxMain, sizes, k), Mains(axis, sizes)[..k], maxMain)
  {
    hide IsDivision, Flatten, Sum, Main, After;
    if k > 0 {
      GreedyCount(axis, maxMain, sizes, k - 1);
      GreedyIsDivision(axis, maxMain, sizes, k - 1);
      ExtendDivision(GreedyRuns(axis, maxMain, sizes, k - 1), Mains(axis, sizes)[..k - 1], maxMain, Main(axis, sizes[k - 1]));
      MainsSnoc(axis, sizes, k - 1);
    } else {
      NoChildren(Mains(axis, sizes), maxMain);
    }
  }

  lemma NoChildren(mains: seq<int>, maxMain: int)
    requires 0 <= maxMain
    ensures IsDivision([[]], mains[..0], maxMain)
  {
    assert Flatten([[]]) == Flatten([]) + [];
  }

  lemma SumSnoc(s: seq<int>, x: int)
    ensures Sum(s + [x]) == Sum(s) + x
  {
    assert (s + [x])[..|s|] == s;
  }

  /** Taking the last child out of a division. */
  lemma DropLast(runs: seq<seq<int>>, mains: seq<int>, maxMain: int)
    requires IsDivision(runs, mains, maxMain) && runs != [] && runs[|runs| - 1] != []
    requires forall i | 0 <= i < |mains| :: mains[i] >= 0
    ensures mains != []
    ensures var last := runs[|runs| - 1];
            && last[|last| - 1] == mains[|mains| - 1]
            && IsDivision(runs[..|runs| - 1] + [last[..|last| - 1]], mains[..|mains| - 1], maxMain)
  {
    var (rest, last) := (runs[..|runs| - 1], runs[|runs| - 1]);
    assert mains == Flatten(rest) + last;
    var shorter := rest + [last[..|last| - 1]];
    assert shorter[..|rest|] == rest;
    assert mains[..|mains| - 1] == Flatten(rest) + last[..|last| - 1];
    assert Sum(last) == Sum(last[..|last| - 1]) + last[|last| - 1];
  }

  /**
   No division of the first `k` children has fewer runs than the greedy one, and one with as many fills its last run at
   least as much.
   */
  lemma {:induction false} GreedyIsOptimal(axis: Axis, maxMain: int, sizes: seq<Size>, k: nat, runs: seq<seq<int>>)
    requires k <= |sizes| && forall i | 0 <= i < |sizes| :: 0 <= Main(axis, sizes[i]) <= maxMain
    requires IsDivision(runs, Mains(axis, sizes)[..k], maxMain) && runs != []
    ensures var r := After(axis, maxMain, sizes, k);
            && |r.runSizes| + 1 <= |runs|
            && (|r.runSizes| + 1 == |runs| ==> r.rowMain <= Sum(runs[|runs| - 1]))
    decreases k, |runs|
  {
    var (rest, last) := (runs[..|runs| - 1], runs[|runs| - 1]);
    var mains := Mains(axis, sizes)[..k];
    assert mains == Flatten(rest) + last && |mains| == k;
    assert rest == [] ==> Flatten(rest) == [];
    if k == 0 {
      assert last == [];
    } else if last == [] {
      GreedyIsOptimal(axis, maxMain, sizes, k, rest);
    } else {
      DropLast(runs, mains, maxMain);
      assert mains[..|mains| - 1] == Mains(axis, sizes)[..k - 1];
      var shorter := rest + [last[..|last| - 1]];
      GreedyIsOptimal(axis, maxMain, sizes, k - 1, shorter);
      assert shorter[|shorter| - 1] == last[..|last| - 1];
      forall i | 0 <= i < |last| ensures last[i] >= 0 { assert last[i] == mains[|Flatten(rest)| + i]; }
      SumNonNegative(last[..|last| - 1]);
      assert Sum(last) == Sum(last[..|last| - 1]) + last[|last| - 1];
    }
  }

  lemma SumNonNegative(s: seq<int>)
    requires forall i | 0 <= i < |s| :: s[i] >= 0
    ensures Sum(s) >= 0
  {
    if s != [] { SumNonNegative(s[..|s| - 1]); }
  }

  /** The number of runs of the layout pass is the minimum over all divisions. */
  lemma FewestRuns(axis: Axis, maxMain: int, sizes: seq<Size>, runs: seq<seq<int>>)
    requires forall i | 0 <= i < |sizes| :: 0 <= Main(axis, sizes[i]) <= maxMain
    requires sizes != [] && IsDivision(runs, Mains(axis, sizes), maxMain)
    ensures |Final(axis, maxMain, sizes).runSizes| <= |runs|
  {
    assert Mains(axis, sizes)[..|sizes|] == Mains(axis, sizes);
    GreedyIsOptimal(axis, maxMain, sizes, |sizes|, runs);
  }

  // ----- The render object, given the sizes its children were laid out with

  class WrapRenderObject {
    const axis: Axis
    var runSizes: seq<int>
    var totalSize: Size

    constructor (axis: Axis)
      ensures this.axis == axis
    {
      this.axis, runSizes, totalSize := axis, [], Size(0, 0);
    }

    /** The fields hold what the layout pass leaves for the draw pass. */
    ghost predicate LaidOut(c: Constraints, sizes: seq<Size>)
      reads this
    {
      && runSizes == Final(axis, Main(axis, c.max), sizes).runSizes
      && totalSize == TotalSize(axis, Main(axis, c.max), sizes)
    }

    method DoLayout(c: Constraints, sizes: seq<Size>) returns (result: Size)
      modifies this
      ensures result == WrapSize(axis, c, sizes) && LaidOut(c, sizes)
    {
      hide After, Main, Cross;
      var maxMain := Main(axis, c.max);
      runSizes := [];
      AfterNone(axis, maxMain, sizes);
      var main, cross, rowMain, rowCross := 0, 0, 0, 0;
      var k := 0;
      while k < |sizes|
        invariant k <= |sizes|
        invariant After(axis, maxMain, sizes, k) == Runs(main, cross, rowMain, rowCross, runSizes)
      {
        AfterOne(axis, maxMain, sizes, k);
        var size := sizes[k];
        if rowMain + Main(axis, size) > maxMain {
          main := Max(main, rowMain);
          cross := cross + rowCross;
          runSizes := runSizes + [rowCross];
          rowMain, rowCross := Main(axis, size), Cross(axis, size);
        } else {
          rowMain := rowMain + Main(axis, size);
          rowCross := Max(Cross(axis, size), rowCross);
        }
        k := k + 1;
      }
      main := Max(main, rowMain);
      cross := cross + rowCross;
      runSizes := runSizes + [rowCross];
      result := Along(axis, main, cross);
      totalSize := result;
      if result.height < c.min.height { result := result.(height := c.min.height); }
      if result.width < c.min.width { result := result.(width := c.min.width); }
    }

    /** The run size looked up at every line break exists, and the children land where the layout pass put them. */
    method DoDraw(rect: Rect, ghost c: Constraints, sizes: seq<Size>) returns (rects: seq<Rect>)
      requires Drawable(axis, c, sizes, rect) && LaidOut(c, sizes)
      ensures |rects| == |sizes|
      ensures forall k | 0 <= k < |sizes| :: rects[k] == ChildRect(axis, Main(axis, c.max), sizes, rect, k)
    {
      rects := DrawRuns(axis, runSizes, totalSize, rect, c, sizes);
    }

    /** The loop, on the fields it reads; `sizes` are what getSize of the children returns. */
    static method DrawRuns(axis: Axis, runSizes: seq<int>, totalSize: Size, rect: Rect, ghost c: Constraints, sizes: seq<Size>)
      returns (rects: seq<Rect>)
      requires Drawable(axis, c, sizes, rect) && totalSize == TotalSize(axis, Main(axis, c.max), sizes)
      requires runSizes == Final(axis, Main(axis, c.max), sizes).runSizes
      ensures |rects| == |sizes|
      ensures forall k | 0 <= k < |sizes| :: rects[k] == ChildRect(axis, Main(axis, c.max), sizes, rect, k)
    {
      hide Final, TotalSize, Drawable, ChildRect, RectAlong, Origin, Main, MainOf, CrossOf;
      ghost var maxMain := Main(axis, c.max);
      AfterNone(axis, maxMain, sizes);
      hide After;
      var origin := Origin(rect, totalSize);
      var main, cross := MainOf(axis, origin), CrossOf(axis, origin);
      var run := 0;
      rects := [];
      var k := 0;
      while k < |sizes|
        invariant k <= |sizes| && |rects| == k
        invariant var r := After(axis, maxMain, sizes, k);
                  && main == MainOf(axis, origin) + r.rowMain
                  && cross == CrossOf(axis, origin) + r.cross
                  && run == |r.runSizes|
        invariant forall i | 0 <= i < k :: rects[i] == ChildRect(axis, maxMain, sizes, rect, i)
      {
        DrawStep(axis, c, sizes, rect, runSizes, k);
        var size := sizes[k];
        if main + Main(axis, size) > Main(axis, rect.Extents()) {
          main := MainOf(axis, origin);
          cross := cross + runSizes[run];
          run := run + 1;
        }
        rects := rects + [RectAlong(axis, rect, main, cross, size)];
        main := main + Main(axis, size);
        k := k + 1;
      }
    }
  }
}
