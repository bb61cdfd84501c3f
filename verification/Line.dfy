/** Canvas::drawLine with thickness 1 (libs/rMlib/Canvas.cpp:206-237). */
module Line {
  import opened Geometry

  // ----- Reference definition: the pixels of a line in closed form

  function Major(start: Point, end: Point): nat {
    Max(Abs(end.x - start.x), Abs(end.y - start.y))
  }

  function Minor(start: Point, end: Point): nat {
    Min(Abs(end.x - start.x), Abs(end.y - start.y))
  }

  function Direction(from: int, to: int): int { if from < to then 1 else -1 }

  /** Minor steps taken once `i` major steps are taken: `i * minor / major`, rounded with halves going down. */
  function MinorSteps(i: nat, minor: nat, major: nat): (k: int)
    requires major > 0
    ensures 0 <= k * major - (i * minor - major / 2) < major
  {
    -((major / 2 - i * minor) / major)
  }

  /** The pixel reached after `i` major steps. */
  function LinePoint(start: Point, end: Point, i: nat): Point {
    var dx, dy := Abs(end.x - start.x), Abs(end.y - start.y);
    var sx, sy := Direction(start.x, end.x), Direction(start.y, end.y);
    if dx > dy then Point(start.x + sx * i, start.y + sy * MinorSteps(i, dy, dx))
    else if dy > 0 then Point(start.x + sx * MinorSteps(i, dx, dy), start.y + sy * i)
    else start
  }

  function LinePixels(start: Point, end: Point): seq<Point> {
    seq(Major(start, end) + 1, i requires 0 <= i => LinePoint(start, end, i))
  }

  // ----- What the reference definition means

  /** Multiples of `m` that differ are at least `m` apart. */
  lemma MultiplesApart(a: int, b: int, m: nat)
    requires a < b
    ensures a * m + m <= b * m
  {
    var d := b - a - 1;
    assert b * m == a * m + m + d * m by {
      assert b == a + 1 + d;
    }
    assert d * m >= 0;
  }

  lemma MinorStepsUnique(i: nat, minor: nat, major: nat, k: int)
    requires major > 0
    requires 0 <= k * major - (i * minor - major / 2) < major
    ensures k == MinorSteps(i, minor, major)
  {
    var k' := MinorSteps(i, minor, major);
    if k < k' { MultiplesApart(k, k', major); }
    if k' < k { MultiplesApart(k', k, major); }
  }

  lemma MinorStepsEnds(minor: nat, major: nat)
    requires major > 0
    ensures MinorSteps(0, minor, major) == 0
    ensures MinorSteps(major, minor, major) == minor
  {
    MinorStepsUnique(0, minor, major, 0);
    MinorStepsUnique(major, minor, major, minor);
  }

  lemma MinorStepsAdvance(i: nat, minor: nat, major: nat)
    requires 0 < major && minor <= major
    ensures 0 <= MinorSteps(i + 1, minor, major) - MinorSteps(i, minor, major) <= 1
  {
    var k, k1 := MinorSteps(i, minor, major), MinorSteps(i + 1, minor, major);
    assert (i + 1) * minor == i * minor + minor;
    if k1 < k { MultiplesApart(k1, k, major); }
    if k + 1 < k1 {
      MultiplesApart(k, k + 1, major);
      MultiplesApart(k + 1, k1, major);
    }
  }

  /** Rounding is exact to half a pixel, starts at 0, ends at `minor`, and moves by at most one a step. */
  lemma MinorStepsRound(i: nat, minor: nat, major: nat)
    requires 0 < major && minor <= major && i <= major
    ensures 2 * Abs(MinorSteps(i, minor, major) * major - i * minor) <= major
    ensures 0 <= MinorSteps(i, minor, major) <= minor
    ensures 0 <= MinorSteps(i + 1, minor, major) - MinorSteps(i, minor, major) <= 1
  {
    MinorStepsAdvance(i, minor, major);
    var k := MinorSteps(i, minor, major);
    MulAtMost(i, major, minor);
    if k < 0 { MultiplesApart(k, 0, major); }
    if minor < k { MultiplesApart(minor, k, major); }
  }

  lemma MulAtMost(i: nat, j: nat, m: nat)
    requires i <= j
    ensures 0 <= i * m <= m * j
  {
    if i < j { MultiplesApart(i, j, m); }
  }

  /** The offsets of the `i`-th pixel from the start, along the two axes of the line. */
  function MajorOffset(start: Point, end: Point, p: Point): nat {
    if Abs(end.x - start.x) > Abs(end.y - start.y) then Abs(p.x - start.x) else Abs(p.y - start.y)
  }

  function MinorOffset(start: Point, end: Point, p: Point): nat {
    if Abs(end.x - start.x) > Abs(end.y - start.y) then Abs(p.y - start.y) else Abs(p.x - start.x)
  }

  /** Every pixel is within half a pixel of the ideal line, measured along the minor axis. */
  lemma WithinHalfAPixel(start: Point, end: Point, i: nat)
    requires i <= Major(start, end)
    ensures var p := LinePoint(start, end, i);
            && MajorOffset(start, end, p) == i
            && 2 * Abs(MinorOffset(start, end, p) * Major(start, end) - i * Minor(start, end)) <= Major(start, end)
  {
    if Major(start, end) > 0 {
      MinorStepsRound(i, Minor(start, end), Major(start, end));
    }
  }

  lemma Endpoints(start: Point, end: Point)
    ensures LinePoint(start, end, 0) == start
    ensures LinePoint(start, end, Major(start, end)) == end
    ensures forall i: nat | i <= Major(start, end) :: LinePoint(start, end, i) == end ==> i == Major(start, end)
  {
    if Major(start, end) > 0 {
      MinorStepsEnds(Minor(start, end), Major(start, end));
      forall i: nat | i <= Major(start, end) && LinePoint(start, end, i) == end ensures i == Major(start, end) {
        WithinHalfAPixel(start, end, i);
      }
    }
  }

  /** Consecutive pixels touch (possibly at a corner) and none is visited twice. */
  lemma Connected(start: Point, end: Point, i: nat)
    requires i < Major(start, end)
    ensures var p, q := LinePoint(start, end, i), LinePoint(start, end, i + 1);
            p != q && Abs(q.x - p.x) <= 1 && Abs(q.y - p.y) <= 1
    ensures forall j: nat | i < j <= Major(start, end) :: LinePoint(start, end, j) != LinePoint(start, end, i)
  {
    MinorStepsRound(i, Minor(start, end), Major(start, end));
  }

  /** The rectangle spanned by two corners given in any order. */
  function BoundingBox(a: Point, b: Point): Rect {
    Rect(Point(Min(a.x, b.x), Min(a.y, b.y)), Point(Max(a.x, b.x), Max(a.y, b.y)))
  }

  lemma InBoundingBox(start: Point, end: Point, i: nat)
    requires i <= Major(start, end)
    ensures BoundingBox(start, end).Contains(LinePoint(start, end, i))
  {
    if Major(start, end) > 0 {
      MinorStepsRound(i, Minor(start, end), Major(start, end));
    }
  }

  // ----- The canvas and the drawing loop

  /** The error term of the loop after `i` steps along the longer axis. */
  function ErrorAfter(dx: nat, dy: nat, i: nat): int {
    if dx > dy then dx / 2 - i * dy + MinorSteps(i, dy, dx) * dx
    else if dy > 0 then -(dy / 2) + i * dx - MinorSteps(i, dx, dy) * dy
    else 0
  }

  /** Rounding keeps the error term in one period, so one step of it tells whether the rounded value moves. */
  lemma RoundingStep(i: nat, minor: nat, major: nat)
    requires 0 < major && minor <= major
    ensures var k := MinorSteps(i, minor, major);
            var r := k * major - i * minor + major / 2 - minor;
            && MinorSteps(i + 1, minor, major) == (if r < 0 then k + 1 else k)
            && MinorSteps(i + 1, minor, major) * major == k * major + (if r < 0 then major else 0)
            && (i + 1) * minor == i * minor + minor
  {
    var k := MinorSteps(i, minor, major);
    var r := k * major - i * minor + major / 2 - minor;
    assert (k + 1) * major == k * major + major;
    assert (i + 1) * minor == i * minor + minor;
    MinorStepsUnique(i + 1, minor, major, if r < 0 then k + 1 else k);
  }

  /** The two tests of the loop take one major step, and a minor step exactly when the reference does. */
  lemma ErrorStep(dx: int, dy: int, i: nat)
    requires dx >= 0 && dy >= 0 && 0 < Max(dx, dy)
    ensures var e := ErrorAfter(dx, dy, i);
            var k, k1 := MinorSteps(i, Min(dx, dy), Max(dx, dy)), MinorSteps(i + 1, Min(dx, dy), Max(dx, dy));
            && (dx > dy ==> e > -dx && k1 == if e < dy then k + 1 else k)
            && (dx <= dy ==> e < dy && k1 == if e > -dx then k + 1 else k)
            && ErrorAfter(dx, dy, i + 1) == e - (if e > -dx then dy else 0) + (if e < dy then dx else 0)
  {
    RoundingStep(i, Min(dx, dy), Max(dx, dy));
  }

  lemma ErrorStart(dx: int, dy: int)
    requires dx >= 0 && dy >= 0
    ensures ErrorAfter(dx, dy, 0) == TruncDiv(if dx > dy then dx else -dy, 2)
  {
    if 0 < Max(dx, dy) { MinorStepsEnds(Min(dx, dy), Max(dx, dy)); }
  }

  lemma LoopStep(from: Point, end: Point, i: nat)
    requires i < Major(from, end)
    ensures var dx: int, dy: int := Abs(end.x - from.x), Abs(end.y - from.y);
            var e, p, q := ErrorAfter(dx, dy, i), LinePoint(from, end, i), LinePoint(from, end, i + 1);
            && ErrorAfter(dx, dy, i + 1) == e - (if e > -dx then dy else 0) + (if e < dy then dx else 0)
            && q.x == p.x + (if e > -dx then Direction(from.x, end.x) else 0)
            && q.y == p.y + (if e < dy then Direction(from.y, end.y) else 0)
  {
    ErrorStep(Abs(end.x - from.x), Abs(end.y - from.y), i);
    var s, k := Direction(from.x, end.x), MinorSteps(i, Minor(from, end), Major(from, end));
    assert s * (k + 1) == s * k + s && s * (i + 1) == s * i + s;
    var t := Direction(from.y, end.y);
    assert t * (k + 1) == t * k + t && t * (i + 1) == t * i + t;
  }

  class Canvas {
    const width: nat
    const height: nat
    const pixels: array2<int>

    ghost predicate Valid() { pixels.Length0 == height && pixels.Length1 == width }

    predicate InCanvas(p: Point) { 0 <= p.x < width && 0 <= p.y < height }

    function At(p: Point): int
      requires Valid() && InCanvas(p)
      reads pixels
    {
      pixels[p.y, p.x]
    }

    constructor (width: nat, height: nat)
      ensures Valid() && this.width == width && this.height == height && fresh(pixels)
    {
      this.width, this.height := width, height;
      pixels := new int[height, width]((_, _) => 0);
    }

    method SetPixel(p: Point, val: int)
      requires Valid() && InCanvas(p)
      modifies pixels
      ensures forall q | InCanvas(q) :: At(q) == if q == p then val else old(At(q))
    {
      pixels[p.y, p.x] := val;
    }

    /** Writes exactly the pixels of the reference line; the loop leaves only on hitting `end`. */
    method DrawLine(from: Point, end: Point, val: int)
      requires Valid() && InCanvas(from) && InCanvas(end)
      modifies pixels
      ensures forall q | InCanvas(q) :: At(q) == if q in LinePixels(from, end) then val else old(At(q))
    {
      hide LinePoint, ErrorAfter;
      var start := from;
      var dx: int, sx := Abs(end.x - start.x), Direction(start.x, end.x);
      var dy: int, sy := Abs(end.y - start.y), Direction(start.y, end.y);
      var err := TruncDiv(if dx > dy then dx else -dy, 2);

      ghost var i: nat := 0;
      ghost var line := LinePixels(from, end);
      Endpoints(from, end);
      ErrorStart(dx, dy);
      while true
        invariant i < |line| && start == line[i] && err == ErrorAfter(dx, dy, i)
        invariant forall q | InCanvas(q) :: At(q) == if q in line[..i] then val else old(At(q))
        decreases |line| - i
      {
        InBoundingBox(from, end, i);
        assert line[..i + 1] == line[..i] + [start];
        SetPixel(start, val);
        if start == end { break; }

        LoopStep(from, end, i);
        assert line[i + 1] == LinePoint(from, end, i + 1);
        var e2 := err;
        if e2 > -dx {
          err := err - dy;
          start := start.(x := start.x + sx);
        }
        if e2 < dy {
          err := err + dx;
          start := start.(y := start.y + sy);
        }
        i := i + 1;
      }
      assert line[..i + 1] == line;
    }
  }
}
