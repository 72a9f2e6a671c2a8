/**
 * `computeConvexHull` from `ConveHullCalculator.js`: a Graham scan. The
 * pivot (lowest y, then lowest x) is taken out, the other points are
 * sorted by their angle around it, the last sorted point is copied in front
 * as a sentinel and the pivot placed after it, and a stack is built that
 * pops while the last two points and the next one do not turn clockwise.
 * The array is mutated in place; here the slots 0..m are the stack.
 */
module GrahamScan {
  import opened Base

  /** `ccw(p1, p2, p3)`: the z-component of (p2 - p1) x (p3 - p1). */
  function Ccw(p1: Point, p2: Point, p3: Point): real {
    (p2.x - p1.x) * (p3.y - p1.y) - (p2.y - p1.y) * (p3.x - p1.x)
  }

  // ---------------------------------------------------------------------
  // The pivot
  // ---------------------------------------------------------------------

  /** The comparator handed to `min` is negative exactly when b is strictly
      lower than a: smaller y, or equal y and smaller x. */
  predicate YXLess(b: Point, a: Point) {
    b.y < a.y || (b.y == a.y && b.x < a.x)
  }

  /** The loop of `min`: i is the current choice, j the next candidate;
      a candidate replaces i only when strictly lower. */
  function PivotFrom(pts: seq<Point>, i: nat, j: nat): (k: nat)
    requires i < j <= |pts|
    requires forall t :: 0 <= t < j ==> !YXLess(pts[t], pts[i])
    requires forall t :: 0 <= t < i ==> YXLess(pts[i], pts[t])
    ensures k < |pts|
    ensures forall t :: 0 <= t < |pts| ==> !YXLess(pts[t], pts[k])
    ensures forall t :: 0 <= t < k ==> YXLess(pts[k], pts[t])
    decreases |pts| - j
  {
    if j == |pts| then i
    else if YXLess(pts[j], pts[i]) then
      assert forall t :: 0 <= t < j ==> YXLess(pts[j], pts[t]) && !YXLess(pts[t], pts[j]) by {
        forall t | 0 <= t < j
          ensures YXLess(pts[j], pts[t]) && !YXLess(pts[t], pts[j])
        {
          assert !YXLess(pts[t], pts[i]);
        }
      }
      PivotFrom(pts, j, j + 1)
    else PivotFrom(pts, i, j + 1)
  }

  /** `min(points, fn)`: -1 for no points, otherwise the index of the first
      point with the lowest y, ties broken by the lowest x. */
  function PivotIndex(pts: seq<Point>): (k: int)
    ensures |pts| == 0 <==> k == -1
    ensures |pts| > 0 ==> 0 <= k < |pts|
    ensures |pts| > 0 ==> forall t :: 0 <= t < |pts| ==> !YXLess(pts[t], pts[k])
    ensures |pts| > 0 ==> forall t :: 0 <= t < k ==> YXLess(pts[k], pts[t])
  {
    if |pts| == 0 then -1 else PivotFrom(pts, 0, 1)
  }

  /** The pivot is lowest and, among the lowest, leftmost. */
  lemma PivotIsLowestLeftmost(pts: seq<Point>)
    requires |pts| > 0
    ensures var p := pts[PivotIndex(pts)];
            forall t :: 0 <= t < |pts| ==>
              p.y < pts[t].y || (p.y == pts[t].y && p.x <= pts[t].x)
  {
  }

  // ---------------------------------------------------------------------
  // The scan
  // ---------------------------------------------------------------------

  /** The inner `while` as written: pop while ccw(points[m-1], points[m], q)
      >= 0. Once only the sentinel is left (m == 0) the next test reads
      points[-1], which is undefined, and the call throws: None. */
  function PopAsWritten(stack: seq<Point>, q: Point): (r: Option<seq<Point>>)
    ensures r.Some? ==> 2 <= |r.value| <= |stack| && r.value == stack[..|r.value|]
    ensures r.Some? ==> Ccw(r.value[|r.value| - 2], r.value[|r.value| - 1], q) < 0.0
  {
    if |stack| < 2 then None
    else if Ccw(stack[|stack| - 2], stack[|stack| - 1], q) >= 0.0 then PopAsWritten(stack[..|stack| - 1], q)
    else Some(stack)
  }

  /** The turns the scan keeps: from the pivot on, every consecutive triple
      turns clockwise (the loop never examines the sentinel's own turn). */
  predicate ClockwiseFromPivot(st: seq<Point>) {
    forall k :: 1 <= k && k + 2 < |st| ==> Ccw(st[k], st[k + 1], st[k + 2]) < 0.0
  }

  /** The outer `for` as written, over the sorted points not yet seen. */
  function ScanAsWritten(stack: seq<Point>, rest: seq<Point>): (r: Option<seq<Point>>)
    requires |stack| >= 2
    ensures r.Some? ==> |r.value| >= 2 && r.value[..2] == stack[..2]
    ensures r.Some? && |stack| >= 3 ==> |r.value| >= 3
    ensures r.Some? ==> |r.value| <= |stack| + |rest|
    ensures r.Some? && ClockwiseFromPivot(stack) ==> ClockwiseFromPivot(r.value)
    ensures r.Some? ==> forall q :: q in r.value ==> q in stack || q in rest
    decreases |rest|
  {
    if |rest| == 0 then Some(stack)
    else
      match PopAsWritten(stack, rest[0])
      case None => None
      case Some(kept) =>
        PushKeeps(stack, kept, rest[0]);
        ScanAsWritten(kept + [rest[0]], rest[1..])
  }

  /** Pushing q onto a popped stack keeps the clockwise turns, provided the
      new top turn is clockwise or starts at the sentinel. */
  lemma PushKeeps(stack: seq<Point>, kept: seq<Point>, q: Point)
    requires 2 <= |kept| <= |stack| && kept == stack[..|kept|]
    requires |kept| > 2 ==> Ccw(kept[|kept| - 2], kept[|kept| - 1], q) < 0.0
    ensures ClockwiseFromPivot(stack) ==> ClockwiseFromPivot(kept + [q])
    ensures forall x :: x in kept + [q] ==> x in stack || x == q
  {
    var pushed := kept + [q];
    if ClockwiseFromPivot(stack) {
      forall k | 1 <= k && k + 2 < |pushed|
        ensures Ccw(pushed[k], pushed[k + 1], pushed[k + 2]) < 0.0
      {
        if k + 2 < |kept| {
          assert pushed[k] == stack[k] && pushed[k + 1] == stack[k + 1] && pushed[k + 2] == stack[k + 2];
        }
      }
    }
  }

  /** What `computeConvexHull` hands back. For fewer than two points the
      returned array holds null or undefined entries and is unusable; a
      scan that pops down to the sentinel throws. */
  datatype HullOutcome = Hull(vertices: seq<Point>) | TooFewPoints | ScanUnderflow

  /** The sorted remainder: every point except the pivot, once each. */
  predicate IsRemainder(points: seq<Point>, pivot: Point, sorted: seq<Point>) {
    multiset(sorted) + multiset{pivot} == multiset(points)
  }

  /** `computeConvexHull(points)` as written. The angular order is not
      computed here: `sorted` is the remainder after the pivot in the order
      the comparator produced. The slots are [last sorted, pivot, sorted...],
      the stack starts as the first three, and the result drops the top. */
  function GrahamAsWritten(points: seq<Point>, sorted: seq<Point>): (h: HullOutcome)
    requires |points| >= 1 ==> IsRemainder(points, points[PivotIndex(points)], sorted)
    ensures |points| < 2 <==> h.TooFewPoints?
    ensures h.Hull? ==> 2 <= |h.vertices| <= |points|
    ensures h.Hull? ==> |sorted| > 0 && h.vertices[0] == sorted[|sorted| - 1]
    ensures h.Hull? ==> h.vertices[1] == points[PivotIndex(points)]
    ensures h.Hull? ==> ClockwiseFromPivot(h.vertices)
    ensures h.Hull? ==> forall q :: q in h.vertices ==> q in points
  {
    if |points| < 2 then TooFewPoints
    else
      var pivot := points[PivotIndex(points)];
      RemainderFacts(points, pivot, sorted);
      var start := [sorted[|sorted| - 1], pivot, sorted[0]];
      match ScanAsWritten(start, sorted[1..])
      case None => ScanUnderflow
      case Some(st) =>
        assert st[..2] == start[..2];
        assert st[0] == start[0] && st[1] == start[1];
        HullFromStack(points, sorted, start, st);
        Hull(st[..|st| - 1])
  }

  /** The remainder has one point fewer than the input, all taken from it. */
  lemma RemainderFacts(points: seq<Point>, pivot: Point, sorted: seq<Point>)
    requires IsRemainder(points, pivot, sorted)
    requires pivot in points
    ensures |sorted| == |points| - 1
    ensures forall q :: q in sorted ==> q in points
  {
    assert |multiset(sorted) + multiset{pivot}| == |multiset(points)|;
    forall q | q in sorted
      ensures q in points
    {
      assert q in multiset(sorted);
      assert q in multiset(points);
    }
  }

  /** The final stack, minus its top, has between 2 and n points, all from the input. */
  lemma HullFromStack(points: seq<Point>, sorted: seq<Point>, start: seq<Point>, st: seq<Point>)
    requires |sorted| == |points| - 1 >= 1
    requires forall q :: q in sorted ==> q in points
    requires |start| == 3 && start[0] == sorted[|sorted| - 1] && start[1] in points && start[2] == sorted[0]
    requires 3 <= |st| <= |start| + |sorted[1..]|
    requires forall q :: q in st ==> q in start || q in sorted[1..]
    ensures 2 <= |st[..|st| - 1]| <= |points|
    ensures forall q :: q in st[..|st| - 1] ==> q in points
  {
    forall q | q in st[..|st| - 1]
      ensures q in points
    {
      assert q in st;
      if q in sorted[1..] {
        var k :| 0 <= k < |sorted[1..]| && sorted[1..][k] == q;
        assert q == sorted[k + 1];
      }
    }
  }

  // ---------------------------------------------------------------------
  // The scan with its evidently intended bound
  // ---------------------------------------------------------------------

  /** The intended pop: never below the sentinel and the pivot. */
  function PopBounded(stack: seq<Point>, q: Point): (r: seq<Point>)
    requires |stack| >= 2
    ensures 2 <= |r| <= |stack| && r == stack[..|r|]
    ensures |r| > 2 ==> Ccw(r[|r| - 2], r[|r| - 1], q) < 0.0
  {
    if |stack| > 2 && Ccw(stack[|stack| - 2], stack[|stack| - 1], q) >= 0.0 then PopBounded(stack[..|stack| - 1], q)
    else stack
  }

  function ScanBounded(stack: seq<Point>, rest: seq<Point>): (r: seq<Point>)
    requires |stack| >= 2
    ensures |r| >= 2 && r[..2] == stack[..2]
    ensures |stack| >= 3 ==> |r| >= 3
    ensures |r| <= |stack| + |rest|
    ensures ClockwiseFromPivot(stack) ==> ClockwiseFromPivot(r)
    ensures forall q :: q in r ==> q in stack || q in rest
    decreases |rest|
  {
    if |rest| == 0 then stack
    else
      var kept := PopBounded(stack, rest[0]);
      PushKeeps(stack, kept, rest[0]);
      ScanBounded(kept + [rest[0]], rest[1..])
  }

  /** The Graham scan with the bounded pop: every input of two or more
      points yields a hull. */
  function Graham(points: seq<Point>, sorted: seq<Point>): (h: HullOutcome)
    requires |points| >= 1 ==> IsRemainder(points, points[PivotIndex(points)], sorted)
    ensures |points| < 2 <==> h.TooFewPoints?
    ensures !h.ScanUnderflow?
    ensures h.Hull? ==> 2 <= |h.vertices| <= |points|
    ensures h.Hull? ==> |sorted| > 0 && h.vertices[0] == sorted[|sorted| - 1]
    ensures h.Hull? ==> h.vertices[1] == points[PivotIndex(points)]
    ensures h.Hull? ==> ClockwiseFromPivot(h.vertices)
    ensures h.Hull? ==> forall q :: q in h.vertices ==> q in points
  {
    if |points| < 2 then TooFewPoints
    else
      var pivot := points[PivotIndex(points)];
      RemainderFacts(points, pivot, sorted);
      var start := [sorted[|sorted| - 1], pivot, sorted[0]];
      var st := ScanBounded(start, sorted[1..]);
      assert st[..2] == start[..2];
      assert st[0] == start[0] && st[1] == start[1];
      HullFromStack(points, sorted, start, st);
      Hull(st[..|st| - 1])
  }

  lemma {:induction false} PopAgrees(stack: seq<Point>, q: Point)
    requires |stack| >= 2
    requires PopAsWritten(stack, q).Some?
    ensures PopBounded(stack, q) == PopAsWritten(stack, q).value
    decreases |stack|
  {
    if Ccw(stack[|stack| - 2], stack[|stack| - 1], q) >= 0.0 {
      if |stack| > 2 {
        PopAgrees(stack[..|stack| - 1], q);
      }
    }
  }

  lemma {:induction false} ScanAgrees(stack: seq<Point>, rest: seq<Point>)
    requires |stack| >= 2
    requires ScanAsWritten(stack, rest).Some?
    ensures ScanBounded(stack, rest) == ScanAsWritten(stack, rest).value
    decreases |rest|
  {
    if |rest| > 0 {
      PopAgrees(stack, rest[0]);
      var kept := PopAsWritten(stack, rest[0]).value;
      ScanAgrees(kept + [rest[0]], rest[1..]);
    }
  }

  /** Wherever the scan as written returns, the bounded scan returns the
      same hull. */
  lemma GrahamAgrees(points: seq<Point>, sorted: seq<Point>)
    requires |points| >= 1 ==> IsRemainder(points, points[PivotIndex(points)], sorted)
    requires !GrahamAsWritten(points, sorted).ScanUnderflow?
    ensures Graham(points, sorted) == GrahamAsWritten(points, sorted)
  {
    if |points| >= 2 {
      var pivot := points[PivotIndex(points)];
      RemainderFacts(points, pivot, sorted);
      ScanAgrees([sorted[|sorted| - 1], pivot, sorted[0]], sorted[1..]);
    }
  }

  /** Which pop the scan uses: the one as written, which throws once it
      pops past the bottom of the stack, or the one that stops at the pivot. */
  datatype PopRule = Unbounded | StopAtPivot

  /** The Graham scan under a pop rule. Only the rule as written can throw,
      and wherever it does not, both rules give the bounded scan's hull. */
  function Scan(rule: PopRule, points: seq<Point>, sorted: seq<Point>): (h: HullOutcome)
    requires |points| >= 1 ==> IsRemainder(points, points[PivotIndex(points)], sorted)
    ensures |points| < 2 <==> h.TooFewPoints?
    ensures h.ScanUnderflow? <==> rule.Unbounded? && GrahamAsWritten(points, sorted).ScanUnderflow?
    ensures !h.ScanUnderflow? ==> h == Graham(points, sorted)
    ensures h.Hull? ==> 2 <= |h.vertices| <= |points|
    ensures h.Hull? ==> forall q :: q in h.vertices ==> q in points
  {
    match rule
    case Unbounded =>
      var h := GrahamAsWritten(points, sorted);
      if h.ScanUnderflow? then h
      else
        GrahamAgrees(points, sorted);
        h
    case StopAtPivot => Graham(points, sorted)
  }

  /** Three points on a vertical line: the scan as written pops the pivot's
      successor, then tests the sentinel, pivot and next point (collinear
      again), pops down to the sentinel alone and throws. */
  lemma CollinearUnderflow()
    ensures var pts := [Point(0.0, 0.0), Point(0.0, 1.0), Point(0.0, 2.0)];
            var sorted := [Point(0.0, 1.0), Point(0.0, 2.0)];
            && PivotIndex(pts) == 0
            && IsRemainder(pts, pts[0], sorted)
            && GrahamAsWritten(pts, sorted) == ScanUnderflow
            && Graham(pts, sorted) == Hull([Point(0.0, 2.0), Point(0.0, 0.0)])
  {
    CollinearWritten();
    CollinearBounded();
  }

  lemma CollinearWritten()
    ensures var pts := [Point(0.0, 0.0), Point(0.0, 1.0), Point(0.0, 2.0)];
            var sorted := [Point(0.0, 1.0), Point(0.0, 2.0)];
            && PivotIndex(pts) == 0
            && IsRemainder(pts, pts[0], sorted)
            && GrahamAsWritten(pts, sorted) == ScanUnderflow
  {
    var a, b, c := Point(0.0, 0.0), Point(0.0, 1.0), Point(0.0, 2.0);
    assert PivotIndex([a, b, c]) == 0;
    assert multiset([b, c]) + multiset{a} == multiset([a, b, c]);
    assert Ccw(a, b, c) == 0.0;
    assert Ccw(c, a, c) == 0.0;
    assert [c, a, b][..2] == [c, a] && [c, a][..1] == [c];
    assert PopAsWritten([c], c) == None;
    assert PopAsWritten([c, a], c) == None;
    assert PopAsWritten([c, a, b], c) == None;
    assert [b, c][1..] == [c];
    assert ScanAsWritten([c, a, b], [c]) == None;
  }

  lemma CollinearBounded()
    ensures var pts := [Point(0.0, 0.0), Point(0.0, 1.0), Point(0.0, 2.0)];
            var sorted := [Point(0.0, 1.0), Point(0.0, 2.0)];
            && PivotIndex(pts) == 0
            && IsRemainder(pts, pts[0], sorted)
            && Graham(pts, sorted) == Hull([Point(0.0, 2.0), Point(0.0, 0.0)])
  {
    var a, b, c := Point(0.0, 0.0), Point(0.0, 1.0), Point(0.0, 2.0);
    assert PivotIndex([a, b, c]) == 0;
    assert multiset([b, c]) + multiset{a} == multiset([a, b, c]);
    assert Ccw(a, b, c) == 0.0;
    assert Ccw(c, a, c) == 0.0;
    assert [c, a, b][..2] == [c, a] && [b, c][1..] == [c];
    assert PopBounded([c, a, b], c) == [c, a];
    assert ScanBounded([c, a, b], [c]) == ScanBounded([c, a, c], []) == [c, a, c];
  }

}
