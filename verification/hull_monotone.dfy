/**
 * `convexHull` from `ConvexHullFixed.js`: Andrew's monotone chain. The
 * points are sorted by x, then y; a lower chain is built left to right and
 * an upper chain right to left, each popping while the last two points and
 * the new one do not turn strictly left; both chains lose their last point
 * and are concatenated.
 */
module MonotoneChain {
  import opened Base

  /** `cross(a, b, o)`: the z-component of (a - o) x (b - o). */
  function Cross(a: Point, b: Point, o: Point): real {
    (a.x - o.x) * (b.y - o.y) - (a.y - o.y) * (b.x - o.x)
  }

  // ---------------------------------------------------------------------
  // Sorting by x, then y
  // ---------------------------------------------------------------------

  /** `comparison(a, b) <= 0`: a is not after b by x, then y. */
  predicate XYLeq(a: Point, b: Point) {
    a.x < b.x || (a.x == b.x && a.y <= b.y)
  }

  predicate SortedXY(s: seq<Point>) {
    forall i, j :: 0 <= i < j < |s| ==> XYLeq(s[i], s[j])
  }

  function Insert(p: Point, s: seq<Point>): (r: seq<Point>)
    ensures multiset(r) == multiset(s) + multiset{p}
    ensures |r| == |s| + 1
  {
    if |s| == 0 then [p]
    else if XYLeq(p, s[0]) then [p] + s
    else
      assert s == [s[0]] + s[1..];
      [s[0]] + Insert(p, s[1..])
  }

  /** Inserting into a sorted sequence keeps it sorted. */
  lemma {:induction false} InsertSorted(p: Point, s: seq<Point>)
    requires SortedXY(s)
    ensures SortedXY(Insert(p, s))
  {
    if |s| == 0 {
    } else if XYLeq(p, s[0]) {
      var r := Insert(p, s);
      forall i, j | 0 <= i < j < |r|
        ensures XYLeq(r[i], r[j])
      {
        if i > 0 {
          assert r[i] == s[i - 1] && r[j] == s[j - 1];
        } else {
          assert r[j] == s[j - 1];
        }
      }
    } else {
      var t := Insert(p, s[1..]);
      InsertSorted(p, s[1..]);
      var r := [s[0]] + t;
      assert r == Insert(p, s);
      HeadBelowInsert(p, s);
      forall i, j | 0 <= i < j < |r|
        ensures XYLeq(r[i], r[j])
      {
        if i > 0 {
          assert r[i] == t[i - 1] && r[j] == t[j - 1];
        } else {
          assert r[j] == t[j - 1];
        }
      }
    }
  }

  /** When p goes after the head of a sorted sequence, the head stays below
      everything in the insertion into the tail. */
  lemma HeadBelowInsert(p: Point, s: seq<Point>)
    requires SortedXY(s) && |s| > 0 && !XYLeq(p, s[0])
    ensures forall k :: 0 <= k < |Insert(p, s[1..])| ==> XYLeq(s[0], Insert(p, s[1..])[k])
  {
    var t := Insert(p, s[1..]);
    forall k | 0 <= k < |t|
      ensures XYLeq(s[0], t[k])
    {
      assert t[k] in multiset(t);
      if t[k] != p {
        assert t[k] in multiset(s[1..]);
        var i :| 0 <= i < |s[1..]| && s[1..][i] == t[k];
        assert s[i + 1] == t[k];
      }
    }
  }

  /** `points.sort(comparison)`. Points that compare equal are equal, so
      the sorted permutation is unique and stability does not matter. */
  function SortXY(s: seq<Point>): (r: seq<Point>)
    ensures SortedXY(r)
    ensures multiset(r) == multiset(s)
    ensures |r| == |s|
  {
    if |s| == 0 then []
    else
      assert s == [s[0]] + s[1..];
      InsertSorted(s[0], SortXY(s[1..]));
      Insert(s[0], SortXY(s[1..]))
  }

  /** Two sorted arrangements of the same points are identical. */
  lemma {:induction false} SortedUnique(a: seq<Point>, b: seq<Point>)
    requires SortedXY(a) && SortedXY(b)
    requires multiset(a) == multiset(b)
    ensures a == b
    decreases |a|
  {
    if |a| > 0 {
      assert |b| == |multiset(b)| == |a|;
      assert a[0] in multiset(b);
      assert b[0] in multiset(a);
      assert a[0] == b[0] by {
        var i :| 0 <= i < |b| && b[i] == a[0];
        var j :| 0 <= j < |a| && a[j] == b[0];
        assert XYLeq(b[0], a[0]);
        assert XYLeq(a[0], b[0]);
      }
      assert a == [a[0]] + a[1..];
      assert b == [b[0]] + b[1..];
      assert multiset(a) == multiset{a[0]} + multiset(a[1..]);
      assert multiset(b) == multiset{b[0]} + multiset(b[1..]);
      assert multiset(a[1..]) == multiset(a) - multiset{a[0]};
      assert multiset(b[1..]) == multiset(b) - multiset{b[0]};
      SortedUnique(a[1..], b[1..]);
    }
  }

  // ---------------------------------------------------------------------
  // One chain
  // ---------------------------------------------------------------------

  /** Every consecutive triple turns strictly left. */
  predicate StrictlyConvex(l: seq<Point>) {
    forall k :: 0 <= k && k + 2 < |l| ==> Cross(l[k], l[k + 1], l[k + 2]) > 0.0
  }

  /** The `while` loop: pop while at least two points remain and the last
      two with p do not turn strictly left. */
  function PopNonLeft(l: seq<Point>, p: Point): (r: seq<Point>)
    ensures |r| <= |l| && r == l[..|r|]
    ensures |r| >= 2 ==> Cross(r[|r| - 2], r[|r| - 1], p) > 0.0
    ensures |l| >= 1 ==> |r| >= 1
  {
    if |l| >= 2 && Cross(l[|l| - 2], l[|l| - 1], p) <= 0.0 then PopNonLeft(l[..|l| - 1], p)
    else l
  }

  /** Pushing p onto a popped chain keeps it strictly convex when the new
      top turn is strictly left. */
  lemma PushConvex(l: seq<Point>, kept: seq<Point>, p: Point)
    requires StrictlyConvex(l)
    requires |kept| <= |l| && kept == l[..|kept|]
    requires |kept| >= 2 ==> Cross(kept[|kept| - 2], kept[|kept| - 1], p) > 0.0
    requires |l| >= 1 ==> |kept| >= 1
    ensures StrictlyConvex(kept + [p])
    ensures forall q :: q in kept + [p] ==> q in l || q == p
    ensures |l| > 0 ==> (kept + [p])[0] == l[0]
  {
    var pushed := kept + [p];
    forall k | 0 <= k && k + 2 < |pushed|
      ensures Cross(pushed[k], pushed[k + 1], pushed[k + 2]) > 0.0
    {
      if k + 2 < |kept| {
        assert pushed[k] == l[k] && pushed[k + 1] == l[k + 1] && pushed[k + 2] == l[k + 2];
      }
    }
  }

  /** The `for` loop: for each point, pop, then push it. */
  function BuildChain(l: seq<Point>, ps: seq<Point>): (r: seq<Point>)
    requires StrictlyConvex(l)
    ensures StrictlyConvex(r)
    ensures forall q :: q in r ==> q in l || q in ps
    ensures |r| <= |l| + |ps|
    ensures |ps| > 0 ==> |r| >= 1 && r[|r| - 1] == ps[|ps| - 1]
    ensures |l| > 0 ==> |r| >= 1 && r[0] == l[0]
    decreases |ps|
  {
    if |ps| == 0 then l
    else
      var kept := PopNonLeft(l, ps[0]);
      PushConvex(l, kept, ps[0]);
      BuildChain(kept + [ps[0]], ps[1..])
  }

  /** The whole chain in one sweep over ps, starting empty. */
  function Chain(ps: seq<Point>): (r: seq<Point>)
    ensures StrictlyConvex(r)
    ensures forall q :: q in r ==> q in ps
    ensures |r| <= |ps|
    ensures |ps| > 0 ==> |r| >= 1 && r[0] == ps[0] && r[|r| - 1] == ps[|ps| - 1]
  {
    if |ps| == 0 then []
    else
      var r := BuildChain([ps[0]], ps[1..]);
      assert |ps| > 1 ==> ps[|ps| - 1] == ps[1..][|ps[1..]| - 1];
      assert forall q :: q in ps[1..] ==> q in ps;
      r
  }

  /** `Array.prototype.pop` for its effect: drops the last element, and
      does nothing to an empty array. */
  function DropLast<T>(s: seq<T>): (r: seq<T>)
    ensures |s| > 0 ==> r == s[..|s| - 1]
    ensures |s| == 0 ==> r == []
  {
    if |s| == 0 then [] else s[..|s| - 1]
  }

  function ReverseSeq<T>(s: seq<T>): (r: seq<T>)
    ensures |r| == |s|
    ensures forall k :: 0 <= k < |s| ==> r[k] == s[|s| - 1 - k]
  {
    if |s| == 0 then [] else ReverseSeq(s[1..]) + [s[0]]
  }

  /** `convexHull(points)`. */
  function ConvexHull(points: seq<Point>): (hull: seq<Point>)
    ensures forall q :: q in hull ==> q in points
    ensures |points| >= 1 ==> |hull| <= 2 * |points| - 2
    ensures |points| <= 1 ==> hull == []
  {
    var s := SortXY(points);
    var lower := Chain(s);
    var upper := Chain(ReverseSeq(s));
    HullFrom(points, s, lower, upper);
    DropLast(lower) + DropLast(upper)
  }

  /** The two chains, each shortened by one, hold only input points and at
      most 2n - 2 of them. */
  lemma HullFrom(points: seq<Point>, s: seq<Point>, lower: seq<Point>, upper: seq<Point>)
    requires multiset(s) == multiset(points)
    requires forall q :: q in lower ==> q in s
    requires forall q :: q in upper ==> q in ReverseSeq(s)
    requires |lower| <= |s| && |upper| <= |ReverseSeq(s)|
    requires |s| > 0 ==> |lower| >= 1 && |upper| >= 1
    ensures forall q :: q in DropLast(lower) + DropLast(upper) ==> q in points
    ensures |points| >= 1 ==> |DropLast(lower) + DropLast(upper)| <= 2 * |points| - 2
    ensures |points| <= 1 ==> DropLast(lower) + DropLast(upper) == []
  {
    assert |s| == |multiset(s)| == |points|;
    var hull := DropLast(lower) + DropLast(upper);
    forall q | q in hull
      ensures q in points
    {
      assert q in lower || q in upper;
      if q in upper {
        var k :| 0 <= k < |ReverseSeq(s)| && ReverseSeq(s)[k] == q;
        assert q == s[|s| - 1 - k];
      }
      assert q in multiset(s);
    }
  }

  /** Both chains are strictly convex; the lower one runs from the first
      sorted point to the last and the upper one back, and dropping each
      chain's last point keeps every sorted endpoint exactly once at a
      chain boundary: the hull starts at the leftmost point and the upper
      part starts at the rightmost. */
  lemma ConvexHullChains(points: seq<Point>)
    requires |points| >= 2
    ensures StrictlyConvex(Chain(SortXY(points))) && StrictlyConvex(Chain(ReverseSeq(SortXY(points))))
    ensures Chain(SortXY(points))[0] == SortXY(points)[0]
    ensures Chain(SortXY(points))[|Chain(SortXY(points))| - 1] == SortXY(points)[|points| - 1]
    ensures Chain(ReverseSeq(SortXY(points)))[0] == SortXY(points)[|points| - 1]
    ensures Chain(ReverseSeq(SortXY(points)))[|Chain(ReverseSeq(SortXY(points)))| - 1] == SortXY(points)[0]
    ensures ConvexHull(points) == DropLast(Chain(SortXY(points))) + DropLast(Chain(ReverseSeq(SortXY(points))))
  {
    var s := SortXY(points);
    assert |s| == |multiset(s)| == |points|;
    ChainEnds(s);
  }

  /** The endpoints of the two sweeps over one sequence. */
  lemma ChainEnds(s: seq<Point>)
    requires |s| >= 1
    ensures Chain(s)[0] == s[0] && Chain(s)[|Chain(s)| - 1] == s[|s| - 1]
    ensures Chain(ReverseSeq(s))[0] == s[|s| - 1]
    ensures Chain(ReverseSeq(s))[|Chain(ReverseSeq(s))| - 1] == s[0]
  {
    var r := ReverseSeq(s);
    assert r[0] == s[|s| - 1] && r[|r| - 1] == s[0];
  }

  /** A single point has an empty hull. */
  lemma ConvexHullOfOne(a: Point)
    ensures ConvexHull([a]) == []
  {
  }

  /** Two points with distinct x give both, leftmost first, in either order. */
  lemma ConvexHullOfTwo(a: Point, b: Point)
    requires a.x < b.x
    ensures ConvexHull([a, b]) == [a, b]
    ensures ConvexHull([b, a]) == [a, b]
  {
    SortOfTwo(a, b);
    ChainOfTwo(a, b);
    ChainOfTwo(b, a);
    assert ReverseSeq([a, b]) == [b, a];
    assert ConvexHull([a, b]) == DropLast([a, b]) + DropLast([b, a]) == [a, b];
    ConvexHullOrderIndependent([a, b], [b, a]);
  }

  /** Two points with distinct x sort leftmost first. */
  lemma SortOfTwo(a: Point, b: Point)
    requires a.x < b.x
    ensures SortXY([a, b]) == [a, b]
  {
    assert [a, b][1..] == [b];
    assert SortXY([b]) == [b];
    assert Insert(a, [b]) == [a, b];
  }

  /** A chain over two points keeps both. */
  lemma ChainOfTwo(a: Point, b: Point)
    ensures Chain([a, b]) == [a, b]
  {
    assert PopNonLeft([a], b) == [a];
    assert BuildChain([a], [b]) == BuildChain([a, b], []) == [a, b];
  }

  /** The result depends only on the points, not on their input order. */
  lemma ConvexHullOrderIndependent(p: seq<Point>, q: seq<Point>)
    requires multiset(p) == multiset(q)
    ensures ConvexHull(p) == ConvexHull(q)
  {
    SortedUnique(SortXY(p), SortXY(q));
  }
}
