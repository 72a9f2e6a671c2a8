/**
 * The planar geometry kernel of `Utils.js`: flat and paired coordinate
 * arrays, the shoelace area, ray-casting point-in-polygon and the five-point
 * electrode stencil, distances to segments, vector angles, segment
 * intersection and the forearm trapezoid dimensions.
 */
module Geometry {
  import opened Base

  // ---------------------------------------------------------------------
  // Flat coordinate arrays [x0, y0, x1, y1, ...] and arrays of points
  // ---------------------------------------------------------------------

  /** `convert2DArrayTo1D`: interleave the coordinates of the points. */
  function Flatten(ps: seq<Point>): (flat: seq<real>)
    ensures |flat| == 2 * |ps|
    ensures forall i :: 0 <= i < |ps| ==> flat[2 * i] == ps[i].x && flat[2 * i + 1] == ps[i].y
  {
    if |ps| == 0 then [] else [ps[0].x, ps[0].y] + Flatten(ps[1..])
  }

  /** `convert1DArrayTo2D`: group an even-length flat array into points;
      an odd-length array gives the empty list. */
  function Pairs(flat: seq<real>): (ps: seq<Point>)
    ensures |flat| % 2 == 1 ==> ps == []
    ensures |flat| % 2 == 0 ==> |ps| == |flat| / 2
    ensures |flat| % 2 == 0 ==> forall i :: 0 <= i < |ps| ==> ps[i] == Point(flat[2 * i], flat[2 * i + 1])
  {
    if |flat| % 2 == 1 then [] else PairsEven(flat)
  }

  function PairsEven(flat: seq<real>): (ps: seq<Point>)
    requires |flat| % 2 == 0
    ensures |ps| == |flat| / 2
    ensures forall i :: 0 <= i < |ps| ==> ps[i] == Point(flat[2 * i], flat[2 * i + 1])
  {
    if |flat| == 0 then [] else [Point(flat[0], flat[1])] + PairsEven(flat[2..])
  }

  /** Pairing undoes flattening. */
  lemma PairsOfFlatten(ps: seq<Point>)
    ensures Pairs(Flatten(ps)) == ps
  {
  }

  /** Flattening undoes pairing on every even-length array. */
  lemma FlattenOfPairs(flat: seq<real>)
    requires |flat| % 2 == 0
    ensures Flatten(Pairs(flat)) == flat
  {
    var ps := Pairs(flat);
    var r := Flatten(ps);
    assert |r| == |flat|;
    forall k | 0 <= k < |flat|
      ensures r[k] == flat[k]
    {
      var i := k / 2;
      assert ps[i] == Point(flat[2 * i], flat[2 * i + 1]);
      if k % 2 == 0 {
        assert k == 2 * i;
      } else {
        assert k == 2 * i + 1;
      }
    }
  }

  /** `getXCoords`: the entries at even positions. */
  function XCoords(flat: seq<real>): (xs: seq<real>)
    ensures |xs| == (|flat| + 1) / 2
    ensures forall i :: 0 <= i < |xs| ==> xs[i] == flat[2 * i]
  {
    if |flat| == 0 then [] else if |flat| == 1 then [flat[0]] else [flat[0]] + XCoords(flat[2..])
  }

  /** `getYCoords`: the entries at odd positions. */
  function YCoords(flat: seq<real>): (ys: seq<real>)
    ensures |ys| == |flat| / 2
    ensures forall i :: 0 <= i < |ys| ==> ys[i] == flat[2 * i + 1]
  {
    if |flat| < 2 then [] else [flat[1]] + YCoords(flat[2..])
  }

  /** Splitting a flattened point list gives back its x and y columns. */
  lemma CoordsOfFlatten(ps: seq<Point>)
    ensures |XCoords(Flatten(ps))| == |ps| == |YCoords(Flatten(ps))|
    ensures forall i :: 0 <= i < |ps| ==> XCoords(Flatten(ps))[i] == ps[i].x
    ensures forall i :: 0 <= i < |ps| ==> YCoords(Flatten(ps))[i] == ps[i].y
  {
  }

  /** Points (xs[i], ys[i]) for i < n. */
  function Zip(xs: seq<real>, ys: seq<real>, n: nat): (ps: seq<Point>)
    requires n <= |xs| && n <= |ys|
    ensures |ps| == n
    ensures forall i :: 0 <= i < n ==> ps[i] == Point(xs[i], ys[i])
  {
    if n == 0 then [] else Zip(xs, ys, n - 1) + [Point(xs[n - 1], ys[n - 1])]
  }

  // ---------------------------------------------------------------------
  // Shoelace area (`polygonArea`)
  // ---------------------------------------------------------------------

  /** The shoelace term of the edge from a to b, after `parseInt` of each coordinate. */
  function EdgeTerm(a: Point, b: Point): int {
    (Trunc(a.x) + Trunc(b.x)) * (Trunc(a.y) - Trunc(b.y))
  }

  /** Sum of the edge terms along the open path s[0], s[1], ..., s[|s|-1]. */
  function PathSum(s: seq<Point>): int {
    if |s| < 2 then 0 else EdgeTerm(s[0], s[1]) + PathSum(s[1..])
  }

  /** Sum of the edge terms around the closed polygon: the closing edge runs
      from the last vertex to the first, as `j = numPoints - 1` starts it. */
  function ShoelaceSum(s: seq<Point>): int {
    if |s| == 0 then 0 else EdgeTerm(s[|s| - 1], s[0]) + PathSum(s)
  }

  /** `polygonArea(X, Y, numPoints)`: half the absolute shoelace sum of the
      first numPoints vertices, every coordinate truncated by `parseInt`. */
  function PolygonArea(xs: seq<real>, ys: seq<real>, n: nat): (area: real)
    requires n <= |xs| && n <= |ys|
    ensures 0.0 <= area
    ensures 2.0 * area == Abs(ShoelaceSum(Zip(xs, ys, n)) as real)
  {
    Abs(ShoelaceSum(Zip(xs, ys, n)) as real / 2.0)
  }

  /** The reversal of a sequence. */
  function Reverse<T>(s: seq<T>): (r: seq<T>)
    ensures |r| == |s|
    ensures forall i :: 0 <= i < |s| ==> r[i] == s[|s| - 1 - i]
  {
    if |s| == 0 then [] else Reverse(s[1..]) + [s[0]]
  }

  lemma EdgeTermAntisymmetric(a: Point, b: Point)
    ensures EdgeTerm(b, a) == -EdgeTerm(a, b)
  {
  }

  lemma {:induction false} PathSumSnoc(s: seq<Point>, z: Point)
    requires |s| >= 1
    ensures PathSum(s + [z]) == PathSum(s) + EdgeTerm(s[|s| - 1], z)
  {
    if |s| == 1 {
      assert s + [z] == [s[0], z];
    } else {
      assert (s + [z])[1..] == s[1..] + [z];
      PathSumSnoc(s[1..], z);
    }
  }

  /** Walking a path backwards negates its shoelace sum. */
  lemma {:induction false} PathSumReverse(s: seq<Point>)
    ensures PathSum(Reverse(s)) == -PathSum(s)
  {
    if |s| >= 2 {
      var t := s[1..];
      PathSumReverse(t);
      assert Reverse(s) == Reverse(t) + [s[0]];
      PathSumSnoc(Reverse(t), s[0]);
      EdgeTermAntisymmetric(s[0], t[0]);
    }
  }

  /** `polygonArea` does not depend on the orientation: listing the vertices
      in reverse order gives the same area. */
  lemma PolygonAreaReversal(xs: seq<real>, ys: seq<real>)
    requires |xs| == |ys|
    ensures PolygonArea(Reverse(xs), Reverse(ys), |xs|) == PolygonArea(xs, ys, |xs|)
  {
    var s := Zip(xs, ys, |xs|);
    ZipReverse(xs, ys);
    ShoelaceSumReverse(s);
    var a := ShoelaceSum(s) as real;
    assert ShoelaceSum(Reverse(s)) as real == -a;
  }

  /** Pairing reversed columns lists the points in reverse. */
  lemma {:induction false} ZipReverse(xs: seq<real>, ys: seq<real>)
    requires |xs| == |ys|
    ensures Zip(Reverse(xs), Reverse(ys), |xs|) == Reverse(Zip(xs, ys, |xs|))
  {
    var r := Zip(Reverse(xs), Reverse(ys), |xs|);
    assert forall i :: 0 <= i < |r| ==> r[i] == Point(xs[|xs| - 1 - i], ys[|xs| - 1 - i]);
    ReversedPoints(r, Zip(xs, ys, |xs|), xs, ys);
  }

  /** Walking a closed polygon backwards negates its shoelace sum. */
  lemma ShoelaceSumReverse(s: seq<Point>)
    ensures ShoelaceSum(Reverse(s)) == -ShoelaceSum(s)
  {
    if |s| > 0 {
      PathSumReverse(s);
      EdgeTermAntisymmetric(s[0], s[|s| - 1]);
    }
  }

  /** Points built from the columns read backwards are the reversal of
      the points built from the columns. */
  lemma {:induction false} ReversedPoints(r: seq<Point>, s: seq<Point>, xs: seq<real>, ys: seq<real>)
    requires |xs| == |ys| == |r| == |s|
    requires forall i :: 0 <= i < |r| ==> r[i] == Point(xs[|xs| - 1 - i], ys[|xs| - 1 - i])
    requires forall i :: 0 <= i < |s| ==> s[i] == Point(xs[i], ys[i])
    ensures r == Reverse(s)
  {
  }

  /** `polygonArea` sees only the truncated coordinates. */
  lemma PolygonAreaTruncates(xs: seq<real>, ys: seq<real>, n: nat)
    requires n <= |xs| && n <= |ys|
    ensures PolygonArea(TruncAll(xs), TruncAll(ys), n) == PolygonArea(xs, ys, n)
  {
    var s := Zip(xs, ys, n);
    var t := Zip(TruncAll(xs), TruncAll(ys), n);
    TruncatedPathSum(s, t);
  }

  lemma {:induction false} TruncatedPathSum(s: seq<Point>, t: seq<Point>)
    requires |s| == |t|
    requires forall i :: 0 <= i < |s| ==> t[i] == Point(Trunc(s[i].x) as real, Trunc(s[i].y) as real)
    ensures PathSum(t) == PathSum(s)
    ensures ShoelaceSum(t) == ShoelaceSum(s)
  {
    if |s| >= 2 {
      TruncatedPathSum(s[1..], t[1..]);
      TruncOfInt(Trunc(s[0].x));
      TruncOfInt(Trunc(s[0].y));
      TruncOfInt(Trunc(s[1].x));
      TruncOfInt(Trunc(s[1].y));
    }
    if |s| >= 1 {
      TruncOfInt(Trunc(s[0].x));
      TruncOfInt(Trunc(s[0].y));
      TruncOfInt(Trunc(s[|s| - 1].x));
      TruncOfInt(Trunc(s[|s| - 1].y));
    }
  }

  /** Every coordinate replaced by its `parseInt` value. */
  function TruncAll(xs: seq<real>): (r: seq<real>)
    ensures |r| == |xs|
    ensures forall i :: 0 <= i < |xs| ==> r[i] == Trunc(xs[i]) as real
  {
    if |xs| == 0 then [] else [Trunc(xs[0]) as real] + TruncAll(xs[1..])
  }

  lemma TruncOfInt(k: int)
    ensures Trunc(k as real) == k
  {
  }

  /** `generatePointsForRectangle`: the corners top-left, top-right,
      bottom-right, bottom-left of the w-by-h rectangle centred at (x, y),
      as a flat array. */
  function RectanglePoints(x: real, y: real, w: real, h: real): (flat: seq<real>)
    ensures |flat| == 8
    ensures Pairs(flat)[0] == Point(x - w / 2.0, y - h / 2.0)
    ensures Pairs(flat)[1] == Point(x + w / 2.0, y - h / 2.0)
    ensures Pairs(flat)[2] == Point(x + w / 2.0, y + h / 2.0)
    ensures Pairs(flat)[3] == Point(x - w / 2.0, y + h / 2.0)
  {
    CornersPairs(x - w / 2.0, x + w / 2.0, y - h / 2.0, y + h / 2.0);
    CornersFlat(x - w / 2.0, x + w / 2.0, y - h / 2.0, y + h / 2.0)
  }

  /** Pairing the flat corner list gives the four corners. */
  lemma CornersPairs(x0: real, x1: real, y0: real, y1: real)
    ensures Pairs(CornersFlat(x0, x1, y0, y1)) == [Point(x0, y0), Point(x1, y0), Point(x1, y1), Point(x0, y1)]
  {
    var flat := CornersFlat(x0, x1, y0, y1);
    var ps := Pairs(flat);
    assert ps[0] == Point(flat[0], flat[1]) && ps[1] == Point(flat[2], flat[3]);
    assert ps[2] == Point(flat[4], flat[5]) && ps[3] == Point(flat[6], flat[7]);
  }

  /** The shoelace area of a rectangle with integer corners is width times height. */
  lemma RectangleArea(x: real, y: real, w: real, h: real)
    requires 0.0 <= w && 0.0 <= h
    requires (x - w / 2.0).Floor as real == x - w / 2.0 && (x + w / 2.0).Floor as real == x + w / 2.0
    requires (y - h / 2.0).Floor as real == y - h / 2.0 && (y + h / 2.0).Floor as real == y + h / 2.0
    ensures PolygonArea(XCoords(RectanglePoints(x, y, w, h)), YCoords(RectanglePoints(x, y, w, h)), 4) == w * h
  {
    RectangleAreaAt(x, y, w, h, (x - w / 2.0).Floor, (x + w / 2.0).Floor, (y - h / 2.0).Floor, (y + h / 2.0).Floor);
  }

  /** The same, with the integer corners named. */
  lemma RectangleAreaAt(x: real, y: real, w: real, h: real, x0: int, x1: int, y0: int, y1: int)
    requires 0.0 <= w && 0.0 <= h
    requires x0 as real == x - w / 2.0 && x1 as real == x + w / 2.0
    requires y0 as real == y - h / 2.0 && y1 as real == y + h / 2.0
    ensures PolygonArea(XCoords(RectanglePoints(x, y, w, h)), YCoords(RectanglePoints(x, y, w, h)), 4) == w * h
  {
    CornersArea(x - w / 2.0, x + w / 2.0, y - h / 2.0, y + h / 2.0, x0, x1, y0, y1, w, h);
  }

  /** The shoelace area of the rectangle [x0, x1] by [y0, y1] with integer
      corners is the product of its sides. */
  lemma CornersArea(left: real, right: real, top: real, bottom: real, x0: int, x1: int, y0: int, y1: int, w: real, h: real)
    requires left == x0 as real && right == x1 as real && top == y0 as real && bottom == y1 as real
    requires (x1 - x0) as real == w && (y1 - y0) as real == h && 0.0 <= w && 0.0 <= h
    ensures var flat := CornersFlat(left, right, top, bottom);
            PolygonArea(XCoords(flat), YCoords(flat), 4) == w * h
  {
    var flat := CornersFlat(x0 as real, x1 as real, y0 as real, y1 as real);
    CornersZip(x0 as real, x1 as real, y0 as real, y1 as real);
    assert Zip(XCoords(flat), YCoords(flat), 4) == RectangleCorners(x0, x1, y0, y1);
    RectangleShoelace(x0, x1, y0, y1);
    IntProduct(x1 - x0, y1 - y0);
    AreaOfSum(XCoords(flat), YCoords(flat), (x1 - x0) * (y1 - y0));
  }

  /** A quadrilateral whose shoelace sum is -2p, p >= 0, has area p. */
  lemma AreaOfSum(xs: seq<real>, ys: seq<real>, p: int)
    requires 4 <= |xs| && 4 <= |ys| && 0 <= p
    requires ShoelaceSum(Zip(xs, ys, 4)) == -2 * p
    ensures PolygonArea(xs, ys, 4) == p as real
  {
  }

  /** The flat corner list of the rectangle [x0, x1] by [y0, y1], in the
      order `generatePointsForRectangle` writes it. */
  function CornersFlat(x0: real, x1: real, y0: real, y1: real): seq<real> {
    [x0, y0, x1, y0, x1, y1, x0, y1]
  }

  /** Splitting and zipping the flat corner list gives the four corners. */
  lemma CornersZip(x0: real, x1: real, y0: real, y1: real)
    ensures Zip(XCoords(CornersFlat(x0, x1, y0, y1)), YCoords(CornersFlat(x0, x1, y0, y1)), 4)
         == [Point(x0, y0), Point(x1, y0), Point(x1, y1), Point(x0, y1)]
  {
    var flat := CornersFlat(x0, x1, y0, y1);
    var xs := XCoords(flat);
    var ys := YCoords(flat);
    assert xs[0] == flat[0] && xs[1] == flat[2] && xs[2] == flat[4] && xs[3] == flat[6];
    assert ys[0] == flat[1] && ys[1] == flat[3] && ys[2] == flat[5] && ys[3] == flat[7];
  }

  function RectangleCorners(x0: int, x1: int, y0: int, y1: int): seq<Point> {
    [Point(x0 as real, y0 as real), Point(x1 as real, y0 as real),
     Point(x1 as real, y1 as real), Point(x0 as real, y1 as real)]
  }

  lemma RectangleShoelace(x0: int, x1: int, y0: int, y1: int)
    ensures ShoelaceSum(RectangleCorners(x0, x1, y0, y1)) == -2 * ((x1 - x0) * (y1 - y0))
  {
    var s := RectangleCorners(x0, x1, y0, y1);
    TruncOfInt(x0); TruncOfInt(x1); TruncOfInt(y0); TruncOfInt(y1);
    assert EdgeTerm(s[3], s[0]) == (x0 + x0) * (y1 - y0);
    assert EdgeTerm(s[0], s[1]) == 0;
    assert EdgeTerm(s[1], s[2]) == (x1 + x1) * (y0 - y1);
    assert EdgeTerm(s[2], s[3]) == 0;
    assert PathSum(s[2..]) == EdgeTerm(s[2], s[3]);
    assert PathSum(s[1..]) == EdgeTerm(s[1], s[2]) + PathSum(s[2..]);
    assert PathSum(s) == EdgeTerm(s[0], s[1]) + PathSum(s[1..]);
  }

  /** The product of two non-negative integers, as a real. */
  lemma IntProduct(a: int, b: int)
    requires 0 <= a && 0 <= b
    ensures 0 <= a * b
    ensures (a * b) as real == a as real * b as real
  {
  }

  // ---------------------------------------------------------------------
  // Ray casting (`pointInsidePolygon`) and the electrode stencil
  // ---------------------------------------------------------------------

  /** Whether the horizontal ray from p towards +x crosses the edge between
      vertex a (index i) and vertex b (index j), as in pnpoly. */
  predicate Crosses(p: Point, a: Point, b: Point) {
    ((a.y > p.y) != (b.y > p.y)) && p.x < (b.x - a.x) * (p.y - a.y) / (b.y - a.y) + a.x
  }

  /** The vertex preceding index i cyclically. */
  function Prev(vs: seq<Point>, i: nat): Point
    requires i < |vs|
  {
    if i == 0 then vs[|vs| - 1] else vs[i - 1]
  }

  /** Number of edges among the first k (edge i joins vertex i and its
      predecessor) that the ray from p crosses. */
  function CrossingCount(p: Point, vs: seq<Point>, k: nat): (c: nat)
    requires k <= |vs|
    ensures c <= k
  {
    if k == 0 then 0
    else CrossingCount(p, vs, k - 1) + (if Crosses(p, vs[k - 1], Prev(vs, k - 1)) then 1 else 0)
  }

  /** Reference meaning of ray casting: p is inside when the ray crosses an odd number of edges. */
  predicate InPolygon(p: Point, vs: seq<Point>) {
    CrossingCount(p, vs, |vs|) % 2 == 1
  }

  /** `pointInsidePolygon`: toggles `inside` at each crossed edge. */
  method PointInsidePolygon(p: Point, vs: seq<Point>) returns (inside: bool)
    ensures inside == InPolygon(p, vs)
    ensures |vs| == 0 ==> !inside
  {
    inside := false;
    var i := 0;
    while i < |vs|
      invariant 0 <= i <= |vs|
      invariant inside == (CrossingCount(p, vs, i) % 2 == 1)
    {
      var j := if i == 0 then |vs| - 1 else i - 1;
      CountStep(p, vs, i);
      if Crosses(p, vs[i], vs[j]) {
        inside := !inside;
      }
      i := i + 1;
    }
  }

  /** One more edge flips the parity of the crossing count exactly when the ray crosses it. */
  lemma CountStep(p: Point, vs: seq<Point>, i: nat)
    requires i < |vs|
    ensures (CrossingCount(p, vs, i + 1) % 2 == 1) == ((CrossingCount(p, vs, i) % 2 == 1) != Crosses(p, vs[i], Prev(vs, i)))
  {
  }

  /** A point level with or below every vertex (canvas y grows downwards)
      crosses no edge, so it is outside. */
  lemma {:induction false} BelowAllVerticesOutside(p: Point, vs: seq<Point>, k: nat)
    requires k <= |vs|
    requires forall v :: v in vs ==> v.y <= p.y
    ensures CrossingCount(p, vs, k) == 0
    ensures k == |vs| ==> !InPolygon(p, vs)
  {
    if k > 0 {
      BelowAllVerticesOutside(p, vs, k - 1);
      assert vs[k - 1] in vs && Prev(vs, k - 1) in vs;
    }
  }

  /** The five-point test behind `checkElectrodeCompletelyInsideShape`:
      the centre and the points w to either side and h above and below. */
  predicate InsideStencil(p: Point, vs: seq<Point>, w: real, h: real) {
    && InPolygon(p, vs)
    && InPolygon(p.Shift(w, 0.0), vs)
    && InPolygon(p.Shift(-w, 0.0), vs)
    && InPolygon(p.Shift(0.0, h), vs)
    && InPolygon(p.Shift(0.0, -h), vs)
  }

  /** `checkElectrodeCompletelyInsideShape`, running ray casting at the five stencil points. */
  method CheckElectrodeCompletelyInsideShape(p: Point, vs: seq<Point>, w: real, h: real) returns (ok: bool)
    ensures ok <==> InsideStencil(p, vs, w, h)
    ensures ok ==> InPolygon(p, vs)
    ensures |vs| == 0 ==> !ok
  {
    var c := PointInsidePolygon(p, vs);
    var r := PointInsidePolygon(p.Shift(w, 0.0), vs);
    var l := PointInsidePolygon(p.Shift(-w, 0.0), vs);
    var d := PointInsidePolygon(p.Shift(0.0, h), vs);
    var u := PointInsidePolygon(p.Shift(0.0, -h), vs);
    ok := c && r && l && d && u;
  }

  // ---------------------------------------------------------------------
  // Distances and angles
  // ---------------------------------------------------------------------

  /** The point a + t(b - a) of the line through a and b. */
  function Lerp(a: Point, b: Point, t: real): Point {
    Point(a.x + t * (b.x - a.x), a.y + t * (b.y - a.y))
  }

  /** The projection parameter of `distanceOfPointFromLine`: -1 for a
      zero-length segment, otherwise the dot product over the squared length. */
  function ProjectionParameter(p: Point, a: Point, b: Point): real {
    if DistSq(b, a) != 0.0 then Dot(p, a, b) / DistSq(b, a) else -1.0
  }

  /** Dot product of p - a with b - a. */
  function Dot(p: Point, a: Point, b: Point): real {
    (p.x - a.x) * (b.x - a.x) + (p.y - a.y) * (b.y - a.y)
  }

  /** The point of segment ab that `distanceOfPointFromLine` measures to:
      the projection parameter clamped to [0, 1]. */
  function ClosestPoint(p: Point, a: Point, b: Point): (q: Point)
    ensures DistSq(b, a) == 0.0 ==> q == a
    ensures exists t :: 0.0 <= t <= 1.0 && q == Lerp(a, b, t)
  {
    var t := ProjectionParameter(p, a, b);
    if t < 0.0 then (assert a == Lerp(a, b, 0.0); a)
    else if t > 1.0 then (assert b == Lerp(a, b, 1.0); b)
    else Lerp(a, b, t)
  }

  /** `distanceOfPointFromLine`: distance from p to the finite segment ab. */
  function SegmentDistance(num: Numerics, p: Point, a: Point, b: Point): real {
    num.sqrt(DistSq(p, ClosestPoint(p, a, b)))
  }

  lemma DistSqUnfold(p: Point, a: Point)
    ensures DistSq(p, a) == (p.x - a.x) * (p.x - a.x) + (p.y - a.y) * (p.y - a.y)
  {
  }

  /** Squared distance from p to the point of line ab with parameter s,
      expanded as a quadratic in s. */
  lemma DistSqAlongLine(p: Point, a: Point, b: Point, s: real)
    ensures DistSq(p, Lerp(a, b, s)) == DistSq(p, a) - 2.0 * s * Dot(p, a, b) + s * s * DistSq(b, a)
  {
    var u, v, e, f := p.x - a.x, p.y - a.y, b.x - a.x, b.y - a.y;
    assert DistSq(p, a) == u * u + v * v;
    assert Dot(p, a, b) == u * e + v * f;
    assert DistSq(b, a) == e * e + f * f;
    LerpOffsets(p, a, b, s);
    Quadratic(u, v, e, f, s);
  }

  /** The offset from the point of line ab with parameter s to p, in terms
      of the offsets from a. */
  lemma LerpOffsets(p: Point, a: Point, b: Point, s: real)
    ensures DistSq(p, Lerp(a, b, s))
         == ((p.x - a.x) - s * (b.x - a.x)) * ((p.x - a.x) - s * (b.x - a.x))
          + ((p.y - a.y) - s * (b.y - a.y)) * ((p.y - a.y) - s * (b.y - a.y))
  {
    var u, v, e, f := p.x - a.x, p.y - a.y, b.x - a.x, b.y - a.y;
    var q := Lerp(a, b, s);
    assert p.x - q.x == u - s * e && p.y - q.y == v - s * f;
    SquareSum(u - s * e, v - s * f, p.x - q.x, p.y - q.y);
  }

  /** Equal differences have equal squared lengths. */
  lemma SquareSum(u: real, v: real, u': real, v': real)
    requires u == u' && v == v'
    ensures u * u + v * v == u' * u' + v' * v'
  {
  }

  /** |w - s d|^2 = |w|^2 - 2 s (w . d) + s^2 |d|^2 for w = (u, v), d = (e, f). */
  lemma Quadratic(u: real, v: real, e: real, f: real, s: real)
    ensures (u - s * e) * (u - s * e) + (v - s * f) * (v - s * f)
         == (u * u + v * v) - 2.0 * s * (u * e + v * f) + s * s * (e * e + f * f)
  {
  }

  /** For a segment of non-zero length, the clamped projection is the
      nearest point of the segment (a zero-length segment is handled by the
      fallback to a in `ClosestPoint`). */
  lemma ClosestPointIsNearest(p: Point, a: Point, b: Point, t: real)
    requires DistSq(b, a) != 0.0
    requires 0.0 <= t <= 1.0
    ensures DistSq(p, ClosestPoint(p, a, b)) <= DistSq(p, Lerp(a, b, t))
  {
    NonNegDistSq(b, a);
    var u := ProjectionParameter(p, a, b);
    if u < 0.0 {
      NearestBefore(p, a, b, t);
    } else if u > 1.0 {
      NearestAfter(p, a, b, t);
    } else {
      NearestWithin(p, a, b, t);
    }
  }

  /** The projection falls before a: a is nearest. */
  lemma NearestBefore(p: Point, a: Point, b: Point, t: real)
    requires 0.0 < DistSq(b, a) && 0.0 <= t <= 1.0
    requires ProjectionParameter(p, a, b) < 0.0
    ensures DistSq(p, ClosestPoint(p, a, b)) <= DistSq(p, Lerp(a, b, t))
  {
    DistSqAlongLine(p, a, b, t);
    NearestStart(t, Dot(p, a, b), DistSq(b, a));
  }

  /** The projection falls beyond b: b is nearest. */
  lemma NearestAfter(p: Point, a: Point, b: Point, t: real)
    requires 0.0 < DistSq(b, a) && 0.0 <= t <= 1.0
    requires ProjectionParameter(p, a, b) > 1.0
    ensures DistSq(p, ClosestPoint(p, a, b)) <= DistSq(p, Lerp(a, b, t))
  {
    DistSqAlongLine(p, a, b, t);
    DistSqAlongLine(p, a, b, 1.0);
    assert Lerp(a, b, 1.0) == b;
    NearestEndpoint(t, Dot(p, a, b), DistSq(b, a));
  }

  /** The projection falls on the segment: its foot is nearest. */
  lemma NearestWithin(p: Point, a: Point, b: Point, t: real)
    requires 0.0 < DistSq(b, a) && 0.0 <= t <= 1.0
    requires 0.0 <= ProjectionParameter(p, a, b) <= 1.0
    ensures DistSq(p, ClosestPoint(p, a, b)) <= DistSq(p, Lerp(a, b, t))
  {
    var u := ProjectionParameter(p, a, b);
    DistSqAlongLine(p, a, b, t);
    DistSqAlongLine(p, a, b, u);
    NearestInterior(t, u, Dot(p, a, b), DistSq(b, a));
  }

  lemma NonNegDistSq(p: Point, q: Point)
    ensures 0.0 <= DistSq(p, q)
  {
    DistSqUnfold(p, q);
    SquaresNonNeg(p.x - q.x, p.y - q.y);
  }

  lemma SquaresNonNeg(dx: real, dy: real)
    ensures 0.0 <= dx * dx + dy * dy
  {
    SquareSign(dx);
    SquareSign(dy);
  }

  lemma SquareSign(d: real)
    ensures 0.0 <= d * d
  {
    if d < 0.0 {
      assert d * d == (-d) * (-d);
    }
  }

  lemma NearestStart(t: real, dot: real, len: real)
    requires 0.0 <= t && 0.0 < len && dot / len < 0.0
    ensures 0.0 <= -2.0 * t * dot + t * t * len
  {
    assert dot < 0.0;
    assert t * t * len >= 0.0;
    assert t * dot <= 0.0;
  }

  lemma NearestInterior(t: real, u: real, dot: real, len: real)
    requires 0.0 < len && u == dot / len
    ensures -2.0 * u * dot + u * u * len <= -2.0 * t * dot + t * t * len
  {
    assert dot == u * len;
    var sq := (t - u) * (t - u);
    assert sq >= 0.0;
    assert sq * len >= 0.0;
    assert sq * len == t * t * len - 2.0 * t * (u * len) + u * (u * len);
    assert u * u * len == u * dot;
  }

  lemma NearestEndpoint(t: real, dot: real, len: real)
    requires 0.0 <= t <= 1.0 && 0.0 < len && dot / len > 1.0
    ensures -2.0 * dot + len <= -2.0 * t * dot + t * t * len
  {
    assert dot > len;
    assert (t - 1.0) * (-2.0 * dot + (t + 1.0) * len) >= 0.0 by {
      assert t - 1.0 <= 0.0;
      assert -2.0 * dot + (t + 1.0) * len <= 0.0;
    }
  }

  /** Clamping of a cosine into [-1, 1] before `Math.acos`. */
  function ClampUnit(c: real): (r: real)
    ensures -1.0 <= r <= 1.0
    ensures -1.0 <= c <= 1.0 ==> r == c
    ensures c > 1.0 ==> r == 1.0
    ensures c < -1.0 ==> r == -1.0
  {
    if c > 1.0 then 1.0 else if c < -1.0 then -1.0 else c
  }

  /** `computeAngleBetweenTwoVectors`: the angle in radians between
      v1 = p1 - p2 and v2 = q1 - q2. A zero magnitude makes the cosine
      0/0 = NaN in the source; that case is `None`. */
  function VectorAngle(num: Numerics, p1: Point, p2: Point, q1: Point, q2: Point): (r: Option<real>)
    ensures r.None? <==> Dist(num, p1, p2) * Dist(num, q1, q2) == 0.0
    ensures Sane(num) && r.Some? ==> 0.0 <= r.value <= num.pi
  {
    var m := Dist(num, p1, p2) * Dist(num, q1, q2);
    if m == 0.0 then None
    else
      var dot := (p1.x - p2.x) * (q1.x - q2.x) + (p1.y - p2.y) * (q1.y - q2.y);
      Some(num.acos(ClampUnit(dot / m)))
  }

  // ---------------------------------------------------------------------
  // Segment intersection (`findIntersectionBetweenLine`)
  // ---------------------------------------------------------------------

  /** The denominator of `findIntersectionBetweenLine`; zero for parallel segments. */
  function Denominator(p1: Point, p2: Point, p3: Point, p4: Point): real {
    (p4.y - p3.y) * (p2.x - p1.x) - (p4.x - p3.x) * (p2.y - p1.y)
  }

  /** Numerator of the parameter along the first segment. */
  function NumeratorA(p1: Point, p2: Point, p3: Point, p4: Point): real {
    (p4.x - p3.x) * (p1.y - p3.y) - (p4.y - p3.y) * (p1.x - p3.x)
  }

  /** Numerator of the parameter along the second segment. */
  function NumeratorB(p1: Point, p2: Point, p3: Point, p4: Point): real {
    (p2.x - p1.x) * (p1.y - p3.y) - (p2.y - p1.y) * (p1.x - p3.x)
  }

  /** Intersection of segments p1p2 and p3p4, or `None` (the source's
      `false`) for a zero-length segment, parallel segments, or a crossing
      outside either segment. */
  function SegmentIntersection(p1: Point, p2: Point, p3: Point, p4: Point): (r: Option<Point>)
    ensures (p1 == p2 || p3 == p4) ==> r.None?
    ensures Denominator(p1, p2, p3, p4) == 0.0 ==> r.None?
    ensures r.Some? <==>
      && p1 != p2 && p3 != p4 && Denominator(p1, p2, p3, p4) != 0.0
      && 0.0 <= NumeratorA(p1, p2, p3, p4) / Denominator(p1, p2, p3, p4) <= 1.0
      && 0.0 <= NumeratorB(p1, p2, p3, p4) / Denominator(p1, p2, p3, p4) <= 1.0
    ensures r.Some? ==> r.value == Lerp(p1, p2, NumeratorA(p1, p2, p3, p4) / Denominator(p1, p2, p3, p4))
  {
    if p1 == p2 || p3 == p4 then None
    else
      var den := Denominator(p1, p2, p3, p4);
      if den == 0.0 then None
      else
        var ua := NumeratorA(p1, p2, p3, p4) / den;
        var ub := NumeratorB(p1, p2, p3, p4) / den;
        if ua < 0.0 || ua > 1.0 || ub < 0.0 || ub > 1.0 then None
        else Some(Lerp(p1, p2, ua))
  }

  /** A reported intersection lies on both segments, although the source
      computes it from the first segment alone. */
  lemma IntersectionOnBothSegments(p1: Point, p2: Point, p3: Point, p4: Point)
    requires SegmentIntersection(p1, p2, p3, p4).Some?
    ensures exists ua :: 0.0 <= ua <= 1.0 && SegmentIntersection(p1, p2, p3, p4).value == Lerp(p1, p2, ua)
    ensures exists ub :: 0.0 <= ub <= 1.0 && SegmentIntersection(p1, p2, p3, p4).value == Lerp(p3, p4, ub)
  {
    var den := Denominator(p1, p2, p3, p4);
    var na := NumeratorA(p1, p2, p3, p4);
    var nb := NumeratorB(p1, p2, p3, p4);
    var ua := na / den;
    var ub := nb / den;
    var q := SegmentIntersection(p1, p2, p3, p4).value;
    assert q == Lerp(p1, p2, ua) && 0.0 <= ua <= 1.0 && 0.0 <= ub <= 1.0;
    CrossingIdentity(p1.x, p1.y, p2.x, p2.y, p3.x, p3.y, p4.x, p4.y);
    SameCrossing(den, na, nb, p1.x, p2.x, p3.x, p4.x);
    SameCrossing(den, na, nb, p1.y, p2.y, p3.y, p4.y);
    assert q == Lerp(p3, p4, ub);
  }

  /** Conversely, a point common to two non-parallel segments is found,
      at its parameter along the first segment. */
  lemma CommonPointFound(p1: Point, p2: Point, p3: Point, p4: Point, ua: real, ub: real)
    requires Denominator(p1, p2, p3, p4) != 0.0
    requires 0.0 <= ua <= 1.0 && 0.0 <= ub <= 1.0
    requires Lerp(p1, p2, ua) == Lerp(p3, p4, ub)
    ensures SegmentIntersection(p1, p2, p3, p4) == Some(Lerp(p1, p2, ua))
  {
    var den := Denominator(p1, p2, p3, p4);
    CrossingParameters(p1.x - p3.x, p1.y - p3.y, p2.x - p1.x, p2.y - p1.y, p4.x - p3.x, p4.y - p3.y, ua, ub);
    assert NumeratorA(p1, p2, p3, p4) == ua * den;
    assert NumeratorB(p1, p2, p3, p4) == ub * den;
    assert NumeratorA(p1, p2, p3, p4) / den == ua && NumeratorB(p1, p2, p3, p4) / den == ub;
    assert p1 == p2 || p3 == p4 ==> den == 0.0;
  }

  /** Solving the two coordinate equations of a common point for its
      parameters, by cross-multiplication. */
  lemma CrossingParameters(ex: real, ey: real, dx1: real, dy1: real, dx2: real, dy2: real, ua: real, ub: real)
    requires ex + ua * dx1 == ub * dx2 && ey + ua * dy1 == ub * dy2
    ensures dx2 * ey - dy2 * ex == ua * (dy2 * dx1 - dx2 * dy1)
    ensures dx1 * ey - dy1 * ex == ub * (dy2 * dx1 - dx2 * dy1)
  {
    assert (ex + ua * dx1) * dy2 == ub * dx2 * dy2;
    assert (ey + ua * dy1) * dx2 == ub * dy2 * dx2;
    assert (ex + ua * dx1) * dy1 == ub * dx2 * dy1;
    assert (ey + ua * dy1) * dx1 == ub * dy2 * dx1;
  }

  /** The polynomial identity behind the intersection formula:
      den (p1 - p3) + na (p2 - p1) == nb (p4 - p3) in each coordinate. */
  lemma CrossingIdentity(x1: real, y1: real, x2: real, y2: real, x3: real, y3: real, x4: real, y4: real)
    ensures ((y4 - y3) * (x2 - x1) - (x4 - x3) * (y2 - y1)) * (x1 - x3)
          + ((x4 - x3) * (y1 - y3) - (y4 - y3) * (x1 - x3)) * (x2 - x1)
         == ((x2 - x1) * (y1 - y3) - (y2 - y1) * (x1 - x3)) * (x4 - x3)
    ensures ((y4 - y3) * (x2 - x1) - (x4 - x3) * (y2 - y1)) * (y1 - y3)
          + ((x4 - x3) * (y1 - y3) - (y4 - y3) * (x1 - x3)) * (y2 - y1)
         == ((x2 - x1) * (y1 - y3) - (y2 - y1) * (x1 - x3)) * (y4 - y3)
  {
  }

  lemma SameCrossing(den: real, na: real, nb: real, c1: real, c2: real, c3: real, c4: real)
    requires den != 0.0
    requires den * (c1 - c3) + na * (c2 - c1) == nb * (c4 - c3)
    ensures c1 + (na / den) * (c2 - c1) == c3 + (nb / den) * (c4 - c3)
  {
    var ua := na / den;
    var ub := nb / den;
    assert na == ua * den && nb == ub * den;
    assert den * (c1 + ua * (c2 - c1)) == den * (c3 + ub * (c4 - c3)) by {
      assert den * (c1 + ua * (c2 - c1)) == den * c1 + (ua * den) * (c2 - c1);
      assert den * (c3 + ub * (c4 - c3)) == den * c3 + (ub * den) * (c4 - c3);
    }
  }

  // ---------------------------------------------------------------------
  // Forearm trapezoid dimensions
  // ---------------------------------------------------------------------

  /** `getForearmDimensionsFromTrapezoid` on the flat corner array
      [x0, y0, ..., x3, y3]: the two horizontal and two vertical extents. */
  function ForearmDimensions(t: seq<real>): (dims: seq<real>)
    requires |t| == 8
    ensures |dims| == 4
    ensures forall i :: 0 <= i < 4 ==> 0.0 <= dims[i]
    ensures dims[0] == Abs(t[2] - t[0]) && dims[1] == Abs(t[6] - t[4])
    ensures dims[2] == Abs(t[1] - t[5]) && dims[3] == Abs(t[3] - t[7])
  {
    [Abs(t[2] - t[0]), Abs(t[6] - t[4]), Abs(t[1] - t[5]), Abs(t[3] - t[7])]
  }

  /** The flat corner array moved by (dx, dy). */
  function Translate(t: seq<real>, dx: real, dy: real): (r: seq<real>)
    ensures |r| == |t|
    ensures forall i :: 0 <= i < |t| ==> r[i] == t[i] + (if i % 2 == 0 then dx else dy)
  {
    if |t| == 0 then [] else if |t| == 1 then [t[0] + dx] else [t[0] + dx, t[1] + dy] + Translate(t[2..], dx, dy)
  }

  /** The dimensions do not depend on where the trapezoid is drawn. */
  lemma ForearmDimensionsTranslation(t: seq<real>, dx: real, dy: real)
    requires |t| == 8
    ensures ForearmDimensions(Translate(t, dx, dy)) == ForearmDimensions(t)
  {
    var r := Translate(t, dx, dy);
    assert r[0] == t[0] + dx && r[2] == t[2] + dx && r[4] == t[4] + dx && r[6] == t[6] + dx;
    assert r[1] == t[1] + dy && r[3] == t[3] + dy && r[5] == t[5] + dy && r[7] == t[7] + dy;
  }

  // ---------------------------------------------------------------------
  // Modality with the lowest weight
  // ---------------------------------------------------------------------

  /** `getModalityWithLowestWeight`: the index of the first minimum (0 for an empty list). */
  method LowestWeightIndex(weights: seq<real>) returns (index: nat)
    ensures |weights| == 0 ==> index == 0
    ensures |weights| > 0 ==> index < |weights|
    ensures |weights| > 0 ==> forall k :: 0 <= k < |weights| ==> weights[index] <= weights[k]
    ensures |weights| > 0 ==> forall k :: 0 <= k < index ==> weights[index] < weights[k]
  {
    index := 0;
    if |weights| == 0 {
      return;
    }
    var value := weights[0];
    var i := 1;
    while i < |weights|
      invariant 1 <= i <= |weights|
      invariant index < i && value == weights[index]
      invariant forall k :: 0 <= k < i ==> value <= weights[k]
      invariant forall k :: 0 <= k < index ==> value < weights[k]
    {
      if weights[i] < value {
        value := weights[i];
        index := i;
      }
      i := i + 1;
    }
  }
}
