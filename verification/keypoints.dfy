/**
 * `KeyPointCalculator.js`: the anatomical keypoints derived from the
 * forearm trapezoid. Each EMG muscle gets a symmetric pair of keypoints
 * 25 units apart along its muscle line; the ECG keypoints are fixed offsets
 * from the trapezoid's corners and side midpoints.
 *
 * `Utils.GetKeyPointOnTheLine` (the point at a given distance along a line)
 * is a parameter, and so are the keypoint fractions `FCR_KEYPOINT`,
 * `BR_KEYPOINT`, `PL_KEYPOINT` and `FCU_KEYPOINT`, which are defined
 * outside this file.
 */
module KeyPoints {
  import opened Base

  /** The `KeyPoint` record: position, size, type and id. */
  datatype KeyPoint = KeyPoint(x: real, y: real, size: real, kind: string, id: string) {
    function Position(): Point {
      Point(x, y)
    }
  }

  /** The forearm trapezoid, flat array [TLx, TLy, TRx, TRy, BRx, BRy, BLx, BLy];
      the wrist is the bottom edge BR-BL. */
  datatype Trapezoid = Trapezoid(tl: Point, tr: Point, br: Point, bl: Point)

  /** The trapezoid read from its flat array. */
  function TrapezoidOf(flat: seq<real>): (t: Trapezoid)
    requires |flat| == 8
    ensures t.tl == Point(flat[0], flat[1]) && t.tr == Point(flat[2], flat[3])
    ensures t.br == Point(flat[4], flat[5]) && t.bl == Point(flat[6], flat[7])
  {
    Trapezoid(Point(flat[0], flat[1]), Point(flat[2], flat[3]), Point(flat[4], flat[5]), Point(flat[6], flat[7]))
  }

  /** Midpoint of the wrist edge. */
  function WristMid(t: Trapezoid): Point {
    Midpoint(t.br, t.bl)
  }

  /** `Utils.GetKeyPointOnTheLine(a, b, d)`: the point at distance d from a
      towards b. */
  type OnLine = (Point, Point, real) -> Point

  /** The keypoint fractions along each muscle line. */
  datatype Fractions = Fractions(fcr: real, br: real, pl: real, fcu: real)

  const KeyPointSize: real := 2.0
  const InterElectrodeDistance: real := 25.0

  /** `Math.ceil(EMG_INTERELECTRODE_DISTANCE / 2)`. */
  const HalfSpacing: real := 13.0

  lemma HalfSpacingIsCeiling()
    ensures Ceil(InterElectrodeDistance / 2.0) as real == HalfSpacing
  {
  }

  /** A pair of keypoint positions, first then second. */
  datatype Pair = Pair(first: Point, second: Point)

  /** The keypoint at fraction `frac` of the line a-b (`keypoint`), and the
      point 13 units closer to a on the line from a to it (`keypoint1`). */
  datatype Anchor = Anchor(centre: Point, near: Point)

  function AnchorOnLine(num: Numerics, onLine: OnLine, a: Point, b: Point, frac: real): Anchor {
    var centre := onLine(a, b, Dist(num, a, b) * frac);
    var near := onLine(a, centre, Dist(num, a, centre) - HalfSpacing);
    Anchor(centre, near)
  }

  /** The pair mirrored through c: the near point and its reflection. */
  function MirroredPair(near: Point, c: Point): (p: Pair)
    ensures Midpoint(p.first, p.second) == c
  {
    Pair(near, Mirror(near, c))
  }

  /** The same pair moved dx along x. */
  function ShiftPair(p: Pair, dx: real): (q: Pair)
    ensures Midpoint(q.first, q.second) == Midpoint(p.first, p.second).Shift(dx, 0.0)
    ensures q.second.x - q.first.x == p.second.x - p.first.x
    ensures q.second.y - q.first.y == p.second.y - p.first.y
  {
    Pair(p.first.Shift(dx, 0.0), p.second.Shift(dx, 0.0))
  }

  /** `calculateFlexorCapriRadialis`: on the line TL-BR, symmetric about the keypoint. */
  function FcrPair(num: Numerics, onLine: OnLine, t: Trapezoid, f: Fractions): (p: Pair)
    ensures Midpoint(p.first, p.second) == AnchorOnLine(num, onLine, t.tl, t.br, f.fcr).centre
  {
    var a := AnchorOnLine(num, onLine, t.tl, t.br, f.fcr);
    MirroredPair(a.near, a.centre)
  }

  /** `calculateBrachioRadialis`: on the line TR-BR; the pair is mirrored
      through the midpoint of that line (not through the keypoint) and then
      shifted 5 units in -x. */
  function BrPair(num: Numerics, onLine: OnLine, t: Trapezoid, f: Fractions): (p: Pair)
    ensures Midpoint(p.first, p.second) == Midpoint(t.tr, t.br).Shift(-5.0, 0.0)
  {
    var a := AnchorOnLine(num, onLine, t.tr, t.br, f.br);
    ShiftPair(MirroredPair(a.near, Midpoint(t.tr, t.br)), -5.0)
  }

  /** `calculatePalmarLongus`: on the line from TL to the wrist midpoint,
      symmetric about the keypoint. */
  function PlPair(num: Numerics, onLine: OnLine, t: Trapezoid, f: Fractions): (p: Pair)
    ensures Midpoint(p.first, p.second) == AnchorOnLine(num, onLine, t.tl, WristMid(t), f.pl).centre
  {
    var a := AnchorOnLine(num, onLine, t.tl, WristMid(t), f.pl);
    MirroredPair(a.near, a.centre)
  }

  /** `calculatePronatorQuadratis`: 25 above the wrist midpoint, 12.5 to
      either side. */
  function PqPair(t: Trapezoid): (p: Pair)
    ensures Midpoint(p.first, p.second) == WristMid(t).Shift(0.0, -25.0)
    ensures p.first.y == p.second.y
    ensures p.second.x - p.first.x == InterElectrodeDistance
  {
    var w := WristMid(t);
    Pair(Point(w.x - 12.5, w.y - 25.0), Point(w.x + 12.5, w.y - 25.0))
  }

  /** `calculateFelxorCarpiUlnaris`: on the line TL-BL, mirrored through the
      keypoint and shifted 5 units in +x. */
  function FcuPair(num: Numerics, onLine: OnLine, t: Trapezoid, f: Fractions): (p: Pair)
    ensures Midpoint(p.first, p.second) == AnchorOnLine(num, onLine, t.tl, t.bl, f.fcu).centre.Shift(5.0, 0.0)
  {
    var a := AnchorOnLine(num, onLine, t.tl, t.bl, f.fcu);
    ShiftPair(MirroredPair(a.near, a.centre), 5.0)
  }

  /** The muscles in the order `selectedMuscles` indexes them. */
  const MuscleNames: seq<string> := ["FCR", "BR", "PL", "PQ", "FCU"]

  /** The five muscle pairs, indexed as `selectedMuscles` is. */
  function MusclePairs(num: Numerics, onLine: OnLine, t: Trapezoid, f: Fractions): (ps: seq<Pair>)
    ensures |ps| == 5
  {
    [FcrPair(num, onLine, t, f), BrPair(num, onLine, t, f), PlPair(num, onLine, t, f),
     PqPair(t), FcuPair(num, onLine, t, f)]
  }

  /** `selectedMuscles[k] == true`; a missing entry is not selected. */
  predicate Selected(sel: seq<bool>, k: nat) {
    k < |sel| && sel[k]
  }

  /** The muscle indices of the selected muscles from k on, ascending. */
  function SelectedFrom(sel: seq<bool>, k: nat): (ix: seq<nat>)
    requires k <= 5
    ensures |ix| <= 5 - k
    ensures forall i :: 0 <= i < |ix| ==> k <= ix[i] < 5 && Selected(sel, ix[i])
    ensures forall i, j :: 0 <= i < j < |ix| ==> ix[i] < ix[j]
    decreases 5 - k
  {
    if k == 5 then []
    else if Selected(sel, k) then [k] + SelectedFrom(sel, k + 1)
    else SelectedFrom(sel, k + 1)
  }

  /** Every selected muscle from k on is listed. */
  lemma {:induction false} SelectedFromComplete(sel: seq<bool>, k: nat, m: nat)
    requires k <= m < 5 && Selected(sel, m)
    ensures m in SelectedFrom(sel, k)
    decreases 5 - k
  {
    if k < m {
      SelectedFromComplete(sel, k + 1, m);
    }
  }

  /** A selected muscle: its name and its pair of positions. */
  datatype Entry = Entry(name: string, pair: Pair)

  /** The entries of the muscles listed in `ix`, in that order. */
  function Chosen(pairs: seq<Pair>, ix: seq<nat>): (es: seq<Entry>)
    requires |pairs| == 5
    requires forall i :: 0 <= i < |ix| ==> ix[i] < 5
    ensures |es| == |ix|
    ensures forall i :: 0 <= i < |ix| ==> es[i] == Entry(MuscleNames[ix[i]], pairs[ix[i]])
  {
    seq(|ix|, i requires 0 <= i < |ix| => Entry(MuscleNames[ix[i]], pairs[ix[i]]))
  }

  /** The first ("<M>1") or second ("<M>2") EMG keypoint of a muscle. */
  function EmgKeyPoint(e: Entry, second: bool): KeyPoint {
    if second then KeyPoint(e.pair.second.x, e.pair.second.y, KeyPointSize, "EMG", e.name + "2")
    else KeyPoint(e.pair.first.x, e.pair.first.y, KeyPointSize, "EMG", e.name + "1")
  }

  /** Two keypoints per entry, first then second, entries in order. */
  function EmgOf(es: seq<Entry>): (kps: seq<KeyPoint>)
    ensures |kps| == 2 * |es|
    ensures forall i :: 0 <= i < |es| ==> kps[2 * i] == EmgKeyPoint(es[i], false) && kps[2 * i + 1] == EmgKeyPoint(es[i], true)
  {
    seq(2 * |es|, j requires 0 <= j < 2 * |es| => EmgKeyPoint(es[j / 2], j % 2 == 1))
  }

  /** `calculateEMGKeypoints(selectedMuscles, trapezoid)`: two keypoints per
      selected muscle, in the order FCR, BR, PL, PQ, FCU, with ids "<M>1"
      and "<M>2", type "EMG", and the muscle's pair as positions. */
  function EmgKeyPoints(num: Numerics, onLine: OnLine, t: Trapezoid, f: Fractions, sel: seq<bool>): (kps: seq<KeyPoint>)
    ensures |kps| == 2 * |SelectedFrom(sel, 0)|
    ensures forall i :: 0 <= i < |SelectedFrom(sel, 0)| ==>
              var m := SelectedFrom(sel, 0)[i];
              var p := MusclePairs(num, onLine, t, f)[m];
              && kps[2 * i].id == MuscleNames[m] + "1" && kps[2 * i + 1].id == MuscleNames[m] + "2"
              && kps[2 * i].kind == "EMG" && kps[2 * i + 1].kind == "EMG"
              && kps[2 * i].Position() == p.first && kps[2 * i + 1].Position() == p.second
  {
    EmgOf(Chosen(MusclePairs(num, onLine, t, f), SelectedFrom(sel, 0)))
  }

  /** With every muscle selected, the muscles are taken in the order
      FCR, BR, PL, PQ, FCU, giving ten keypoints. */
  lemma AllMusclesSelected(num: Numerics, onLine: OnLine, t: Trapezoid, f: Fractions, sel: seq<bool>)
    requires forall k :: 0 <= k < 5 ==> Selected(sel, k)
    ensures SelectedFrom(sel, 0) == [0, 1, 2, 3, 4]
    ensures |EmgKeyPoints(num, onLine, t, f, sel)| == 10
  {
    assert SelectedFrom(sel, 4) == [4];
    assert SelectedFrom(sel, 3) == [3, 4];
    assert SelectedFrom(sel, 2) == [2, 3, 4];
    assert SelectedFrom(sel, 1) == [1, 2, 3, 4];
  }

  // ---------------------------------------------------------------------
  // ECG keypoints
  // ---------------------------------------------------------------------

  function EcgKeyPoint(p: Point, id: string): KeyPoint {
    KeyPoint(p.x, p.y, KeyPointSize, "ecg", id)
  }

  /** The six ECG positions: wrist corners 10 inwards and 10 up, elbow
      corners 10 inwards and 10 down, and the side midpoints 10 inwards and
      40 up. */
  function EcgPositions(t: Trapezoid): (ps: seq<Point>)
    ensures |ps| == 6
  {
    [ t.bl.Shift(10.0, -10.0), t.br.Shift(-10.0, -10.0),
      t.tl.Shift(10.0, 10.0), t.tr.Shift(-10.0, 10.0),
      Midpoint(t.tl, t.bl).Shift(10.0, -40.0), Midpoint(t.tr, t.br).Shift(-10.0, -40.0) ]
  }

  const EcgIds: seq<string> := ["ecg1", "ecg2", "ecg3", "ecg4", "ecg5", "ecg6"]

  /** The guard `type != "ECG" || type != "ecg"` holds for every type. */
  lemma EcgGuardAlwaysHolds(kind: string)
    ensures kind != "ECG" || kind != "ecg"
  {
  }

  /** `calculateECGKeyPoints(keyPointSet, trapezoid)`: appends ecg1..ecg6.
      The guard reads the type of the last entry, so an empty set throws: None. */
  function EcgKeyPoints(kps: seq<KeyPoint>, t: Trapezoid): (r: Option<seq<KeyPoint>>)
    ensures r.None? <==> |kps| == 0
    ensures r.Some? ==> |r.value| == |kps| + 6 && r.value[..|kps|] == kps
    ensures r.Some? ==> forall i :: 0 <= i < 6 ==>
              && r.value[|kps| + i].id == EcgIds[i]
              && r.value[|kps| + i].kind == "ecg"
              && r.value[|kps| + i].Position() == EcgPositions(t)[i]
  {
    if |kps| == 0 then None
    else
      var ps := EcgPositions(t);
      Some(kps + seq(6, i requires 0 <= i < 6 => EcgKeyPoint(ps[i], EcgIds[i])))
  }
}
