/**
 * `EnergyCalculator.js`: the quality scores of an electrode layout. Every
 * score is a cost in [0, 1] (0 is best): per-muscle EMG triplets built from
 * an angle curve and an inter-electrode-distance curve, the EDA sweat-gland
 * score, the ECG signal-to-noise table, and the weighted total with a
 * convex-hull area term.
 */
module Energy {
  import opened Base
  import Geometry
  import opened Electrodes
  import KeyPoints
  import GrahamScan
  import ElectrodeLayout

  /** Muscle widths: `BRACHIORADIALIS_MUSCLE_WIDTH`, `PALMARLONGUS_MUSCLE_WIDTH`
      and `FLEXORCARPIULNARIS_MUSCLE_WIDTH` are all 10; FCR uses the first. */
  const MuscleWidth: real := 10.0
  const PqLength: real := 60.0
  const PqWidth: real := 30.0
  const OptimalIed: real := 25.0
  const MaxIed: real := 60.0
  const IzThreshold: real := 5.0
  const MinRequiredEcgSnr: real := 17.44

  // ---------------------------------------------------------------------
  // Scoring curves
  // ---------------------------------------------------------------------

  function Sq(x: real): real {
    x * x
  }

  lemma SqMonotone(a: real, b: real)
    requires 0.0 <= a <= b
    ensures Sq(a) <= Sq(b)
  {
    assert a * a <= a * b <= b * b;
  }

  lemma SqDifference(a: real, b: real)
    ensures Sq(b) - Sq(a) == (b - a) * (b + a)
  {
  }

  /** `EMG_angle_cost_function`: 1 beyond 60 degrees, otherwise a quadratic
      scaled so that it runs from 0 at 0 degrees to exactly 1 at 60. */
  function AngleCost(deg: real): (c: real)
    ensures 0.0 <= deg ==> 0.0 <= c <= 1.0
    ensures 0.0 <= deg ==> (c >= 1.0 <==> deg >= 60.0)
    ensures deg == 0.0 ==> c == 0.0
  {
    if deg > 60.0 then 1.0
    else
      assert 0.0 <= deg ==> Sq(deg) <= Sq(60.0) by {
        if 0.0 <= deg { SqMonotone(deg, 60.0); }
      }
      (0.0035 * deg + 0.00011 * Sq(deg)) / 0.606
  }

  /** The angle cost never decreases as the angle grows. */
  lemma AngleCostMonotone(a: real, b: real)
    requires 0.0 <= a <= b
    ensures AngleCost(a) <= AngleCost(b)
  {
    if b <= 60.0 {
      SqMonotone(a, b);
    }
  }

  /** The fitted quality curve -0.0125612 + 0.05865171 d - 0.000741382 d^2. */
  function IedQuality(d: real): real {
    -0.0125612 + 0.05865171 * d - 0.000741382 * Sq(d)
  }

  /** The quality curve rises on [0, 25]. */
  lemma IedQualityRises(a: real, b: real)
    requires a <= b && a + b <= 50.0
    ensures IedQuality(a) <= IedQuality(b)
  {
    SqDifference(a, b);
    var gap := b - a;
    var slope := 0.05865171 - 0.000741382 * (a + b);
    assert slope > 0.0;
    assert gap * slope >= 0.0;
    assert IedQuality(b) - IedQuality(a) == gap * slope;
  }

  /** `EMG_inter_electrode_distance_cost_function`: one minus the quality
      curve, clipped so that it never exceeds 1. */
  function IedCost(d: real): (c: real)
    ensures c <= 1.0
    ensures d < OptimalIed ==> 0.0 < c
  {
    var s := 1.0 - IedQuality(d);
    assert d < OptimalIed ==> IedQuality(d) < 1.0 by {
      if 0.0 <= d < OptimalIed {
        IedQualityRises(d, OptimalIed);
      } else if d < 0.0 {
        assert 0.0 <= Sq(d);
      }
    }
    if s > 1.0 then 1.0 else s
  }

  /** Below the optimal spacing the cost never rises as the electrodes move apart. */
  lemma IedCostFalls(a: real, b: real)
    requires a <= b <= OptimalIed
    ensures IedCost(b) <= IedCost(a)
  {
    IedQualityRises(a, b);
  }

  /** The distance part of a muscle triplet: the cost curve below 25, no
      cost from 25 to 60, full cost beyond 60. */
  function DistanceCost(d: real): (c: real)
    ensures 0.0 <= c <= 1.0
    ensures OptimalIed <= d <= MaxIed <==> c == 0.0
    ensures d > MaxIed ==> c == 1.0
  {
    if d < OptimalIed then IedCost(d)
    else if d <= MaxIed then 0.0
    else 1.0
  }

  // ---------------------------------------------------------------------
  // Muscle triplets
  // ---------------------------------------------------------------------

  /** The (angle, distance, combined) scores of one muscle's electrode pair. */
  datatype Triplet = Triplet(angle: real, distance: real, combined: real)

  /** The early exits' "(1, 1, 1)": the worst score on every count. */
  const Rejected: Triplet := Triplet(1.0, 1.0, 1.0)

  /** 0 <= r <= p gives 0 <= r / p <= 1. */
  lemma RatioBounds(r: real, p: real)
    requires p > 0.0 && 0.0 <= r <= p
    ensures 0.0 <= r / p <= 1.0
  {
    var q := r / p;
    assert q * p == r;
  }

  /** Radians to degrees, folded so that a line and its reverse give the same angle. */
  function FoldedDegrees(num: Numerics, radians: real): (deg: real)
    ensures 0.0 <= radians <= num.pi ==> 0.0 <= deg <= 90.0
  {
    var d := radians * 180.0 / num.pi;
    assert 0.0 <= radians <= num.pi ==> 0.0 <= d <= 180.0 by {
      if 0.0 <= radians <= num.pi {
        var q := radians / num.pi;
        assert q * num.pi == radians;
        RatioBounds(radians, num.pi);
        assert d == 180.0 * q;
      }
    }
    if d > 90.0 then 180.0 - d else d
  }

  /** The common tail of every muscle score: the angle between the
      electrode pair and a reference line, then the distance between the
      electrodes. A zero-length vector makes the angle NaN in the source,
      and so the whole triplet: None. */
  function AngleAndDistance(num: Numerics, e1: Point, e2: Point, r1: Point, r2: Point): (t: Option<Triplet>)
    ensures t.None? <==> Geometry.VectorAngle(num, e1, e2, r1, r2).None?
    ensures t.Some? ==> t.value == Rejected || (t.value.angle < 1.0 && t.value.combined == (t.value.angle + t.value.distance) / 2.0)
    ensures t.Some? ==> t.value.distance == 1.0 || t.value.distance == DistanceCost(Dist(num, e1, e2))
    ensures Sane(num) && t.Some? ==>
              && (t.value == Rejected <==> FoldedDegrees(num, Geometry.VectorAngle(num, e1, e2, r1, r2).value) >= 60.0)
              && 0.0 <= t.value.angle <= 1.0 && 0.0 <= t.value.distance <= 1.0
              && 0.0 <= t.value.combined <= 1.0
              && (t.value != Rejected ==> t.value.combined < 1.0)
  {
    match Geometry.VectorAngle(num, e1, e2, r1, r2)
    case None => None
    case Some(radians) =>
      var a := AngleCost(FoldedDegrees(num, radians));
      if a >= 1.0 then Some(Rejected)
      else
        var d := DistanceCost(Dist(num, e1, e2));
        Some(Triplet(a, d, (a + d) / 2.0))
  }

  /** A muscle modelled by a line: the muscle line, the half-width within
      which an electrode counts as on the muscle, and the innervation zone. */
  datatype LineMuscle = LineMuscle(a: Point, b: Point, width: real, iz1: Point, iz2: Point)

  /** `calculateFCRScore`, `calculateBRScore`, `calculatePLScore`,
      `calculateFCUScore`: rejected when both electrodes are farther than
      the width from the muscle line, or when either is within 5 of the
      innervation zone; otherwise scored by angle (against the muscle line)
      and distance. */
  function LineMuscleScore(num: Numerics, e1: Point, e2: Point, m: LineMuscle): (t: Option<Triplet>)
    ensures Geometry.SegmentDistance(num, e1, m.a, m.b) > m.width && Geometry.SegmentDistance(num, e2, m.a, m.b) > m.width
            ==> t == Some(Rejected)
    ensures Geometry.SegmentDistance(num, e1, m.iz1, m.iz2) <= IzThreshold || Geometry.SegmentDistance(num, e2, m.iz1, m.iz2) <= IzThreshold
            ==> t == Some(Rejected)
    ensures t != Some(Rejected) ==>
              && (Geometry.SegmentDistance(num, e1, m.a, m.b) <= m.width || Geometry.SegmentDistance(num, e2, m.a, m.b) <= m.width)
              && Geometry.SegmentDistance(num, e1, m.iz1, m.iz2) > IzThreshold
              && Geometry.SegmentDistance(num, e2, m.iz1, m.iz2) > IzThreshold
              && t == AngleAndDistance(num, e1, e2, m.a, m.b)
  {
    var d1 := Geometry.SegmentDistance(num, e1, m.a, m.b);
    var d2 := Geometry.SegmentDistance(num, e2, m.a, m.b);
    if d1 > m.width && d2 > m.width then Some(Rejected)
    else
      var z1 := Geometry.SegmentDistance(num, e1, m.iz1, m.iz2);
      var z2 := Geometry.SegmentDistance(num, e2, m.iz1, m.iz2);
      if z1 > IzThreshold && z2 > IzThreshold then AngleAndDistance(num, e1, e2, m.a, m.b)
      else Some(Rejected)
  }

  /** `calculatePQScore`: the pronator quadratus runs 60 up from the wrist
      midpoint. Rejected when either electrode is above its top or both are
      farther than 30 from it; there is no innervation-zone test, and the
      angle is taken against the line through the 7th and 8th keypoints. */
  function PqScore(num: Numerics, e1: Point, e2: Point, wrist: Point, ref1: Point, ref2: Point): (t: Option<Triplet>)
    ensures e1.y < wrist.y - PqLength || e2.y < wrist.y - PqLength ==> t == Some(Rejected)
    ensures t != Some(Rejected) ==>
              && wrist.y - PqLength <= e1.y && wrist.y - PqLength <= e2.y
              && (Geometry.SegmentDistance(num, e1, wrist.Shift(0.0, -PqLength), wrist) <= PqWidth
                  || Geometry.SegmentDistance(num, e2, wrist.Shift(0.0, -PqLength), wrist) <= PqWidth)
              && t == AngleAndDistance(num, e1, e2, ref1, ref2)
  {
    var top := Point(wrist.x, wrist.y - PqLength);
    var d1 := Geometry.SegmentDistance(num, e1, top, wrist);
    var d2 := Geometry.SegmentDistance(num, e2, top, wrist);
    if e1.y < top.y || e2.y < top.y then Some(Rejected)
    else if d1 > PqWidth && d2 > PqWidth then Some(Rejected)
    else AngleAndDistance(num, e1, e2, ref1, ref2)
  }

  // ---------------------------------------------------------------------
  // The five muscles
  // ---------------------------------------------------------------------

  /** The innervation-zone fractions along each muscle line
      (`FCR_IZ_ZONE_START`, `FCR_IZ_ZONE_END`, ...). */
  datatype IzZones = IzZones(fcrStart: real, fcrEnd: real, brStart: real, brEnd: real,
                             plStart: real, plEnd: real, fcuStart: real, fcuEnd: real)

  /** FCR: the line TL-BR, innervation zone on the same line. */
  function FcrMuscle(num: Numerics, onLine: KeyPoints.OnLine, t: KeyPoints.Trapezoid, iz: IzZones): LineMuscle {
    var len := Dist(num, t.tl, t.br);
    LineMuscle(t.tl, t.br, MuscleWidth, onLine(t.tl, t.br, len * iz.fcrStart), onLine(t.tl, t.br, len * iz.fcrEnd))
  }

  /** BR: the line TR-BR moved 5 in -x; its innervation zone is measured
      with BR's own length but placed on the FCR line TL-BR. */
  function BrMuscle(num: Numerics, onLine: KeyPoints.OnLine, t: KeyPoints.Trapezoid, iz: IzZones): LineMuscle {
    var a := t.tr.Shift(-5.0, 0.0);
    var b := t.br.Shift(-5.0, 0.0);
    var len := Dist(num, a, b);
    LineMuscle(a, b, MuscleWidth, onLine(t.tl, t.br, len * iz.brStart), onLine(t.tl, t.br, len * iz.brEnd))
  }

  /** PL: the line from TL to the wrist midpoint, innervation zone on it. */
  function PlMuscle(num: Numerics, onLine: KeyPoints.OnLine, t: KeyPoints.Trapezoid, iz: IzZones): LineMuscle {
    var w := KeyPoints.WristMid(t);
    var len := Dist(num, t.tl, w);
    LineMuscle(t.tl, w, MuscleWidth, onLine(t.tl, w, len * iz.plStart), onLine(t.tl, w, len * iz.plEnd))
  }

  /** FCU: the line TL-BL moved 5 in +x, innervation zone on it. */
  function FcuMuscle(num: Numerics, onLine: KeyPoints.OnLine, t: KeyPoints.Trapezoid, iz: IzZones): LineMuscle {
    var a := t.tl.Shift(5.0, 0.0);
    var b := t.bl.Shift(5.0, 0.0);
    var len := Dist(num, a, b);
    LineMuscle(a, b, MuscleWidth, onLine(a, b, len * iz.fcuStart), onLine(a, b, len * iz.fcuEnd))
  }

  /** The order the keypoint sort handed to the hull scan: the points other
      than the pivot, in the order of the angle comparator. */
  type AngularSort = seq<Point> -> seq<Point>

  /** The comparator's order is a rearrangement of the non-pivot points. */
  ghost predicate SortsRemainder(sort: AngularSort) {
    forall pts: seq<Point> :: |pts| >= 1 ==>
      GrahamScan.IsRemainder(pts, pts[GrahamScan.PivotIndex(pts)], sort(pts))
  }

  type NonNegReal = r: real | r >= 0.0

  /** What the energy reads besides the layout: the numeric functions, the
      keypoint oracle, the forearm trapezoid, the innervation zones, the
      two PQ reference keypoints (the 7th and 8th keypoints), the EDA
      electrode size, `BASELINE_AREA`, the hull's angular order and the
      scan's pop rule (`Unbounded` is the scan as written). */
  datatype Setup = Setup(num: Numerics, onLine: KeyPoints.OnLine, trapezoid: KeyPoints.Trapezoid, iz: IzZones,
                         pqRef1: Point, pqRef2: Point, edaSize: NonNegReal, baseline: NonNegReal, sort: AngularSort,
                         pop: GrahamScan.PopRule)

  /** The first ids of the five muscle pairs. */
  predicate IsMuscleId(id: string) {
    id == "BR1" || id == "FCR1" || id == "PL1" || id == "PQ1" || id == "FCU1"
  }

  /** The line a muscle pair's angle is measured against: the muscle line,
      except for PQ, which uses the two reference keypoints. */
  function AngleReference(s: Setup, id: string): (Point, Point)
    requires IsMuscleId(id)
  {
    var t := s.trapezoid;
    if id == "BR1" then (BrMuscle(s.num, s.onLine, t, s.iz).a, BrMuscle(s.num, s.onLine, t, s.iz).b)
    else if id == "FCR1" then (FcrMuscle(s.num, s.onLine, t, s.iz).a, FcrMuscle(s.num, s.onLine, t, s.iz).b)
    else if id == "PL1" then (PlMuscle(s.num, s.onLine, t, s.iz).a, PlMuscle(s.num, s.onLine, t, s.iz).b)
    else if id == "PQ1" then (s.pqRef1, s.pqRef2)
    else (FcuMuscle(s.num, s.onLine, t, s.iz).a, FcuMuscle(s.num, s.onLine, t, s.iz).b)
  }

  /** The triplet of the muscle a pair's first id names: anything but the
      rejection is the angle-and-distance score against that muscle's reference. */
  function MuscleScore(s: Setup, id: string, e1: Point, e2: Point): (t: Option<Triplet>)
    requires IsMuscleId(id)
    ensures t != Some(Rejected) ==>
              t == AngleAndDistance(s.num, e1, e2, AngleReference(s, id).0, AngleReference(s, id).1)
    ensures Sane(s.num) && t.Some? ==> 0.0 <= t.value.combined <= 1.0
  {
    var t := s.trapezoid;
    if id == "BR1" then LineMuscleScore(s.num, e1, e2, BrMuscle(s.num, s.onLine, t, s.iz))
    else if id == "FCR1" then LineMuscleScore(s.num, e1, e2, FcrMuscle(s.num, s.onLine, t, s.iz))
    else if id == "PL1" then LineMuscleScore(s.num, e1, e2, PlMuscle(s.num, s.onLine, t, s.iz))
    else if id == "PQ1" then PqScore(s.num, e1, e2, KeyPoints.WristMid(t), s.pqRef1, s.pqRef2)
    else LineMuscleScore(s.num, e1, e2, FcuMuscle(s.num, s.onLine, t, s.iz))
  }

  // ---------------------------------------------------------------------
  // EDA and ECG
  // ---------------------------------------------------------------------

  const SweatGlandDensity: real := 108.0
  const RecommendedEdaDistance: real := 60.0
  const MinGlands: int := 140

  /** Sweat glands under two electrodes of diameter `sizeCm` that are
      `distCm` apart: ceil((pi s^2 + 2 d s) * 108). */
  function Glands(num: Numerics, sizeCm: real, distCm: real): int {
    Ceil((num.pi * sizeCm * sizeCm + distCm * 2.0 * sizeCm) * SweatGlandDensity)
  }

  /** More distance, more glands. */
  lemma GlandsMonotone(num: Numerics, sizeCm: real, a: real, b: real)
    requires 0.0 <= sizeCm && a <= b
    ensures Glands(num, sizeCm, a) <= Glands(num, sizeCm, b)
  {
    var g := b - a;
    var w := 2.0 * sizeCm;
    assert g * w >= 0.0;
    var base := num.pi * sizeCm * sizeCm;
    var lo := (base + a * 2.0 * sizeCm) * SweatGlandDensity;
    var hi := (base + b * 2.0 * sizeCm) * SweatGlandDensity;
    assert hi - lo == g * w * SweatGlandDensity;
    CeilMonotone(lo, hi);
  }

  lemma CeilMonotone(x: real, y: real)
    requires x <= y
    ensures Ceil(x) <= Ceil(y)
  {
  }

  /** Dividing by a positive number keeps the order. */
  lemma DivideOrder(x: real, y: real, z: real)
    requires 0.0 < z && x <= y
    ensures x / z <= y / z
  {
    var q := (y - x) / z;
    assert q * z == y - x;
    assert y / z - x / z == q;
  }

  /** `eda_inter_electrode_distance_score`: 1 when fewer than 140 glands are
      covered or the electrodes are more than 60 apart, otherwise one minus
      the share of the glands covered at the recommended 60. */
  function EdaScore(num: Numerics, edaSize: NonNegReal, d: real): (score: real)
    ensures 0.0 <= score <= 1.0
    ensures score < 1.0 ==> d <= RecommendedEdaDistance && Glands(num, edaSize / 10.0, d / 10.0) >= MinGlands
  {
    var sizeCm := edaSize / 10.0;
    var ns := Glands(num, sizeCm, d / 10.0);
    var nmax := Glands(num, sizeCm, RecommendedEdaDistance / 10.0);
    if ns < MinGlands then 1.0
    else if d > RecommendedEdaDistance then 1.0
    else
      GlandsMonotone(num, sizeCm, d / 10.0, RecommendedEdaDistance / 10.0);
      RatioBounds(ns as real, nmax as real);
      1.0 - ns as real / nmax as real
  }

  /** Among close enough pairs, the farther pair covers more glands and scores no worse. */
  lemma EdaScoreFalls(num: Numerics, edaSize: NonNegReal, a: real, b: real)
    requires a <= b <= RecommendedEdaDistance
    requires Glands(num, edaSize / 10.0, a / 10.0) >= MinGlands
    ensures EdaScore(num, edaSize, b) <= EdaScore(num, edaSize, a)
  {
    var sizeCm := edaSize / 10.0;
    GlandsMonotone(num, sizeCm, a / 10.0, b / 10.0);
    GlandsMonotone(num, sizeCm, b / 10.0, RecommendedEdaDistance / 10.0);
    var na := Glands(num, sizeCm, a / 10.0) as real;
    var nb := Glands(num, sizeCm, b / 10.0) as real;
    var nmax := Glands(num, sizeCm, RecommendedEdaDistance / 10.0) as real;
    DivideOrder(na, nb, nmax);
  }

  /** `getECGSNRForPair`: the measured SNR of the five ordered electrode
      pairs; undefined for any other pair. */
  function EcgSnr(id1: string, id2: string): (snr: Option<real>)
    ensures snr.Some? ==> 0.0 < snr.value <= MinRequiredEcgSnr
    ensures snr.Some? <==> (id1, id2) in {("ecg1", "ecg2"), ("ecg3", "ecg4"), ("ecg5", "ecg6"), ("ecg1", "ecg6"), ("ecg4", "ecg5")}
  {
    if id1 == "ecg1" && id2 == "ecg2" then Some(4.36)
    else if id1 == "ecg3" && id2 == "ecg4" then Some(17.44)
    else if id1 == "ecg5" && id2 == "ecg6" then Some(8.27)
    else if id1 == "ecg1" && id2 == "ecg6" then Some(5.16)
    else if id1 == "ecg4" && id2 == "ecg5" then Some(9.39)
    else None
  }

  /** A JavaScript number that may be NaN: None is NaN. */
  type Num = Option<real>

  /** `calculateECGScore`: one minus the SNR relative to the best pair's
      17.44, and 0 if it were above; NaN for a pair without a table entry. */
  function EcgScore(id1: string, id2: string): (score: Num)
    ensures score.None? <==> EcgSnr(id1, id2).None?
    ensures score.Some? ==> 0.0 <= score.value < 1.0
    ensures score.Some? ==> (score.value == 0.0 <==> EcgSnr(id1, id2).value == MinRequiredEcgSnr)
  {
    match EcgSnr(id1, id2)
    case None => None
    case Some(snr) =>
      var ratio := snr / MinRequiredEcgSnr;
      if ratio > 1.0 then Some(0.0) else Some(1.0 - ratio)
  }

  /** A higher SNR never scores worse. */
  lemma EcgScoreOrder(a1: string, a2: string, b1: string, b2: string)
    requires EcgSnr(a1, a2).Some? && EcgSnr(b1, b2).Some?
    requires EcgSnr(a1, a2).value <= EcgSnr(b1, b2).value
    ensures EcgScore(b1, b2).value <= EcgScore(a1, a2).value
  {
  }

  // ---------------------------------------------------------------------
  // The layout energy
  // ---------------------------------------------------------------------

  /** NaN-propagating sum and product. */
  function Plus(a: Num, b: Num): (r: Num)
    ensures r.Some? <==> a.Some? && b.Some?
  {
    if a.Some? && b.Some? then Some(a.value + b.value) else None
  }

  /** `w * a`: NaN times anything, even 0, is NaN. */
  function Times(w: real, a: Num): (r: Num)
    ensures r.Some? <==> a.Some?
  {
    if a.Some? then Some(Weighted(w, a.value)) else None
  }

  /** A score multiplied by its weight. */
  function Weighted(weight: real, score: real): real {
    weight * score
  }

  /** The four weights, in the order of the `weights` array: EMG, EDA, ECG, area. */
  datatype Weights = Weights(emg: real, eda: real, ecg: real, area: real)

  predicate NonNegative(w: Weights) {
    w.emg >= 0.0 && w.eda >= 0.0 && w.ecg >= 0.0 && w.area >= 0.0
  }

  /** The running totals of the pair loop, with the `EDAScore[1]` and
      `ECGScore` entries of the score object as the loop leaves them. */
  datatype Tally = Tally(emgSum: Num, muscles: nat, layout: Num, edaPairs: nat, ecgPairs: nat, eda: Num, ecg: Num)

  /** The totals before the loop; the score entries keep their earlier values. */
  function StartTally(prior: Readout): Tally {
    Tally(Some(0.0), 0, Some(0.0), 0, 0, prior.eda, prior.ecg)
  }

  /** The modality types the pair loop reads a partner for. */
  predicate NeedsPartner(e: Electrode) {
    e.kind == "emg" || e.kind == "eda" || e.kind == "ecg"
  }

  /** The loop reaches an unpaired last electrode of a scored type and
      reads the missing partner's fields: a TypeError. */
  predicate Dangling(es: seq<Electrode>, i: nat)
    requires i <= |es|
  {
    (|es| - i) % 2 == 1 && NeedsPartner(es[|es| - 1])
  }

  /** The number of pairs from i on whose first electrode has the given type. */
  function PairsOfKind(es: seq<Electrode>, i: nat, kind: string): nat
    decreases |es| - i
  {
    if i + 1 >= |es| then 0
    else (if es[i].kind == kind then 1 else 0) + PairsOfKind(es, i + 2, kind)
  }

  /** An EMG pair whose first id names one of the five muscles. */
  predicate IsMusclePair(a: Electrode, b: Electrode) {
    a.kind == "emg" && b.kind == "emg" && IsMuscleId(a.id)
  }

  /** The number of muscle pairs from i on. */
  function MusclePairs(es: seq<Electrode>, i: nat): nat
    decreases |es| - i
  {
    if i + 1 >= |es| then 0
    else (if IsMusclePair(es[i], es[i + 1]) then 1 else 0) + MusclePairs(es, i + 2)
  }

  /** An EMG pair of a known muscle adds its combined score (NaN when
      the score is undefined) and counts one muscle. */
  function EmgStep(acc: Tally, t: Option<Triplet>): Tally {
    acc.(emgSum := Plus(acc.emgSum, if t.Some? then Some(t.value.combined) else None), muscles := acc.muscles + 1)
  }

  /** An EDA pair adds its weighted score and records it. */
  function EdaStep(acc: Tally, weight: real, score: real): Tally {
    acc.(layout := Plus(acc.layout, Some(Weighted(weight, score))), edaPairs := acc.edaPairs + 1, eda := Some(score))
  }

  /** An ECG pair adds its weighted score (NaN for an unknown lead pair) and records it. */
  function EcgStep(acc: Tally, weight: real, score: Num): Tally {
    acc.(layout := Plus(acc.layout, Times(weight, score)), ecgPairs := acc.ecgPairs + 1, ecg := score)
  }

  /** One step of the loop: the pair (a, b). The EDA and ECG branches test
      the first electrode's type twice, so the partner's type is not read. */
  function TallyPair(s: Setup, w: Weights, a: Electrode, b: Electrode, acc: Tally): Tally {
    if a.kind == "emg" && b.kind == "emg" then
      if IsMuscleId(a.id) then EmgStep(acc, MuscleScore(s, a.id, a.Centre(), b.Centre())) else acc
    else if a.kind == "eda" then
      EdaStep(acc, w.eda, EdaScore(s.num, s.edaSize, Dist(s.num, a.Centre(), b.Centre())))
    else if a.kind == "ecg" then
      EcgStep(acc, w.ecg, EcgScore(a.id, b.id))
    else acc
  }

  /** What the running totals keep: the EMG sum is within [0, muscles],
      and the modality sum within [0, w_eda * #EDA + w_ecg * #ECG]. */
  predicate TallyBounded(w: Weights, acc: Tally) {
    && (acc.emgSum.Some? ==> 0.0 <= acc.emgSum.value <= acc.muscles as real)
    && (acc.layout.Some? ==> 0.0 <= acc.layout.value <= Repeat(w.eda, acc.edaPairs) + Repeat(w.ecg, acc.ecgPairs))
  }

  /** n copies of a weight added up. */
  function Repeat(weight: real, n: nat): real {
    if n == 0 then 0.0 else weight + Repeat(weight, n - 1)
  }

  /** Repeated addition is multiplication. */
  lemma {:induction false} RepeatIsProduct(weight: real, n: nat)
    ensures Repeat(weight, n) == weight * n as real
  {
    if n > 0 {
      RepeatIsProduct(weight, n - 1);
      assert weight * n as real == weight * (n - 1) as real + weight;
    }
  }

  /** The pair loop `for (i = 0; i < n; i += 2)` of both energy functions,
      from index i on. None: the loop read a missing partner. */
  function TallyFrom(s: Setup, w: Weights, es: seq<Electrode>, i: nat, acc: Tally): (r: Option<Tally>)
    requires i <= |es|
    ensures r.None? <==> Dangling(es, i)
    decreases |es| - i
  {
    if i == |es| then Some(acc)
    else if i + 1 == |es| then
      if NeedsPartner(es[i]) then None else Some(acc)
    else TallyFrom(s, w, es, i + 2, TallyPair(s, w, es[i], es[i + 1], acc))
  }

  /** The loop counts every muscle pair and every EDA and ECG pair once. */
  lemma {:induction false} TallyCounts(s: Setup, w: Weights, es: seq<Electrode>, i: nat, acc: Tally)
    requires i <= |es| && TallyFrom(s, w, es, i, acc).Some?
    ensures TallyFrom(s, w, es, i, acc).value.muscles == acc.muscles + MusclePairs(es, i)
    ensures TallyFrom(s, w, es, i, acc).value.edaPairs == acc.edaPairs + PairsOfKind(es, i, "eda")
    ensures TallyFrom(s, w, es, i, acc).value.ecgPairs == acc.ecgPairs + PairsOfKind(es, i, "ecg")
    decreases |es| - i
  {
    if i + 1 < |es| {
      TallyCounts(s, w, es, i + 2, TallyPair(s, w, es[i], es[i + 1], acc));
    }
  }

  /** The EDA and ECG entries change only when such a pair is scored, and
      then hold a score in range: EDA in [0, 1], ECG in [0, 1) or NaN. */
  lemma {:induction false} TallyReadouts(s: Setup, w: Weights, es: seq<Electrode>, i: nat, acc: Tally)
    requires i <= |es| && TallyFrom(s, w, es, i, acc).Some?
    ensures var r := TallyFrom(s, w, es, i, acc).value;
            PairsOfKind(es, i, "eda") == 0 ==> r.eda == acc.eda
    ensures var r := TallyFrom(s, w, es, i, acc).value;
            PairsOfKind(es, i, "eda") > 0 ==> r.eda.Some? && 0.0 <= r.eda.value <= 1.0
    ensures var r := TallyFrom(s, w, es, i, acc).value;
            PairsOfKind(es, i, "ecg") == 0 ==> r.ecg == acc.ecg
    ensures var r := TallyFrom(s, w, es, i, acc).value;
            PairsOfKind(es, i, "ecg") > 0 && r.ecg.Some? ==> 0.0 <= r.ecg.value < 1.0
    decreases |es| - i
  {
    if i + 1 < |es| {
      var next := TallyPair(s, w, es[i], es[i + 1], acc);
      TallyReadouts(s, w, es, i + 2, next);
      if PairsOfKind(es, i + 2, "eda") == 0 && es[i].kind == "eda" {
        assert next.eda.Some? && 0.0 <= next.eda.value <= 1.0;
      }
      if PairsOfKind(es, i + 2, "ecg") == 0 && es[i].kind == "ecg" {
        assert next.ecg.Some? ==> 0.0 <= next.ecg.value < 1.0;
      }
    }
  }

  /** With sane numerics and non-negative weights the loop keeps the bounds
      of `TallyBounded`. */
  lemma {:induction false} TallyKeepsBounds(s: Setup, w: Weights, es: seq<Electrode>, i: nat, acc: Tally)
    requires i <= |es| && TallyFrom(s, w, es, i, acc).Some?
    requires Sane(s.num) && NonNegative(w) && TallyBounded(w, acc)
    ensures TallyBounded(w, TallyFrom(s, w, es, i, acc).value)
    decreases |es| - i
  {
    if i + 1 < |es| {
      TallyPairBounded(s, w, es[i], es[i + 1], acc);
      TallyKeepsBounds(s, w, es, i + 2, TallyPair(s, w, es[i], es[i + 1], acc));
    }
  }

  /** The totals before the loop are within the bounds. */
  lemma StartBounded(w: Weights, prior: Readout)
    ensures TallyBounded(w, StartTally(prior))
  {
    assert Repeat(w.eda, 0) == 0.0 && Repeat(w.ecg, 0) == 0.0;
  }

  lemma BoundsWhenSane(s: Setup, w: Weights, es: seq<Electrode>, acc: Tally)
    requires TallyFrom(s, w, es, 0, acc).Some? && TallyBounded(w, acc)
    ensures Sane(s.num) && NonNegative(w) ==> TallyBounded(w, TallyFrom(s, w, es, 0, acc).value)
  {
    if Sane(s.num) && NonNegative(w) {
      TallyKeepsBounds(s, w, es, 0, acc);
    }
  }

  /** One pair keeps the bounds. */
  lemma TallyPairBounded(s: Setup, w: Weights, a: Electrode, b: Electrode, acc: Tally)
    requires Sane(s.num) && NonNegative(w) && TallyBounded(w, acc)
    ensures TallyBounded(w, TallyPair(s, w, a, b, acc))
  {
    if a.kind == "emg" && b.kind == "emg" {
      if IsMuscleId(a.id) {
        EmgStepBounded(w, acc, MuscleScore(s, a.id, a.Centre(), b.Centre()));
      }
    } else if a.kind == "eda" {
      EdaStepBounded(w, acc, EdaScore(s.num, s.edaSize, Dist(s.num, a.Centre(), b.Centre())));
    } else if a.kind == "ecg" {
      EcgStepBounded(w, acc, EcgScore(a.id, b.id));
    }
  }

  lemma EmgStepBounded(w: Weights, acc: Tally, t: Option<Triplet>)
    requires TallyBounded(w, acc)
    requires t.Some? ==> 0.0 <= t.value.combined <= 1.0
    ensures TallyBounded(w, EmgStep(acc, t))
  {
    if acc.emgSum.Some? && t.Some? {
      assert acc.emgSum.value + t.value.combined <= (acc.muscles + 1) as real;
    }
  }

  lemma EdaStepBounded(w: Weights, acc: Tally, score: real)
    requires NonNegative(w) && TallyBounded(w, acc)
    requires 0.0 <= score <= 1.0
    ensures TallyBounded(w, EdaStep(acc, w.eda, score))
  {
    WeightedShare(w.eda, score);
  }

  lemma EcgStepBounded(w: Weights, acc: Tally, score: Num)
    requires NonNegative(w) && TallyBounded(w, acc)
    requires score.Some? ==> 0.0 <= score.value <= 1.0
    ensures TallyBounded(w, EcgStep(acc, w.ecg, score))
  {
    if score.Some? {
      WeightedShare(w.ecg, score.value);
    }
  }

  /** A weighted score in [0, 1] is at most the weight. */
  lemma WeightedShare(weight: real, score: real)
    requires weight >= 0.0 && 0.0 <= score <= 1.0
    ensures 0.0 <= Weighted(weight, score) <= weight
  {
    assert weight * score <= weight * 1.0;
  }

  /** The scores an energy call leaves in the `LayoutEnergy` object, which
      the lower-bound optimisers read back: `EMGScore`, `EDAScore[1]`,
      `ECGScore` and `AreaScore`. A call that scores no pair of a modality
      leaves that entry as it was. */
  datatype Readout = Readout(emg: Num, eda: Num, ecg: Num, area: Num)

  /** The object as created: EMGScore 0, EDAScore -1 (so `EDAScore[1]` is
      undefined and reads as NaN), ECGScore -1 and AreaScore -1. */
  const InitialReadout: Readout := Readout(Some(0.0), None, Some(-1.0), Some(-1.0))

  /** The scan as written throws on the layout's centres: popping past the
      bottom of the stack, as on three collinear centres (see
      `GrahamScan.CollinearUnderflow`). */
  predicate HullThrows(s: Setup, es: seq<Electrode>)
    requires SortsRemainder(s.sort)
  {
    var pts := ElectrodeLayout.Coordinates(es);
    assert |es| >= 1 ==> GrahamScan.IsRemainder(pts, pts[GrahamScan.PivotIndex(pts)], s.sort(pts));
    s.pop.Unbounded? && GrahamScan.GrahamAsWritten(pts, s.sort(pts)).ScanUnderflow?
  }

  /** The area of the convex hull of the electrode centres. None: fewer
      than two electrodes, where the scan's result holds null entries and
      flattening it throws, or a scan that throws. */
  function HullArea(s: Setup, es: seq<Electrode>): (area: Option<real>)
    requires SortsRemainder(s.sort)
    ensures area.None? <==> |es| < 2 || HullThrows(s, es)
    ensures s.pop.StopAtPivot? ==> (area.None? <==> |es| < 2)
    ensures area.Some? ==> area.value >= 0.0
  {
    var pts := ElectrodeLayout.Coordinates(es);
    var sorted := s.sort(pts);
    assert |es| >= 1 ==> GrahamScan.IsRemainder(pts, pts[GrahamScan.PivotIndex(pts)], sorted);
    match ElectrodeLayout.ConvexHull(s.pop, es, sorted)
    case Hull(vs) =>
      var flat := Geometry.Flatten(vs);
      Some(Geometry.PolygonArea(Geometry.XCoords(flat), Geometry.YCoords(flat), |vs|))
    case _ => None
  }

  /** Three electrodes centred on one vertical line, in the angular order
      the comparator gives them: the scan as written throws, so the area and
      every energy call on the layout throw. */
  lemma CollinearLayoutThrows(s: Setup, w: Weights, es: seq<Electrode>, mode: AreaMode, prior: Readout)
    requires SortsRemainder(s.sort) && s.pop.Unbounded?
    requires |es| == 3
    requires es[0].Centre() == Point(0.0, 0.0) && es[1].Centre() == Point(0.0, 1.0) && es[2].Centre() == Point(0.0, 2.0)
    requires s.sort([Point(0.0, 0.0), Point(0.0, 1.0), Point(0.0, 2.0)]) == [Point(0.0, 1.0), Point(0.0, 2.0)]
    ensures HullArea(s, es).None?
    ensures LayoutEnergy(s, w, es, mode, prior).None?
  {
    CollinearHullThrows(s, es);
  }

  lemma CollinearHullThrows(s: Setup, es: seq<Electrode>)
    requires SortsRemainder(s.sort) && s.pop.Unbounded?
    requires |es| == 3
    requires es[0].Centre() == Point(0.0, 0.0) && es[1].Centre() == Point(0.0, 1.0) && es[2].Centre() == Point(0.0, 2.0)
    requires s.sort([Point(0.0, 0.0), Point(0.0, 1.0), Point(0.0, 2.0)]) == [Point(0.0, 1.0), Point(0.0, 2.0)]
    ensures HullThrows(s, es)
  {
    var line := [Point(0.0, 0.0), Point(0.0, 1.0), Point(0.0, 2.0)];
    var pts := ElectrodeLayout.Coordinates(es);
    assert pts == line;
    assert GrahamScan.GrahamAsWritten(line, s.sort(line)) == GrahamScan.ScanUnderflow by {
      GrahamScan.CollinearUnderflow();
    }
  }

  /** `calculateSystemEnergy` adds the hull area times the area weight;
      `calculateSystemEnergyForArea` adds the hull area relative to
      `BASELINE_AREA`, capped at 1, times the weight. */
  datatype AreaMode = HullTimesWeight | NormalisedToBaseline

  /** The area term, computed only for a positive area weight. With a zero
      baseline, a positive hull gives +Infinity, capped to 1, and a zero
      hull gives 0/0, which is NaN. */
  function AreaScore(mode: AreaMode, weight: real, hull: real, baseline: NonNegReal): (a: Num)
    requires weight > 0.0 && hull >= 0.0
    ensures a.None? <==> mode.NormalisedToBaseline? && baseline == 0.0 && hull == 0.0
    ensures a.Some? ==> a.value >= 0.0
    ensures mode.HullTimesWeight? ==> a.Some? && (a.value == 0.0 <==> hull == 0.0)
    ensures mode.NormalisedToBaseline? && a.Some? ==> a.value <= weight
    ensures mode.NormalisedToBaseline? && hull >= baseline && hull > 0.0 ==> a == Some(weight)
  {
    match mode
    case HullTimesWeight =>
      WeightedShareOfHull(weight, hull);
      Some(Weighted(weight, hull))
    case NormalisedToBaseline =>
      if baseline == 0.0 then
        if hull == 0.0 then None else Some(weight)
      else
        var ratio := hull / baseline;
        RatioFacts(hull, baseline);
        WeightedShare(weight, Min(ratio, 1.0));
        Some(Weighted(weight, Min(ratio, 1.0)))
  }

  lemma WeightedShareOfHull(weight: real, hull: real)
    requires weight > 0.0 && hull >= 0.0
    ensures Weighted(weight, hull) >= 0.0
    ensures Weighted(weight, hull) == 0.0 <==> hull == 0.0
  {
    if hull > 0.0 {
      assert weight * hull > 0.0;
    }
  }

  lemma RatioFacts(hull: real, baseline: real)
    requires hull >= 0.0 && baseline > 0.0
    ensures hull / baseline >= 0.0
    ensures hull >= baseline ==> hull / baseline >= 1.0
  {
    DivideOrder(0.0, hull, baseline);
    if hull >= baseline {
      DivideOrder(baseline, hull, baseline);
    }
  }

  /** The result of an energy call: the total, and the score object after it. */
  datatype Evaluation = Evaluation(total: Num, readout: Readout)

  /** After the pair loop: add the area term when its weight is positive,
      then the weighted mean EMG score. */
  function Combine(w: Weights, t: Tally, hull: real, mode: AreaMode, baseline: NonNegReal, priorArea: Num): (e: Evaluation)
    requires hull >= 0.0
    ensures t.muscles == 0 ==> e.total.None? && e.readout.emg.None?
    ensures e.readout.eda == t.eda && e.readout.ecg == t.ecg
    ensures w.area <= 0.0 ==> e.readout.area == priorArea
    ensures TallyBounded(w, t) && e.readout.emg.Some? ==> 0.0 <= e.readout.emg.value <= 1.0
    ensures NonNegative(w) && TallyBounded(w, t) && e.total.Some? ==> 0.0 <= e.total.value
    ensures NonNegative(w) && TallyBounded(w, t) && mode.NormalisedToBaseline? && e.total.Some? ==>
              e.total.value <= w.emg + Repeat(w.eda, t.edaPairs) + Repeat(w.ecg, t.ecgPairs) + w.area
  {
    var area := if w.area > 0.0 then AreaScore(mode, w.area, hull, baseline) else priorArea;
    var withArea := if w.area > 0.0 then Plus(t.layout, area) else t.layout;
    var mean := EmgMean(t.emgSum, t.muscles);
    var total := Plus(withArea, Times(w.emg, mean));
    assert NonNegative(w) && TallyBounded(w, t) && total.Some? ==>
             0.0 <= Weighted(w.emg, mean.value) <= w.emg by {
      if NonNegative(w) && TallyBounded(w, t) && total.Some? {
        WeightedShare(w.emg, mean.value);
      }
    }
    Evaluation(total, Readout(mean, t.eda, t.ecg, area))
  }

  /** `calculateSystemEnergy` (HullTimesWeight) and
      `calculateSystemEnergyForArea` (NormalisedToBaseline) on a layout whose
      consecutive electrodes form the pairs. `prior` is the score object
      before the call. None: the call throws. The EMG term is the weighted
      mean of the muscle scores, NaN without any muscle pair. */
  function LayoutEnergy(s: Setup, w: Weights, es: seq<Electrode>, mode: AreaMode, prior: Readout): (r: Option<Evaluation>)
    requires SortsRemainder(s.sort)
    ensures r.None? <==> Dangling(es, 0) || |es| < 2 || HullThrows(s, es)
  {
    match TallyFrom(s, w, es, 0, StartTally(prior))
    case None => None
    case Some(t) =>
      match HullArea(s, es)
      case None => None
      case Some(hull) => Some(Combine(w, t, hull, mode, s.baseline, prior.area))
  }

  /** A call that returns is the combination of the pair loop's totals with
      the hull area. */
  lemma LayoutEnergyParts(s: Setup, w: Weights, es: seq<Electrode>, mode: AreaMode, prior: Readout)
    returns (t: Tally, hull: real)
    requires SortsRemainder(s.sort)
    requires LayoutEnergy(s, w, es, mode, prior).Some?
    ensures TallyFrom(s, w, es, 0, StartTally(prior)) == Some(t)
    ensures hull >= 0.0
    ensures LayoutEnergy(s, w, es, mode, prior) == Some(Combine(w, t, hull, mode, s.baseline, prior.area))
  {
    t := TallyFrom(s, w, es, 0, StartTally(prior)).value;
    hull := HullArea(s, es).value;
  }

  /** The totals of a whole pass count the pairs, keep the entries of
      modalities without a pair, and stay within the bounds. */
  lemma TallyFacts(s: Setup, w: Weights, es: seq<Electrode>, prior: Readout, t: Tally)
    requires TallyFrom(s, w, es, 0, StartTally(prior)) == Some(t)
    ensures t.muscles == MusclePairs(es, 0)
    ensures t.edaPairs == PairsOfKind(es, 0, "eda") && t.ecgPairs == PairsOfKind(es, 0, "ecg")
    ensures PairsOfKind(es, 0, "eda") == 0 ==> t.eda == prior.eda
    ensures PairsOfKind(es, 0, "ecg") == 0 ==> t.ecg == prior.ecg
    ensures Sane(s.num) && NonNegative(w) ==> TallyBounded(w, t)
  {
    var start := StartTally(prior);
    TallyCounts(s, w, es, 0, start);
    TallyReadouts(s, w, es, 0, start);
    StartBounded(w, prior);
    BoundsWhenSane(s, w, es, start);
  }

  /** What a call that returns leaves in the score object: the EMG mean is
      NaN without a muscle pair and in [0, 1] otherwise, and an entry whose
      modality has no pair, or the area with a non-positive weight, is
      left as it was. */
  lemma LayoutEnergyReadout(s: Setup, w: Weights, es: seq<Electrode>, mode: AreaMode, prior: Readout)
    requires SortsRemainder(s.sort)
    requires LayoutEnergy(s, w, es, mode, prior).Some?
    ensures var r := LayoutEnergy(s, w, es, mode, prior).value;
            MusclePairs(es, 0) == 0 ==> r.total.None? && r.readout.emg.None?
    ensures var r := LayoutEnergy(s, w, es, mode, prior).value;
            PairsOfKind(es, 0, "eda") == 0 ==> r.readout.eda == prior.eda
    ensures var r := LayoutEnergy(s, w, es, mode, prior).value;
            PairsOfKind(es, 0, "ecg") == 0 ==> r.readout.ecg == prior.ecg
    ensures var r := LayoutEnergy(s, w, es, mode, prior).value;
            w.area <= 0.0 ==> r.readout.area == prior.area
    ensures var r := LayoutEnergy(s, w, es, mode, prior).value;
            Sane(s.num) && NonNegative(w) && r.readout.emg.Some? ==> 0.0 <= r.readout.emg.value <= 1.0
  {
    var t, hull := LayoutEnergyParts(s, w, es, mode, prior);
    TallyFacts(s, w, es, prior, t);
  }

  /** With sane numerics and non-negative weights the total is
      non-negative, and for the normalised area at most the sum of the
      weights the scored pairs could reach. */
  lemma LayoutEnergyBounds(s: Setup, w: Weights, es: seq<Electrode>, mode: AreaMode, prior: Readout)
    requires SortsRemainder(s.sort)
    requires LayoutEnergy(s, w, es, mode, prior).Some?
    requires Sane(s.num) && NonNegative(w)
    ensures var r := LayoutEnergy(s, w, es, mode, prior).value;
            r.total.Some? ==> 0.0 <= r.total.value
    ensures var r := LayoutEnergy(s, w, es, mode, prior).value;
            mode.NormalisedToBaseline? && r.total.Some? ==>
              r.total.value <= w.emg + Repeat(w.eda, PairsOfKind(es, 0, "eda")) + Repeat(w.ecg, PairsOfKind(es, 0, "ecg")) + w.area
  {
    var t, hull := LayoutEnergyParts(s, w, es, mode, prior);
    TallyFacts(s, w, es, prior, t);
  }

  /** `total_emg_energy / selected_muscles`: 0/0 is NaN. */
  function EmgMean(sum: Num, muscles: nat): (m: Num)
    ensures m.Some? <==> sum.Some? && muscles > 0
    ensures m.Some? && 0.0 <= sum.value <= muscles as real ==> 0.0 <= m.value <= 1.0
  {
    if sum.Some? && muscles > 0 then
      assert 0.0 <= sum.value <= muscles as real ==> 0.0 <= sum.value / muscles as real <= 1.0 by {
        if 0.0 <= sum.value <= muscles as real {
          RatioBounds(sum.value, muscles as real);
        }
      }
      Some(sum.value / muscles as real)
    else None
  }

  /** Without a positive area weight the hull never enters the total, so
      the two energy functions agree. */
  lemma ModesAgreeWithoutArea(s: Setup, w: Weights, es: seq<Electrode>, prior: Readout)
    requires SortsRemainder(s.sort)
    requires w.area <= 0.0
    ensures LayoutEnergy(s, w, es, HullTimesWeight, prior) == LayoutEnergy(s, w, es, NormalisedToBaseline, prior)
  {
  }
}
