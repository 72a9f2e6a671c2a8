/**
 * `ElectrodeLayoutGenerator.js`: the ECG lookup table, the initial random
 * layout, the neighbour step of the annealing and the baseline layout.
 *
 * The generator's random draws come from the seeded generator; the state is
 * threaded through explicitly. The index draws follow the environment's
 * `SeededRandom.IndexRule`: the draw as written, which lies in [1, n] and
 * throws when it lands on n, or the evidently intended draw below n.
 */
module LayoutGenerator {
  import opened Base
  import opened Electrodes
  import SeededRandom
  import Geometry
  import KeyPoints
  import Energy

  /** `OVERLAP_DISTANCE_THRESHOLD`: a new electrode keeps more than this from every other. */
  const OverlapThreshold: real := 15.0
  /** `LOOP_COUNTER`: the number of tries for one sampled electrode. */
  const LoopCounter: nat := 20000

  /** A modality combination: the selected muscles' names, and whether
      EDA and ECG are requested. */
  datatype Combination = Combination(muscles: seq<string>, eda: bool, ecg: bool)

  /** The number of leading ECG slots: the ECG pair comes first. */
  function EcgSlots(c: Combination): nat {
    if c.ecg then 2 else 0
  }

  /** `calculateNumElectrodesForCombination`: two per muscle, two for EDA,
      two for ECG. */
  function ElectrodeCount(c: Combination): nat {
    EcgSlots(c) + 2 * |c.muscles| + (if c.eda then 2 else 0)
  }

  /** The EMG ids of a muscle list: "<M>1", "<M>2" for each muscle, in order. */
  function MuscleIds(muscles: seq<string>): (ids: seq<string>)
    ensures |ids| == 2 * |muscles|
    ensures forall k :: 0 <= k < |ids| ==> ids[k] == muscles[k / 2] + (if k % 2 == 0 then "1" else "2")
  {
    seq(2 * |muscles|, k requires 0 <= k < 2 * |muscles| => muscles[k / 2] + (if k % 2 == 0 then "1" else "2"))
  }

  /** A circular electrode of the given size at p; the stored area is pi size^2. */
  function Disc(num: Numerics, p: Point, size: real, kind: string, id: string): (e: Electrode)
    ensures e.Centre() == p && e.kind == kind && e.id == id && e.size == size && e.shape == "circle"
  {
    Electrode(p.x, p.y, size, num.pi * size * size, kind, "circle", id)
  }

  // ---------------------------------------------------------------------
  // The ECG lookup table
  // ---------------------------------------------------------------------

  /** An `EcgElectrodeMap` entry: two keypoints, a score, the measured SNR
      and the ids of the electrode pair. */
  datatype EcgEntry = EcgEntry(k1: KeyPoints.KeyPoint, k2: KeyPoints.KeyPoint, score: real, snr: real,
                               id1: string, id2: string)

  /** Every table entry names a pair the energy's SNR table scores, with the
      same SNR. */
  predicate TableScorable(table: seq<EcgEntry>) {
    forall i :: 0 <= i < |table| ==> Energy.EcgSnr(table[i].id1, table[i].id2) == Some(table[i].snr)
  }

  /** The `EcgElectrodeMap` table over a keypoint set whose ECG keypoints
      ecg1..ecg6 sit at positions 10..15. */
  function EcgTable(kps: seq<KeyPoints.KeyPoint>): (table: seq<EcgEntry>)
    requires |kps| == 16
    ensures |table| == 5
    ensures forall i :: 0 <= i < 5 ==> table[i].k1 in kps[10..] && table[i].k2 in kps[10..]
    ensures TableScorable(table)
  {
    [ EcgEntry(kps[10], kps[11], 0.25, 4.36, "ecg1", "ecg2"),
      EcgEntry(kps[12], kps[13], 1.0, 17.44, "ecg3", "ecg4"),
      EcgEntry(kps[14], kps[15], 0.474, 8.27, "ecg5", "ecg6"),
      EcgEntry(kps[10], kps[15], 0.295, 5.16, "ecg1", "ecg6"),
      EcgEntry(kps[13], kps[14], 0.538, 9.39, "ecg4", "ecg5") ]
  }

  /** `initialize`: the keypoints of all five muscles followed by the six
      ECG keypoints, and the ECG table over the latter. */
  function Initialize(num: Numerics, onLine: KeyPoints.OnLine, t: KeyPoints.Trapezoid, f: KeyPoints.Fractions)
    : (r: (seq<KeyPoints.KeyPoint>, seq<EcgEntry>))
    ensures |r.0| == 16 && |r.1| == 5
    ensures forall i :: 0 <= i < 5 ==> r.1[i].k1.id == r.1[i].id1 && r.1[i].k2.id == r.1[i].id2
    ensures forall i :: 0 <= i < 5 ==> r.1[i].k1.kind == "ecg" && r.1[i].k2.kind == "ecg"
    ensures TableScorable(r.1)
  {
    var emg := KeyPoints.EmgKeyPoints(num, onLine, t, f, [true, true, true, true, true]);
    assert |emg| == 10 by {
      KeyPoints.AllMusclesSelected(num, onLine, t, f, [true, true, true, true, true]);
    }
    var kps := KeyPoints.EcgKeyPoints(emg, t).value;
    TableIdsMatch(kps);
    (kps, EcgTable(kps))
  }

  /** A keypoint set of sixteen whose last six are ecg1..ecg6, in order. */
  predicate EcgAtTail(kps: seq<KeyPoints.KeyPoint>) {
    |kps| == 16 && forall i :: 0 <= i < 6 ==> kps[10 + i].id == KeyPoints.EcgIds[i] && kps[10 + i].kind == "ecg"
  }

  /** Over such a set, every table entry's keypoints carry the entry's
      electrode ids and are ECG keypoints. */
  lemma TableIdsMatch(kps: seq<KeyPoints.KeyPoint>)
    requires EcgAtTail(kps)
    ensures forall i :: 0 <= i < 5 ==> EcgTable(kps)[i].k1.id == EcgTable(kps)[i].id1 && EcgTable(kps)[i].k2.id == EcgTable(kps)[i].id2
    ensures forall i :: 0 <= i < 5 ==> EcgTable(kps)[i].k1.kind == "ecg" && EcgTable(kps)[i].k2.kind == "ecg"
  {
    forall i | 10 <= i < 16 ensures kps[i].id == KeyPoints.EcgIds[i - 10] && kps[i].kind == "ecg" {
      assert kps[i] == kps[10 + (i - 10)];
    }
    assert KeyPoints.EcgIds == ["ecg1", "ecg2", "ecg3", "ecg4", "ecg5", "ecg6"];
  }

  /** Both keypoints of a table entry lie inside the drawn shape. */
  predicate BothInside(e: EcgEntry, shape: seq<Point>) {
    Geometry.InPolygon(e.k1.Position(), shape) && Geometry.InPolygon(e.k2.Position(), shape)
  }

  /** The table positions from i on whose two keypoints lie inside the
      shape, in table order (`ecg_keypoints_within_path`). */
  function InPath(table: seq<EcgEntry>, shape: seq<Point>, i: nat): (ix: seq<nat>)
    requires i <= |table|
    ensures forall k :: 0 <= k < |ix| ==> i <= ix[k] < |table| && BothInside(table[ix[k]], shape)
    ensures |ix| == 0 ==> forall m :: i <= m < |table| ==> !BothInside(table[m], shape)
    decreases |table| - i
  {
    if i == |table| then []
    else if BothInside(table[i], shape) then [i] + InPath(table, shape, i + 1)
    else InPath(table, shape, i + 1)
  }

  // ---------------------------------------------------------------------
  // Rejection sampling
  // ---------------------------------------------------------------------

  /** The drawn shape's bounding box (`getBBox`). */
  datatype Box = Box(x: real, y: real, width: real, height: real)

  /** The global electrode sizes of the three modalities. */
  datatype Sizes = Sizes(ecg: real, emg: real, eda: real)

  /** What the generator reads besides the layout: the drawn shape and the
      forearm trapezoid as polygons, the shape's bounding box and the sizes;
      `rule` says which index draw is made. */
  datatype Env = Env(shape: seq<Point>, forearm: seq<Point>, box: Box, sizes: Sizes, rule: SeededRandom.IndexRule)

  /** An index draw below n under the rule: as written `seededRandom(0, n)`,
      which may return n; as intended a valid index. */
  function DrawIndex(rule: SeededRandom.IndexRule, seed: nat, n: nat): (d: SeededRandom.Draw)
    requires n >= 1
    ensures d.seed == SeededRandom.NextSeed(seed)
    ensures rule.Intended? ==> 0 <= d.value < n
    ensures rule.AsWritten? ==> 1 <= d.value <= n && (d.value < n <==> n >= 2 && SeededRandom.NextSeed(seed) != 0)
  {
    if rule.AsWritten? then
      SeededRandom.IndexAsWrittenInRange(seed, n);
      SeededRandom.IndexAsWritten(seed, n)
    else SeededRandom.PickIndex(seed, n)
  }

  /** `distance_count`: how many electrodes lie more than 15 from p. */
  function FarCount(num: Numerics, es: seq<Electrode>, p: Point): (n: nat)
    ensures n <= |es|
    ensures n == |es| <==> forall k :: 0 <= k < |es| ==> Dist(num, es[k].Centre(), p) > OverlapThreshold
  {
    if |es| == 0 then 0
    else
      var init := es[..|es| - 1];
      assert forall k :: 0 <= k < |init| ==> init[k] == es[k];
      FarCount(num, init, p) + (if Dist(num, es[|es| - 1].Centre(), p) > OverlapThreshold then 1 else 0)
  }

  /** Where a sampled electrode may go: its five-point stencil inside both
      the shape and the forearm, and more than 15 from every rival. */
  predicate Admissible(num: Numerics, env: Env, p: Point, size: real, rivals: seq<Electrode>) {
    && Geometry.InsideStencil(p, env.shape, size, size)
    && Geometry.InsideStencil(p, env.forearm, size, size)
    && forall k :: 0 <= k < |rivals| ==> Dist(num, rivals[k].Centre(), p) > OverlapThreshold
  }

  /** A sampled position (None when the tries ran out) and the generator state after it. */
  datatype Draws = Draws(p: Option<Point>, seed: nat)

  /** The rejection-sampling loop: draw x and y over the bounding box and
      keep the first admissible point, within `budget` tries. */
  function Sample(num: Numerics, env: Env, size: real, rivals: seq<Electrode>, seed: nat, budget: nat): (r: Draws)
    ensures r.p.Some? ==> Admissible(num, env, r.p.value, size, rivals)
    decreases budget
  {
    if budget == 0 then Draws(None, seed)
    else
      var dx := SeededRandom.SeededRandom(seed, env.box.x, env.box.x + env.box.width);
      var dy := SeededRandom.SeededRandom(dx.seed, env.box.y, env.box.y + env.box.height);
      var p := Point(dx.value as real, dy.value as real);
      if && Geometry.InsideStencil(p, env.shape, size, size)
         && Geometry.InsideStencil(p, env.forearm, size, size)
         && FarCount(num, rivals, p) >= |rivals|
      then Draws(Some(p), dy.seed)
      else Sample(num, env, size, rivals, dy.seed, budget - 1)
  }

  /** The electrodes from position `from` on are of the kind and size and
      were each admissible against the electrodes before them. */
  predicate Sampled(num: Numerics, env: Env, es: seq<Electrode>, from: nat, kind: string, size: real) {
    forall k :: from <= k < |es| ==> es[k].kind == kind && es[k].size == size && Admissible(num, env, es[k].Centre(), size, es[..k])
  }

  /** A layout under construction and the generator state. */
  datatype Build = Build(es: seq<Electrode>, seed: nat)

  /** One sampling loop: the electrode is appended when a position is found. */
  function Place(num: Numerics, env: Env, kind: string, size: real, id: string, b: Build): (r: Build)
    ensures |b.es| <= |r.es| <= |b.es| + 1
    ensures r.es[..|b.es|] == b.es
    ensures |r.es| > |b.es| ==> && r.es[|b.es|].kind == kind && r.es[|b.es|].size == size && r.es[|b.es|].id == id
                                && Admissible(num, env, r.es[|b.es|].Centre(), size, b.es)
  {
    var d := Sample(num, env, size, b.es, b.seed, LoopCounter);
    if d.p.Some? then Build(b.es + [Disc(num, d.p.value, size, kind, id)], d.seed) else Build(b.es, d.seed)
  }

  /** One sampling loop per id, appending each electrode found; an id
      whose tries run out is skipped. */
  function SampleAll(num: Numerics, env: Env, kind: string, size: real, ids: seq<string>, b: Build): (r: Build)
    ensures |b.es| <= |r.es| <= |b.es| + |ids|
    ensures r.es[..|b.es|] == b.es
    ensures Sampled(num, env, r.es, |b.es|, kind, size)
    ensures |r.es| == |b.es| + |ids| ==> IdsFrom(r.es, |b.es|, ids)
    decreases |ids|
  {
    if |ids| == 0 then b
    else
      var next := Place(num, env, kind, size, ids[0], b);
      var r := SampleAll(num, env, kind, size, ids[1..], next);
      SampledChain(num, env, kind, size, ids, b.es, next.es, r.es);
      r
  }

  /** One placement followed by the placements for the remaining ids. */
  lemma SampledChain(num: Numerics, env: Env, kind: string, size: real, ids: seq<string>,
                     b: seq<Electrode>, next: seq<Electrode>, r: seq<Electrode>)
    requires |ids| > 0
    requires |b| <= |next| <= |b| + 1 && next[..|b|] == b
    requires |next| > |b| ==> && next[|b|].kind == kind && next[|b|].size == size && next[|b|].id == ids[0]
                              && Admissible(num, env, next[|b|].Centre(), size, b)
    requires |next| <= |r| <= |next| + |ids| - 1 && r[..|next|] == next
    requires Sampled(num, env, r, |next|, kind, size)
    requires |r| == |next| + |ids| - 1 ==> IdsFrom(r, |next|, ids[1..])
    ensures |b| <= |r| <= |b| + |ids| && r[..|b|] == b
    ensures Sampled(num, env, r, |b|, kind, size)
    ensures |r| == |b| + |ids| ==> IdsFrom(r, |b|, ids)
  {
    assert r[..|b|] == r[..|next|][..|b|];
    if |next| > |b| {
      assert r[|b|] == r[..|next|][|b|];
    }
    if |r| == |b| + |ids| {
      forall k | 0 <= k < |ids|
        ensures r[|b| + k].id == ids[k]
      {
        if k > 0 {
          assert r[|next| + (k - 1)].id == ids[1..][k - 1];
        }
      }
    }
  }

  // ---------------------------------------------------------------------
  // The arrangement every generated layout has
  // ---------------------------------------------------------------------

  /** The layout order the energy's pairwise loop relies on: the ECG pair,
      then the two electrodes of each selected muscle in order, then EDA1
      and EDA2. */
  predicate Arranged(c: Combination, es: seq<Electrode>) {
    var ids := MuscleIds(c.muscles);
    var emgEnd := EcgSlots(c) + |ids|;
    && |es| == ElectrodeCount(c)
    && (forall k :: 0 <= k < EcgSlots(c) ==> es[k].kind == "ecg")
    && (forall k :: EcgSlots(c) <= k < emgEnd ==> es[k].kind == "emg" && es[k].id == ids[k - EcgSlots(c)])
    && (c.eda ==> && es[emgEnd].kind == "eda" && es[emgEnd].id == "EDA1"
                  && es[emgEnd + 1].kind == "eda" && es[emgEnd + 1].id == "EDA2")
  }

  /** Two arranged layouts of one combination agree on every kind and on
      every id outside the ECG pair; in particular the baseline and any
      generated layout pair up the same electrodes. */
  lemma ArrangementsAgree(c: Combination, a: seq<Electrode>, b: seq<Electrode>)
    requires Arranged(c, a) && Arranged(c, b)
    ensures |a| == |b|
    ensures forall k :: 0 <= k < |a| ==> a[k].kind == b[k].kind
    ensures forall k :: EcgSlots(c) <= k < |a| ==> a[k].id == b[k].id
  {
    var ids := MuscleIds(c.muscles);
    forall k | 0 <= k < |a|
      ensures a[k].kind == b[k].kind
      ensures EcgSlots(c) <= k ==> a[k].id == b[k].id
    {
    }
  }

  // ---------------------------------------------------------------------
  // EMG electrodes on keypoints
  // ---------------------------------------------------------------------

  /** No keypoint carries the id. */
  predicate Missing(kps: seq<KeyPoints.KeyPoint>, id: string) {
    forall j :: 0 <= j < |kps| ==> kps[j].id != id
  }

  /** The first keypoint with the id (`indexOf` on the ids, `find`). */
  function FindKeyPoint(kps: seq<KeyPoints.KeyPoint>, id: string): (r: Option<KeyPoints.KeyPoint>)
    ensures r.None? <==> Missing(kps, id)
    ensures r.Some? ==> r.value.id == id && r.value in kps
  {
    if |kps| == 0 then None
    else if kps[0].id == id then Some(kps[0])
    else
      var r := FindKeyPoint(kps[1..], id);
      assert forall j :: 1 <= j < |kps| ==> kps[j] == kps[1..][j - 1];
      r
  }

  /** The keypoints of the ids, in order; None as soon as one is missing,
      where the source reads a field of `undefined` and throws. */
  function KeyPointsFor(kps: seq<KeyPoints.KeyPoint>, ids: seq<string>): (r: Option<seq<KeyPoints.KeyPoint>>)
    ensures r.None? <==> exists k :: 0 <= k < |ids| && Missing(kps, ids[k])
    ensures r.Some? ==> |r.value| == |ids| && forall k :: 0 <= k < |ids| ==> r.value[k].id == ids[k] && r.value[k] in kps
  {
    if |ids| == 0 then Some([])
    else
      match FindKeyPoint(kps, ids[0])
      case None => None
      case Some(kp) =>
        var rest := KeyPointsFor(kps, ids[1..]);
        assert forall k :: 1 <= k < |ids| ==> ids[k] == ids[1..][k - 1];
        if rest.None? then None else Some([kp] + rest.value)
  }

  /** EMG electrodes placed on the keypoints themselves. */
  function OnKeyPoints(num: Numerics, size: real, list: seq<KeyPoints.KeyPoint>): (es: seq<Electrode>)
    ensures |es| == |list|
    ensures forall k :: 0 <= k < |list| ==> && es[k].kind == "emg" && es[k].size == size
                                            && es[k].id == list[k].id && es[k].Centre() == list[k].Position()
  {
    seq(|list|, k requires 0 <= k < |list| => Disc(num, list[k].Position(), size, "emg", list[k].id))
  }

  // ---------------------------------------------------------------------
  // The initial random layout
  // ---------------------------------------------------------------------

  /** The two ECG electrodes of a table entry. */
  function EcgPair(num: Numerics, size: real, e: EcgEntry): (es: seq<Electrode>)
    ensures |es| == 2 && es[0].kind == "ecg" && es[1].kind == "ecg"
    ensures es[0].id == e.id1 && es[1].id == e.id2
    ensures es[0].Centre() == e.k1.Position() && es[1].Centre() == e.k2.Position()
  {
    [Disc(num, e.k1.Position(), size, "ecg", e.id1), Disc(num, e.k2.Position(), size, "ecg", e.id2)]
  }

  /** The ECG pair of the initial layout: one of the in-path table entries,
      drawn when there is more than one. None: the written draw returned the
      count itself, `ecg_keypoints_within_path[n]` is undefined, and reading
      its keypoint throws. The written draw never picks the first in-path
      entry. */
  function EcgStart(num: Numerics, env: Env, table: seq<EcgEntry>, inPath: seq<nat>, seed: nat): (r: Option<Build>)
    requires |inPath| >= 1
    requires forall i :: 0 <= i < |inPath| ==> inPath[i] < |table|
    ensures r.None? <==> env.rule.AsWritten? && |inPath| > 1 && SeededRandom.NextSeed(seed) == 0
    ensures r.Some? ==> |r.value.es| == 2 && r.value.es[0].kind == "ecg" && r.value.es[1].kind == "ecg"
    ensures r.Some? ==> exists i :: 0 <= i < |inPath| && r.value.es == EcgPair(num, env.sizes.ecg, table[inPath[i]])
    ensures r.Some? && env.rule.AsWritten? && |inPath| > 1 ==>
              exists i :: 1 <= i < |inPath| && r.value.es == EcgPair(num, env.sizes.ecg, table[inPath[i]])
    ensures |inPath| == 1 ==> r == Some(Build(EcgPair(num, env.sizes.ecg, table[inPath[0]]), seed))
  {
    if |inPath| == 1 then Some(Build(EcgPair(num, env.sizes.ecg, table[inPath[0]]), seed))
    else
      var d := DrawIndex(env.rule, seed, |inPath|);
      if d.value >= |inPath| then None
      else
        var b := Build(EcgPair(num, env.sizes.ecg, table[inPath[d.value]]), d.seed);
        assert b.es == EcgPair(num, env.sizes.ecg, table[inPath[d.value]]);
        Some(b)
  }

  /** The electrodes from position `from` on carry the ids, in order. */
  predicate IdsFrom(es: seq<Electrode>, from: nat, ids: seq<string>) {
    from + |ids| <= |es| && forall k :: 0 <= k < |ids| ==> es[from + k].id == ids[k]
  }

  /** The EMG electrodes: on their keypoints when every keypoint's stencil
      lies inside the shape, otherwise sampled. None when a selected
      muscle has no keypoint. */
  function EmgStart(num: Numerics, env: Env, kps: seq<KeyPoints.KeyPoint>, muscles: seq<string>, b: Build)
    : (r: Option<Build>)
    ensures r.None? <==> exists k :: 0 <= k < 2 * |muscles| && Missing(kps, MuscleIds(muscles)[k])
    ensures r.Some? ==> |b.es| <= |r.value.es| <= |b.es| + 2 * |muscles| && r.value.es[..|b.es|] == b.es
    ensures r.Some? ==> forall k :: |b.es| <= k < |r.value.es| ==>
              r.value.es[k].kind == "emg" && Geometry.InsideStencil(r.value.es[k].Centre(), env.shape, env.sizes.emg, env.sizes.emg)
    ensures r.Some? && |r.value.es| == |b.es| + 2 * |muscles| ==> IdsFrom(r.value.es, |b.es|, MuscleIds(muscles))
  {
    var ids := MuscleIds(muscles);
    var size := env.sizes.emg;
    match KeyPointsFor(kps, ids)
    case None => None
    case Some(list) =>
      if forall k :: 0 <= k < |list| ==> Geometry.InsideStencil(list[k].Position(), env.shape, size, size) then
        var placed := OnKeyPoints(num, size, list);
        var es := b.es + placed;
        assert es[..|b.es|] == b.es;
        assert forall k :: |b.es| <= k < |es| ==> es[k] == placed[k - |b.es|];
        Some(Build(es, b.seed))
      else
        var r := SampleAll(num, env, "emg", size, ids, b);
        assert forall k :: |b.es| <= k < |r.es| ==> Geometry.InsideStencil(r.es[k].Centre(), env.shape, size, size) by {
          forall k | |b.es| <= k < |r.es| ensures Geometry.InsideStencil(r.es[k].Centre(), env.shape, size, size) {
            assert Admissible(num, env, r.es[k].Centre(), size, r.es[..k]);
          }
        }
        Some(r)
  }

  /** The EDA electrodes: EDA1 and EDA2, each sampled. */
  function EdaStart(num: Numerics, env: Env, b: Build): (r: Build)
    ensures |b.es| <= |r.es| <= |b.es| + 2 && r.es[..|b.es|] == b.es
    ensures Sampled(num, env, r.es, |b.es|, "eda", env.sizes.eda)
    ensures |r.es| == |b.es| + 2 ==> r.es[|b.es|].id == "EDA1" && r.es[|b.es| + 1].id == "EDA2"
  {
    var r := SampleAll(num, env, "eda", env.sizes.eda, ["EDA1", "EDA2"], b);
    assert |r.es| == |b.es| + 2 ==> r.es[|b.es| + 0].id == "EDA1" && r.es[|b.es| + 1].id == "EDA2";
    r
  }

  /** What every layout the optimiser visits satisfies: it is arranged;
      its ECG pair is a table pair whose keypoints both lie inside the
      shape; every EMG electrode's stencil lies inside the shape; and every
      EDA electrode's stencil lies inside both the shape and the forearm. */
  predicate Feasible(num: Numerics, env: Env, table: seq<EcgEntry>, c: Combination, es: seq<Electrode>) {
    && Arranged(c, es)
    && EcgInShape(num, env, table, c, es)
    && EmgInShape(env, c, es)
    && EdaInShape(env, c, es)
  }

  /** With ECG selected, the first two electrodes are a table pair whose keypoints lie inside the shape. */
  predicate EcgInShape(num: Numerics, env: Env, table: seq<EcgEntry>, c: Combination, es: seq<Electrode>) {
    c.ecg ==> && |es| >= 2
              && exists i :: 0 <= i < |table| && BothInside(table[i], env.shape)
                             && es[..2] == EcgPair(num, env.sizes.ecg, table[i])
  }

  /** Every EMG slot's stencil lies inside the shape. */
  predicate EmgInShape(env: Env, c: Combination, es: seq<Electrode>) {
    forall k :: EcgSlots(c) <= k < EcgSlots(c) + 2 * |c.muscles| && k < |es| ==>
      Geometry.InsideStencil(es[k].Centre(), env.shape, env.sizes.emg, env.sizes.emg)
  }

  /** Every EDA slot's stencil lies inside both the shape and the forearm. */
  predicate EdaInShape(env: Env, c: Combination, es: seq<Electrode>) {
    forall k :: EcgSlots(c) + 2 * |c.muscles| <= k < |es| ==>
      && Geometry.InsideStencil(es[k].Centre(), env.shape, env.sizes.eda, env.sizes.eda)
      && Geometry.InsideStencil(es[k].Centre(), env.forearm, env.sizes.eda, env.sizes.eda)
  }

  /** What a freshly generated layout satisfies besides feasibility: each
      EDA electrode also kept clear of the electrodes placed before it. */
  predicate Generated(num: Numerics, env: Env, table: seq<EcgEntry>, c: Combination, es: seq<Electrode>) {
    && Feasible(num, env, table, c, es)
    && (c.eda ==> Sampled(num, env, es, |es| - 2, "eda", env.sizes.eda))
  }

  /** The outcomes of `generateInitialRandomLayout`: a layout of the right
      size; -1 for a layout some sampling loop could not complete; the
      input returned when no ECG table pair lies inside the shape; a
      TypeError when a selected muscle has no keypoint; or a TypeError when
      the written ECG draw lands past the in-path list. */
  datatype Initial = Placed(layout: seq<Electrode>, seed: nat) | WrongCount(seed: nat) | NoEcgInShape | MissingKeyPoint
                   | EcgIndexThrows

  /** Every in-path index names a table pair whose keypoints both lie inside the shape. */
  predicate InPathSound(table: seq<EcgEntry>, shape: seq<Point>, inPath: seq<nat>) {
    forall i :: 0 <= i < |inPath| ==> inPath[i] < |table| && BothInside(table[inPath[i]], shape)
  }

  /** What the ECG phase leaves: the ECG slots, holding an in-path pair when ECG is selected. */
  predicate EcgPlaced(num: Numerics, env: Env, table: seq<EcgEntry>, inPath: seq<nat>, c: Combination, ecg: seq<Electrode>) {
    && |ecg| == EcgSlots(c)
    && (forall k :: 0 <= k < |ecg| ==> ecg[k].kind == "ecg")
    && (c.ecg ==> exists i :: 0 <= i < |inPath| && inPath[i] < |table| && ecg == EcgPair(num, env.sizes.ecg, table[inPath[i]]))
  }

  /** What the EMG phase adds after the ECG slots: EMG electrodes whose
      stencils lie inside the shape, carrying the muscle ids when complete. */
  predicate EmgPlaced(env: Env, c: Combination, ecg: seq<Electrode>, emg: seq<Electrode>) {
    && |ecg| <= |emg| <= |ecg| + 2 * |c.muscles| && emg[..|ecg|] == ecg
    && (forall k :: |ecg| <= k < |emg| ==>
          emg[k].kind == "emg" && Geometry.InsideStencil(emg[k].Centre(), env.shape, env.sizes.emg, env.sizes.emg))
    && (|emg| == |ecg| + 2 * |c.muscles| ==> IdsFrom(emg, |ecg|, MuscleIds(c.muscles)))
  }

  /** What the EDA phase adds: nothing when EDA is not selected, otherwise
      sampled EDA electrodes, EDA1 then EDA2 when complete. */
  predicate EdaPlaced(num: Numerics, env: Env, c: Combination, emg: seq<Electrode>, all: seq<Electrode>) {
    && (!c.eda ==> all == emg)
    && (c.eda ==> && |emg| <= |all| <= |emg| + 2 && all[..|emg|] == emg
                  && Sampled(num, env, all, |emg|, "eda", env.sizes.eda)
                  && (|all| == |emg| + 2 ==> all[|emg|].id == "EDA1" && all[|emg| + 1].id == "EDA2"))
  }

  /** `generateInitialRandomLayout` for an empty electrode array. */
  function InitialLayout(num: Numerics, env: Env, kps: seq<KeyPoints.KeyPoint>, table: seq<EcgEntry>,
                         c: Combination, seed: nat): (r: Initial)
    ensures r.NoEcgInShape? <==> c.ecg && forall i :: 0 <= i < |table| ==> !BothInside(table[i], env.shape)
    ensures r.EcgIndexThrows? <==>
              && c.ecg && env.rule.AsWritten? && |InPath(table, env.shape, 0)| > 1
              && SeededRandom.NextSeed(seed) == 0
    ensures r.MissingKeyPoint? <==>
              && !r.NoEcgInShape? && !r.EcgIndexThrows?
              && exists k :: 0 <= k < 2 * |c.muscles| && Missing(kps, MuscleIds(c.muscles)[k])
    ensures r.Placed? ==> Generated(num, env, table, c, r.layout)
    ensures r.Placed? && c.ecg && env.rule.AsWritten? && |InPath(table, env.shape, 0)| > 1 ==>
              exists i :: 1 <= i < |InPath(table, env.shape, 0)| &&
                r.layout[..2] == EcgPair(num, env.sizes.ecg, table[InPath(table, env.shape, 0)[i]])
  {
    var inPath := InPath(table, env.shape, 0);
    if c.ecg && |inPath| == 0 then NoEcgInShape
    else
      assert c.ecg ==> BothInside(table[inPath[0]], env.shape);
      AfterInPath(num, env, kps, table, inPath, c, seed)
  }

  /** The ECG phase, when ECG is off or some table pair lies inside the shape, and the rest. */
  function AfterInPath(num: Numerics, env: Env, kps: seq<KeyPoints.KeyPoint>, table: seq<EcgEntry>, inPath: seq<nat>,
                       c: Combination, seed: nat): (r: Initial)
    requires InPathSound(table, env.shape, inPath)
    requires c.ecg ==> |inPath| > 0
    ensures !r.NoEcgInShape?
    ensures r.EcgIndexThrows? <==> c.ecg && env.rule.AsWritten? && |inPath| > 1 && SeededRandom.NextSeed(seed) == 0
    ensures r.MissingKeyPoint? <==>
              !r.EcgIndexThrows? && exists k :: 0 <= k < 2 * |c.muscles| && Missing(kps, MuscleIds(c.muscles)[k])
    ensures r.Placed? ==> Generated(num, env, table, c, r.layout)
    ensures r.Placed? && c.ecg && env.rule.AsWritten? && |inPath| > 1 ==>
              exists i :: 1 <= i < |inPath| && r.layout[..2] == EcgPair(num, env.sizes.ecg, table[inPath[i]])
  {
    var ecg := if c.ecg then EcgStart(num, env, table, inPath, seed) else Some(Build([], seed));
    match ecg
    case None => EcgIndexThrows
    case Some(b) =>
      var r := AfterEcg(num, env, kps, table, inPath, c, b);
      assert r.Placed? && c.ecg ==> r.layout[..2] == b.es;
      r
  }

  /** The EMG phase, then the rest, after the ECG phase. */
  function AfterEcg(num: Numerics, env: Env, kps: seq<KeyPoints.KeyPoint>, table: seq<EcgEntry>, inPath: seq<nat>,
                    c: Combination, ecg: Build): (r: Initial)
    requires InPathSound(table, env.shape, inPath)
    requires EcgPlaced(num, env, table, inPath, c, ecg.es)
    ensures !r.NoEcgInShape? && !r.EcgIndexThrows?
    ensures r.MissingKeyPoint? <==> exists k :: 0 <= k < 2 * |c.muscles| && Missing(kps, MuscleIds(c.muscles)[k])
    ensures r.Placed? ==> Generated(num, env, table, c, r.layout)
    ensures r.Placed? ==> |ecg.es| <= |r.layout| && r.layout[..|ecg.es|] == ecg.es
  {
    match EmgStart(num, env, kps, c.muscles, ecg)
    case None => MissingKeyPoint
    case Some(emg) =>
      assert EmgPlaced(env, c, ecg.es, emg.es);
      AfterEmg(num, env, table, inPath, c, ecg, emg)
  }

  /** The EDA phase and the final count check. */
  function AfterEmg(num: Numerics, env: Env, table: seq<EcgEntry>, inPath: seq<nat>, c: Combination,
                    ecg: Build, emg: Build): (r: Initial)
    requires InPathSound(table, env.shape, inPath)
    requires EcgPlaced(num, env, table, inPath, c, ecg.es)
    requires EmgPlaced(env, c, ecg.es, emg.es)
    ensures r.Placed? || r.WrongCount?
    ensures r.Placed? ==> Generated(num, env, table, c, r.layout)
    ensures r.Placed? ==> |ecg.es| <= |r.layout| && r.layout[..|ecg.es|] == ecg.es
  {
    var all := if c.eda then EdaStart(num, env, emg) else emg;
    assert EdaPlaced(num, env, c, emg.es, all.es);
    if |all.es| != ElectrodeCount(c) then WrongCount(all.seed)
    else
      PlacedFacts(num, env, table, inPath, c, ecg.es, emg.es, all.es);
      PrefixTransitive(all.es, emg.es, ecg.es);
      Placed(all.es, all.seed)
  }

  /** What the three phases guarantee of a full-size result: it is
      arranged, its ECG pair is an in-path table pair, its EMG electrodes
      pass the shape stencil and its EDA electrodes were admissible. */
  lemma PlacedFacts(num: Numerics, env: Env, table: seq<EcgEntry>, inPath: seq<nat>, c: Combination,
                    ecg: seq<Electrode>, emg: seq<Electrode>, all: seq<Electrode>)
    requires InPathSound(table, env.shape, inPath)
    requires EcgPlaced(num, env, table, inPath, c, ecg)
    requires EmgPlaced(env, c, ecg, emg)
    requires EdaPlaced(num, env, c, emg, all)
    requires |all| == ElectrodeCount(c)
    ensures Generated(num, env, table, c, all)
  {
    assert |emg| == |ecg| + 2 * |c.muscles| && (c.eda ==> |all| == |emg| + 2);
    PrefixTransitive(all, emg, ecg);
    LeadArranged(c, ecg, emg);
    TailArranged(c, emg, all);
    forall k | EcgSlots(c) + 2 * |c.muscles| <= k < |all|
      ensures Geometry.InsideStencil(all[k].Centre(), env.shape, env.sizes.eda, env.sizes.eda)
      ensures Geometry.InsideStencil(all[k].Centre(), env.forearm, env.sizes.eda, env.sizes.eda)
    {
      assert Admissible(num, env, all[k].Centre(), env.sizes.eda, all[..k]);
    }
    if c.ecg {
      var i :| 0 <= i < |inPath| && inPath[i] < |table| && ecg == EcgPair(num, env.sizes.ecg, table[inPath[i]]);
      assert BothInside(table[inPath[i]], env.shape);
      assert all[..2] == ecg;
    }
  }

  /** An ECG part, a complete EMG part and an EDA part, each of the
      combination's shape, concatenate to an arranged layout. */
  lemma PartsArranged(c: Combination, ecg: seq<Electrode>, emg: seq<Electrode>, eda: seq<Electrode>)
    requires |ecg| == EcgSlots(c) && forall k :: 0 <= k < |ecg| ==> ecg[k].kind == "ecg"
    requires |emg| == 2 * |c.muscles| && (forall k :: 0 <= k < |emg| ==> emg[k].kind == "emg") && IdsFrom(emg, 0, MuscleIds(c.muscles))
    requires !c.eda ==> eda == []
    requires c.eda ==> |eda| == 2 && eda[0].kind == "eda" && eda[1].kind == "eda" && eda[0].id == "EDA1" && eda[1].id == "EDA2"
    ensures Arranged(c, ecg + emg + eda)
  {
    var lead := ecg + emg;
    var es := lead + eda;
    assert lead[..|ecg|] == ecg;
    assert forall k :: |ecg| <= k < |lead| ==> lead[k] == emg[k - |ecg|];
    assert IdsFrom(lead, |ecg|, MuscleIds(c.muscles)) by {
      forall k | 0 <= k < |MuscleIds(c.muscles)| ensures lead[|ecg| + k].id == MuscleIds(c.muscles)[k] {
        assert lead[|ecg| + k] == emg[0 + k];
      }
    }
    LeadArranged(c, ecg, lead);
    assert es[..|lead|] == lead;
    assert c.eda ==> es[|lead|] == eda[0] && es[|lead| + 1] == eda[1];
    TailArranged(c, lead, es);
  }

  /** Where the parts of a three-part concatenation sit. */
  lemma PartsAt(a: seq<Electrode>, b: seq<Electrode>, c: seq<Electrode>)
    ensures (a + b + c)[..|a|] == a
    ensures forall k :: |a| <= k < |a| + |b| ==> (a + b + c)[k] == b[k - |a|]
    ensures forall k :: |a| + |b| <= k < |a| + |b| + |c| ==> (a + b + c)[k] == c[k - |a| - |b|]
  {
    assert (a + b + c)[..|a|] == (a + b + c)[..|a| + |b|][..|a|];
  }

  /** A prefix of a prefix is a prefix. */
  lemma PrefixTransitive(a: seq<Electrode>, b: seq<Electrode>, c: seq<Electrode>)
    requires |c| <= |b| <= |a| && a[..|b|] == b && b[..|c|] == c
    ensures a[..|c|] == c
    ensures forall k :: 0 <= k < |b| ==> a[k] == b[k]
  {
    assert a[..|c|] == a[..|b|][..|c|];
    forall k | 0 <= k < |b|
      ensures a[k] == b[k]
    {
      assert a[k] == a[..|b|][k];
    }
  }

  /** The ECG pair followed by every muscle's two electrodes in order. */
  predicate Lead(c: Combination, es: seq<Electrode>) {
    var ids := MuscleIds(c.muscles);
    && |es| == EcgSlots(c) + |ids|
    && (forall k :: 0 <= k < EcgSlots(c) ==> es[k].kind == "ecg")
    && (forall k :: EcgSlots(c) <= k < |es| ==> es[k].kind == "emg" && es[k].id == ids[k - EcgSlots(c)])
  }

  /** The ECG phase followed by a complete EMG phase gives the lead. */
  lemma LeadArranged(c: Combination, ecg: seq<Electrode>, emg: seq<Electrode>)
    requires |ecg| == EcgSlots(c) && forall k :: 0 <= k < |ecg| ==> ecg[k].kind == "ecg"
    requires |emg| == |ecg| + 2 * |c.muscles| && emg[..|ecg|] == ecg
    requires forall k :: |ecg| <= k < |emg| ==> emg[k].kind == "emg"
    requires IdsFrom(emg, |ecg|, MuscleIds(c.muscles))
    ensures Lead(c, emg)
  {
    var ids := MuscleIds(c.muscles);
    forall k | EcgSlots(c) <= k < |emg|
      ensures emg[k].id == ids[k - EcgSlots(c)]
    {
      assert emg[|ecg| + (k - EcgSlots(c))].id == ids[k - EcgSlots(c)];
    }
    forall k | 0 <= k < EcgSlots(c)
      ensures emg[k].kind == "ecg"
    {
      assert emg[k] == emg[..|ecg|][k];
    }
  }

  /** The lead followed by the EDA phase (complete when EDA is selected)
      is an arranged layout. */
  lemma TailArranged(c: Combination, emg: seq<Electrode>, all: seq<Electrode>)
    requires Lead(c, emg)
    requires !c.eda ==> all == emg
    requires c.eda ==> && |all| == |emg| + 2 && all[..|emg|] == emg
                       && all[|emg|].kind == "eda" && all[|emg| + 1].kind == "eda"
                       && all[|emg|].id == "EDA1" && all[|emg| + 1].id == "EDA2"
    ensures Arranged(c, all)
  {
    if c.eda {
      forall k | 0 <= k < |emg|
        ensures all[k] == emg[k]
      {
        assert all[k] == all[..|emg|][k];
      }
    }
  }

  // ---------------------------------------------------------------------
  // The neighbour step
  // ---------------------------------------------------------------------

  /** The layout without the electrode at i. */
  function Remove(es: seq<Electrode>, i: nat): (r: seq<Electrode>)
    requires i < |es|
    ensures |r| == |es| - 1
    ensures forall k :: 0 <= k < i ==> r[k] == es[k]
    ensures forall k :: i < k < |es| ==> r[k - 1] == es[k]
  {
    es[..i] + es[i + 1..]
  }

  /** The layout with its first two electrodes replaced by an ECG pair
      (JavaScript arrays grow when written one past their end). */
  function ReplacePair(es: seq<Electrode>, pair: seq<Electrode>): (r: seq<Electrode>)
    requires |pair| == 2
    ensures |r| >= 2 && r[..2] == pair
    ensures |es| >= 2 ==> |r| == |es| && r[2..] == es[2..]
  {
    pair + (if |es| >= 2 then es[2..] else [])
  }

  /** The size of a sampled electrode of the kind. */
  function SizeOf(sizes: Sizes, kind: string): real {
    if kind == "emg" then sizes.emg else sizes.eda
  }

  /** A neighbour: the new layout, the index that was drawn, the generator state. */
  datatype Move = Move(layout: seq<Electrode>, changed: nat, seed: nat)

  /** What a neighbour move m of es satisfies. The drawn electrode i is
      moved. An ECG electrode moves the ECG pair to an in-path table pair
      and leaves the rest, unless there is one in-path pair only, when
      nothing changes. An EMG or EDA electrode keeps its kind and id and
      either stays or is resampled, at its kind's size, admissibly against
      all the others; nothing else changes. Other kinds change nothing. */
  predicate NeighbourOf(num: Numerics, env: Env, table: seq<EcgEntry>, inPath: seq<nat>, es: seq<Electrode>, m: Move) {
    var i := m.changed;
    && i < |es|
    && (es[i].kind != "ecg" ==>
          |m.layout| == |es| && forall k :: 0 <= k < |es| && k != i ==> m.layout[k] == es[k])
    && (es[i].kind in {"emg", "eda"} ==>
          && m.layout[i].kind == es[i].kind && m.layout[i].id == es[i].id
          && (|| m.layout[i] == es[i]
              || (&& m.layout[i].size == SizeOf(env.sizes, es[i].kind)
                  && Admissible(num, env, m.layout[i].Centre(), SizeOf(env.sizes, es[i].kind), Remove(es, i)))))
    && (es[i].kind !in {"ecg", "emg", "eda"} ==> m.layout == es)
    && (es[i].kind == "ecg" && |inPath| <= 1 ==> m.layout == es)
    && (es[i].kind == "ecg" && |inPath| > 1 ==>
          && (|es| >= 2 ==> |m.layout| == |es| && m.layout[2..] == es[2..])
          && |m.layout| >= 2
          && exists j :: 0 <= j < |inPath| && inPath[j] < |table|
                         && m.layout[..2] == EcgPair(num, env.sizes.ecg, table[inPath[j]]))
  }

  /** `generateNeighbourLayout`: one electrode drawn at random is moved as
      described above. None when the drawn index names no electrode, where
      the source reads the type of `undefined`: always for an empty
      layout, and with the written draw also for a one-electrode layout and
      whenever the next generator state is 0. The written draw never moves
      electrode 0, and its ECG re-pick, `seededRandom(0, n - 1)`, never
      takes the first in-path pair. */
  function Neighbour(num: Numerics, env: Env, table: seq<EcgEntry>, inPath: seq<nat>, es: seq<Electrode>, seed: nat)
    : (r: Option<Move>)
    requires forall i :: 0 <= i < |inPath| ==> inPath[i] < |table|
    ensures env.rule.Intended? ==> (r.None? <==> |es| == 0)
    ensures env.rule.AsWritten? ==> (r.None? <==> |es| <= 1 || SeededRandom.NextSeed(seed) == 0)
    ensures r.Some? ==> NeighbourOf(num, env, table, inPath, es, r.value)
    ensures r.Some? && env.rule.AsWritten? ==> r.value.changed >= 1
    ensures r.Some? && env.rule.AsWritten? && es[r.value.changed].kind == "ecg" && |inPath| > 1 ==>
              exists j :: 1 <= j < |inPath| && r.value.layout[..2] == EcgPair(num, env.sizes.ecg, table[inPath[j]])
  {
    if |es| == 0 then None
    else
      var d := DrawIndex(env.rule, seed, |es|);
      if d.value >= |es| then None
      else
        var i := d.value;
        var e := es[i];
        if e.kind == "ecg" then
          if |inPath| > 1 then
            var p := if env.rule.AsWritten? then SeededRandom.IndexAsWritten(d.seed, |inPath| - 1)
                     else SeededRandom.PickIndex(d.seed, |inPath|);
            var pair := EcgPair(num, env.sizes.ecg, table[inPath[p.value]]);
            var next := ReplacePair(es, pair);
            assert |es| >= 2 ==> next[..2] == pair;
            Some(Move(next, i, p.seed))
          else Some(Move(es, i, d.seed))
        else if e.kind == "emg" || e.kind == "eda" then
          var size := SizeOf(env.sizes, e.kind);
          var s := Sample(num, env, size, Remove(es, i), d.seed, LoopCounter);
          if s.p.Some? then Some(Move(es[i := Disc(num, s.p.value, size, e.kind, e.id)], i, s.seed))
          else Some(Move(es, i, s.seed))
        else Some(Move(es, i, d.seed))
  }

  /** In an arranged layout the kind of an electrode tells its slot. */
  lemma SlotOfKind(c: Combination, es: seq<Electrode>, i: nat)
    requires Arranged(c, es) && i < |es|
    ensures es[i].kind == "ecg" <==> i < EcgSlots(c)
    ensures es[i].kind == "emg" <==> EcgSlots(c) <= i < EcgSlots(c) + 2 * |c.muscles|
    ensures es[i].kind == "eda" <==> EcgSlots(c) + 2 * |c.muscles| <= i
  {
    var emgEnd := EcgSlots(c) + 2 * |c.muscles|;
    if emgEnd <= i {
      assert c.eda && (i == emgEnd || i == emgEnd + 1);
    }
  }

  /** The neighbour step keeps a layout feasible, provided the in-path
      list holds table pairs inside the shape. */
  lemma NeighbourKeepsFeasible(num: Numerics, env: Env, table: seq<EcgEntry>, inPath: seq<nat>, c: Combination,
                               es: seq<Electrode>, seed: nat)
    requires InPathSound(table, env.shape, inPath)
    requires Feasible(num, env, table, c, es)
    ensures var r := Neighbour(num, env, table, inPath, es, seed);
            r.Some? ==> Feasible(num, env, table, c, r.value.layout)
  {
    var r := Neighbour(num, env, table, inPath, es, seed);
    if r.Some? {
      MoveKeepsFeasible(num, env, table, inPath, c, es, r.value);
    }
  }

  /** Every neighbour move keeps a layout feasible. */
  lemma MoveKeepsFeasible(num: Numerics, env: Env, table: seq<EcgEntry>, inPath: seq<nat>, c: Combination,
                          es: seq<Electrode>, m: Move)
    requires InPathSound(table, env.shape, inPath)
    requires Feasible(num, env, table, c, es)
    requires NeighbourOf(num, env, table, inPath, es, m)
    ensures Feasible(num, env, table, c, m.layout)
  {
    if m.layout != es {
      var i := m.changed;
      SlotOfKind(c, es, i);
      if es[i].kind == "ecg" {
        EcgMoveKeepsFeasible(num, env, table, inPath, c, es, m.layout);
      } else {
        SingleMoveKeepsFeasible(num, env, table, c, es, i, m.layout);
      }
    }
  }

  /** Moving the ECG pair to an in-path table pair keeps feasibility. */
  lemma EcgMoveKeepsFeasible(num: Numerics, env: Env, table: seq<EcgEntry>, inPath: seq<nat>, c: Combination,
                             es: seq<Electrode>, next: seq<Electrode>)
    requires InPathSound(table, env.shape, inPath)
    requires Feasible(num, env, table, c, es) && c.ecg
    requires |next| == |es| && next[2..] == es[2..]
    requires exists j :: 0 <= j < |inPath| && next[..2] == EcgPair(num, env.sizes.ecg, table[inPath[j]])
    ensures Feasible(num, env, table, c, next)
  {
    var j :| 0 <= j < |inPath| && next[..2] == EcgPair(num, env.sizes.ecg, table[inPath[j]]);
    assert BothInside(table[inPath[j]], env.shape);
    forall k | 2 <= k < |es|
      ensures next[k] == es[k]
    {
      assert next[k] == next[2..][k - 2];
    }
    assert next[0].kind == "ecg" && next[1].kind == "ecg" by {
      assert next[0] == next[..2][0] && next[1] == next[..2][1];
    }
  }

  /** Replacing one EMG or EDA electrode by one of the same kind and id,
      of its kind's size, placed admissibly, keeps feasibility. */
  lemma SingleMoveKeepsFeasible(num: Numerics, env: Env, table: seq<EcgEntry>, c: Combination,
                                es: seq<Electrode>, i: nat, next: seq<Electrode>)
    requires Feasible(num, env, table, c, es) && i < |es|
    requires EcgSlots(c) <= i
    requires |next| == |es| && forall k :: 0 <= k < |es| && k != i ==> next[k] == es[k]
    requires next[i].kind == es[i].kind && next[i].id == es[i].id
    requires Admissible(num, env, next[i].Centre(), SizeOf(env.sizes, next[i].kind), Remove(es, i))
    requires es[i].kind == "emg" <==> i < EcgSlots(c) + 2 * |c.muscles|
    ensures Feasible(num, env, table, c, next)
  {
    SameKindsAndIds(c, es, i, next);
    if c.ecg {
      assert next[..2] == es[..2];
    }
    EmgStaysInShape(num, env, c, es, i, next);
    EdaStaysInShape(num, env, c, es, i, next);
  }

  /** Resampling one electrode admissibly keeps every EMG slot inside the shape. */
  lemma EmgStaysInShape(num: Numerics, env: Env, c: Combination, es: seq<Electrode>, i: nat, next: seq<Electrode>)
    requires EmgInShape(env, c, es) && i < |es|
    requires |next| == |es| && forall k :: 0 <= k < |es| && k != i ==> next[k] == es[k]
    requires next[i].kind == es[i].kind
    requires Admissible(num, env, next[i].Centre(), SizeOf(env.sizes, next[i].kind), Remove(es, i))
    requires es[i].kind == "emg" <==> EcgSlots(c) <= i < EcgSlots(c) + 2 * |c.muscles|
    ensures EmgInShape(env, c, next)
  {
    forall k | EcgSlots(c) <= k < EcgSlots(c) + 2 * |c.muscles| && k < |next|
      ensures Geometry.InsideStencil(next[k].Centre(), env.shape, env.sizes.emg, env.sizes.emg)
    {
      if k == i {
        assert next[i].kind == "emg";
      } else {
        assert next[k] == es[k];
      }
    }
  }

  /** Resampling one electrode admissibly keeps every EDA slot inside the shape and the forearm. */
  lemma EdaStaysInShape(num: Numerics, env: Env, c: Combination, es: seq<Electrode>, i: nat, next: seq<Electrode>)
    requires EdaInShape(env, c, es) && i < |es|
    requires |next| == |es| && forall k :: 0 <= k < |es| && k != i ==> next[k] == es[k]
    requires next[i].kind == es[i].kind
    requires Admissible(num, env, next[i].Centre(), SizeOf(env.sizes, next[i].kind), Remove(es, i))
    requires es[i].kind == "emg" <==> i < EcgSlots(c) + 2 * |c.muscles|
    ensures EdaInShape(env, c, next)
  {
    forall k | EcgSlots(c) + 2 * |c.muscles| <= k < |next|
      ensures Geometry.InsideStencil(next[k].Centre(), env.shape, env.sizes.eda, env.sizes.eda)
      ensures Geometry.InsideStencil(next[k].Centre(), env.forearm, env.sizes.eda, env.sizes.eda)
    {
      if k == i {
        assert SizeOf(env.sizes, next[i].kind) == env.sizes.eda;
      } else {
        assert next[k] == es[k];
      }
    }
  }

  /** Changing one electrode's position only keeps the layout arranged. */
  lemma SameKindsAndIds(c: Combination, es: seq<Electrode>, i: nat, next: seq<Electrode>)
    requires Arranged(c, es) && i < |es|
    requires |next| == |es| && forall k :: 0 <= k < |es| && k != i ==> next[k] == es[k]
    requires next[i].kind == es[i].kind && next[i].id == es[i].id
    ensures Arranged(c, next)
  {
    assert forall k :: 0 <= k < |es| ==> next[k].kind == es[k].kind && next[k].id == es[k].id;
  }

  // ---------------------------------------------------------------------
  // The baseline layout
  // ---------------------------------------------------------------------

  /** The electrode sits on a keypoint that carries its id. */
  predicate OnItsKeyPoint(kps: seq<KeyPoints.KeyPoint>, e: Electrode) {
    exists j :: 0 <= j < |kps| && kps[j].id == e.id && kps[j].Position() == e.Centre()
  }

  /** What `getBaselineSolution` promises of its layout: it is arranged;
      its ECG pair is that of table entry 1 (ecg3 and ecg4); each selected
      muscle's electrodes sit on their keypoints; and EDA1 and EDA2 sit 40
      and 100 above the wrist midpoint. */
  predicate IsBaseline(num: Numerics, sizes: Sizes, c: Combination, t: KeyPoints.Trapezoid,
                       kps: seq<KeyPoints.KeyPoint>, table: seq<EcgEntry>, es: seq<Electrode>)
    requires |table| >= 2
  {
    && Arranged(c, es)
    && (c.ecg ==> es[..2] == EcgPair(num, sizes.ecg, table[1]))
    && EmgOnKeyPoints(c, kps, es)
    && EdaAboveWrist(c, t, es)
  }

  /** Each selected muscle's electrodes sit on their keypoints. */
  predicate EmgOnKeyPoints(c: Combination, kps: seq<KeyPoints.KeyPoint>, es: seq<Electrode>) {
    forall k :: EcgSlots(c) <= k < EcgSlots(c) + 2 * |c.muscles| && k < |es| ==> OnItsKeyPoint(kps, es[k])
  }

  /** With EDA selected, the last two electrodes sit 40 and 100 above the wrist midpoint. */
  predicate EdaAboveWrist(c: Combination, t: KeyPoints.Trapezoid, es: seq<Electrode>) {
    c.eda ==> && |es| >= 2
              && es[|es| - 2].Centre() == KeyPoints.WristMid(t).Shift(0.0, -40.0)
              && es[|es| - 1].Centre() == KeyPoints.WristMid(t).Shift(0.0, -100.0)
  }

  /** `getBaselineSolution` for an empty electrode array. None when a
      selected muscle has no keypoint, where `find` returns `undefined` and
      the source reads its fields. */
  function Baseline(num: Numerics, sizes: Sizes, c: Combination, t: KeyPoints.Trapezoid,
                    kps: seq<KeyPoints.KeyPoint>, table: seq<EcgEntry>): (r: Option<seq<Electrode>>)
    requires |table| >= 2
    ensures r.None? <==> exists k :: 0 <= k < 2 * |c.muscles| && Missing(kps, MuscleIds(c.muscles)[k])
    ensures r.Some? ==> IsBaseline(num, sizes, c, t, kps, table, r.value)
  {
    match KeyPointsFor(kps, MuscleIds(c.muscles))
    case None => None
    case Some(list) =>
      Some(BaselineLayout(num, sizes, c, t, kps, table, list))
  }

  /** Electrodes copied from keypoints found in kps sit on their keypoints. */
  lemma OnFoundKeyPoints(kps: seq<KeyPoints.KeyPoint>, list: seq<KeyPoints.KeyPoint>, es: seq<Electrode>, from: nat)
    requires forall m :: 0 <= m < |list| ==> list[m] in kps
    requires from + |list| <= |es|
    requires forall k :: from <= k < from + |list| ==> es[k].Centre() == list[k - from].Position() && es[k].id == list[k - from].id
    ensures forall k :: from <= k < from + |list| ==> OnItsKeyPoint(kps, es[k])
  {
    forall k | from <= k < from + |list|
      ensures OnItsKeyPoint(kps, es[k])
    {
      var m := k - from;
      var j :| 0 <= j < |kps| && kps[j] == list[m];
      assert kps[j].id == es[k].id && kps[j].Position() == es[k].Centre();
    }
  }

  /** The keypoints carry the ids, in order. */
  predicate Labelled(list: seq<KeyPoints.KeyPoint>, ids: seq<string>) {
    |list| == |ids| && forall k :: 0 <= k < |list| ==> list[k].id == ids[k]
  }

  /** The baseline over the keypoints found for the selected muscles. */
  function BaselineLayout(num: Numerics, sizes: Sizes, c: Combination, t: KeyPoints.Trapezoid,
                          kps: seq<KeyPoints.KeyPoint>, table: seq<EcgEntry>, list: seq<KeyPoints.KeyPoint>)
    : (es: seq<Electrode>)
    requires |table| >= 2
    requires Labelled(list, MuscleIds(c.muscles))
    requires forall m :: 0 <= m < |list| ==> list[m] in kps
    ensures IsBaseline(num, sizes, c, t, kps, table, es)
  {
    var ecg := if c.ecg then EcgPair(num, sizes.ecg, table[1]) else [];
    var emg := OnKeyPoints(num, sizes.emg, list);
    var w := KeyPoints.WristMid(t);
    var eda := if c.eda then [Disc(num, w.Shift(0.0, -40.0), sizes.eda, "eda", "EDA1"),
                              Disc(num, w.Shift(0.0, -40.0 - 60.0), sizes.eda, "eda", "EDA2")]
               else [];
    BaselineParts(num, sizes, c, t, kps, table, list, ecg, emg, eda);
    ecg + emg + eda
  }

  /** The three parts of the baseline concatenate to a baseline. */
  lemma BaselineParts(num: Numerics, sizes: Sizes, c: Combination, t: KeyPoints.Trapezoid,
                      kps: seq<KeyPoints.KeyPoint>, table: seq<EcgEntry>, list: seq<KeyPoints.KeyPoint>,
                      ecg: seq<Electrode>, emg: seq<Electrode>, eda: seq<Electrode>)
    requires |table| >= 2
    requires Labelled(list, MuscleIds(c.muscles))
    requires forall m :: 0 <= m < |list| ==> list[m] in kps
    requires ecg == if c.ecg then EcgPair(num, sizes.ecg, table[1]) else []
    requires |emg| == |list|
    requires forall k :: 0 <= k < |list| ==> emg[k].kind == "emg" && emg[k].id == list[k].id && emg[k].Centre() == list[k].Position()
    requires !c.eda ==> eda == []
    requires c.eda ==> && |eda| == 2 && eda[0].kind == "eda" && eda[1].kind == "eda"
                       && eda[0].id == "EDA1" && eda[1].id == "EDA2"
                       && eda[0].Centre() == KeyPoints.WristMid(t).Shift(0.0, -40.0)
                       && eda[1].Centre() == KeyPoints.WristMid(t).Shift(0.0, -100.0)
    ensures IsBaseline(num, sizes, c, t, kps, table, ecg + emg + eda)
  {
    var es := ecg + emg + eda;
    assert IdsFrom(emg, 0, MuscleIds(c.muscles));
    PartsArranged(c, ecg, emg, eda);
    EmgPartOnKeyPoints(kps, list, ecg, emg, eda);
    assert EmgOnKeyPoints(c, kps, es);
    if c.eda {
      assert es[|es| - 2] == eda[0] && es[|es| - 1] == eda[1];
    }
    if c.ecg {
      assert es[..2] == ecg;
    }
  }

  /** EMG electrodes copied from keypoints found in kps, placed after the
      ECG part, sit on their keypoints. */
  lemma EmgPartOnKeyPoints(kps: seq<KeyPoints.KeyPoint>, list: seq<KeyPoints.KeyPoint>,
                           ecg: seq<Electrode>, emg: seq<Electrode>, eda: seq<Electrode>)
    requires forall m :: 0 <= m < |list| ==> list[m] in kps
    requires |emg| == |list|
    requires forall k :: 0 <= k < |list| ==> emg[k].id == list[k].id && emg[k].Centre() == list[k].Position()
    ensures forall k :: |ecg| <= k < |ecg| + |list| ==> OnItsKeyPoint(kps, (ecg + emg + eda)[k])
  {
    var es := ecg + emg + eda;
    PartsAt(ecg, emg, eda);
    forall k | |ecg| <= k < |ecg| + |list|
      ensures es[k].Centre() == list[k - |ecg|].Position() && es[k].id == list[k - |ecg|].id
    {
      assert es[k] == emg[k - |ecg|];
    }
    OnFoundKeyPoints(kps, list, es, |ecg|);
  }

  // ---------------------------------------------------------------------
  // Arranged layouts and the energy's pairwise loop
  // ---------------------------------------------------------------------

  /** On an arranged layout of known muscles, the energy's pairwise loop
      meets exactly one muscle pair per selected muscle and no unpaired
      electrode: the ECG pair occupies one whole step and no pair straddles
      two modalities. */
  lemma ArrangedMusclePairs(c: Combination, es: seq<Electrode>)
    requires Arranged(c, es)
    requires forall m :: 0 <= m < |c.muscles| ==> c.muscles[m] in KeyPoints.MuscleNames
    ensures Energy.MusclePairs(es, 0) == |c.muscles|
    ensures !Energy.Dangling(es, 0)
  {
    var lo := EcgSlots(c);
    var hi := lo + 2 * |c.muscles|;
    forall j | 0 <= j && j % 2 == 0 && j + 1 < |es|
      ensures Energy.IsMusclePair(es[j], es[j + 1]) <==> lo <= j < hi
    {
      PairAt(c, es, j);
    }
    PairsInBlock(es, 0, lo, hi);
    assert BlockPairs(0, lo, hi) == |c.muscles|;
  }

  /** The pairwise loop from an even position i counts the pairs of the
      block [lo, hi) at or after i when exactly that block holds muscle pairs. */
  lemma {:induction false} PairsInBlock(es: seq<Electrode>, i: nat, lo: nat, hi: nat)
    requires |es| % 2 == 0 && i % 2 == 0 && lo % 2 == 0 && hi % 2 == 0 && lo <= hi <= |es| && i <= |es|
    requires forall j :: i <= j && j % 2 == 0 && j + 1 < |es| ==> (Energy.IsMusclePair(es[j], es[j + 1]) <==> lo <= j < hi)
    ensures Energy.MusclePairs(es, i) == BlockPairs(i, lo, hi)
    ensures !Energy.Dangling(es, i)
    decreases |es| - i
  {
    EvenGap(|es|, i);
    if i + 1 < |es| {
      PairsInBlock(es, i + 2, lo, hi);
      BlockStep(i, lo, hi);
    }
  }

  /** The number of pairs of the block [lo, hi) at or after the even position i. */
  function BlockPairs(i: nat, lo: nat, hi: nat): int {
    if i <= lo then (hi - lo) / 2 else if i < hi then (hi - i) / 2 else 0
  }

  /** Stepping two positions on passes one pair of the block exactly when i is in it. */
  lemma BlockStep(i: nat, lo: nat, hi: nat)
    requires i % 2 == 0 && lo % 2 == 0 && hi % 2 == 0 && lo <= hi
    ensures BlockPairs(i, lo, hi) == (if lo <= i < hi then 1 else 0) + BlockPairs(i + 2, lo, hi)
  {
  }

  /** The pair at an even position i is a muscle pair exactly when it lies
      in the EMG block. */
  lemma PairAt(c: Combination, es: seq<Electrode>, i: nat)
    requires Arranged(c, es)
    requires forall m :: 0 <= m < |c.muscles| ==> c.muscles[m] in KeyPoints.MuscleNames
    requires i % 2 == 0 && i + 1 < |es|
    ensures Energy.IsMusclePair(es[i], es[i + 1]) <==> EcgSlots(c) <= i < EcgSlots(c) + 2 * |c.muscles|
  {
    if EcgSlots(c) <= i < EcgSlots(c) + 2 * |c.muscles| {
      PairInside(c, es, i);
    } else {
      PairOutside(c, es, i);
    }
  }

  /** An even position inside the EMG block starts a muscle pair. */
  lemma PairInside(c: Combination, es: seq<Electrode>, i: nat)
    requires Arranged(c, es)
    requires forall m :: 0 <= m < |c.muscles| ==> c.muscles[m] in KeyPoints.MuscleNames
    requires i % 2 == 0 && EcgSlots(c) <= i < EcgSlots(c) + 2 * |c.muscles|
    ensures i + 1 < |es| && Energy.IsMusclePair(es[i], es[i + 1])
  {
    var m := InBlock(c, es, i);
    MuscleIdOf(c.muscles[m]);
  }

  /** An even position inside the EMG block holds the first electrode of
      muscle m, followed by its second. */
  lemma InBlock(c: Combination, es: seq<Electrode>, i: nat) returns (m: nat)
    requires Arranged(c, es)
    requires i % 2 == 0 && EcgSlots(c) <= i < EcgSlots(c) + 2 * |c.muscles|
    ensures m < |c.muscles| && i + 1 < |es|
    ensures es[i].kind == "emg" && es[i + 1].kind == "emg" && es[i].id == c.muscles[m] + "1"
  {
    var ids := MuscleIds(c.muscles);
    var k := i - EcgSlots(c);
    m := k / 2;
    assert k == 2 * m;
    assert es[i].id == ids[k];
  }

  /** A position outside the EMG block holds an ECG or EDA electrode. */
  lemma PairOutside(c: Combination, es: seq<Electrode>, i: nat)
    requires Arranged(c, es)
    requires i < |es| && !(EcgSlots(c) <= i < EcgSlots(c) + 2 * |c.muscles|)
    ensures es[i].kind != "emg"
  {
    if i < EcgSlots(c) {
      assert es[i].kind == "ecg";
    } else {
      assert es[i].kind == "eda";
    }
  }

  /** An arranged layout has even length, so the gap to an even position is even. */
  lemma EvenGap(n: nat, i: nat)
    requires n % 2 == 0 && i % 2 == 0 && i <= n
    ensures (n - i) % 2 == 0
  {
    assert n - i == 2 * (n / 2 - i / 2);
  }

  /** A muscle's first electrode id is one the energy scores. */
  lemma MuscleIdOf(name: string)
    requires name in KeyPoints.MuscleNames
    ensures Energy.IsMuscleId(name + "1")
  {
    if name == "FCR" {
      assert name + "1" == "FCR1";
    } else if name == "BR" {
      assert name + "1" == "BR1";
    } else if name == "PL" {
      assert name + "1" == "PL1";
    } else if name == "PQ" {
      assert name + "1" == "PQ1";
    } else {
      assert name + "1" == "FCU1";
    }
  }
}
