/**
 * `SA_Optimizer.js`: simulated annealing over electrode layouts. Each trial
 * asks the generator for a neighbour of the current layout, scores it,
 * keeps it as the best layout when it is strictly better than the best so
 * far, and moves to it by the Metropolis rule. After `stabilizer` trials
 * the temperature drops by the cooling factor and the stabilizer is
 * multiplied by the stabilizing factor, until the temperature is no longer
 * above the cooling factor.
 *
 * The three optimisers differ only in the energy they compare: the total of
 * the energy call (weight based), the normalised hull area plus a penalty
 * for every modality score above its lower bound (lower bound), or the
 * weighted sum of the penalised modality scores (lower bound, weighted).
 * The neighbour generator, the energy call and `Math.random()` are inputs.
 */
module Annealing {
  import opened Base
  import opened Electrodes
  import Energy
  import LayoutGenerator

  type Layout = seq<Electrode>

  type Num = Energy.Num

  /** A value of `Math.random()`. */
  type Unit = r: real | 0.0 <= r < 1.0

  // ---------------------------------------------------------------------
  // Comparisons on numbers that may be NaN
  // ---------------------------------------------------------------------

  /** `a < b`: false when either side is NaN. */
  predicate Below(a: Num, b: Num) {
    a.Some? && b.Some? && a.value < b.value
  }

  /** a is b, or strictly below it: what "never increases" means when NaN
      can occur. */
  predicate NotAbove(a: Num, b: Num) {
    a == b || Below(a, b)
  }

  /** `a - b`, NaN when either side is NaN. */
  function Minus(a: Num, b: Num): (r: Num)
    ensures r.Some? <==> a.Some? && b.Some?
    ensures r.Some? ==> r.value + b.value == a.value
  {
    if a.Some? && b.Some? then Some(a.value - b.value) else None
  }

  // ---------------------------------------------------------------------
  // _probabilityFunction
  // ---------------------------------------------------------------------

  /** `_probabilityFunction(temperature, delta)` with `r` the value of
      `Math.random()`: a downhill move is always taken; otherwise the move
      is taken when r < exp(-1000 delta / temperature). A NaN delta fails
      both tests. At temperature 0 an uphill delta gives exp(-Infinity) = 0
      and a zero delta gives exp(NaN), so neither is taken. */
  function Accept(num: Numerics, temperature: real, delta: Num, r: Unit): (a: bool)
    ensures delta.None? ==> !a
    ensures delta.Some? && delta.value < 0.0 ==> a
    ensures temperature == 0.0 && delta.Some? && delta.value >= 0.0 ==> !a
    ensures Sane(num) && temperature > 0.0 && delta == Some(0.0) ==> a
  {
    if delta.None? then false
    else if delta.value < 0.0 then true
    else if temperature == 0.0 then false
    else r < num.exp(-(delta.value * 1000.0) / temperature)
  }

  /** A smaller random number accepts whatever a larger one accepts. */
  lemma AcceptMonotone(num: Numerics, temperature: real, delta: Num, r: Unit, r': Unit)
    requires r' <= r
    requires Accept(num, temperature, delta, r)
    ensures Accept(num, temperature, delta, r')
  {
  }

  // ---------------------------------------------------------------------
  // Lower bounds and penalties
  // ---------------------------------------------------------------------

  /** `Math.max(0, (1 - parseFloat(v) / 100) - 0.00)` for a minimum quality
      of v percent: the highest score (scores are costs) still tolerated.
      A field that does not parse gives NaN, and `Math.max` with NaN is NaN. */
  function LowerBound(percent: Num): (b: Num)
    ensures b.Some? <==> percent.Some?
    ensures b.Some? ==> b.value >= 0.0
    ensures b.Some? ==> (b.value == 0.0 <==> percent.value >= 100.0)
    ensures b.Some? && percent.value >= 0.0 ==> b.value <= 1.0
  {
    match percent
    case None => None
    case Some(v) => Some(Max(0.0, (1.0 - v / 100.0) - 0.0))
  }

  /** The EMG, EDA and ECG lower bounds read in `_init`. */
  datatype Bounds = Bounds(emg: Num, eda: Num, ecg: Num)

  /** `exp(max(s - b, 0)) - 1`, the penalty for a score s above its bound b. */
  function Excess(num: Numerics, score: real, bound: real): real {
    num.exp(Max(score - bound, 0.0)) - 1.0
  }

  /** Adds the penalty to the energy e when the score is above its bound,
      and leaves e alone otherwise (also when the score or the bound is NaN). */
  function Penalise(num: Numerics, e: Num, score: Num, bound: Num): (r: Num)
    ensures r.Some? <==> e.Some?
    ensures !Below(bound, score) ==> r == e
    ensures Sane(num) && r.Some? ==> r.value >= e.value
  {
    if Below(bound, score) then
      assert Sane(num) ==> Excess(num, score.value, bound.value) >= 0.0;
      Energy.Plus(e, Some(Excess(num, score.value, bound.value)))
    else e
  }

  /** The lower-bound energy: `AreaScore`, plus the EDA, EMG and ECG
      penalties in that order. */
  function LbEnergy(num: Numerics, r: Energy.Readout, b: Bounds): (e: Num)
    ensures e.Some? <==> r.area.Some?
    ensures Sane(num) && e.Some? ==> e.value >= r.area.value
    ensures !Below(b.eda, r.eda) && !Below(b.emg, r.emg) && !Below(b.ecg, r.ecg) ==> e == r.area
  {
    Penalise(num, Penalise(num, Penalise(num, r.area, r.eda, b.eda), r.emg, b.emg), r.ecg, b.ecg)
  }

  /** The lower-bound energy is the area score plus exactly the penalties
      of the scores above their bounds. */
  lemma LbEnergyIsAreaPlusPenalties(num: Numerics, r: Energy.Readout, b: Bounds)
    requires r.area.Some?
    ensures LbEnergy(num, r, b).value
         == r.area.value + PenaltyOf(num, r.eda, b.eda) + PenaltyOf(num, r.emg, b.emg) + PenaltyOf(num, r.ecg, b.ecg)
  {
  }

  /** The penalty a score adds: its excess when above the bound, else 0. */
  function PenaltyOf(num: Numerics, score: Num, bound: Num): real {
    if Below(bound, score) then Excess(num, score.value, bound.value) else 0.0
  }

  /** The lower-bound weighted optimiser adds each penalty to the score
      itself, in the shared score object (lines 305-318). The area score is
      not penalised. */
  function PenalisedReadout(num: Numerics, r: Energy.Readout, b: Bounds): (p: Energy.Readout)
    ensures p.area == r.area
    ensures p.emg.Some? <==> r.emg.Some?
    ensures p.eda.Some? <==> r.eda.Some?
    ensures p.ecg.Some? <==> r.ecg.Some?
    ensures Sane(num) && p.emg.Some? ==> p.emg.value >= r.emg.value
    ensures Sane(num) && p.eda.Some? ==> p.eda.value >= r.eda.value
    ensures Sane(num) && p.ecg.Some? ==> p.ecg.value >= r.ecg.value
    ensures !Below(b.emg, r.emg) ==> p.emg == r.emg
    ensures !Below(b.eda, r.eda) ==> p.eda == r.eda
    ensures !Below(b.ecg, r.ecg) ==> p.ecg == r.ecg
  {
    Energy.Readout(Penalise(num, r.emg, r.emg, b.emg), Penalise(num, r.eda, r.eda, b.eda),
                   Penalise(num, r.ecg, r.ecg, b.ecg), r.area)
  }

  /** The weighted energy of the penalised scores (lines 319-320):
      w0 EMG + w1 EDA + w2 ECG + w3 area. */
  function WeightedLbEnergy(w: Energy.Weights, p: Energy.Readout): (e: Num)
    ensures e.Some? <==> p.emg.Some? && p.eda.Some? && p.ecg.Some? && p.area.Some?
  {
    Energy.Plus(Energy.Plus(Energy.Plus(Energy.Times(w.emg, p.emg), Energy.Times(w.eda, p.eda)),
                            Energy.Times(w.ecg, p.ecg)), Energy.Times(w.area, p.area))
  }

  /** With non-negative weights, a readout that is no worse in every score
      gets no higher weighted energy. */
  lemma WeightedLbEnergyMonotone(w: Energy.Weights, p: Energy.Readout, q: Energy.Readout)
    requires Energy.NonNegative(w)
    requires p.emg.Some? && p.eda.Some? && p.ecg.Some? && p.area.Some?
    requires q.emg.Some? && q.eda.Some? && q.ecg.Some? && q.area.Some?
    requires p.emg.value <= q.emg.value && p.eda.value <= q.eda.value
    requires p.ecg.value <= q.ecg.value && p.area.value <= q.area.value
    ensures WeightedLbEnergy(w, p).value <= WeightedLbEnergy(w, q).value
  {
    ScaleOrder(w.emg, p.emg.value, q.emg.value);
    ScaleOrder(w.eda, p.eda.value, q.eda.value);
    ScaleOrder(w.ecg, p.ecg.value, q.ecg.value);
    ScaleOrder(w.area, p.area.value, q.area.value);
  }

  lemma ScaleOrder(weight: real, a: real, b: real)
    requires weight >= 0.0 && a <= b
    ensures Energy.Weighted(weight, a) <= Energy.Weighted(weight, b)
  {
    assert weight * (b - a) >= 0.0;
  }

  /** The starting energy of the weighted lower-bound optimiser as written
      (lines 290-291): the EDA term is `weights[1] + EDAScore[1]` where every
      other term, and the same formula inside the loop, multiplies. */
  function LbWeightStartAsWritten(w: Energy.Weights, p: Energy.Readout): (e: Num)
    ensures e.Some? <==> p.emg.Some? && p.eda.Some? && p.ecg.Some? && p.area.Some?
  {
    Energy.Plus(Energy.Plus(Energy.Plus(Energy.Times(w.emg, p.emg), Energy.Plus(Some(w.eda), p.eda)),
                            Energy.Times(w.ecg, p.ecg)), Energy.Times(w.area, p.area))
  }

  /** As written, the start is scored higher than a neighbour with exactly
      the same scores: with weight 0.5 on EDA and every score 0, the start
      gets 0.5 and the neighbour 0, so the neighbour counts as an
      improvement although nothing changed. */
  lemma LbWeightStartMismatch()
    ensures var w := Energy.Weights(0.2, 0.5, 0.3, 0.5);
            var p := Energy.Readout(Some(0.0), Some(0.0), Some(0.0), Some(0.0));
            && LbWeightStartAsWritten(w, p) == Some(0.5)
            && WeightedLbEnergy(w, p) == Some(0.0)
            && Below(WeightedLbEnergy(w, p), LbWeightStartAsWritten(w, p))
  {
    var w := Energy.Weights(0.2, 0.5, 0.3, 0.5);
    assert Energy.Weighted(w.emg, 0.0) == 0.0 && Energy.Weighted(w.eda, 0.0) == 0.0;
    assert Energy.Weighted(w.ecg, 0.0) == 0.0 && Energy.Weighted(w.area, 0.0) == 0.0;
  }

  // ---------------------------------------------------------------------
  // The three optimisers
  // ---------------------------------------------------------------------

  datatype Mode = WeightBased | LowerBoundBased | LowerBoundWeighted

  /** The source as written, or with the two corrections: the best layout
      starts as the start layout in every mode, and the weighted
      lower-bound start energy multiplies the EDA weight. */
  datatype Variant = AsWritten | Corrected

  /** The weights the energy call sees: the lower-bound optimiser first
      overwrites the EMG, EDA and ECG weights with 0.33. */
  function ModeWeights(mode: Mode, w: Energy.Weights): (mw: Energy.Weights)
    ensures mode.LowerBoundBased? ==> mw == Energy.Weights(0.33, 0.33, 0.33, w.area)
    ensures !mode.LowerBoundBased? ==> mw == w
  {
    if mode.LowerBoundBased? then w.(emg := 0.33, eda := 0.33, ecg := 0.33) else w
  }

  /** The energy each optimiser compares for a scored layout, and the score
      object as the next energy call finds it (the weighted lower-bound
      optimiser writes the penalised scores back into it). */
  function ModeEnergy(num: Numerics, mode: Mode, w: Energy.Weights, b: Bounds, ev: Energy.Evaluation): (r: (Num, Energy.Readout))
    ensures mode.WeightBased? ==> r == (ev.total, ev.readout)
    ensures mode.LowerBoundBased? ==> r.1 == ev.readout && (r.0.Some? <==> ev.readout.area.Some?)
    ensures mode.LowerBoundWeighted? ==> r.1.area == ev.readout.area
  {
    match mode
    case WeightBased => (ev.total, ev.readout)
    case LowerBoundBased => (LbEnergy(num, ev.readout, b), ev.readout)
    case LowerBoundWeighted =>
      var p := PenalisedReadout(num, ev.readout, b);
      (WeightedLbEnergy(w, p), p)
  }

  /** The best layout before any trial. As written only the weighted
      lower-bound optimiser sets it (line 266); the other two leave the
      module's initial empty array. */
  function LowestStartAsWritten(mode: Mode, start: Layout): (l: Layout)
    ensures mode.LowerBoundWeighted? ==> l == start
    ensures !mode.LowerBoundWeighted? ==> l == []
  {
    if mode.LowerBoundWeighted? then start else []
  }

  function LowestStart(variant: Variant, mode: Mode, start: Layout): (l: Layout)
    ensures variant.Corrected? ==> l == start
    ensures variant.AsWritten? ==> l == LowestStartAsWritten(mode, start)
  {
    if variant.Corrected? then start else LowestStartAsWritten(mode, start)
  }

  /** The best energy before any trial: the start's total (weight based),
      its lower-bound energy (lower bound), or the weighted energy of its
      penalised scores (lower bound, weighted). */
  function LowestEnergyStart(num: Numerics, variant: Variant, mode: Mode, w: Energy.Weights, b: Bounds, init: Energy.Evaluation): Num {
    match mode
    case WeightBased => init.total
    case LowerBoundBased => LbEnergy(num, init.readout, b)
    case LowerBoundWeighted =>
      var p := PenalisedReadout(num, init.readout, b);
      if variant.Corrected? then WeightedLbEnergy(w, p) else LbWeightStartAsWritten(w, p)
  }

  /** The score object the first trial's energy call starts from. */
  function ReadoutStart(num: Numerics, mode: Mode, b: Bounds, init: Energy.Evaluation): Energy.Readout {
    if mode.LowerBoundWeighted? then PenalisedReadout(num, init.readout, b) else init.readout
  }

  /** The optimiser's variables: the current layout and its energy
      (`currentSystemEnergy`), the best layout and its energy, the two
      counters, and the shared score object. */
  datatype Run = Run(current: Layout, currentEnergy: Num, lowest: Layout, lowestEnergy: Num,
                     total: nat, accepted: nat, readout: Energy.Readout)

  /** The variables before the first trial. `init` is the energy call of
      `_init` on the start layout, made with the weights as given; its total
      is the current energy in every mode. */
  function StartRun(num: Numerics, variant: Variant, mode: Mode, w: Energy.Weights, b: Bounds,
                    start: Layout, init: Energy.Evaluation): Run {
    Run(start, init.total, LowestStart(variant, mode, start), LowestEnergyStart(num, variant, mode, w, b, init),
        0, 0, ReadoutStart(num, mode, b, init))
  }

  /** With the correction every optimiser starts its best energy at the
      value its own loop computes from the start's evaluation, and the
      first energy call sees the score object the loop would leave. So a
      neighbour scored exactly like the start is no improvement: the best
      layout stays the start. The correction changes the start energy of
      the weighted lower-bound optimiser only. */
  lemma LbWeightStartConsistent(num: Numerics, mode: Mode, w: Energy.Weights, b: Bounds, start: Layout,
                                init: Energy.Evaluation, temperature: real, r: Unit, nb: Layout)
    ensures LowestEnergyStart(num, Corrected, mode, w, b, init) == ModeEnergy(num, mode, w, b, init).0
    ensures StartRun(num, Corrected, mode, w, b, start, init).readout == ModeEnergy(num, mode, w, b, init).1
    ensures Step(num, temperature, r, StartRun(num, Corrected, mode, w, b, start, init), nb,
                 ModeEnergy(num, mode, w, b, init).0, ModeEnergy(num, mode, w, b, init).1).lowest == start
    ensures !mode.LowerBoundWeighted? ==>
              LowestEnergyStart(num, AsWritten, mode, w, b, init) == LowestEnergyStart(num, Corrected, mode, w, b, init)
  {
  }

  /** One trial after the neighbour nb has been scored e (lines 109-126):
      count it, keep nb as the best when e is strictly below the best
      energy, then move to it by the Metropolis rule against the current
      energy. Both the improvement and the move count as accepted. */
  function Step(num: Numerics, temperature: real, r: Unit, st: Run, nb: Layout, e: Num, readout: Energy.Readout): (next: Run)
    ensures next.total == st.total + 1
    ensures st.accepted <= next.accepted <= st.accepted + 2
    ensures NotAbove(next.lowestEnergy, st.lowestEnergy)
    ensures !Below(e, next.lowestEnergy)
    ensures (next.lowest, next.lowestEnergy) == (st.lowest, st.lowestEnergy) || (next.lowest, next.lowestEnergy) == (nb, e)
    ensures Below(e, st.lowestEnergy) <==> next.lowestEnergy != st.lowestEnergy
    ensures Accept(num, temperature, Minus(e, st.currentEnergy), r) ==> next.current == nb && next.currentEnergy == e
    ensures !Accept(num, temperature, Minus(e, st.currentEnergy), r) ==> next.current == st.current && next.currentEnergy == st.currentEnergy
    ensures next.accepted == st.accepted ==> next.lowest == st.lowest
    ensures next.readout == readout
  {
    var improved := Below(e, st.lowestEnergy);
    var lowest := if improved then nb else st.lowest;
    var lowestEnergy := if improved then e else st.lowestEnergy;
    var moved := Accept(num, temperature, Minus(e, st.currentEnergy), r);
    var current := if moved then nb else st.current;
    var currentEnergy := if moved then e else st.currentEnergy;
    var accepted := st.accepted + (if improved then 1 else 0) + (if moved then 1 else 0);
    Run(current, currentEnergy, lowest, lowestEnergy, st.total + 1, accepted, readout)
  }

  /** The annealing schedule read from the form. */
  datatype Schedule = Schedule(initialTemperature: real, initialStabilizer: real, coolingFactor: real,
                               stabilizingFactor: real, freezingTemperature: real)

  /** What the caller gets from the optimiser. */
  datatype Visit = Visit(layout: Layout, energy: Num)

  datatype Outcome =
    | Finished(result: Layout, run: Run, visited: seq<Visit>, levels: nat)
      /** The neighbour generator or an energy call threw. */
    | Threw
      /** The temperature stays above the cooling factor without being above
         the freezing temperature (no trial runs and nothing changes), or
         the cooling factor is not positive, so the temperature never falls
         to it: the call does not return a layout. */
    | Hangs

  /** The inputs the optimiser does not compute itself: `Math.random()` for
      the n-th trial, the neighbour the generator proposes at the n-th trial
      (None when `generateNeighbourLayout` throws), and the energy call (`GetSystemEnergyForArea` followed by
      `GetLayoutEnergy`), which may throw. */
  datatype Oracles = Oracles(num: Numerics, random: nat -> Unit, neighbour: (Layout, nat) -> Option<Layout>,
                             evaluate: (Energy.Weights, Layout, Energy.Readout) -> Option<Energy.Evaluation>)

  /** inv holds of every proposal the neighbour oracle makes for a layout
      inv holds of. */
  ghost predicate Preserves(neighbour: (Layout, nat) -> Option<Layout>, inv: Layout -> bool) {
    forall l, n :: inv(l) && neighbour(l, n).Some? ==> inv(neighbour(l, n).value)
  }

  /** inv holds of the current layout and of every visited one. */
  ghost predicate AllSatisfy(inv: Layout -> bool, st: Run, visited: seq<Visit>) {
    inv(st.current) && forall k :: 0 <= k < |visited| ==> inv(visited[k].layout)
  }

  /** `generateNeighbourLayout` as the neighbour oracle: at trial n it runs
      with generator state `seeds(n)`, and a throwing call is None. */
  function GeneratorNeighbour(num: Numerics, env: LayoutGenerator.Env, table: seq<LayoutGenerator.EcgEntry>,
                              inPath: seq<nat>, seeds: nat -> nat): (nb: (Layout, nat) -> Option<Layout>)
    requires forall i :: 0 <= i < |inPath| ==> inPath[i] < |table|
    ensures forall l, n :: nb(l, n).Some? <==> LayoutGenerator.Neighbour(num, env, table, inPath, l, seeds(n)).Some?
  {
    (l: Layout, n: nat) =>
      match LayoutGenerator.Neighbour(num, env, table, inPath, l, seeds(n))
      case None => None
      case Some(m) => Some(m.layout)
  }

  /** With the generator as the neighbour oracle, feasibility is kept from
      trial to trial, whatever the generator states: so by `Optimize`, every
      layout a run from a feasible start visits is feasible, and so is the
      corrected optimiser's answer. */
  lemma GeneratorKeepsFeasible(num: Numerics, env: LayoutGenerator.Env, table: seq<LayoutGenerator.EcgEntry>,
                               inPath: seq<nat>, c: LayoutGenerator.Combination, seeds: nat -> nat)
    requires LayoutGenerator.InPathSound(table, env.shape, inPath)
    ensures Preserves(GeneratorNeighbour(num, env, table, inPath, seeds),
                      l => LayoutGenerator.Feasible(num, env, table, c, l))
  {
    var nb := GeneratorNeighbour(num, env, table, inPath, seeds);
    forall l, n | LayoutGenerator.Feasible(num, env, table, c, l) && nb(l, n).Some?
      ensures LayoutGenerator.Feasible(num, env, table, c, nb(l, n).value)
    {
      LayoutGenerator.NeighbourKeepsFeasible(num, env, table, inPath, c, l, seeds(n));
    }
  }

  /** The layout the optimiser returns: the lower-bound optimiser returns
      the start when nothing was accepted; the others return the best layout. */
  function Answer(mode: Mode, start: Layout, st: Run): Layout {
    if mode.LowerBoundBased? && st.accepted == 0 then start else st.lowest
  }

  /** What every trial keeps: one visit per trial, at most two acceptances
      per trial, a best energy that never rises and that no visited energy
      is below, and a best and a current layout that are the start values
      or were visited with that energy. */
  predicate Tracked(st0: Run, st: Run, visited: seq<Visit>) {
    && |visited| == st.total
    && st.accepted <= 2 * st.total
    && NotAbove(st.lowestEnergy, st0.lowestEnergy)
    && (forall k :: 0 <= k < |visited| ==> !Below(visited[k].energy, st.lowestEnergy))
    && ((st.lowest, st.lowestEnergy) == (st0.lowest, st0.lowestEnergy) || Visit(st.lowest, st.lowestEnergy) in visited)
    && ((st.current, st.currentEnergy) == (st0.current, st0.currentEnergy) || Visit(st.current, st.currentEnergy) in visited)
    && (st.accepted == 0 ==> st.lowest == st0.lowest)
    && (st.lowestEnergy == st0.lowestEnergy ==> st.lowest == st0.lowest)
  }

  /** A trial keeps what `Tracked` states. */
  lemma StepTracked(num: Numerics, temperature: real, r: Unit, st0: Run, st: Run, visited: seq<Visit>,
                    nb: Layout, e: Num, readout: Energy.Readout)
    requires Tracked(st0, st, visited)
    requires st0.total == 0 && st0.accepted == 0
    ensures Tracked(st0, Step(num, temperature, r, st, nb, e, readout), visited + [Visit(nb, e)])
  {
    var next := Step(num, temperature, r, st, nb, e, readout);
    var vs := visited + [Visit(nb, e)];
    forall k | 0 <= k < |vs|
      ensures !Below(vs[k].energy, next.lowestEnergy)
    {
      if k < |visited| {
        assert vs[k] == visited[k];
      }
    }
    assert Visit(nb, e) == vs[|visited|];
    assert forall v :: v in visited ==> v in vs;
  }

  /** `optimizeLayout_weight_based`, `optimizeLayout_lb_based` and
      `optimizeLayout_lb_weight_based` after `_init`. `init` is `_init`'s
      energy call on `start`. The loop runs while the temperature is above
      the cooling factor; a level runs `stabilizer` trials (the `for` loop
      counts an integer up to the real stabilizer), then cools. */
  method Optimize(o: Oracles, variant: Variant, mode: Mode, sched: Schedule, w: Energy.Weights, b: Bounds,
                  start: Layout, init: Energy.Evaluation, ghost inv: Layout -> bool)
    returns (out: Outcome)
    ensures out.Finished? ==> |out.visited| == out.run.total
    ensures out.Finished? ==> out.run.accepted <= 2 * out.run.total
    ensures out.Finished? ==>
              NotAbove(out.run.lowestEnergy, LowestEnergyStart(o.num, variant, mode, w, b, init))
    ensures out.Finished? ==>
              forall k :: 0 <= k < |out.visited| ==> !Below(out.visited[k].energy, out.run.lowestEnergy)
    ensures out.Finished? ==>
              out.result == Answer(mode, start, out.run)
    ensures out.Finished? ==>
              Tracked(StartRun(o.num, variant, mode, w, b, start, init), out.run, out.visited)
    ensures out.Finished? ==>
              var st0 := StartRun(o.num, variant, mode, w, b, start, init);
              (out.run.lowest, out.run.lowestEnergy) == (st0.lowest, st0.lowestEnergy) ||
              Visit(out.run.lowest, out.run.lowestEnergy) in out.visited
    ensures out.Finished? && variant.Corrected? ==>
              out.result == start || exists k :: 0 <= k < |out.visited| && out.visited[k].layout == out.result
    ensures out.Finished? && (forall k :: 0 <= k < |out.visited| ==> !Below(out.visited[k].energy, LowestEnergyStart(o.num, variant, mode, w, b, init))) ==>
              out.run.lowest == LowestStart(variant, mode, start)
    ensures out.Finished? ==>
              (out.levels == 0 <==> sched.initialTemperature <= sched.coolingFactor)
    ensures sched.initialTemperature <= sched.coolingFactor ==>
              out == Finished(Answer(mode, start, StartRun(o.num, variant, mode, w, b, start, init)),
                              StartRun(o.num, variant, mode, w, b, start, init), [], 0)
    ensures sched.coolingFactor > 0.0 && sched.freezingTemperature <= sched.coolingFactor ==> !out.Hangs?
    ensures sched.coolingFactor <= 0.0 && sched.initialTemperature > sched.coolingFactor ==> out.Hangs?
    ensures out.Finished? && inv(start) && Preserves(o.neighbour, inv) ==>
              forall k :: 0 <= k < |out.visited| ==> inv(out.visited[k].layout)
    ensures out.Finished? && variant.Corrected? && inv(start) && Preserves(o.neighbour, inv) ==> inv(out.result)
  {
    var st0 := StartRun(o.num, variant, mode, w, b, start, init);
    var st := st0;
    var visited: seq<Visit> := [];
    var temperature := sched.initialTemperature;
    var stabilizer := sched.initialStabilizer;
    var c, f := sched.coolingFactor, sched.freezingTemperature;
    var levels: nat := 0;
    if temperature > c && c <= 0.0 {
      return Hangs;
    }
    while temperature > c
      invariant temperature > c ==> c > 0.0
      invariant Tracked(st0, st, visited)
      invariant levels == 0 <==> temperature == sched.initialTemperature
      invariant levels > 0 ==> temperature < sched.initialTemperature && sched.initialTemperature > c
      invariant sched.initialTemperature <= c ==> st == st0 && visited == []
      invariant st0.total == 0 && st0.accepted == 0
      invariant inv(start) && Preserves(o.neighbour, inv) ==> AllSatisfy(inv, st, visited)
      decreases if c > 0.0 then temperature / c else 0.0
    {
      if temperature <= f {
        return Hangs;
      }
      var level := RunLevel(o, mode, w, b, temperature, stabilizer, st0, st, visited, inv);
      if level.None? {
        return Threw;
      }
      st, visited := level.value.0, level.value.1;
      DivStep(temperature, c);
      temperature := temperature - c;
      stabilizer := stabilizer * sched.stabilizingFactor;
      levels := levels + 1;
    }
    out := Finished(Answer(mode, start, st), st, visited, levels);
    NoImprovement(st0, st, visited);
    if variant.Corrected? && out.result != start {
      AnswerVisited(mode, start, st0, st, visited);
      if inv(start) && Preserves(o.neighbour, inv) {
        var k :| 0 <= k < |visited| && visited[k].layout == out.result;
        assert inv(visited[k].layout);
      }
    }
  }

  /** The number of trials in a level: the `for` loop counts an integer up
      to the stabilizer, which becomes fractional once it has been scaled. */
  function Trials(stabilizer: real): nat {
    if stabilizer <= 0.0 then 0 else Ceil(stabilizer)
  }

  /** One temperature level: `stabilizer` trials at a fixed temperature.
      None when an energy call throws. */
  method RunLevel(o: Oracles, mode: Mode, w: Energy.Weights, b: Bounds, temperature: real, stabilizer: real,
                  st0: Run, st: Run, visited: seq<Visit>, ghost inv: Layout -> bool)
    returns (res: Option<(Run, seq<Visit>)>)
    requires Tracked(st0, st, visited)
    requires st0.total == 0 && st0.accepted == 0
    ensures res.Some? ==> Tracked(st0, res.value.0, res.value.1)
    ensures res.Some? && Preserves(o.neighbour, inv) && AllSatisfy(inv, st, visited) ==>
              AllSatisfy(inv, res.value.0, res.value.1)
    ensures res.Some? ==> |res.value.1| == |visited| + Trials(stabilizer)
    ensures res.Some? ==> res.value.1[..|visited|] == visited
  {
    var cur, seen := st, visited;
    var i: nat := 0;
    while (i as real) < stabilizer
      invariant Tracked(st0, cur, seen)
      invariant |seen| == |visited| + i && seen[..|visited|] == visited
      invariant i == 0 || (i - 1) as real < stabilizer
      invariant Preserves(o.neighbour, inv) && AllSatisfy(inv, st, visited) ==> AllSatisfy(inv, cur, seen)
      decreases stabilizer - i as real
    {
      var n := cur.total;
      var proposed := o.neighbour(cur.current, n);
      if proposed.None? {
        return None;
      }
      var nb := proposed.value;
      var scored := o.evaluate(ModeWeights(mode, w), nb, cur.readout);
      if scored.None? {
        return None;
      }
      var (e, readout) := ModeEnergy(o.num, mode, w, b, scored.value);
      StepTracked(o.num, temperature, o.random(n), st0, cur, seen, nb, e, readout);
      cur := Step(o.num, temperature, o.random(n), cur, nb, e, readout);
      seen := seen + [Visit(nb, e)];
      i := i + 1;
    }
    res := Some((cur, seen));
  }

  /** When no visited energy is below the starting best energy, the best
      layout is still the starting one. */
  lemma NoImprovement(st0: Run, st: Run, visited: seq<Visit>)
    requires Tracked(st0, st, visited)
    ensures (forall k :: 0 <= k < |visited| ==> !Below(visited[k].energy, st0.lowestEnergy)) ==> st.lowest == st0.lowest
  {
    if st.lowestEnergy != st0.lowestEnergy {
      var v := Visit(st.lowest, st.lowestEnergy);
      assert v in visited;
      var k :| 0 <= k < |visited| && visited[k] == v;
      assert Below(visited[k].energy, st0.lowestEnergy);
    }
  }

  /** In the corrected variant a returned layout other than the start was visited. */
  lemma AnswerVisited(mode: Mode, start: Layout, st0: Run, st: Run, visited: seq<Visit>)
    requires Tracked(st0, st, visited)
    requires st0.lowest == start
    requires Answer(mode, start, st) != start
    ensures exists k :: 0 <= k < |visited| && visited[k].layout == Answer(mode, start, st)
  {
    var v := Visit(st.lowest, st.lowestEnergy);
    assert v in visited;
    var k :| 0 <= k < |visited| && visited[k] == v;
  }

  /** One cooling step lowers temperature / coolingFactor by exactly one. */
  lemma DivStep(t: real, c: real)
    requires c > 0.0
    ensures (t - c) / c == t / c - 1.0
  {
    var q, r := t / c, (t - c) / c;
    assert q * c == t;
    assert r * c == t - c;
    var z := r - q + 1.0;
    assert z * c == r * c - q * c + c;
    ProductSign(z, c);
  }

  lemma ProductSign(z: real, c: real)
    requires c > 0.0
    ensures z > 0.0 ==> z * c > 0.0
    ensures z < 0.0 ==> z * c < 0.0
  {
  }

  /** As written, the weight-based optimiser returns the empty array when
      no neighbour scores strictly below the start: the best layout was
      never set. */
  lemma EmptyAnswerAsWritten(start: Layout, st: Run)
    requires st.lowest == LowestStartAsWritten(WeightBased, start)
    ensures Answer(WeightBased, start, st) == []
  {
  }
}
