/**
 * `SensorControls.js`: the four modality weights the optimiser reads, and
 * the electrode counts of the selected modality channels.
 *
 * The module keeps one `weights` array (EMG, EDA, ECG, area), all zero at
 * load time. Every getter and setter returns that array itself; the model
 * returns its new value. The channel counts come from the status panel and
 * two global switches, which are parameters here.
 */
module Sensors {
  import Energy
  import LayoutGenerator

  /** The `weights` array: always four entries, EMG, EDA, ECG and area. */
  type Quad = s: seq<real> | |s| == 4 witness [0.0, 0.0, 0.0, 0.0]

  /** The array as the module is loaded. */
  const InitialWeights: Quad := [0.0, 0.0, 0.0, 0.0]

  /** The indices of the four entries. */
  const EmgIndex := 0
  const EdaIndex := 1
  const EcgIndex := 2
  const AreaIndex := 3

  /** `getDefaultWeights`: a fresh array, not the stored one. */
  function DefaultWeights(): (d: Quad) {
    [0.2, 0.5, 0.3, 0.5]
  }

  /** The default modality weights share one unit among EMG, EDA and ECG,
      and every default weight lies in [0, 1]. */
  lemma DefaultWeightsShareOne()
    ensures DefaultWeights()[EmgIndex] + DefaultWeights()[EdaIndex] + DefaultWeights()[EcgIndex] == 1.0
    ensures forall k :: 0 <= k < 4 ==> 0.0 <= DefaultWeights()[k] <= 1.0
  {
  }

  /** `getWeights`. The module declares `getWeights` twice; the later
      declaration, which returns the stored array, is the one in force, so
      the earlier one that reads the four knobs never runs. */
  function GetWeights(ws: Quad): (r: Quad)
    ensures r == ws
  {
    ws
  }

  /** `setWeights(a, b, c, d)`: stores the four values as given. */
  function SetWeights(ws: Quad, a: real, b: real, c: real, d: real): (r: Quad)
    ensures r[EmgIndex] == a && r[EdaIndex] == b && r[EcgIndex] == c && r[AreaIndex] == d
  {
    [a, b, c, d]
  }

  /** Whatever was stored before, `setWeights` fixes the whole array. */
  lemma SetWeightsForgets(ws: Quad, ws': Quad, a: real, b: real, c: real, d: real)
    ensures SetWeights(ws, a, b, c, d) == SetWeights(ws', a, b, c, d)
    ensures GetWeights(SetWeights(ws, a, b, c, d)) == [a, b, c, d]
  {
  }

  /** `setWeightEMG`, `setWeightEDA`, `setWeightECG` and `setWeightArea`:
      entry i becomes a / 100, so the setters take a percentage. */
  function SetWeightAt(ws: Quad, i: nat, a: real): (r: Quad)
    requires i < 4
    ensures r[i] * 100.0 == a
    ensures forall k :: 0 <= k < 4 && k != i ==> r[k] == ws[k]
  {
    ws[i := a / 100.0]
  }

  function SetWeightEmg(ws: Quad, a: real): Quad { SetWeightAt(ws, EmgIndex, a) }
  function SetWeightEda(ws: Quad, a: real): Quad { SetWeightAt(ws, EdaIndex, a) }
  function SetWeightEcg(ws: Quad, a: real): Quad { SetWeightAt(ws, EcgIndex, a) }
  function SetWeightArea(ws: Quad, a: real): Quad { SetWeightAt(ws, AreaIndex, a) }

  /** Setters of two different entries commute, and setting one entry twice
      keeps only the second value. */
  lemma SetWeightAtCommutes(ws: Quad, i: nat, a: real, j: nat, b: real)
    requires i < 4 && j < 4
    ensures i != j ==> SetWeightAt(SetWeightAt(ws, i, a), j, b) == SetWeightAt(SetWeightAt(ws, j, b), i, a)
    ensures i == j ==> SetWeightAt(SetWeightAt(ws, i, a), j, b) == SetWeightAt(ws, j, b)
  {
  }

  /** The four single setters together amount to `setWeights` of the
      scaled-down values. */
  lemma SettersAgree(ws: Quad, a: real, b: real, c: real, d: real)
    ensures SetWeightArea(SetWeightEcg(SetWeightEda(SetWeightEmg(ws, a), b), c), d)
         == SetWeights(ws, a / 100.0, b / 100.0, c / 100.0, d / 100.0)
  {
    var r := SetWeightArea(SetWeightEcg(SetWeightEda(SetWeightEmg(ws, a), b), c), d);
    assert r == [a / 100.0, b / 100.0, c / 100.0, d / 100.0];
  }

  /** `getNormalizedWeights`: every stored weight divided by 100, as the
      energy's weight record. */
  function NormalizedWeights(ws: Quad): (w: Energy.Weights)
    ensures w.emg * 100.0 == ws[EmgIndex] && w.eda * 100.0 == ws[EdaIndex]
    ensures w.ecg * 100.0 == ws[EcgIndex] && w.area * 100.0 == ws[AreaIndex]
  {
    Energy.Weights(ws[0] / 100.0, ws[1] / 100.0, ws[2] / 100.0, ws[3] / 100.0)
  }

  /** Percentages stored by `setWeights` come back as fractions: storing
      100a, 100b, 100c, 100d and normalising gives a, b, c, d. In
      particular, modality percentages that add up to 100 normalise to
      weights that add up to 1, and non-negative ones stay non-negative. */
  lemma NormalizedRoundTrip(ws: Quad, a: real, b: real, c: real, d: real)
    ensures NormalizedWeights(SetWeights(ws, 100.0 * a, 100.0 * b, 100.0 * c, 100.0 * d)) == Energy.Weights(a, b, c, d)
  {
  }

  lemma NormalizedShares(ws: Quad)
    ensures ws[EmgIndex] + ws[EdaIndex] + ws[EcgIndex] == 100.0 ==>
              NormalizedWeights(ws).emg + NormalizedWeights(ws).eda + NormalizedWeights(ws).ecg == 1.0
    ensures (forall k :: 0 <= k < 4 ==> ws[k] >= 0.0) ==> Energy.NonNegative(NormalizedWeights(ws))
  {
  }

  /** A percentage given to a single setter is divided by 100 twice on its
      way to the normalised weights. */
  lemma SetterThenNormalized(ws: Quad, a: real)
    ensures NormalizedWeights(SetWeightEmg(ws, a)).emg * 10000.0 == a
    ensures NormalizedWeights(SetWeightArea(ws, a)).area * 10000.0 == a
  {
  }

  // ---------------------------------------------------------------------
  // Channel counts
  // ---------------------------------------------------------------------

  /** `getSensorChannels`: the number of selected muscles, and one channel
      each for EDA and ECG when they are switched on. */
  datatype Channels = Channels(emg: int, eda: int, ecg: int)

  function SensorChannels(selectedMuscles: nat, edaEnabled: bool, ecgEnabled: bool): (ch: Channels)
    ensures ch.emg == selectedMuscles
    ensures ch.eda == 1 <==> edaEnabled
    ensures ch.ecg == 1 <==> ecgEnabled
    ensures 0 <= ch.eda <= 1 && 0 <= ch.ecg <= 1
  {
    Channels(selectedMuscles, if edaEnabled then 1 else 0, if ecgEnabled then 1 else 0)
  }

  /** `calculateNumEMGElectrodes`, `calculateNumEDAElectrodes` and
      `calculateNumECGElectrodes`: two electrodes per EMG and EDA channel,
      one per ECG channel. */
  function NumEmgElectrodes(ch: Channels): int { ch.emg * 2 }
  function NumEdaElectrodes(ch: Channels): int { ch.eda * 2 }
  function NumEcgElectrodes(ch: Channels): int { ch.ecg * 1 }

  /** `calculateTotalNumberOfElectrodes`: a one-element array holding the
      sum of the three modality counts. The reference count it computes is
      not part of the result. */
  function TotalNumberOfElectrodes(ch: Channels): (r: seq<int>)
    ensures |r| == 1
    ensures r[0] == NumEmgElectrodes(ch) + NumEdaElectrodes(ch) + NumEcgElectrodes(ch)
  {
    [ch.emg * 2 + ch.eda * 2 + ch.ecg * 1]
  }

  /** `calculateNumReferenceElectrodes`: one reference electrode per EMG
      and per ECG channel; EDA needs none. */
  function NumReferenceElectrodes(ch: Channels): (r: int)
    ensures r == ch.emg + ch.ecg
  {
    ch.emg + ch.ecg
  }

  /** For the channels of a modality combination, the total here counts one
      ECG electrode where the layout generator places two: the two counts
      agree exactly when ECG is off. The EDA switch never changes the
      number of reference electrodes. */
  lemma TotalAgainstGenerator(c: LayoutGenerator.Combination)
    ensures var ch := SensorChannels(|c.muscles|, c.eda, c.ecg);
            && TotalNumberOfElectrodes(ch)[0] + (if c.ecg then 1 else 0) == LayoutGenerator.ElectrodeCount(c)
            && (TotalNumberOfElectrodes(ch)[0] == LayoutGenerator.ElectrodeCount(c) <==> !c.ecg)
            && NumReferenceElectrodes(ch) == NumReferenceElectrodes(SensorChannels(|c.muscles|, !c.eda, c.ecg))
  {
  }
}
