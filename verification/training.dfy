/**
 * The list logic of `segment_gesture`, `train_model` and the channel
 * remapping in `server/app.py`: filling one-window gaps in the activity
 * mask, locating the longest run of active windows, choosing the top-z
 * ranked channels to train on, and mapping chosen channel positions back
 * to the channels of the selected area.
 *
 * The RMS values, the median filter, the classifiers and their scores are
 * not modelled: the activity mask and each candidate's accuracy are inputs.
 */
module Training {
  import opened Base

  // ---------------------------------------------------------------------
  // Gap filling
  // ---------------------------------------------------------------------

  /** Window i is active after gap filling: it was active, or it is an
      interior window whose two neighbours are active. */
  predicate Filled(a: seq<bool>, i: nat)
    requires i < |a|
  {
    a[i] || (0 < i < |a| - 1 && a[i - 1] && a[i + 1])
  }

  /** The fill loop (lines 478-480): it updates the mask in place, scanning
      left to right, so a window's left neighbour may already have been
      filled. The result is still the mask every window computes from the
      original neighbours, because a filled window's right neighbour was
      active and so is never filled itself. */
  method FillGaps(active: seq<bool>) returns (filled: seq<bool>)
    ensures |filled| == |active|
    ensures forall i :: 0 <= i < |active| ==> filled[i] == Filled(active, i)
  {
    filled := active;
    if |active| < 3 {
      return;
    }
    var i := 1;
    while i < |active| - 1
      invariant 1 <= i <= |active| - 1
      invariant |filled| == |active|
      invariant forall k :: 0 <= k < i ==> filled[k] == Filled(active, k)
      invariant forall k :: i <= k < |active| ==> filled[k] == active[k]
    {
      if !filled[i] && filled[i - 1] && filled[i + 1] {
        filled := filled[i := true];
      }
      i := i + 1;
    }
  }

  /** Filling is monotone and idempotent on runs: an active window stays
      active, and an inactive window between two active ones is closed. */
  lemma FilledKeepsActive(a: seq<bool>, i: nat)
    requires i < |a|
    ensures a[i] ==> Filled(a, i)
    ensures 0 < i < |a| - 1 && a[i - 1] && a[i + 1] ==> Filled(a, i)
    ensures !a[i] && (i == 0 || i == |a| - 1) ==> !Filled(a, i)
  {
  }

  // ---------------------------------------------------------------------
  // The longest active run
  // ---------------------------------------------------------------------

  /** The length of the run of active windows that starts at window p. */
  function RunFrom(a: seq<bool>, p: nat): (r: nat)
    requires p <= |a|
    ensures p + r <= |a|
    ensures forall k :: p <= k < p + r ==> a[k]
    ensures p + r == |a| || !a[p + r]
    decreases |a| - p
  {
    if p == |a| || !a[p] then 0 else 1 + RunFrom(a, p + 1)
  }

  /** A stretch of active windows from p that ends at `end`, at an inactive
      window or the end of the mask, is the run from p. */
  lemma {:induction false} RunTo(a: seq<bool>, p: nat, end: nat)
    requires p <= end <= |a|
    requires forall k :: p <= k < end ==> a[k]
    requires end == |a| || !a[end]
    ensures RunFrom(a, p) == end - p
    decreases end - p
  {
    if p < end {
      RunTo(a, p + 1, end);
    }
  }

  /** The run from `curStart` has closed at `end`: the runs from every
      window between them end there too. */
  lemma RunsClosed(a: seq<bool>, curStart: nat, end: nat)
    requires curStart <= end <= |a|
    requires forall k :: curStart <= k < end ==> a[k]
    requires end == |a| || !a[end]
    ensures forall p :: curStart <= p <= end ==> RunFrom(a, p) == end - p
  {
    forall p | curStart <= p <= end ensures RunFrom(a, p) == end - p {
      RunTo(a, p, end);
    }
  }

  /** The scan of lines 483-495: the start and length of the first longest
      run of active windows; (0, 0) when no window is active. */
  method LongestRun(a: seq<bool>) returns (start: nat, len: nat)
    ensures start + len <= |a|
    ensures forall k :: start <= k < start + len ==> a[k]
    ensures forall p :: 0 <= p <= |a| ==> RunFrom(a, p) <= len
    ensures forall p :: 0 <= p < start ==> RunFrom(a, p) < len
    ensures len > 0 ==> RunFrom(a, start) == len
    ensures len == 0 ==> start == 0 && forall k :: 0 <= k < |a| ==> !a[k]
  {
    var maxLen, best, cur, curStart := 0, 0, 0, 0;
    var i := 0;
    while i < |a|
      invariant 0 <= i <= |a|
      invariant curStart + cur == i
      invariant forall k :: curStart <= k < i ==> a[k]
      invariant best + maxLen <= curStart
      invariant maxLen > 0 ==> RunFrom(a, best) == maxLen
      invariant forall p :: 0 <= p < curStart ==> RunFrom(a, p) <= maxLen
      invariant forall p :: 0 <= p < best ==> RunFrom(a, p) < maxLen
      invariant maxLen == 0 ==> best == 0
    {
      if a[i] {
        cur := cur + 1;
      } else {
        RunsClosed(a, curStart, i);
        if cur > maxLen {
          maxLen, best := cur, curStart;
        }
        cur, curStart := 0, i + 1;
      }
      i := i + 1;
    }
    RunsClosed(a, curStart, i);
    if cur > maxLen {
      maxLen, best := cur, curStart;
    }
    start, len := best, maxLen;
    forall k | 0 <= k < |a| && len == 0 ensures !a[k] {
      assert RunFrom(a, k) <= 0;
    }
  }

  /** `(best_start * window_size, (best_start + max_length) * window_size)`
      for the longest run of the gap-filled mask. The run's start and
      length are returned alongside the sample range. */
  method SegmentGesture(active: seq<bool>, windowSize: nat) returns (segStart: nat, segEnd: nat, runStart: nat, runLen: nat)
    ensures segStart == runStart * windowSize && segEnd == (runStart + runLen) * windowSize
    ensures runStart + runLen <= |active|
    ensures forall k :: runStart <= k < runStart + runLen ==> Filled(active, k)
    ensures forall p :: 0 <= p <= |active| ==> RunFrom(FilledMask(active), p) <= runLen
    ensures forall p :: 0 <= p < runStart ==> RunFrom(FilledMask(active), p) < runLen
  {
    var filled := FillGaps(active);
    assert filled == FilledMask(active);
    runStart, runLen := LongestRun(filled);
    segStart, segEnd := runStart * windowSize, (runStart + runLen) * windowSize;
  }

  /** The gap-filled mask as a value. */
  function FilledMask(a: seq<bool>): (m: seq<bool>)
    ensures |m| == |a|
    ensures forall i :: 0 <= i < |a| ==> m[i] == Filled(a, i)
  {
    seq(|a|, i requires 0 <= i < |a| => Filled(a, i))
  }

  // ---------------------------------------------------------------------
  // Choosing the channels to train on
  // ---------------------------------------------------------------------

  /** Python's `s[-z:]` for an integer z: the last z items when 0 < z, all
      of s when z is 0 (since -0 is 0) or exceeds the length, and s without
      its first -z items when z is negative. */
  function TakeLast<T>(s: seq<T>, z: int): (r: seq<T>)
    ensures 0 < z <= |s| ==> |r| == z && r == s[|s| - z..]
    ensures z == 0 || z >= |s| ==> r == s
    ensures z < 0 ==> r == s[Min((-z) as real, |s| as real).Floor..]
  {
    if z > 0 then (if z >= |s| then s else s[|s| - z..])
    else if z == 0 then s
    else if -z >= |s| then s[|s|..] else s[-z..]
  }

  /** The values of z tried (lines 383-390): 2 to min(21, n) - 1 when
      optimising further, else only n. */
  function ZRange(optimizeFurther: bool, n: nat): (zs: seq<nat>)
    ensures optimizeFurther ==> forall k :: 0 <= k < |zs| ==> zs[k] == 2 + k && zs[k] < Min(21.0, n as real).Floor
    ensures optimizeFurther ==> |zs| == (if Min(21.0, n as real).Floor <= 2 then 0 else Min(21.0, n as real).Floor - 2)
    ensures !optimizeFurther ==> zs == [n]
  {
    if optimizeFurther then
      var end := if n < 21 then n else 21;
      assert Min(21.0, n as real).Floor == end;
      if end <= 2 then [] else seq(end - 2, k requires 0 <= k < end - 2 => 2 + k)
    else [n]
  }

  /** The channels trained on for each z: the last z of the ranking. */
  function Selections(ranked: seq<int>, zs: seq<nat>): (r: seq<seq<int>>)
    ensures |r| == |zs|
    ensures forall k :: 0 <= k < |zs| ==> r[k] == TakeLast(ranked, zs[k])
  {
    seq(|zs|, k requires 0 <= k < |zs| => TakeLast(ranked, zs[k]))
  }

  /** The channels `train_model` returns as written: every candidate
      overwrites the "best" one (lines 421-426) without comparing
      accuracies, so the last candidate wins. With no candidate,
      `best_channels` is never bound and the return raises. */
  function TrainedChannelsAsWritten(ranked: seq<int>, optimizeFurther: bool, accuracy: nat -> real): (r: Option<seq<int>>)
    ensures var zs := ZRange(optimizeFurther, |ranked|);
            && (r.None? <==> |zs| == 0)
            && (r.Some? ==> r.value == TakeLast(ranked, zs[|zs| - 1]))
  {
    var zs := ZRange(optimizeFurther, |ranked|);
    if |zs| == 0 then None else Some(Selections(ranked, zs)[|zs| - 1])
  }

  /** The position of the first candidate with the highest accuracy. */
  function BestAt(zs: seq<nat>, accuracy: nat -> real, best: nat, i: nat): (k: nat)
    requires best < |zs| && i <= |zs|
    ensures k < |zs|
    decreases |zs| - i
  {
    if i == |zs| then best
    else BestAt(zs, accuracy, if accuracy(zs[i]) > accuracy(zs[best]) then i else best, i + 1)
  }

  lemma {:induction false} BestAtIsBest(zs: seq<nat>, accuracy: nat -> real, best: nat, i: nat)
    requires best < i <= |zs|
    requires forall k :: 0 <= k < i ==> accuracy(zs[k]) <= accuracy(zs[best])
    ensures forall k :: 0 <= k < |zs| ==> accuracy(zs[k]) <= accuracy(zs[BestAt(zs, accuracy, best, i)])
    decreases |zs| - i
  {
    if i < |zs| {
      BestAtIsBest(zs, accuracy, if accuracy(zs[i]) > accuracy(zs[best]) then i else best, i + 1);
    }
  }

  /** The evidently intended choice: the candidate with the highest mean
      accuracy (the first one on a tie); still None with no candidate. */
  function TrainedChannels(ranked: seq<int>, optimizeFurther: bool, accuracy: nat -> real): (r: Option<seq<int>>)
    ensures var zs := ZRange(optimizeFurther, |ranked|);
            r.None? <==> |zs| == 0
  {
    var zs := ZRange(optimizeFurther, |ranked|);
    if |zs| == 0 then None else Some(TakeLast(ranked, zs[BestAt(zs, accuracy, 0, 1)]))
  }

  /** The corrected choice trains on some candidate's channels, and no
      candidate scores a higher accuracy. */
  lemma TrainedChannelsIsBest(ranked: seq<int>, optimizeFurther: bool, accuracy: nat -> real)
    requires |ZRange(optimizeFurther, |ranked|)| > 0
    ensures var zs := ZRange(optimizeFurther, |ranked|);
            exists b :: 0 <= b < |zs| && TrainedChannels(ranked, optimizeFurther, accuracy) == Some(TakeLast(ranked, zs[b]))
              && forall k :: 0 <= k < |zs| ==> accuracy(zs[k]) <= accuracy(zs[b])
  {
    var zs := ZRange(optimizeFurther, |ranked|);
    BestAtIsBest(zs, accuracy, 0, 1);
    var b := BestAt(zs, accuracy, 0, 1);
    assert TrainedChannels(ranked, optimizeFurther, accuracy) == Some(TakeLast(ranked, zs[b]));
  }

  /** With ten ranked channels and candidates z = 2 .. 9, where the top two
      channels score 0.9 and every larger selection 0.5, the code as written
      trains on the last nine channels although the top two did better. */
  lemma LastCandidateWins()
    ensures var ranked := [0, 1, 2, 3, 4, 5, 6, 7, 8, 9];
            var accuracy := (z: nat) => if z == 2 then 0.9 else 0.5;
            && TrainedChannelsAsWritten(ranked, true, accuracy) == Some([1, 2, 3, 4, 5, 6, 7, 8, 9])
            && TrainedChannels(ranked, true, accuracy) == Some([8, 9])
  {
    var ranked := [0, 1, 2, 3, 4, 5, 6, 7, 8, 9];
    var accuracy := (z: nat) => if z == 2 then 0.9 else 0.5;
    var zs := ZRange(true, 10);
    assert |zs| == 8 && zs[0] == 2 && zs[7] == 9;
    BestAtIsBest(zs, accuracy, 0, 1);
    var b := BestAt(zs, accuracy, 0, 1);
    assert b == 0;
    assert TakeLast(ranked, 9) == ranked[1..];
    assert TakeLast(ranked, 2) == ranked[8..];
  }

  /** Before training (lines 578-579): the ranking is cut to its last
      `no_of_channels` entries when a channel count is given and either no
      further optimisation is asked for or no area channels were chosen. */
  function TrimRanking(ranked: seq<int>, channelCount: int, optimizeFurther: bool, areaChannels: nat): (r: seq<int>)
    ensures channelCount == 0 || (optimizeFurther && areaChannels > 0) ==> r == ranked
    ensures 0 < channelCount <= |ranked| && (!optimizeFurther || areaChannels == 0) ==> r == ranked[|ranked| - channelCount..]
  {
    if (channelCount != 0 && !optimizeFurther) || (channelCount != 0 && areaChannels == 0) then TakeLast(ranked, channelCount)
    else ranked
  }

  /** Taking the last z of the last z' ranked channels is taking the last
      min(z, z') channels. */
  lemma TakeLastTwice<T>(s: seq<T>, z: nat, z': nat)
    requires 0 < z <= |s| && 0 < z' <= |s|
    ensures TakeLast(TakeLast(s, z'), z) == TakeLast(s, if z < z' then z else z')
  {
  }

  // ---------------------------------------------------------------------
  // Channel remapping
  // ---------------------------------------------------------------------

  /** `[channel_map[c] for c in best_channels]` with `channel_map` built
      from `enumerate(channels)` (lines 583-587); an empty channel list
      leaves the selection alone. A position without a channel raises a
      KeyError: None. */
  function Remap(channels: seq<int>, best: seq<int>): (r: Option<seq<int>>)
    ensures |channels| == 0 ==> r == Some(best)
    ensures |channels| > 0 ==> (r.Some? <==> forall k :: 0 <= k < |best| ==> 0 <= best[k] < |channels|)
    ensures r.Some? && |channels| > 0 ==> |r.value| == |best| && forall k :: 0 <= k < |best| ==> 0 <= best[k] < |channels| && r.value[k] == channels[best[k]]
  {
    if |channels| == 0 then Some(best) else MapThrough(channels, best)
  }

  function MapThrough(channels: seq<int>, best: seq<int>): (r: Option<seq<int>>)
    ensures r.Some? <==> forall k :: 0 <= k < |best| ==> 0 <= best[k] < |channels|
    ensures r.Some? ==> |r.value| == |best| && forall k :: 0 <= k < |best| ==> 0 <= best[k] < |channels| && r.value[k] == channels[best[k]]
  {
    if |best| == 0 then Some([])
    else if !(0 <= best[0] < |channels|) then None
    else match MapThrough(channels, best[1..])
      case None =>
        assert !(forall k :: 0 <= k < |best| ==> 0 <= best[k] < |channels|) by {
          var j :| 0 <= j < |best[1..]| && !(0 <= best[1..][j] < |channels|);
          assert best[j + 1] == best[1..][j];
        }
        None
      case Some(rest) =>
        var r := [channels[best[0]]] + rest;
        assert forall k :: 1 <= k < |best| ==> best[k] == best[1..][k - 1];
        Some(r)
  }

  /** Remapping through the list of the area's own positions 0 .. n - 1
      changes nothing. */
  lemma RemapIdentity(n: nat, best: seq<int>)
    requires n > 0
    requires forall k :: 0 <= k < |best| ==> 0 <= best[k] < n
    ensures Remap(seq(n, i => i), best) == Some(best)
  {
    var ids := seq(n, i => i);
    var r := Remap(ids, best);
    assert r.Some?;
    assert forall k :: 0 <= k < |best| ==> r.value[k] == ids[best[k]] == best[k];
    assert r.value == best;
  }
}
