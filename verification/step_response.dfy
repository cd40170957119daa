/**
 * Step-response analysis (NoLoad.AnalyzeStepResponse): command jumps of the
 * raw set point mark step edges; each edge gets a window up to the next edge
 * (at most 1400 samples), and a window whose command settles to a non-zero
 * target yields dead, rise and settling times, overshoot and steady-state
 * error, filed as a main step or as a sensitivity (micro) step by amplitude.
 *
 * Standard deviations are compared through their squares (variances), which
 * is exact because both sides are non-negative.
 */
module StepResponse {
  import opened Options
  import opened Stats
  import opened Samples

  const JumpThreshold: real := 40.0
  const MinEdgeSpacing: nat := 400
  const MaxWindow: nat := 1400
  const MinWindow: nat := 100
  const SettleSkip: nat := 50
  const BeforeOffset: nat := 20
  const FinalSpan: nat := 100
  /** Standard deviation 0.05, squared. */
  const MaxCommandVariance: real := 0.05 * 0.05
  const MinTarget: real := 0.02
  const PrimaryAmplitude: real := 0.9
  const SensitivityAmplitude: real := 0.04
  const DeadFraction: real := 0.02
  const RiseLowFraction: real := 0.1
  const RiseHighFraction: real := 0.9
  const SettleFraction: real := 0.05
  const SensitivityTolerance: real := 0.05

  datatype StepResult = StepResult(
    from: real, to: real,
    deadTime: real, riseTime: real, settlingTime: real,
    overshoot: real, sse: real,
    isSensitivity: bool, actualValue: real)

  /** What one step edge yields: a skipped window (and why), or a measured step. */
  datatype EdgeOutcome =
    | ShortWindow
    | UnstableCommand
    | NearZeroTarget
    | OutOfBand
    | Primary(step: StepResult)
    | Sensitivity(step: StepResult)

  /** The raw command moves by more than 40 between samples i-1 and i. */
  predicate IsJump(data: seq<Sample>, i: nat)
    requires 1 <= i < |data|
  {
    Abs(data[i].setPointRaw - data[i - 1].setPointRaw) > JumpThreshold
  }

  /** Every registered edge is a jump inside positions 1 .. i-1. */
  predicate EdgesAreJumps(data: seq<Sample>, r: seq<nat>, i: nat)
  {
    forall k :: 0 <= k < |r| ==> 1 <= r[k] < i <= |data| && IsJump(data, r[k])
  }

  /** Registered edges are in order and more than 400 samples apart. */
  predicate Spaced(r: seq<nat>)
  {
    forall a, b :: 0 <= a < b < |r| ==> r[a] + MinEdgeSpacing < r[b]
  }

  /**
   * IsJump under a second name, so that the jumps a cover quantifies over are
   * kept apart from the jumps that are edges.
   */
  predicate JumpAt(data: seq<Sample>, j: nat)
    requires 1 <= j < |data|
  {
    IsJump(data, j)
  }

  /** Every jump before position i lies within 400 samples after some registered edge. */
  predicate CoversJumps(data: seq<Sample>, r: seq<nat>, i: nat)
    requires i <= |data|
  {
    forall j :: 1 <= j < i && JumpAt(data, j) ==>
      exists k :: 0 <= k < |r| && r[k] <= j <= r[k] + MinEdgeSpacing
  }

  /**
   * The edges registered after scanning positions 1 .. i-1: a jump is an edge
   * when it is the first one or comes more than 400 samples after the last
   * edge. With EdgesBeforeCover, the sequence is the only one that is made of
   * jumps, spaced and covering every jump.
   */
  function EdgesBefore(data: seq<Sample>, i: nat): (r: seq<nat>)
    requires 1 <= i <= |data|
    ensures EdgesAreJumps(data, r, i) && Spaced(r)
    decreases i
  {
    if i == 1 then []
    else
      var r := EdgesBefore(data, i - 1);
      if IsJump(data, i - 1) && (|r| == 0 || (i - 1) - r[|r| - 1] > MinEdgeSpacing) then
        assert forall k :: 0 <= k < |r| ==> (r + [i - 1])[k] == r[k];
        r + [i - 1]
      else r
  }

  lemma {:induction false} EdgesBeforeCover(data: seq<Sample>, i: nat)
    requires 1 <= i <= |data|
    ensures CoversJumps(data, EdgesBefore(data, i), i)
    decreases i
  {
    if i > 1 {
      EdgesBeforeCover(data, i - 1);
      var r := EdgesBefore(data, i - 1);
      var r' := EdgesBefore(data, i);
      assert r' == r + [i - 1] || (r' == r && (!IsJump(data, i - 1) || (|r| > 0 && (i - 1) - r[|r| - 1] <= MinEdgeSpacing)));
      forall j | 1 <= j < i && JumpAt(data, j)
        ensures exists k :: 0 <= k < |r'| && r'[k] <= j <= r'[k] + MinEdgeSpacing
      {
        CoverOne(data, r, r', i, j);
      }
    }
  }

  /** One scanning step keeps every jump covered: the one at i - 1 by itself or by the last edge. */
  lemma CoverOne(data: seq<Sample>, r: seq<nat>, r': seq<nat>, i: nat, j: nat)
    requires 1 <= j < i <= |data| && IsJump(data, j)
    requires EdgesAreJumps(data, r, i - 1) && CoversJumps(data, r, i - 1)
    requires r' == r + [i - 1] || (r' == r && (!IsJump(data, i - 1) || (|r| > 0 && (i - 1) - r[|r| - 1] <= MinEdgeSpacing)))
    ensures exists k :: 0 <= k < |r'| && r'[k] <= j <= r'[k] + MinEdgeSpacing
  {
    if j < i - 1 {
      assert JumpAt(data, j);
      var k :| 0 <= k < |r| && r[k] <= j <= r[k] + MinEdgeSpacing;
      assert r'[k] == r[k];
    } else if r' != r {
      assert r'[|r|] == j;
    } else {
      assert r'[|r| - 1] <= j <= r'[|r| - 1] + MinEdgeSpacing;
    }
  }

  function StepEdges(data: seq<Sample>): (r: seq<nat>)
    ensures EdgesAreJumps(data, r, |data|) && Spaced(r)
  {
    if |data| == 0 then [] else EdgesBefore(data, |data|)
  }

  /** Every jump in the data lies within 400 samples after a detected edge. */
  lemma StepEdgesCover(data: seq<Sample>)
    ensures CoversJumps(data, StepEdges(data), |data|)
  {
    if |data| > 0 {
      EdgesBeforeCover(data, |data|);
    }
  }

  /** The first jump in the data is always registered as an edge. */
  lemma FirstJumpRegistered(data: seq<Sample>, j: nat)
    requires 1 <= j < |data| && IsJump(data, j)
    requires forall i :: 1 <= i < j ==> !IsJump(data, i)
    ensures j in StepEdges(data)
  {
    var r := StepEdges(data);
    StepEdgesCover(data);
    assert JumpAt(data, j);
    var k :| 0 <= k < |r| && r[k] <= j <= r[k] + MinEdgeSpacing;
    assert IsJump(data, r[k]);
  }

  /** The edge-detection loop. */
  method DetectStepEdges(data: seq<Sample>) returns (edges: seq<nat>)
    ensures edges == StepEdges(data)
  {
    edges := [];
    if |data| == 0 {
      return;
    }
    for i := 1 to |data|
      invariant edges == EdgesBefore(data, i)
    {
      if Abs(data[i].setPointRaw - data[i - 1].setPointRaw) > JumpThreshold {
        if |edges| == 0 || i - edges[|edges| - 1] > MinEdgeSpacing {
          edges := edges + [i];
        }
      }
    }
  }

  /** The end of an edge's window: the first later edge in the list, or the end of the data when there is none. */
  function WindowLimit(edges: seq<nat>, idx: nat, n: nat): (r: nat)
    requires idx < n
    requires forall k :: 0 <= k < |edges| ==> edges[k] <= n
    ensures idx < r <= n
    ensures r < n ==> exists k :: 0 <= k < |edges| && edges[k] == r && forall j :: 0 <= j < k ==> edges[j] <= idx
    ensures (forall k :: 0 <= k < |edges| ==> edges[k] <= idx) ==> r == n
    ensures forall k ::
      (&& 0 <= k < |edges| && edges[k] > idx
       && (forall j :: 0 <= j < k ==> edges[j] <= idx))
      ==> r == edges[k]
  {
    match FirstWhere(edges, (x: nat) => x > idx)
    case None => n
    case Some(k) => edges[k]
  }

  /** For an increasing edge list, an edge's window ends at the next edge, or at the end of the data for the last edge. */
  lemma WindowEndsAtNextEdge(edges: seq<nat>, k: nat, n: nat)
    requires k < |edges| && edges[k] < n
    requires forall a :: 0 <= a < |edges| ==> edges[a] <= n
    requires forall a, b :: 0 <= a < b < |edges| ==> edges[a] < edges[b]
    ensures WindowLimit(edges, edges[k], n) == if k + 1 < |edges| then edges[k + 1] else n
  {
    if k + 1 < |edges| {
      assert edges[k] < edges[k + 1];
    }
  }

  /** FindCrossing as an index: the first reading at or beyond the threshold, in the step's direction. */
  predicate Crosses(s: Sample, threshold: real, rising: bool)
  {
    if rising then s.actualDeg >= threshold else s.actualDeg <= threshold
  }

  function FindCrossing(seg: seq<Sample>, threshold: real, rising: bool): (r: Option<nat>)
    ensures r.Some? ==> r.value < |seg| && Crosses(seg[r.value], threshold, rising)
    ensures r.Some? ==> forall j :: 0 <= j < r.value ==> !Crosses(seg[j], threshold, rising)
    ensures r.None? <==> forall j :: 0 <= j < |seg| ==> !Crosses(seg[j], threshold, rising)
  {
    FirstWhere(seg, s => Crosses(s, threshold, rising))
  }

  /** A threshold nearer the start is crossed no later than one further along the step. */
  lemma CrossingsInOrder(seg: seq<Sample>, near: real, far: real, rising: bool)
    requires if rising then near <= far else far <= near
    ensures FindCrossing(seg, far, rising).Some? ==>
      FindCrossing(seg, near, rising).Some? &&
      FindCrossing(seg, near, rising).value <= FindCrossing(seg, far, rising).value
  {
    var f := FindCrossing(seg, far, rising);
    if f.Some? {
      assert Crosses(seg[f.value], near, rising);
    }
  }

  lemma SecondsMonotone(a: int, b: int)
    ensures Seconds(a) < Seconds(b) <==> a < b
  {
  }

  /** Time from the edge to the first reading that has moved 2% of the step; 0 when none has. */
  function DeadTime(fbk: seq<Sample>, startVal: real, amp: real): (r: real)
    requires |fbk| > 0
    ensures r >= 0.0
  {
    match FindCrossing(fbk, startVal + DeadFraction * amp, amp > 0.0)
    case None => 0.0
    case Some(k) => MaxReal(0.0, Seconds(fbk[k].time - fbk[0].time))
  }

  /**
   * With time running forward, no reading earlier than the dead time has
   * moved 2% of the step, and the dead time is exactly the time of the first
   * reading that has; a positive dead time is always that of such a reading.
   */
  lemma DeadTimeMeaning(fbk: seq<Sample>, startVal: real, amp: real)
    requires |fbk| > 0
    ensures TimesNonDecreasing(fbk) ==>
      forall j :: 0 <= j < |fbk| && Seconds(fbk[j].time - fbk[0].time) < DeadTime(fbk, startVal, amp) ==>
        !Crosses(fbk[j], startVal + DeadFraction * amp, amp > 0.0)
    ensures DeadTime(fbk, startVal, amp) > 0.0 ==>
      exists k :: 0 <= k < |fbk| && Crosses(fbk[k], startVal + DeadFraction * amp, amp > 0.0) &&
        DeadTime(fbk, startVal, amp) == Seconds(fbk[k].time - fbk[0].time)
    ensures TimesNonDecreasing(fbk) && FindCrossing(fbk, startVal + DeadFraction * amp, amp > 0.0).Some? ==>
      DeadTime(fbk, startVal, amp) ==
        Seconds(fbk[FindCrossing(fbk, startVal + DeadFraction * amp, amp > 0.0).value].time - fbk[0].time)
  {
    var c := FindCrossing(fbk, startVal + DeadFraction * amp, amp > 0.0);
    if c.Some? && TimesNonDecreasing(fbk) {
      var k := c.value;
      forall j | 0 <= j < |fbk| && Seconds(fbk[j].time - fbk[0].time) < DeadTime(fbk, startVal, amp)
        ensures !Crosses(fbk[j], startVal + DeadFraction * amp, amp > 0.0)
      {
        SecondsMonotone(fbk[j].time - fbk[0].time, fbk[k].time - fbk[0].time);
      }
    }
  }

  /** Time between the first 10% crossing and the first 90% crossing; 0 when either is missing. */
  function RiseTime(fbk: seq<Sample>, startVal: real, amp: real): (r: real)
    ensures r >= 0.0
  {
    var lo := FindCrossing(fbk, startVal + RiseLowFraction * amp, amp > 0.0);
    var hi := FindCrossing(fbk, startVal + RiseHighFraction * amp, amp > 0.0);
    if lo.Some? && hi.Some? then MaxReal(0.0, Seconds(fbk[hi.value].time - fbk[lo.value].time)) else 0.0
  }

  /**
   * Without a 90% crossing the rise time is 0; with one, and time running
   * forward, it is exactly the time from the first 10% crossing (which then
   * exists and comes no later) to the first 90% crossing.
   */
  lemma RiseTimeMeaning(fbk: seq<Sample>, startVal: real, amp: real)
    ensures FindCrossing(fbk, startVal + RiseHighFraction * amp, amp > 0.0).None? ==> RiseTime(fbk, startVal, amp) == 0.0
    ensures TimesNonDecreasing(fbk) && FindCrossing(fbk, startVal + RiseHighFraction * amp, amp > 0.0).Some? ==>
      RiseTime(fbk, startVal, amp) ==
        Seconds(fbk[FindCrossing(fbk, startVal + RiseHighFraction * amp, amp > 0.0).value].time
                - fbk[FindCrossing(fbk, startVal + RiseLowFraction * amp, amp > 0.0).value].time)
  {
    CrossingsInOrder(fbk, startVal + RiseLowFraction * amp, startVal + RiseHighFraction * amp, amp > 0.0);
  }

  /** The dead-time reading comes no later than the 10% reading. */
  lemma DeadTimeBeforeRise(fbk: seq<Sample>, startVal: real, amp: real)
    ensures FindCrossing(fbk, startVal + RiseLowFraction * amp, amp > 0.0).Some? ==>
      FindCrossing(fbk, startVal + DeadFraction * amp, amp > 0.0).Some? &&
      FindCrossing(fbk, startVal + DeadFraction * amp, amp > 0.0).value
        <= FindCrossing(fbk, startVal + RiseLowFraction * amp, amp > 0.0).value
  {
    CrossingsInOrder(fbk, startVal + DeadFraction * amp, startVal + RiseLowFraction * amp, amp > 0.0);
  }

  predicate OutsideBand(s: Sample, finalVal: real, band: real)
  {
    Abs(s.actualDeg - finalVal) > band
  }

  /** Time from the edge to the last reading outside 5% of the step around the final value; 0 when none is. */
  function SettlingTime(fbk: seq<Sample>, finalVal: real, amp: real): (r: real)
    requires |fbk| > 0
    ensures r >= 0.0
  {
    match LastWhere(fbk, s => OutsideBand(s, finalVal, SettleFraction * Abs(amp)))
    case None => 0.0
    case Some(k) => MaxReal(0.0, Seconds(fbk[k].time - fbk[0].time))
  }

  /**
   * With time running forward, every reading later than the settling time is
   * inside the band; a positive settling time is the time of a reading outside
   * it; when every reading is inside it, the settling time is 0.
   */
  lemma SettlingTimeMeaning(fbk: seq<Sample>, finalVal: real, amp: real)
    requires |fbk| > 0
    ensures TimesNonDecreasing(fbk) ==>
      forall j :: 0 <= j < |fbk| && Seconds(fbk[j].time - fbk[0].time) > SettlingTime(fbk, finalVal, amp) ==>
        !OutsideBand(fbk[j], finalVal, SettleFraction * Abs(amp))
    ensures (forall j :: 0 <= j < |fbk| ==> !OutsideBand(fbk[j], finalVal, SettleFraction * Abs(amp))) ==>
      SettlingTime(fbk, finalVal, amp) == 0.0
    ensures SettlingTime(fbk, finalVal, amp) > 0.0 ==>
      exists k :: 0 <= k < |fbk| && OutsideBand(fbk[k], finalVal, SettleFraction * Abs(amp)) &&
        SettlingTime(fbk, finalVal, amp) == Seconds(fbk[k].time - fbk[0].time)
  {
    var last := LastWhere(fbk, s => OutsideBand(s, finalVal, SettleFraction * Abs(amp)));
    if last.Some? && TimesNonDecreasing(fbk) {
      var k := last.value;
      forall j | 0 <= j < |fbk| && Seconds(fbk[j].time - fbk[0].time) > SettlingTime(fbk, finalVal, amp)
        ensures !OutsideBand(fbk[j], finalVal, SettleFraction * Abs(amp))
      {
        SecondsMonotone(fbk[k].time - fbk[0].time, fbk[j].time - fbk[0].time);
      }
    }
  }

  /** The extreme reading in the step's direction: the maximum for a rising step, the minimum otherwise. */
  function PeakReading(fbk: seq<Sample>, rising: bool): (p: real)
    requires |fbk| > 0
    ensures rising ==> forall j :: 0 <= j < |fbk| ==> fbk[j].actualDeg <= p
    ensures !rising ==> forall j :: 0 <= j < |fbk| ==> p <= fbk[j].actualDeg
    ensures exists j :: 0 <= j < |fbk| && fbk[j].actualDeg == p
  {
    var acts := Actuals(fbk);
    acts[if rising then ArgMaxIn(acts, 0, |acts|) else ArgMinIn(acts, 0, |acts|)]
  }

  /** Overshoot in percent of the step: the peak's distance from the final value over the amplitude. */
  function Overshoot(fbk: seq<Sample>, finalVal: real, amp: real): (os: real)
    requires |fbk| > 0 && amp != 0.0
    ensures os >= 0.0
  {
    Abs(PeakReading(fbk, amp > 0.0) - finalVal) / Abs(amp) * 100.0
  }

  /**
   * No reading passes the final value, in the step's direction, by more than
   * overshoot% of the step amplitude.
   */
  lemma OvershootBound(fbk: seq<Sample>, finalVal: real, amp: real)
    requires |fbk| > 0 && amp != 0.0
    ensures forall j :: 0 <= j < |fbk| ==>
      (if amp > 0.0 then fbk[j].actualDeg - finalVal else finalVal - fbk[j].actualDeg)
        <= Overshoot(fbk, finalVal, amp) * Abs(amp) / 100.0
  {
    var excursion := Abs(PeakReading(fbk, amp > 0.0) - finalVal);
    assert Overshoot(fbk, finalVal, amp) * Abs(amp) / 100.0 == excursion;
  }

  function Before(idx: nat): (b: nat)
    ensures b <= idx && (idx >= BeforeOffset ==> b == idx - BeforeOffset)
  {
    if idx >= BeforeOffset then idx - BeforeOffset else 0
  }

  /** The value the readings settled to: the mean of the window's last 100 actual positions. */
  function FinalValue(data: seq<Sample>, idx: nat, winLen: nat): real
    requires FinalSpan <= winLen && idx + winLen <= |data|
  {
    Average(Actuals(data[idx + winLen - FinalSpan .. idx + winLen]))
  }

  /** The value before the step: the mean of 20 actual positions from max(0, idx - 20). */
  function StartValue(data: seq<Sample>, idx: nat): real
    requires idx + FinalSpan <= |data|
  {
    Average(Actuals(data[Before(idx) .. Before(idx) + BeforeOffset]))
  }

  /** The metrics of one step whose window [idx, idx + winLen) is long enough. */
  function StepMetrics(data: seq<Sample>, idx: nat, winLen: nat, cmdBefore: real, cmdAfter: real, isSens: bool): (s: StepResult)
    requires MinWindow <= winLen && idx + winLen <= |data| && cmdAfter != cmdBefore
    ensures s.from == cmdBefore && s.to == cmdAfter && s.isSensitivity == isSens
    ensures s.actualValue == FinalValue(data, idx, winLen)
    ensures InRangeOf(Actuals(data[idx + winLen - FinalSpan .. idx + winLen]), s.actualValue)
    ensures s.sse == s.to - s.actualValue
    ensures s.deadTime >= 0.0 && s.riseTime >= 0.0 && s.settlingTime >= 0.0 && s.overshoot >= 0.0
  {
    var amp := cmdAfter - cmdBefore;
    var fbk := data[idx .. idx + winLen];
    var startVal := StartValue(data, idx);
    var finalVal := FinalValue(data, idx, winLen);
    StepResult(
      cmdBefore, cmdAfter,
      DeadTime(fbk, startVal, amp),
      RiseTime(fbk, startVal, amp),
      SettlingTime(fbk, finalVal, amp),
      Overshoot(fbk, finalVal, amp),
      cmdAfter - finalVal,
      isSens, finalVal)
  }

  /** The commanded values after the first 50 samples of the window. */
  function CommandSegment(data: seq<Sample>, idx: nat, winLen: nat): (c: seq<real>)
    requires MinWindow <= winLen && idx + winLen <= |data|
    ensures |c| == winLen - SettleSkip
    ensures forall j :: 0 <= j < |c| ==> c[j] == data[idx + SettleSkip + j].setPointDeg
  {
    SetPoints(data[idx + SettleSkip .. idx + winLen])
  }

  /** The body of the per-edge loop, ending in a skip or in a classified step. */
  function AnalyzeEdge(data: seq<Sample>, idx: nat, limit: nat): EdgeOutcome
    requires idx < limit <= |data|
  {
    var winLen := Min(MaxWindow, limit - idx);
    if winLen < MinWindow then ShortWindow
    else
      var cmd := CommandSegment(data, idx, winLen);
      if Variance(cmd) > MaxCommandVariance then UnstableCommand
      else ClassifyStep(data, idx, winLen, data[Before(idx)].setPointDeg, Mode(cmd))
  }

  /** A settled window's step from cmdBefore to cmdAfter: skipped near zero, else filed by amplitude. */
  function ClassifyStep(data: seq<Sample>, idx: nat, winLen: nat, cmdBefore: real, cmdAfter: real): EdgeOutcome
    requires MinWindow <= winLen && idx + winLen <= |data|
  {
    var amp := cmdAfter - cmdBefore;
    if Abs(cmdAfter) < MinTarget then NearZeroTarget
    else if Abs(amp) >= PrimaryAmplitude then Primary(StepMetrics(data, idx, winLen, cmdBefore, cmdAfter, false))
    else if Abs(amp) > SensitivityAmplitude then Sensitivity(StepMetrics(data, idx, winLen, cmdBefore, cmdAfter, true))
    else OutOfBand
  }

  /**
   * A window shorter than 100 samples is skipped, so is one whose command
   * varies (standard deviation above 0.05) and one whose settled command (the
   * mode) is within 0.02 of zero; otherwise the step from the command 20
   * samples before the edge to the mode is a main step from 0.9 degrees up, a
   * sensitivity step above 0.04, and out of band below.
   */
  lemma AnalyzeEdgeMeaning(data: seq<Sample>, idx: nat, limit: nat)
    requires idx < limit <= |data|
    ensures AnalyzeEdgeSpec(data, idx, limit, AnalyzeEdge(data, idx, limit))
  {
  }

  /** What AnalyzeEdgeMeaning states about the outcome o of the edge at idx with window limit. */
  predicate AnalyzeEdgeSpec(data: seq<Sample>, idx: nat, limit: nat, o: EdgeOutcome)
    requires idx < limit <= |data|
  {
    var winLen := Min(MaxWindow, limit - idx);
    && (o.ShortWindow? <==> winLen < MinWindow)
    && (o.UnstableCommand? <==> winLen >= MinWindow && Variance(CommandSegment(data, idx, winLen)) > MaxCommandVariance)
    && (!o.ShortWindow? && !o.UnstableCommand? ==>
          var cmdAfter := Mode(CommandSegment(data, idx, winLen));
          var cmdBefore := data[Before(idx)].setPointDeg;
          && winLen >= MinWindow
          && Variance(CommandSegment(data, idx, winLen)) <= MaxCommandVariance
          && (o.NearZeroTarget? <==> Abs(cmdAfter) < MinTarget)
          && (o.Primary? <==> Abs(cmdAfter) >= MinTarget && Abs(cmdAfter - cmdBefore) >= PrimaryAmplitude)
          && (o.Sensitivity? <==>
                Abs(cmdAfter) >= MinTarget && SensitivityAmplitude < Abs(cmdAfter - cmdBefore) < PrimaryAmplitude)
          && (o.Primary? || o.Sensitivity? ==>
                o.step == StepMetrics(data, idx, winLen, cmdBefore, cmdAfter, o.Sensitivity?)))
  }

  /** The outcome of every detected edge, in order. */
  function EdgeOutcomes(data: seq<Sample>): (os: seq<EdgeOutcome>)
    ensures |os| == |StepEdges(data)|
  {
    var edges := StepEdges(data);
    seq(|edges|, k requires 0 <= k < |edges| => AnalyzeEdge(data, edges[k], WindowLimit(edges, edges[k], |data|)))
  }

  /** The main steps, in edge order. */
  function PrimarySteps(os: seq<EdgeOutcome>): (r: seq<StepResult>)
    ensures |r| <= |os|
    decreases |os|
  {
    if os == [] then []
    else PrimarySteps(os[..|os| - 1]) + if os[|os| - 1].Primary? then [os[|os| - 1].step] else []
  }

  /** The sensitivity steps, in edge order. */
  function SensitivitySteps(os: seq<EdgeOutcome>): (r: seq<StepResult>)
    ensures |r| <= |os|
    decreases |os|
  {
    if os == [] then []
    else SensitivitySteps(os[..|os| - 1]) + if os[|os| - 1].Sensitivity? then [os[|os| - 1].step] else []
  }

  /** The main steps are exactly the steps of the Primary outcomes. */
  lemma {:induction false} PrimaryStepsMembers(os: seq<EdgeOutcome>)
    ensures forall s :: s in PrimarySteps(os) <==> Primary(s) in os
    decreases |os|
  {
    if os != [] {
      var init := os[..|os| - 1];
      PrimaryStepsMembers(init);
      assert os == init + [os[|os| - 1]];
    }
  }

  /** The sensitivity steps are exactly the steps of the Sensitivity outcomes. */
  lemma {:induction false} SensitivityStepsMembers(os: seq<EdgeOutcome>)
    ensures forall s :: s in SensitivitySteps(os) <==> Sensitivity(s) in os
    decreases |os|
  {
    if os != [] {
      var init := os[..|os| - 1];
      SensitivityStepsMembers(init);
      assert os == init + [os[|os| - 1]];
    }
  }

  /** The amplitude band a measured outcome was filed under; a sensitivity step's error is target minus final value. */
  predicate Classified(o: EdgeOutcome)
  {
    && (o.Primary? ==> Abs(o.step.to - o.step.from) >= PrimaryAmplitude && !o.step.isSensitivity)
    && (o.Sensitivity? ==>
          && SensitivityAmplitude < Abs(o.step.to - o.step.from) < PrimaryAmplitude && o.step.isSensitivity
          && o.step.sse == o.step.to - o.step.actualValue)
  }

  /** Every outcome of AnalyzeEdge is filed in the band its amplitude belongs to. */
  lemma AnalyzeEdgeClassified(data: seq<Sample>, idx: nat, limit: nat)
    requires idx < limit <= |data|
    ensures Classified(AnalyzeEdge(data, idx, limit))
  {
    var winLen := Min(MaxWindow, limit - idx);
    if winLen >= MinWindow {
      var cmd := CommandSegment(data, idx, winLen);
      ClassifyStepClassified(data, idx, winLen, data[Before(idx)].setPointDeg, Mode(cmd));
    }
  }

  lemma ClassifyStepClassified(data: seq<Sample>, idx: nat, winLen: nat, cmdBefore: real, cmdAfter: real)
    requires MinWindow <= winLen && idx + winLen <= |data|
    ensures Classified(ClassifyStep(data, idx, winLen, cmdBefore, cmdAfter))
  {
    var amp := cmdAfter - cmdBefore;
    if Abs(cmdAfter) >= MinTarget && SensitivityAmplitude < Abs(amp) < PrimaryAmplitude {
      var step := StepMetrics(data, idx, winLen, cmdBefore, cmdAfter, true);
      assert ClassifyStep(data, idx, winLen, cmdBefore, cmdAfter) == Sensitivity(step);
    }
  }

  lemma OutcomeClassified(data: seq<Sample>, k: nat)
    requires k < |EdgeOutcomes(data)|
    ensures Classified(EdgeOutcomes(data)[k])
  {
    var edges := StepEdges(data);
    var limit := WindowLimit(edges, edges[k], |data|);
    AnalyzeEdgeClassified(data, edges[k], limit);
    assert EdgeOutcomes(data)[k] == AnalyzeEdge(data, edges[k], limit);
  }

  lemma FiledStepsClassified(os: seq<EdgeOutcome>)
    requires forall k :: 0 <= k < |os| ==> Classified(os[k])
    ensures forall s :: s in PrimarySteps(os) ==> Abs(s.to - s.from) >= PrimaryAmplitude && !s.isSensitivity
    ensures forall s :: s in SensitivitySteps(os) ==>
      SensitivityAmplitude < Abs(s.to - s.from) < PrimaryAmplitude && s.isSensitivity && s.sse == s.to - s.actualValue
  {
    forall s | s in PrimarySteps(os)
      ensures Abs(s.to - s.from) >= PrimaryAmplitude && !s.isSensitivity
    {
      PrimaryStepsMembers(os);
      var k :| 0 <= k < |os| && os[k] == Primary(s);
      assert Classified(os[k]);
    }
    forall s | s in SensitivitySteps(os)
      ensures SensitivityAmplitude < Abs(s.to - s.from) < PrimaryAmplitude && s.isSensitivity && s.sse == s.to - s.actualValue
    {
      SensitivityStepsMembers(os);
      var k :| 0 <= k < |os| && os[k] == Sensitivity(s);
      assert Classified(os[k]);
    }
  }

  /** Every reported main step moved the command by at least 0.9 degrees; every sensitivity step by 0.04 to 0.9. */
  lemma ReportedStepsClassified(data: seq<Sample>)
    ensures forall s :: s in PrimarySteps(EdgeOutcomes(data)) ==>
      Abs(s.to - s.from) >= PrimaryAmplitude && !s.isSensitivity
    ensures forall s :: s in SensitivitySteps(EdgeOutcomes(data)) ==>
      SensitivityAmplitude < Abs(s.to - s.from) < PrimaryAmplitude && s.isSensitivity && s.sse == s.to - s.actualValue
  {
    var os := EdgeOutcomes(data);
    forall k | 0 <= k < |os|
      ensures Classified(os[k])
    {
      OutcomeClassified(data, k);
    }
    FiledStepsClassified(os);
  }

  /** The verdict printed for a sensitivity step: PASS when its steady-state error is below 0.05, CHECK otherwise. */
  predicate Passes(s: StepResult)
  {
    Abs(s.sse) < SensitivityTolerance
  }

  /** Filing the outcome of edge k extends exactly one of the two lists. */
  lemma FilingStep(os: seq<EdgeOutcome>, k: nat)
    requires k < |os|
    ensures PrimarySteps(os[..k + 1]) == PrimarySteps(os[..k]) + if os[k].Primary? then [os[k].step] else []
    ensures SensitivitySteps(os[..k + 1]) == SensitivitySteps(os[..k]) + if os[k].Sensitivity? then [os[k].step] else []
  {
    assert os[..k + 1][..k] == os[..k];
  }

  /** The step-response loop: detect the edges, analyse each, and file the measured steps. */
  method AnalyzeStepResponse(data: seq<Sample>) returns (steps: seq<StepResult>, sensSteps: seq<StepResult>)
    ensures steps == PrimarySteps(EdgeOutcomes(data))
    ensures sensSteps == SensitivitySteps(EdgeOutcomes(data))
  {
    var edges := DetectStepEdges(data);
    ghost var os := EdgeOutcomes(data);
    assert forall j :: 0 <= j < |edges| ==> edges[j] < |data|;
    steps, sensSteps := [], [];
    for k := 0 to |edges|
      invariant steps == PrimarySteps(os[..k])
      invariant sensSteps == SensitivitySteps(os[..k])
    {
      var idx := edges[k];
      var outcome := AnalyzeEdge(data, idx, WindowLimit(edges, idx, |data|));
      FilingStep(os, k);
      steps, sensSteps := FileOutcome(steps, sensSteps, outcome);
    }
    assert os[..|edges|] == os;
  }

  /** A main step goes to the main list, a sensitivity step to the sensitivity list; a skipped edge to neither. */
  method FileOutcome(steps: seq<StepResult>, sensSteps: seq<StepResult>, outcome: EdgeOutcome)
    returns (steps': seq<StepResult>, sensSteps': seq<StepResult>)
    ensures steps' == steps + if outcome.Primary? then [outcome.step] else []
    ensures sensSteps' == sensSteps + if outcome.Sensitivity? then [outcome.step] else []
  {
    steps', sensSteps' := steps, sensSteps;
    if outcome.Primary? {
      steps' := steps + [outcome.step];
    } else if outcome.Sensitivity? {
      sensSteps' := sensSteps + [outcome.step];
    }
  }
}
