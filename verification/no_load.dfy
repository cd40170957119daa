/**
 * The no-load analysis entry point (NoLoad.Analyze): reject a missing or
 * short recording, otherwise run the frequency-response, backlash and
 * step-response analyses in turn and collect their results into one report.
 */
module NoLoad {
  import opened Options
  import opened Stats
  import opened Samples
  import opened FrequencyResponse
  import opened Backlash
  import opened StepResponse

  const MinSamples: nat := 100

  /** The content of the report, without its text formatting. */
  datatype Report = Report(
    sampleCount: nat,
    frequency: FreqResult,
    backlash: BacklashOutcome,
    steps: seq<StepResult>,
    sensitivity: seq<StepResult>,
    verdicts: seq<bool>)

  datatype AnalysisResult = InsufficientData | Completed(report: Report)

  /**
   * The report on a long enough recording, and what the three analyses
   * guarantee about it.
   */
  function ReportOf(data: seq<Sample>, freqAt: int -> real): (rep: Report)
    requires |data| >= MinSamples
    ensures rep.sampleCount == |data|
    ensures rep.frequency.FreqAvailable? ==>
      0.0 <= rep.frequency.resonanceHz < rep.frequency.bandwidthHz < SweepTop
    ensures !rep.backlash.RampEmpty?
    ensures rep.backlash.Measured? ==> rep.backlash.backlashDeg >= 0.0
    ensures forall s :: s in rep.steps ==> Abs(s.to - s.from) >= PrimaryAmplitude && !s.isSensitivity
    ensures forall s :: s in rep.sensitivity ==>
      SensitivityAmplitude < Abs(s.to - s.from) < PrimaryAmplitude && s.isSensitivity
    ensures |rep.verdicts| == |rep.sensitivity|
    ensures forall i :: 0 <= i < |rep.sensitivity| ==>
      (rep.verdicts[i] <==> Abs(rep.sensitivity[i].to - rep.sensitivity[i].actualValue) < SensitivityTolerance)
  {
    ReportedStepsClassified(data);
    var sensitivity := SensitivitySteps(EdgeOutcomes(data));
    VerdictsMeaning(sensitivity);
    Report(
      |data|,
      FrequencyResponseOf(data, freqAt),
      AnalyzeBacklash(data),
      PrimarySteps(EdgeOutcomes(data)),
      sensitivity,
      Verdicts(sensitivity))
  }

  /**
   * The report's backlash is the code's own result except on a constant
   * command tail, where the code throws and the report says "not detected".
   */
  lemma ReportBacklash(data: seq<Sample>, freqAt: int -> real)
    requires |data| >= MinSamples
    ensures !FlatTail(data) ==> ReportOf(data, freqAt).backlash == BacklashAsWritten(data)
    ensures FlatTail(data) ==>
      ReportOf(data, freqAt).backlash == TriangleNotDetected && BacklashAsWritten(data) == RampEmpty
  {
  }

  /** The PASS (true) or CHECK (false) verdict of each sensitivity step, in order. */
  function Verdicts(sensitivity: seq<StepResult>): (v: seq<bool>)
    ensures |v| == |sensitivity|
    ensures forall i :: 0 <= i < |sensitivity| ==> (v[i] <==> Passes(sensitivity[i]))
  {
    seq(|sensitivity|, i requires 0 <= i < |sensitivity| => Passes(sensitivity[i]))
  }

  /** A sensitivity step passes exactly when its final value is within 0.05 of its target. */
  lemma VerdictsMeaning(sensitivity: seq<StepResult>)
    requires forall s :: s in sensitivity ==> s.sse == s.to - s.actualValue
    ensures forall i :: 0 <= i < |sensitivity| ==>
      (Verdicts(sensitivity)[i] <==> Abs(sensitivity[i].to - sensitivity[i].actualValue) < SensitivityTolerance)
  {
    forall i | 0 <= i < |sensitivity|
      ensures Verdicts(sensitivity)[i] <==> Abs(sensitivity[i].to - sensitivity[i].actualValue) < SensitivityTolerance
    {
      assert sensitivity[i] in sensitivity;
    }
  }

  /** The loop printing a verdict for each sensitivity step. */
  method JudgeSensitivity(sensitivity: seq<StepResult>) returns (verdicts: seq<bool>)
    ensures verdicts == Verdicts(sensitivity)
  {
    verdicts := [];
    for i := 0 to |sensitivity|
      invariant verdicts == Verdicts(sensitivity)[..i]
    {
      verdicts := verdicts + [Abs(sensitivity[i].sse) < SensitivityTolerance];
    }
  }

  /** A missing recording (a null list) is None. */
  method Analyze(data: Option<seq<Sample>>, freqAt: int -> real) returns (r: AnalysisResult)
    ensures r.InsufficientData? <==> data.None? || |data.value| < MinSamples
    ensures r.Completed? ==> r.report == ReportOf(data.value, freqAt)
  {
    if data.None? || |data.value| < MinSamples {
      return InsufficientData;
    }
    var d := data.value;
    var frequency := AnalyzeFrequencyResponse(d, freqAt);
    var backlash := AnalyzeBacklash(d);
    var steps, sensitivity := AnalyzeStepResponse(d);
    var verdicts := JudgeSensitivity(sensitivity);
    r := Completed(Report(|d|, frequency, backlash, steps, sensitivity, verdicts));
  }
}
