/**
 * Backlash from the triangular command wave near the end of a run
 * (NoLoad.AnalyzeBacklash): within the last 20000 samples, the first highest
 * and the first lowest command split the run into a ramp between them and an
 * equally long ramp (cut at the end of the data) after the later one; in each
 * ramp the first sample whose command is closest to zero is the crossing, and
 * the backlash is the difference between the command-minus-actual offsets at
 * the two crossings.
 */
module Backlash {
  import opened Stats
  import opened Samples

  const TriangleSpan: nat := 20000

  datatype BacklashOutcome =
    | TriangleNotDetected
      /** Only the code as written: the first ramp is empty and taking its first element throws. */
    | RampEmpty
    | Measured(peak: nat, valley: nat, zeroNeg: nat, zeroPos: nat, backlashDeg: real)

  /** Start of the last min(n, 20000) samples. */
  function TailStart(n: nat): (t: nat)
    ensures t <= n && n - t == Min(n, TriangleSpan)
  {
    if n > TriangleSpan then n - TriangleSpan else 0
  }

  /** Index of the highest command in the tail, found by OrderByDescending(SetPointDeg).First(). */
  function CommandPeak(data: seq<Sample>): (p: nat)
    requires |data| > 0
    ensures TailStart(|data|) <= p < |data|
  {
    ArgMaxIn(SetPoints(data), TailStart(|data|), |data|)
  }

  /** Index of the lowest command in the tail, found by OrderBy(SetPointDeg).First(). */
  function CommandValley(data: seq<Sample>): (v: nat)
    requires |data| > 0
    ensures TailStart(|data|) <= v < |data|
  {
    ArgMinIn(SetPoints(data), TailStart(|data|), |data|)
  }

  /**
   * The peak is a highest command of the tail and, the ordering being stable,
   * the first of them; the valley likewise is the first lowest command.
   */
  lemma CommandExtremes(data: seq<Sample>)
    requires |data| > 0
    ensures var t, p, v := TailStart(|data|), CommandPeak(data), CommandValley(data);
      && (forall j :: t <= j < |data| ==> data[v].setPointDeg <= data[j].setPointDeg <= data[p].setPointDeg)
      && (forall j :: t <= j < p ==> data[j].setPointDeg < data[p].setPointDeg)
      && (forall j :: t <= j < v ==> data[v].setPointDeg < data[j].setPointDeg)
  {
  }

  /** The peak and the valley coincide exactly when the command is constant over the tail. */
  lemma PeakIsValleyIffFlat(data: seq<Sample>)
    requires |data| > 0
    ensures CommandPeak(data) == CommandValley(data) <==> FlatTail(data)
  {
    ArgMaxIsArgMinIffConstant(SetPoints(data), TailStart(|data|), |data|);
  }

  /** The sample of [lo, hi) whose command is closest to zero, found by OrderBy(|SetPointDeg|).First(). */
  function ZeroCrossing(data: seq<Sample>, lo: nat, hi: nat): (z: nat)
    requires lo < hi <= |data|
    ensures lo <= z < hi
  {
    ArgMinIn(AbsSetPoints(data), lo, hi)
  }

  /** The crossing is the first of the samples whose command is closest to zero. */
  lemma ZeroCrossingIsClosest(data: seq<Sample>, lo: nat, hi: nat)
    requires lo < hi <= |data|
    ensures var z := ZeroCrossing(data, lo, hi);
      && (forall j :: lo <= j < hi ==> Abs(data[z].setPointDeg) <= Abs(data[j].setPointDeg))
      && (forall j :: lo <= j < z ==> Abs(data[z].setPointDeg) < Abs(data[j].setPointDeg))
  {
  }

  /** Command minus actual position. */
  function Offset(s: Sample): real { s.setPointDeg - s.actualDeg }

  /** What a measurement promises: the extrema, the two ramps, their crossings and the backlash. */
  predicate IsMeasurement(data: seq<Sample>, peak: nat, valley: nat, zeroNeg: nat, zeroPos: nat, backlashDeg: real)
  {
    && 0 < |data|
    && peak == CommandPeak(data) && valley == CommandValley(data) && peak != valley
    && RampsAround(data, peak, valley, zeroNeg, zeroPos, backlashDeg)
  }

  /**
   * Around two distinct turning points: the first ramp runs from the earlier to
   * the later one, the second ramp from the later one for as long again (cut at
   * the end of the data); each holds its crossing, and the backlash is the
   * distance between the offsets at the two crossings.
   */
  predicate RampsAround(data: seq<Sample>, peak: nat, valley: nat, zeroNeg: nat, zeroPos: nat, backlashDeg: real)
  {
    var n := |data|;
    var e, l := Min(peak, valley), Max(peak, valley);
    && peak < n && valley < n && peak != valley
    && e <= zeroNeg < l && l <= zeroPos < Min(n, l + (l - e))
    && zeroNeg == ZeroCrossing(data, e, l)
    && zeroPos == ZeroCrossing(data, l, Min(n, l + (l - e)))
    && Min(n, l + (l - e)) - l <= l - e
    && backlashDeg == Abs(Offset(data[zeroPos]) - Offset(data[zeroNeg]))
    && backlashDeg >= 0.0
  }

  predicate FlatTail(data: seq<Sample>)
    requires |data| > 0
  {
    forall j :: TailStart(|data|) <= j < |data| ==> data[j].setPointDeg == data[TailStart(|data|)].setPointDeg
  }

  /** AnalyzeBacklash as written, including the exception on an empty first ramp. */
  function BacklashAsWritten(data: seq<Sample>): (o: BacklashOutcome)
    ensures o.TriangleNotDetected? <==> |data| == 0
    ensures o.RampEmpty? <==> |data| > 0 && FlatTail(data)
    ensures o.Measured? ==> IsMeasurement(data, o.peak, o.valley, o.zeroNeg, o.zeroPos, o.backlashDeg)
  {
    if |data| == 0 then TriangleNotDetected
    else
      var p, v := CommandPeak(data), CommandValley(data);
      PeakIsValleyIffFlat(data);
      if p == v then RampEmpty
      else Measure(data, p, v)
  }

  /** The ramps and crossings around a distinct peak and valley. */
  function Measure(data: seq<Sample>, p: nat, v: nat): (o: BacklashOutcome)
    requires p < |data| && v < |data| && p != v
    ensures o.Measured? && o.peak == p && o.valley == v
    ensures o.Measured? && RampsAround(data, p, v, o.zeroNeg, o.zeroPos, o.backlashDeg)
  {
    var n := |data|;
    var e, l := Min(p, v), Max(p, v);
    var posEnd := Min(n, l + (l - e));
    var zn := ZeroCrossing(data, e, l);
    var zp := ZeroCrossing(data, l, posEnd);
    Measured(p, v, zn, zp, Abs(Offset(data[zp]) - Offset(data[zn])))
  }

  /**
   * The analyzer with the empty-ramp case reported as "triangle wave not
   * detected", which is what the analyzer's own not-detected branch is for.
   */
  function AnalyzeBacklash(data: seq<Sample>): (o: BacklashOutcome)
    ensures !o.RampEmpty?
    ensures o.TriangleNotDetected? <==> |data| == 0 || FlatTail(data)
    ensures o.Measured? ==> IsMeasurement(data, o.peak, o.valley, o.zeroNeg, o.zeroPos, o.backlashDeg)
    ensures !BacklashAsWritten(data).RampEmpty? ==> o == BacklashAsWritten(data)
  {
    match BacklashAsWritten(data)
    case RampEmpty => TriangleNotDetected
    case other => other
  }

  /** A run that ends on a constant command, e.g. 100 samples at zero, makes the code as written throw. */
  lemma ConstantCommandThrowsAsWritten()
    ensures var data := seq(100, i => Sample(i, 0.0, 0.0, 0.0));
      BacklashAsWritten(data) == RampEmpty && AnalyzeBacklash(data) == TriangleNotDetected
  {
    var data := seq(100, i => Sample(i, 0.0, 0.0, 0.0));
    assert FlatTail(data);
  }
}
