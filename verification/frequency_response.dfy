/**
 * Frequency response from the logarithmic chirp at the start of a run
 * (NoLoad.AnalyzeFrequencyResponse): the chirp segment ends 500 samples before
 * the first command above 1.8 degrees; 1000-sample windows at a stride of 100
 * each give a gain and a sweep frequency; the resonance is the largest gain
 * between 2 and 15 Hz and the -3 dB bandwidth the first later window whose
 * gain falls below 0.707 of the first window's gain.
 *
 * Gains are kept squared (measured mean-square over commanded mean-square):
 * every comparison the analyzer makes on gains is between non-negative values,
 * so comparing squares selects exactly the same windows. The sweep frequency
 * of a window is the caller-supplied function `freqAt` of the time (in
 * milliseconds) of the window's centre sample.
 */
module FrequencyResponse {
  import opened Options
  import opened Stats
  import opened Samples

  const WindowSize: nat := 1000
  const Stride: nat := 100
  const ChirpMargin: nat := 500
  const MinChirpLength: nat := 2000
  /** The window is discarded unless the commanded RMS exceeds 0.05, i.e. its mean-square exceeds 0.0025. */
  const MinCommandMeanSquare: real := 0.05 * 0.05
  const SweepBottom: real := 0.5
  const SweepTop: real := 40.0
  /** The half-power factor 0.707 on gains, squared for the squared gains. */
  const HalfPowerSq: real := 0.707 * 0.707
  /** The bandwidth reported when no window (below the sweep top) falls under the half-power gain. */
  const FlatBandwidth: real := 36.85

  datatype GainWindow = GainWindow(start: nat, gainSq: real, freq: real)

  datatype FreqFailure = AmplitudeTooSmall | ChirpTooShort | NoValidWindows

  datatype FreqResult =
    | FreqNotAvailable(reason: FreqFailure)
    | FreqAvailable(resonanceHz: real, peakGainSq: real, bandwidthHz: real)

  predicate IsBigStep(s: Sample) { Abs(s.setPointDeg) > 1.8 }

  /** The largest command magnitude over all samples. */
  function MaxAbsSetPoint(data: seq<Sample>): (m: real)
    requires |data| > 0
    ensures forall i :: 0 <= i < |data| ==> Abs(data[i].setPointDeg) <= m
    ensures exists i :: 0 <= i < |data| && Abs(data[i].setPointDeg) == m
  {
    var a := AbsSetPoints(data);
    a[ArgMaxIn(a, 0, |a|)]
  }

  /**
   * End (exclusive) of the chirp segment: 500 samples before the first command
   * above 1.8 degrees, or the whole sequence when there is no such command or
   * that end would not be positive.
   */
  function ChirpEnd(data: seq<Sample>): (e: nat)
    requires |data| > 0
    ensures 0 < e <= |data|
    ensures e < |data| ==>
      && e + ChirpMargin < |data|
      && IsBigStep(data[e + ChirpMargin])
      && forall j :: 0 <= j < e + ChirpMargin ==> !IsBigStep(data[j])
    ensures e == |data| ==>
      forall j :: 0 <= j < |data| && IsBigStep(data[j]) ==> exists i :: 0 <= i <= j && i <= ChirpMargin && IsBigStep(data[i])
  {
    var endIdx := match FirstWhere(data, IsBigStep)
      case Some(k) => k - ChirpMargin
      case None => |data|;
    if endIdx <= 0 then |data| else endIdx
  }

  /** fbkRms / cmdRms, squared: measured mean-square over commanded mean-square. */
  function GainSq(window: seq<Sample>): (g: real)
    requires MeanSquare(SetPoints(window)) > 0.0
    ensures g >= 0.0
  {
    MeanSquare(Actuals(window)) / MeanSquare(SetPoints(window))
  }

  /** The gain window starting at i, if it is recorded (enough excitation, frequency inside the sweep). */
  function WindowAt(chirp: seq<Sample>, freqAt: int -> real, i: nat): Option<GainWindow>
    requires i + WindowSize <= |chirp|
  {
    var window := chirp[i..i + WindowSize];
    var cmdMs := MeanSquare(SetPoints(window));
    if cmdMs > MinCommandMeanSquare then
      var freq := freqAt(window[WindowSize / 2].time);
      if SweepBottom <= freq <= SweepTop then
        Some(GainWindow(i, GainSq(window), freq))
      else None
    else None
  }

  /**
   * A window is recorded exactly when its commanded RMS exceeds 0.05 and the
   * sweep frequency at its centre sample lies in [0.5, 40] Hz; it then carries
   * its start, a non-negative gain and that frequency.
   */
  lemma WindowAtMeaning(chirp: seq<Sample>, freqAt: int -> real, i: nat)
    requires i + WindowSize <= |chirp|
    ensures var w := WindowAt(chirp, freqAt, i);
      && (w.Some? <==>
        && MeanSquare(SetPoints(chirp[i..i + WindowSize])) > MinCommandMeanSquare
        && SweepBottom <= freqAt(chirp[i + WindowSize / 2].time) <= SweepTop)
      && (w.Some? ==> w.value.start == i && w.value.gainSq >= 0.0)
      && (w.Some? ==> w.value.freq == freqAt(chirp[i + WindowSize / 2].time))
  {
  }

  /** A recorded window lies inside the chirp segment, at a stride position, and is within the sweep. */
  predicate InsideSegment(chirp: seq<Sample>, w: GainWindow)
  {
    && w.start % Stride == 0
    && w.start + WindowSize < |chirp|
    && w.gainSq >= 0.0
    && SweepBottom <= w.freq <= SweepTop
  }

  /** The windows recorded from start i on, in order: starts i, i + 100, ... while the window ends before the segment's last sample. */
  function RecordedFrom(chirp: seq<Sample>, freqAt: int -> real, i: nat): seq<GainWindow>
    decreases |chirp| - i
  {
    if i + WindowSize < |chirp| then
      var here := match WindowAt(chirp, freqAt, i) case Some(w) => [w] case None => [];
      here + RecordedFrom(chirp, freqAt, i + Stride)
    else []
  }

  /** Recorded windows lie inside the segment, at stride positions from i on. */
  lemma {:induction false} RecordedFromInside(chirp: seq<Sample>, freqAt: int -> real, i: nat)
    requires i % Stride == 0
    ensures var ws := RecordedFrom(chirp, freqAt, i);
      forall k :: 0 <= k < |ws| ==> i <= ws[k].start && InsideSegment(chirp, ws[k])
    decreases |chirp| - i
  {
    if i + WindowSize < |chirp| {
      NextStrideAligned(i);
      RecordedFromInside(chirp, freqAt, i + Stride);
      WindowAtMeaning(chirp, freqAt, i);
      RecordedFromStep(chirp, freqAt, i);
    }
  }

  /** Recorded windows come in strictly increasing order of start. */
  lemma {:induction false} RecordedFromOrdered(chirp: seq<Sample>, freqAt: int -> real, i: nat)
    requires i % Stride == 0
    ensures var ws := RecordedFrom(chirp, freqAt, i);
      forall k, l :: 0 <= k < l < |ws| ==> ws[k].start < ws[l].start
    decreases |chirp| - i
  {
    if i + WindowSize < |chirp| {
      NextStrideAligned(i);
      RecordedFromOrdered(chirp, freqAt, i + Stride);
      RecordedFromInside(chirp, freqAt, i + Stride);
      WindowAtMeaning(chirp, freqAt, i);
      RecordedFromStep(chirp, freqAt, i);
      var ws, rest := RecordedFrom(chirp, freqAt, i), RecordedFrom(chirp, freqAt, i + Stride);
      if WindowAt(chirp, freqAt, i).Some? {
        assert forall k :: 1 <= k < |ws| ==> ws[k] == rest[k - 1];
      }
    }
  }

  lemma NextStrideAligned(i: nat)
    requires i % Stride == 0
    ensures (i + Stride) % Stride == 0
  {
  }

  lemma NextStride(i: nat, s: nat)
    requires i % Stride == 0 && s % Stride == 0 && i < s
    ensures i + Stride <= s
  {
    assert i == Stride * (i / Stride) && s == Stride * (s / Stride);
    assert i / Stride < s / Stride;
  }

  /** Every recorded window is the one computed at its start. */
  lemma {:induction false} RecordedFromSound(chirp: seq<Sample>, freqAt: int -> real, i: nat, k: nat)
    requires k < |RecordedFrom(chirp, freqAt, i)|
    ensures var w := RecordedFrom(chirp, freqAt, i)[k];
      w.start + WindowSize <= |chirp| && WindowAt(chirp, freqAt, w.start) == Some(w)
    decreases |chirp| - i
  {
    var back := RecordedFromCases(chirp, freqAt, i, k);
    if back >= 0 {
      RecordedFromSound(chirp, freqAt, i + Stride, back);
    } else {
      WindowAtMeaning(chirp, freqAt, i);
    }
  }

  /**
   * Position k of the windows recorded from i is either the window at i itself
   * (returned as -1) or the returned position of those recorded from the next stride.
   */
  lemma RecordedFromCases(chirp: seq<Sample>, freqAt: int -> real, i: nat, k: nat) returns (back: int)
    requires k < |RecordedFrom(chirp, freqAt, i)|
    ensures i + WindowSize < |chirp|
    ensures back == -1 ==> WindowAt(chirp, freqAt, i) == Some(RecordedFrom(chirp, freqAt, i)[k])
    ensures back != -1 ==>
      && 0 <= back < |RecordedFrom(chirp, freqAt, i + Stride)|
      && RecordedFrom(chirp, freqAt, i)[k] == RecordedFrom(chirp, freqAt, i + Stride)[back]
  {
    RecordedFromStep(chirp, freqAt, i);
    var ws, rest := RecordedFrom(chirp, freqAt, i), RecordedFrom(chirp, freqAt, i + Stride);
    if WindowAt(chirp, freqAt, i).Some? {
      if k == 0 {
        back := -1;
      } else {
        back := k - 1;
        assert ws[k] == rest[k - 1];
      }
    } else {
      back := k;
    }
  }

  lemma RecordedFromStep(chirp: seq<Sample>, freqAt: int -> real, i: nat)
    requires i + WindowSize < |chirp|
    ensures WindowAt(chirp, freqAt, i).Some? ==>
      RecordedFrom(chirp, freqAt, i) == [WindowAt(chirp, freqAt, i).value] + RecordedFrom(chirp, freqAt, i + Stride)
    ensures WindowAt(chirp, freqAt, i).None? ==>
      RecordedFrom(chirp, freqAt, i) == RecordedFrom(chirp, freqAt, i + Stride)
  {
  }

  /** No recordable window is skipped: every stride position whose window is recorded appears. */
  lemma {:induction false} RecordedFromComplete(chirp: seq<Sample>, freqAt: int -> real, i: nat, s: nat)
    requires i % Stride == 0 && i <= s && s % Stride == 0 && s + WindowSize < |chirp|
    requires WindowAt(chirp, freqAt, s).Some?
    ensures exists k :: 0 <= k < |RecordedFrom(chirp, freqAt, i)| && RecordedFrom(chirp, freqAt, i)[k].start == s
    decreases |chirp| - i
  {
    RecordedFromStep(chirp, freqAt, i);
    if s == i {
      WindowAtMeaning(chirp, freqAt, i);
      assert RecordedFrom(chirp, freqAt, i)[0].start == s;
    } else {
      NextStride(i, s);
      NextStrideAligned(i);
      RecordedFromComplete(chirp, freqAt, i + Stride, s);
      var k :| 0 <= k < |RecordedFrom(chirp, freqAt, i + Stride)| && RecordedFrom(chirp, freqAt, i + Stride)[k].start == s;
      RecordedFromSuffix(chirp, freqAt, i, k);
    }
  }

  /** The windows recorded from the next stride on are a suffix of those recorded from i. */
  lemma RecordedFromSuffix(chirp: seq<Sample>, freqAt: int -> real, i: nat, k: nat)
    requires i + WindowSize < |chirp|
    requires k < |RecordedFrom(chirp, freqAt, i + Stride)|
    ensures exists k' :: 0 <= k' < |RecordedFrom(chirp, freqAt, i)| && RecordedFrom(chirp, freqAt, i)[k'] == RecordedFrom(chirp, freqAt, i + Stride)[k]
  {
    RecordedFromStep(chirp, freqAt, i);
    var ws, rest := RecordedFrom(chirp, freqAt, i), RecordedFrom(chirp, freqAt, i + Stride);
    if WindowAt(chirp, freqAt, i).Some? {
      assert ws[k + 1] == rest[k];
    } else {
      assert ws[k] == rest[k];
    }
  }

  function Recorded(chirp: seq<Sample>, freqAt: int -> real): (ws: seq<GainWindow>)
  {
    RecordedFrom(chirp, freqAt, 0)
  }

  predicate InBand(w: GainWindow) { 2.0 < w.freq < 15.0 }

  function PeakGainOf(ws: seq<GainWindow>, p: Option<nat>): real
  {
    if p.Some? && p.value < |ws| then ws[p.value].gainSq else 0.0
  }

  function PeakFreqOf(ws: seq<GainWindow>, p: Option<nat>): real
  {
    if p.Some? && p.value < |ws| then ws[p.value].freq else 0.0
  }

  /**
   * The window that sets the resonance, following the running maximum of the
   * recording loop: a window between 2 and 15 Hz replaces the candidate only
   * with a strictly larger gain, starting from a gain of 0.
   */
  function PeakIndex(ws: seq<GainWindow>): (p: Option<nat>)
    ensures p.Some? ==> p.value < |ws| && InBand(ws[p.value]) && ws[p.value].gainSq > 0.0
    ensures p.Some? ==> forall j :: 0 <= j < |ws| && InBand(ws[j]) ==> ws[j].gainSq <= ws[p.value].gainSq
    ensures p.Some? ==> forall j :: 0 <= j < p.value && InBand(ws[j]) ==> ws[j].gainSq < ws[p.value].gainSq
    ensures p.None? <==> forall j :: 0 <= j < |ws| && InBand(ws[j]) ==> ws[j].gainSq <= 0.0
    decreases |ws|
  {
    if ws == [] then None
    else
      var prefix := ws[..|ws| - 1];
      var prev := PeakIndex(prefix);
      var w := ws[|ws| - 1];
      assert forall j :: 0 <= j < |prefix| ==> prefix[j] == ws[j];
      if InBand(w) && w.gainSq > PeakGainOf(prefix, prev) then Some(|ws| - 1) else prev
  }

  /** Recording one more window moves the resonance to it exactly when it is in band with a strictly larger gain. */
  lemma PeakStep(ws: seq<GainWindow>, w: GainWindow)
    ensures var p, q := PeakIndex(ws), PeakIndex(ws + [w]);
      if InBand(w) && w.gainSq > PeakGainOf(ws, p)
      then PeakGainOf(ws + [w], q) == w.gainSq && PeakFreqOf(ws + [w], q) == w.freq
      else PeakGainOf(ws + [w], q) == PeakGainOf(ws, p) && PeakFreqOf(ws + [w], q) == PeakFreqOf(ws, p)
  {
    PrefixOfAppend(ws, w);
  }

  /** The window lies above the resonance and its gain is below 0.707 of the first window's gain (compared squared). */
  predicate BelowHalfPower(w: GainWindow, resFreq: real, dcGainSq: real)
  {
    w.freq > resFreq && w.gainSq < HalfPowerSq * dcGainSq
  }

  /** The -3 dB bandwidth: the first window past the resonance below 0.707 of the first window's gain, capped below the sweep top. */
  function Bandwidth(ws: seq<GainWindow>, resFreq: real): (b: real)
    requires |ws| > 0
    ensures b < SweepTop
    ensures resFreq < FlatBandwidth ==> resFreq < b
    ensures b == FlatBandwidth ||
      exists k :: 0 <= k < |ws| && b == ws[k].freq && BelowHalfPower(ws[k], resFreq, ws[0].gainSq) &&
        forall j :: 0 <= j < k ==> !BelowHalfPower(ws[j], resFreq, ws[0].gainSq)
    ensures (forall k :: 0 <= k < |ws| ==> !BelowHalfPower(ws[k], resFreq, ws[0].gainSq)) ==> b == FlatBandwidth
    ensures forall k ::
      (&& 0 <= k < |ws| && BelowHalfPower(ws[k], resFreq, ws[0].gainSq)
       && (forall j :: 0 <= j < k ==> !BelowHalfPower(ws[j], resFreq, ws[0].gainSq)))
      ==> b == if ws[k].freq >= SweepTop then FlatBandwidth else ws[k].freq
  {
    match FirstWhere(ws, w => BelowHalfPower(w, resFreq, ws[0].gainSq))
    case None => FlatBandwidth
    case Some(k) => if ws[k].freq >= SweepTop then FlatBandwidth else ws[k].freq
  }

  /** What AnalyzeFrequencyResponse reports for a non-empty sample sequence. */
  function FrequencyResponseOf(data: seq<Sample>, freqAt: int -> real): (r: FreqResult)
    requires |data| > 0
    ensures r == FreqNotAvailable(AmplitudeTooSmall) <==> forall i :: 0 <= i < |data| ==> Abs(data[i].setPointDeg) < SweepBottom
    ensures r == FreqNotAvailable(ChirpTooShort) <==>
      (exists i :: 0 <= i < |data| && Abs(data[i].setPointDeg) >= SweepBottom) && ChirpEnd(data) < MinChirpLength
    ensures r == FreqNotAvailable(NoValidWindows) <==>
      && (exists i :: 0 <= i < |data| && Abs(data[i].setPointDeg) >= SweepBottom)
      && ChirpEnd(data) >= MinChirpLength
      && Recorded(data[..ChirpEnd(data)], freqAt) == []
    ensures r.FreqAvailable? ==> 0.0 <= r.resonanceHz < r.bandwidthHz < SweepTop && r.peakGainSq >= 0.0
    ensures r.FreqAvailable? ==> r.resonanceHz == 0.0 || 2.0 < r.resonanceHz < 15.0
  {
    if MaxAbsSetPoint(data) < SweepBottom then FreqNotAvailable(AmplitudeTooSmall)
    else
      var chirp := data[..ChirpEnd(data)];
      if |chirp| < MinChirpLength then FreqNotAvailable(ChirpTooShort)
      else
        var ws := Recorded(chirp, freqAt);
        if ws == [] then FreqNotAvailable(NoValidWindows)
        else
          var p := PeakIndex(ws);
          FreqAvailable(PeakFreqOf(ws, p), PeakGainOf(ws, p), Bandwidth(ws, PeakFreqOf(ws, p)))
  }

  /**
   * The analyzer itself (NoLoad.AnalyzeFrequencyResponse): the three
   * not-available exits, then the recording loop and the bandwidth scan.
   */
  method AnalyzeFrequencyResponse(data: seq<Sample>, freqAt: int -> real) returns (r: FreqResult)
    requires |data| > 0
    ensures r == FrequencyResponseOf(data, freqAt)
  {
    var maxAmplitude := MaxAbsSetPoint(data);
    if maxAmplitude < SweepBottom {
      return FreqNotAvailable(AmplitudeTooSmall);
    }
    var chirp := data[..ChirpEnd(data)];
    if |chirp| < MinChirpLength {
      return FreqNotAvailable(ChirpTooShort);
    }
    var windows, maxGain, resFreq := RecordWindows(chirp, freqAt);
    if windows == [] {
      return FreqNotAvailable(NoValidWindows);
    }
    var bandwidth := ScanBandwidth(windows, resFreq);
    r := FreqAvailable(resFreq, maxGain, bandwidth);
  }

  /**
   * The strided loop over 1000-sample windows: records each window with
   * enough excitation and a frequency inside the sweep, and keeps
   * the running maximum of the gain among recorded windows between 2 and 15 Hz.
   */
  method RecordWindows(chirp: seq<Sample>, freqAt: int -> real) returns (windows: seq<GainWindow>, maxGain: real, resFreq: real)
    ensures windows == Recorded(chirp, freqAt)
    ensures maxGain == PeakGainOf(windows, PeakIndex(windows))
    ensures resFreq == PeakFreqOf(windows, PeakIndex(windows))
  {
    maxGain, resFreq := 0.0, 0.0;
    windows := [];
    var i: nat := 0;
    while i + WindowSize < |chirp|
      invariant windows + RecordedFrom(chirp, freqAt, i) == Recorded(chirp, freqAt)
      invariant maxGain == PeakGainOf(windows, PeakIndex(windows))
      invariant resFreq == PeakFreqOf(windows, PeakIndex(windows))
      decreases |chirp| - i
    {
      RecordedFromStep(chirp, freqAt, i);
      var window := chirp[i..i + WindowSize];
      var cmdMs := MeanSquare(SetPoints(window));
      if cmdMs > MinCommandMeanSquare {
        var gain := GainSq(window);
        var freq := freqAt(window[WindowSize / 2].time);
        if SweepBottom <= freq <= SweepTop {
          var w := GainWindow(i, gain, freq);
          assert WindowAt(chirp, freqAt, i) == Some(w);
          PeakStep(windows, w);
          ConcatAssoc(windows, [w], RecordedFrom(chirp, freqAt, i + Stride));
          windows := windows + [w];
          if gain > maxGain && freq > 2.0 && freq < 15.0 {
            maxGain := gain;
            resFreq := freq;
          }
        }
      }
      i := i + Stride;
    }
    assert RecordedFrom(chirp, freqAt, i) == [];
  }

  /** The loop that stops at the first recorded window past the resonance below half power. */
  method ScanBandwidth(windows: seq<GainWindow>, resFreq: real) returns (bandwidth: real)
    requires |windows| > 0
    ensures bandwidth == Bandwidth(windows, resFreq)
  {
    var dcGain := windows[0].gainSq;
    bandwidth := SweepTop;
    for k := 0 to |windows|
      invariant bandwidth == SweepTop
      invariant forall j :: 0 <= j < k ==> !BelowHalfPower(windows[j], resFreq, dcGain)
    {
      if windows[k].freq > resFreq && windows[k].gainSq < HalfPowerSq * dcGain {
        bandwidth := windows[k].freq;
        break;
      }
    }
    if bandwidth >= SweepTop {
      bandwidth := FlatBandwidth;
    }
  }
}
