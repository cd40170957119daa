# No-load analysis and serial frame decoding, in Dafny

This project models the computational core of a servo-test bench application:

- **The no-load analysis engine** (`NoLoad.cs`). It takes one device's samples, ordered by time, and reports three things:
  - **Frequency response** from the logarithmic chirp at the start of the run: 1000-sample windows at a stride of 100, a gain per window, a resonance between 2 and 15 Hz, and a −3 dB bandwidth.
  - **Backlash** from the triangular command wave in the last 20000 samples: the first peak and valley of the command, the ramp between them and the ramp after, the sample closest to zero command in each, and the difference of the command-minus-actual offsets there.
  - **Step response**: command jumps of the raw set point become step edges, with a 400-sample debounce. Each edge gets a window up to the next edge, at most 1400 samples. A window passes a stability gate and gets a target level (the mode of the command). It is then classified as a main step or a sensitivity step. For each step the model computes dead, rise and settling times, overshoot and steady-state error.
- **The serial frame decoder** (`SerialPortReader.cs`). A byte buffer receives chunks. Each complete 32-byte frame becomes four device records: four little-endian 16-bit fields, each folded by a sign-magnitude rule and scaled by 1/1000, all stamped with a frame counter. The consumed bytes are removed. `Stop` empties the buffer and resets the counter.

Modules:

| module | file | contents |
|---|---|---|
| `Options` | `options.dfy` | `Option` for "first or default" searches and a missing input |
| `Stats` | `stats.dfy` | sums and averages, mean-square (RMS squared), variance (standard deviation squared), first/last search, first arg-max/arg-min, the mode |
| `Samples` | `samples.dfy` | the sample record and its projections |
| `FrequencyResponse` | `frequency_response.dfy` | chirp segment, gain windows, resonance, bandwidth; the strided loop and the bandwidth loop as methods |
| `Backlash` | `backlash.dfy` | peak/valley, ramps, zero crossings, backlash; the as-written and corrected analyzers |
| `StepResponse` | `step_response.dfy` | edge detection (loop and specification), per-edge analysis, time metrics, filing loop |
| `NoLoad` | `no_load.dfy` | the entry point with its input guard, and the report |
| `SerialFrames` | `serial_frames.dfy` | byte layout, `NormalizeValue`, frames, leftover, decoding a byte stream |
| `SerialReader` | `serial_reader.dfy` | the reader as a class: `buffer`, `timeIndex`, the output queue; `DataReceived`, `ExtractData`, `Stop` |

Numbers are exact reals. The engine compares square roots only against constants or against each other, all non-negative. So the model compares squares instead:
- `CalculateRMS(x) > 0.05` becomes `MeanSquare(x) > 0.0025`;
- `CalculateStdDev(x) > 0.05` becomes `Variance(x) > 0.0025`;
- window gains are kept squared, and `gain < 0.707 * dcGain` becomes `gainSq < 0.707² * dcGainSq`.

These replacements select exactly the same windows and edges as the original comparisons.

The level before a step (`startVal`) is meant as the average of up to 20 samples preceding the edge. The code (NoLoad.cs:216) averages exactly 20 samples starting at max(0, idx − 20). For an edge before sample 20, those include samples after the edge. The model follows the code, in `StepResponse.StartValue`.

## Model

| member | source | states |
|---|---|---|
| `NoLoad.Analyze` | NoLoad.cs:11-32 | a missing recording or one with fewer than 100 samples gives only the insufficient-data result; otherwise the report of the three analyzers, in the order they run |
| `NoLoad.ReportOf` | NoLoad.cs:16-31 | the report counts every sample; an available frequency result has 0 ≤ resonance < bandwidth < 40 Hz; the backlash (from the corrected analyzer) is never the empty-ramp exception and is non-negative; every main step moved the command by at least 0.9 and every sensitivity step by between 0.04 and 0.9; there is one verdict per sensitivity step, PASS exactly when its final value is within 0.05 of its target |
| `NoLoad.ReportBacklash` | NoLoad.cs:25 | the report's backlash is the code's own result except on a constant command tail, where the code throws and the report says not detected |
| `NoLoad.Verdicts` | NoLoad.cs:270-274 | one PASS/CHECK verdict per sensitivity step, in order, PASS exactly when the step's error is below 0.05 |
| `NoLoad.VerdictsMeaning` | NoLoad.cs:270-274 | a sensitivity step passes exactly when its final value is within 0.05 of its target |
| `NoLoad.JudgeSensitivity` | NoLoad.cs:270-274 | the verdict loop gives the specified verdicts |
| `Stats.MeanSquare` | NoLoad.cs:277-282 | CalculateRMS squared: non-negative, 0 on an empty sequence and on all-zero values |
| `Stats.Variance` | NoLoad.cs:284-290 | CalculateStdDev squared: non-negative, 0 on an empty sequence |
| `Stats.ConstantHasZeroVariance` | NoLoad.cs:284-290 | a constant sequence has variance 0, so a settled command always passes the stability gate |
| `Stats.Average` | NoLoad.cs:216-217 | LINQ's Average on a non-empty sequence lies between two of its values |
| `Stats.AverageBounds` | NoLoad.cs:216-217 | the mean of values within [lo, hi] lies within [lo, hi] |
| `Stats.AverageOfConstant` | NoLoad.cs:216-217 | the average of copies of c is c |
| `Stats.FirstWhere` | NoLoad.cs:52 | FirstOrDefault as an index: the position satisfies the predicate and no earlier one does; none exactly when no position does |
| `Stats.LastWhere` | NoLoad.cs:231 | LastOrDefault as an index: the position satisfies the predicate and no later one does; none exactly when no position does |
| `Stats.ArgMaxIn` | NoLoad.cs:143 | OrderByDescending(key).First() on a range: a position holding the largest key, and the first such position, since the sort is stable |
| `Stats.ArgMinIn` | NoLoad.cs:144 | OrderBy(key).First() on a range: a position holding the smallest key, and the first such position |
| `Stats.ArgMaxIsArgMinIffConstant` | NoLoad.cs:143-144 | the first maximum and the first minimum coincide exactly when the key is constant on the range |
| `Stats.ModeScan` | NoLoad.cs:206 | scanning for the most frequent value keeps a position of maximal count that no earlier value equals in count |
| `Stats.ModeIndex` | NoLoad.cs:206 | a position whose value is most frequent, with every earlier position strictly less frequent |
| `Stats.ModeIsFirstOccurrence` | NoLoad.cs:206 | the mode's position is the first occurrence of its value |
| `Stats.ModeTieBreak` | NoLoad.cs:206 | among equally frequent values the mode is the one met first (GroupBy keeps first-occurrence order; OrderByDescending is stable) |
| `Stats.Mode` | NoLoad.cs:206 | the mode is a value of the sequence that no other value outnumbers |
| `FrequencyResponse.MaxAbsSetPoint` | NoLoad.cs:40 | the largest command magnitude: no sample exceeds it and some sample reaches it |
| `FrequencyResponse.ChirpEnd` | NoLoad.cs:52-61 | the segment ends 500 samples before the first command above 1.8 and contains no such command, or is the whole data when there is none or that end would not be positive |
| `FrequencyResponse.GainSq` | NoLoad.cs:84-89 | the squared gain, measured over commanded mean-square, is non-negative |
| `FrequencyResponse.WindowAtMeaning` | NoLoad.cs:83-97 | a window is recorded exactly when its commanded RMS exceeds 0.05 and the sweep frequency at its centre sample is within [0.5, 40]; it then carries its start, a non-negative gain and that frequency |
| `FrequencyResponse.RecordedFromInside` | NoLoad.cs:81-83 | every recorded window starts at a multiple of 100 and ends before the last sample of the segment, so it lies inside the segment |
| `FrequencyResponse.RecordedFromOrdered` | NoLoad.cs:81-96 | recorded windows come in strictly increasing order of start |
| `FrequencyResponse.RecordedFromSound` | NoLoad.cs:83-96 | every recorded window is the window computed at its own start |
| `FrequencyResponse.RecordedFromComplete` | NoLoad.cs:81-96 | every stride position whose window qualifies is recorded |
| `FrequencyResponse.RecordedFromCases` | NoLoad.cs:81-96 | a recorded window is either the one at the current stride or one recorded from the next stride |
| `FrequencyResponse.RecordedFromSuffix` | NoLoad.cs:81-96 | the windows recorded from the next stride are a suffix of those recorded from the current one |
| `FrequencyResponse.RecordedFromStep` | NoLoad.cs:81-105 | one loop iteration adds the current window exactly when it qualifies |
| `FrequencyResponse.PeakIndex` | NoLoad.cs:98-102 | the resonance window is between 2 and 15 Hz with a positive gain, no such window has a larger gain, and every earlier one has a strictly smaller gain; there is none exactly when no such window has a positive gain |
| `FrequencyResponse.PeakStep` | NoLoad.cs:98-102 | one more window moves the resonance to it exactly when it is in band with a strictly larger gain than the current maximum |
| `FrequencyResponse.Bandwidth` | NoLoad.cs:117-127 | the first window past the resonance whose gain is under 0.707 of the first window's sets the bandwidth to its frequency, or to 36.85 when that frequency is 40 or more; with no such window it is 36.85; the bandwidth is below 40 Hz, and above a resonance below 36.85 |
| `FrequencyResponse.FrequencyResponseOf` | NoLoad.cs:34-133 | not available for lack of amplitude exactly when every command is below 0.5; for a short chirp exactly when some command reaches 0.5 and the segment has fewer than 2000 samples; for lack of windows exactly when, past both, no window is recorded; when available, 0 ≤ resonance < bandwidth < 40, the resonance is 0 or within (2, 15), and the peak gain is non-negative |
| `FrequencyResponse.AnalyzeFrequencyResponse` | NoLoad.cs:34-133 | the analyzer's result is the specified frequency response |
| `FrequencyResponse.RecordWindows` | NoLoad.cs:73-105 | the strided loop records exactly the qualifying windows, in order, and ends with the resonance's gain and frequency |
| `FrequencyResponse.ScanBandwidth` | NoLoad.cs:117-127 | the break-on-first loop and the 40 Hz cap give the specified bandwidth |
| `Backlash.TailStart` | NoLoad.cs:140-141 | the triangle segment is the last min(n, 20000) samples |
| `Backlash.CommandPeak` | NoLoad.cs:140-153 | the peak lies in the triangle segment |
| `Backlash.CommandValley` | NoLoad.cs:140-153 | the valley lies in the triangle segment |
| `Backlash.CommandExtremes` | NoLoad.cs:143-153 | the peak holds the first highest command of the segment and the valley the first lowest |
| `Backlash.PeakIsValleyIffFlat` | NoLoad.cs:143-158 | peak and valley coincide exactly when the command is constant over the segment |
| `Backlash.ZeroCrossing` | NoLoad.cs:169-170 | the crossing lies in its ramp |
| `Backlash.ZeroCrossingIsClosest` | NoLoad.cs:169-170 | the crossing is the first sample of the ramp with the command closest to zero |
| `Backlash.Measure` | NoLoad.cs:155-172 | the first ramp is [earlier, later), the second [later, min(n, 2·later − earlier)); each crossing lies in its ramp; the backlash is the non-negative difference of the offsets at the crossings |
| `Backlash.BacklashAsWritten` | NoLoad.cs:135-176 | as written: not detected exactly on empty data; the empty-first-ramp exception exactly when the segment's command is constant; otherwise a measurement |
| `Backlash.AnalyzeBacklash` | NoLoad.cs:135-176 | corrected: never the exception; not detected exactly on empty data or a constant segment; otherwise the same measurement as the code |
| `Backlash.ConstantCommandThrowsAsWritten` | NoLoad.cs:143-169 | 100 samples at zero command make the code as written throw, and the corrected analyzer report no triangle |
| `StepResponse.EdgesBefore` | NoLoad.cs:183-193 | edges registered while scanning are jumps of more than 40 in the raw command, within [1, n), and more than 400 samples apart |
| `StepResponse.EdgesBeforeCover` | NoLoad.cs:183-193 | every jump scanned so far lies within 400 samples after a registered edge |
| `StepResponse.CoverOne` | NoLoad.cs:186-190 | one scanning step keeps every jump covered |
| `StepResponse.StepEdges` | NoLoad.cs:183-193 | the edges are jumps inside the data and are strictly increasing with gaps over 400 |
| `StepResponse.StepEdgesCover` | NoLoad.cs:183-193 | every jump in the data is within 400 samples after a detected edge |
| `StepResponse.FirstJumpRegistered` | NoLoad.cs:188 | the first jump in the data is always an edge |
| `StepResponse.DetectStepEdges` | NoLoad.cs:183-193 | the detection loop returns the specified edges |
| `StepResponse.WindowLimit` | NoLoad.cs:197-198 | the window ends after its edge and within the data: at the first edge in the list that is later than this one, or at the end of the data when there is none |
| `StepResponse.WindowEndsAtNextEdge` | NoLoad.cs:197-198 | for increasing edges, a window ends at the next edge, or at the end of the data for the last edge |
| `StepResponse.FindCrossing` | NoLoad.cs:292-296 | the first window sample at or past the threshold in the step's direction, or none exactly when there is no such sample |
| `StepResponse.CrossingsInOrder` | NoLoad.cs:224-227 | a threshold nearer the start is crossed no later than one further along, so the 10% crossing comes no later than the 90% crossing |
| `StepResponse.DeadTime` | NoLoad.cs:243 | the dead time is clamped non-negative |
| `StepResponse.DeadTimeMeaning` | NoLoad.cs:219-222 | with time running forward, the dead time is exactly the time from the edge to the first sample that has moved 2% of the step, and no earlier sample has; without time ordering, a positive dead time is still the time of such a sample |
| `StepResponse.RiseTime` | NoLoad.cs:244 | the rise time is clamped non-negative |
| `StepResponse.RiseTimeMeaning` | NoLoad.cs:224-227 | without a 90% crossing the rise time is 0; with one, and time running forward, it is the time from the first 10% crossing to the first 90% crossing |
| `StepResponse.DeadTimeBeforeRise` | NoLoad.cs:220-225 | the 2% crossing comes no later than the 10% crossing |
| `StepResponse.SettlingTime` | NoLoad.cs:245 | the settling time is clamped non-negative |
| `StepResponse.SettlingTimeMeaning` | NoLoad.cs:229-232 | with time running forward, every sample later than the settling time is within 5% of the step around the final value; a positive settling time is the time of a sample outside that band; it is 0 when no sample is outside the band |
| `StepResponse.PeakReading` | NoLoad.cs:234 | the window maximum for a rising step and the minimum otherwise, reached by some sample |
| `StepResponse.Overshoot` | NoLoad.cs:235 | the overshoot is non-negative |
| `StepResponse.OvershootBound` | NoLoad.cs:234-235 | no sample passes the final value, in the step's direction, by more than overshoot% of the amplitude |
| `StepResponse.StepMetrics` | NoLoad.cs:214-250 | from and to are the commands before and after, the actual value is the average of the window's last 100 readings and lies between two of them, SSE = to − actual value, and every time metric and the overshoot are non-negative |
| `StepResponse.CommandSegment` | NoLoad.cs:202 | the commands from 50 samples after the edge to the end of the window |
| `StepResponse.AnalyzeEdgeMeaning` | NoLoad.cs:197-253 | an edge is skipped for a window under 100 samples, for a command variance over 0.0025, or for a target within 0.02 of zero; otherwise it is a main step exactly when the amplitude is at least 0.9, a sensitivity step exactly when it is within (0.04, 0.9), and dropped otherwise; a measured step carries the window's metrics |
| `StepResponse.AnalyzeEdgeClassified` | NoLoad.cs:209-212 | every edge outcome is filed in the band of its amplitude |
| `StepResponse.ClassifyStepClassified` | NoLoad.cs:209-212 | a settled window's step is filed in the band of its amplitude |
| `StepResponse.EdgeOutcomes` | NoLoad.cs:195 | one outcome per detected edge |
| `StepResponse.PrimarySteps` | NoLoad.cs:252 | at most one main step per edge |
| `StepResponse.SensitivitySteps` | NoLoad.cs:253 | at most one sensitivity step per edge |
| `StepResponse.PrimaryStepsMembers` | NoLoad.cs:252 | the main steps are exactly the steps of main-step outcomes |
| `StepResponse.SensitivityStepsMembers` | NoLoad.cs:253 | the sensitivity steps are exactly the steps of sensitivity outcomes |
| `StepResponse.OutcomeClassified` | NoLoad.cs:195-212 | the outcome of every detected edge is classified by its amplitude |
| `StepResponse.FiledStepsClassified` | NoLoad.cs:252-253 | filing keeps the classification: every main step has amplitude at least 0.9, every sensitivity step between 0.04 and 0.9 with its error equal to target minus final value |
| `StepResponse.ReportedStepsClassified` | NoLoad.cs:195-253 | every reported main step moved the command by at least 0.9 and every sensitivity step by between 0.04 and 0.9, never both; a sensitivity step's error is its target minus its final value |
| `StepResponse.FilingStep` | NoLoad.cs:252-253 | filing edge k appends its step to exactly the list of its class |
| `StepResponse.AnalyzeStepResponse` | NoLoad.cs:178-254 | the loop returns the main steps and the sensitivity steps of the detected edges, in edge order |
| `StepResponse.FileOutcome` | NoLoad.cs:252-253 | a main step goes to the main list, a sensitivity step to the sensitivity list, a skipped edge to neither |
| `SerialFrames.ReadU16Bytes` | SerialPortReader.cs:58-61 | the little-endian read loses nothing: both bytes are recovered from the value |
| `SerialFrames.NormalizeValueMeaning` | SerialPortReader.cs:78-83 | the value lies in [−32.767, 32.767]; it is negative exactly above 0x8000, zero exactly at 0x0000 and 0x8000, and its magnitude is the low 15 bits over 1000 |
| `SerialFrames.NormalizeValueInjective` | SerialPortReader.cs:78-83 | only 0x0000 and 0x8000 decode to the same value |
| `SerialFrames.NotTwosComplement` | SerialPortReader.cs:78-83 | 0x8000 reads as 0 and 0xFFFF as −32.767, so the folding is sign-magnitude, not two's complement |
| `SerialFrames.RecordAtPrefix` | SerialPortReader.cs:57-70 | a record depends only on its own 8 bytes |
| `SerialFrames.FrameRecords` | SerialPortReader.cs:55-73 | a frame yields exactly four records |
| `SerialFrames.FrameRecordsAt` | SerialPortReader.cs:55-70 | record i of a frame is the record at bytes 8i .. 8i + 7, numbered i + 1 |
| `SerialFrames.Frames` | SerialPortReader.cs:53-75 | every frame taken off the buffer has 32 bytes |
| `SerialFrames.Leftover` | SerialPortReader.cs:53-75 | what stays in the buffer is shorter than a frame |
| `SerialFrames.FramesSplit` | SerialPortReader.cs:53-75 | there are \|buf\| div 32 frames, frame f is bytes 32f .. 32f + 31, and the leftover is the remaining \|buf\| mod 32 bytes in order |
| `SerialFrames.FramesAppend` | SerialPortReader.cs:46-76 | the frames of a + b are those of a, then those of a's leftover followed by b |
| `SerialFrames.RecordsAppend` | SerialPortReader.cs:53-75 | decoding consecutive frames appends their records, with the time index carried on |
| `SerialFrames.RecordsLayout` | SerialPortReader.cs:55-74 | a sequence of frames gives four records per frame, record i of frame f at position 4f + i with time t + f |
| `SerialFrames.DecodeLength` | SerialPortReader.cs:53-75 | decoding yields four records per complete frame |
| `SerialFrames.DecodeLayout` | SerialPortReader.cs:55-74 | record i of frame f sits at position 4f + i and is read from bytes 32f + 8i .. 32f + 8i + 7, with device number i + 1 and time t + f |
| `SerialFrames.DecodeFrame` | SerialPortReader.cs:55-74 | record i of a complete frame f is record i of that frame's 32 bytes, stamped t + f |
| `SerialFrames.FrameAt` | SerialPortReader.cs:53-75 | frame f is bytes 32f .. 32f + 31 |
| `SerialFrames.RecordOfSlice` | SerialPortReader.cs:57-61 | a record read from a frame cut out at s is the record at byte s + 8i of the buffer |
| `SerialFrames.DecodeAppend` | SerialPortReader.cs:46-76 | chunking invariance: decoding a + b is decoding a, then a's leftover followed by b, with the time index carried on; the final leftover is the same |
| `SerialFrames.FrameCountAppend` | SerialPortReader.cs:46-75 | the frame count of a + b is that of a plus that of a's leftover followed by b |
| `SerialFrames.DecodeStep` | SerialPortReader.cs:53-76 | decoding takes the first frame's four records, then decodes the rest a tick later |
| `SerialFrames.DecodeShort` | SerialPortReader.cs:53 | fewer than 32 bytes decode to nothing and stay in the buffer |
| `SerialReader.SerialPortReader.constructor` | SerialPortReader.cs:16-17 | a new reader has an empty buffer, time index 0 and no output |
| `SerialReader.SerialPortReader.DataReceived` | SerialPortReader.cs:40-49 | the chunk is appended and decoded: the output gains exactly the records of the old buffer followed by the chunk, the buffer keeps their leftover, the time index advances by the frames consumed, and the state stays that of the whole byte stream since the last reset |
| `SerialReader.SerialPortReader.ExtractData` | SerialPortReader.cs:51-77 | every complete frame is consumed: the output gains exactly the decoded records in order, earlier output is unchanged, the buffer is the leftover (under 32 bytes), and the time index advances by one per frame |
| `SerialReader.SerialPortReader.Stop` | SerialPortReader.cs:34-39 | the buffer is emptied and the time index is 0; records already handed over stay |

## Left out

- Report text and I/O: the report header with `DateTime.Now`, the numeric formatting and column layout, writing the report file, and the warning texts. The report is a datatype, and the PASS/CHECK status of each sensitivity step is a boolean in it (true for PASS).
- The device number and serial number in the header: they only feed the report text.
- Floating point: doubles are exact reals, and IEEE rounding, NaN and infinities are not modelled. `Math.Sqrt` is avoided by comparing squares.
- `Math.Pow`: the chirp frequency of a window is the parameter `freqAt`, applied to the time of the window's centre sample. It stands for 0.5 · 80^((t − 1) / 30) with t in seconds.
- NoLoad.Analyze: the report uses the corrected backlash analyzer (see Findings). On a recording whose last min(n, 20000) commands are constant, the code throws at NoLoad.cs:169 and `Analyze` returns no report; the model returns a report with backlash "not detected" instead (`NoLoad.ReportBacklash` states where the two differ).
- NoLoad.ReportOf: the same: its backlash is that of `Backlash.AnalyzeBacklash`, which differs from the code only on a constant command tail.
- FrequencyResponse.FrequencyResponseOf: the peak gain it reports is the square of the gain the code prints, because gains are kept squared.
- StepResponse.DeadTime: its own contract states only the clamp at 0; what the time means is stated by `StepResponse.DeadTimeMeaning`.
- StepResponse.RiseTime: its own contract states only the clamp at 0; what the time means is stated by `StepResponse.RiseTimeMeaning`.
- StepResponse.SettlingTime: its own contract states only the clamp at 0; what the time means is stated by `StepResponse.SettlingTimeMeaning`.
- StepResponse.StepMetrics: metrics are not computed for an edge whose amplitude is within 0.04 of zero. The code computes them and then discards them; for a zero amplitude the code's division is not an exception in doubles.
- A null sample list is `None`. The sample record is reduced to the four fields the engine reads: time, raw command, command, actual.
- Serial port handling: the constructor's port settings, `Start`, opening and closing the port, `BytesToRead`/`Read`, and `SendCommand`. This is operating-system I/O; the received bytes are the method's parameter.
- Concurrency: `DataReceived` runs on a background thread in the code. The model is single-threaded.
- The process-wide diagram queue is the reader's `queue` field. Its consumer (the UI timer) is not part of this model.
- SerialReader.SerialPortReader.ExtractData: `_timeIndex` is a 32-bit integer in the code; the model's time index is unbounded, so it does not wrap after 2^31 frames.
- The user interface, the PDF and spreadsheet export, and the dialogs are not part of this model.

## Findings

| source | as written | input that shows it | evidently intended | confidence | as-written member | corrected member |
|---|---|---|---|---|---|---|
| NoLoad.cs:143-169 | When the command is constant over the last min(n, 20000) samples, the first maximum and the first minimum are the same sample. The first ramp is then empty, and `.First()` on it throws, which aborts the whole analysis. | 100 samples, all with command 0 | report "Triangle wave not detected." as the code's own not-detected branch does | not executed | `Backlash.BacklashAsWritten`, `Backlash.ConstantCommandThrowsAsWritten` | `Backlash.AnalyzeBacklash` |
