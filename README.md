# Pedometer accelerometer fallback — a Dafny model

This project models the software step counter used by the pedometer plugin
on Android devices that have no hardware step sensor. Two sensor listeners
turn accelerometer samples into step information:

- the **fallback step counter** emits a running step total, and keeps that
  total in the shared preferences under the key `"stepCount"`;
- the **fallback step detector** emits `-1` ("stopped") or `-2` ("walking")
  from the third window on, whenever the last two windows agree.

Both share one per-sample pipeline. Each sample's magnitude goes into a
100-slot buffer at the cyclic cursor `tick`. When the cursor wraps to 0,
the buffer is low-pass filtered and `checkSteps` scans it:

- it finds the strict interior local peaks and takes their mean;
- it counts the peaks above both `1.05 × mean` and `1.2`;
- it subtracts one from a positive count.

Modules, one per component:

- `Wrappers` (`wrappers.dfy`): `Option`, for the nullable sensor event.
- `SampleWindow` (`sample_window.dfy`): the buffer size, the `Window`
  type of full buffers, the cursor, writing one sample, and
  `filterBuffer`.
- `PeakDetection` (`peak_detection.dfy`): `checkSteps`. Pure functions
  specify it (`Peaks`, `PeakMean`, `Steps`, `WindowSteps`) and the lemmas
  about them. A method `CheckSteps` runs the two scans over the
  `array<real>` buffer and is proved equal to `WindowSteps`. The source
  duplicates `checkSteps` in both listeners (lines 50-74 and 136-160); it
  is modelled once and used by both classes.
- `Preferences` (`preferences.dfy`): the shared-preferences store as a
  class around a `map<string, int>`.
- `StepCounter` (`step_counter.dfy`): class `FallbackStepCounter`.
- `StepDetector` (`step_detector.dfy`): class `FallbackStepDetector`.

Each listener class has the source's fields `arrayBuffer`, `tick` and
`stepCount`; the detector also has `stepCounts`. Emitted values are
appended to the field `emitted`. Ghost fields record the magnitudes
received since the last completed window, the number of non-null events,
and the counts of all completed windows. `Valid()` ties these to the real
fields, so the following are invariants:

- the cursor is the number of samples modulo 100;
- the buffer's first `tick` slots are the samples of the current window,
  in order;
- the stored total is the initial total plus all window counts;
- the emitted values are a function of the window counts.

Three bodies are split into helpers so that each proof stays small; the
behaviour is unchanged:

- `checkSteps`'s two scans are `ScanPeaks` and `CountQualifying`;
- the block run when the cursor wraps is `CompleteWindow` in both
  classes, with the per-listener bookkeeping in `RecordWindowCount`;
- the detector's `RecordWindowCount` builds the new list in a local
  variable and stores it at the end.

Behaviour of the code that the model keeps and the lemmas make precise:

- **Detector timing.** Classification starts at the third window: line 172
  adds the new count, and line 173 then tests `stepCounts.size > 2`, so
  nothing is emitted after the first or the second window.
- **Filtering.** `filterBuffer` does not filter in place: line 45 assigns
  the new array the filter returns. The model allocates a fresh array.
- **Not every peak qualifies.** In any window with a peak, at least one
  peak fails one of the two tests (above `1.05 × mean`, above `1.2`):
  `NotAllPeaksQualify` proves that the raw count is at most the peak count
  minus one. Five peaks therefore give at most 4 qualifying peaks and at
  most 3 steps.
- **No peaks.** With no peak the code divides by zero (line 61) and gets a
  NaN mean. The model uses 0.0 for that mean. `NoPeaksNoSteps` proves
  that the value cannot matter: with no peak nothing qualifies, whatever
  the mean.

## Model

| member | source | states |
|---|---|---|
| `SampleWindow.NextTick` | packages/pedometer/android/src/main/kotlin/com/example/pedometer/SensorEventListenerFactory.kt:82 | the cursor stays in [0, 100); it wraps to 0 exactly when it was 99, and otherwise moves up by one |
| `SampleWindow.Cadence` | packages/pedometer/android/src/main/kotlin/com/example/pedometer/SensorEventListenerFactory.kt:81-84 | a listener at cursor `tick` after `w` completed windows has received `100w + tick` samples, so the cursor is that count mod 100 and `w` is that count div 100 |
| `SampleWindow.CadenceStep` | packages/pedometer/android/src/main/kotlin/com/example/pedometer/SensorEventListenerFactory.kt:82-84 | one more sample either moves the cursor up by one within the window, or completes a window and resets the cursor to 0 |
| `SampleWindow.WriteSample` | packages/pedometer/android/src/main/kotlin/com/example/pedometer/SensorEventListenerFactory.kt:81-82 | the magnitude lands in slot `tick`, the other 99 slots are unchanged, and the cursor advances cyclically |
| `SampleWindow.FilterBuffer` | packages/pedometer/android/src/main/kotlin/com/example/pedometer/SensorEventListenerFactory.kt:40-46 | the buffer is replaced by a fresh array holding the filtered window |
| `PeakDetection.PeaksBelow` | packages/pedometer/android/src/main/kotlin/com/example/pedometer/SensorEventListenerFactory.kt:54-60 | every index the peak scan collects is a strict interior local peak below the scan bound |
| `PeakDetection.StepsBelow` | packages/pedometer/android/src/main/kotlin/com/example/pedometer/SensorEventListenerFactory.kt:62-69 | every index the step scan collects is a peak above `1.05 × mean` and above `1.2` |
| `PeakDetection.PeaksBelowComplete` | packages/pedometer/android/src/main/kotlin/com/example/pedometer/SensorEventListenerFactory.kt:54-60 | the peak scan misses no peak below its bound |
| `PeakDetection.StepsBelowComplete` | packages/pedometer/android/src/main/kotlin/com/example/pedometer/SensorEventListenerFactory.kt:62-69 | the step scan misses no qualifying peak below its bound |
| `PeakDetection.PeaksBelowIncreasing` | packages/pedometer/android/src/main/kotlin/com/example/pedometer/SensorEventListenerFactory.kt:54-60 | the peak scan visits indices in increasing order, so it lists each peak exactly once and its length is the number of peaks |
| `PeakDetection.StepsBelowIncreasing` | packages/pedometer/android/src/main/kotlin/com/example/pedometer/SensorEventListenerFactory.kt:62-69 | the step scan lists each qualifying index exactly once, in increasing order |
| `PeakDetection.PeaksAreInteriorMaxima` | packages/pedometer/android/src/main/kotlin/com/example/pedometer/SensorEventListenerFactory.kt:54-56 | an index is a peak iff it lies in 1..98 (for 100 slots) and is strictly above both neighbours; indices 0 and 99 and plateau points never are |
| `PeakDetection.StepsQualify` | packages/pedometer/android/src/main/kotlin/com/example/pedometer/SensorEventListenerFactory.kt:61-69 | an index is counted as a step iff it is a peak above `1.05 × peakMean` and above `1.2` |
| `PeakDetection.StepsWithinPeaks` | packages/pedometer/android/src/main/kotlin/com/example/pedometer/SensorEventListenerFactory.kt:54-69 | the raw step count never exceeds the peak count, and equals it only if every peak qualifies |
| `PeakDetection.AllQualifyingIsImpossible` | packages/pedometer/android/src/main/kotlin/com/example/pedometer/SensorEventListenerFactory.kt:61-65 | a set of values cannot all exceed both 1.05 times their own mean and 1.2 |
| `PeakDetection.NotAllPeaksQualify` | packages/pedometer/android/src/main/kotlin/com/example/pedometer/SensorEventListenerFactory.kt:54-69 | whenever a window has a peak, the raw step count is at most the peak count minus one |
| `PeakDetection.NoPeaksNoSteps` | packages/pedometer/android/src/main/kotlin/com/example/pedometer/SensorEventListenerFactory.kt:61-73 | with no peak nothing qualifies for any value of the mean, and the window count is 0 |
| `PeakDetection.WindowStepsBounds` | packages/pedometer/android/src/main/kotlin/com/example/pedometer/SensorEventListenerFactory.kt:67-73 | the window count is `max(raw - 1, 0)`; it is 0 or at most the peak count minus 2, so fewer than three peaks give no step |
| `PeakDetection.ConstantWindowNoSteps` | packages/pedometer/android/src/main/kotlin/com/example/pedometer/SensorEventListenerFactory.kt:54-73 | an idle, constant window has no peak and a count of 0 |
| `PeakDetection.ScanPeaks` | packages/pedometer/android/src/main/kotlin/com/example/pedometer/SensorEventListenerFactory.kt:52-60 | the first scan yields the number of peaks and the sum of their values |
| `PeakDetection.CountQualifying` | packages/pedometer/android/src/main/kotlin/com/example/pedometer/SensorEventListenerFactory.kt:62-69 | the second scan yields the number of peaks above both thresholds for the given mean |
| `PeakDetection.CheckSteps` | packages/pedometer/android/src/main/kotlin/com/example/pedometer/SensorEventListenerFactory.kt:50-74 | `checkSteps` returns the window count of the buffer's contents alone; nothing carries over from earlier calls |
| `Preferences.SharedPreferences.GetInt` | packages/pedometer/android/src/main/kotlin/com/example/pedometer/SensorEventListenerFactory.kt:91 | reading a key yields its stored value, or the default when the key is absent |
| `Preferences.SharedPreferences.PutInt` | packages/pedometer/android/src/main/kotlin/com/example/pedometer/SensorEventListenerFactory.kt:92-94 | writing a key changes that key only, and a later read returns the written value |
| `StepCounter.TotalsAt` | packages/pedometer/android/src/main/kotlin/com/example/pedometer/SensorEventListenerFactory.kt:91-95 | the j-th emitted total is the initial stored value plus the counts of the first j + 1 windows |
| `StepCounter.TotalsNonDecreasing` | packages/pedometer/android/src/main/kotlin/com/example/pedometer/SensorEventListenerFactory.kt:91-95 | emitted totals never decrease |
| `StepCounter.FallbackStepCounter.constructor` | packages/pedometer/android/src/main/kotlin/com/example/pedometer/SensorEventListenerFactory.kt:30-38 | a new listener has a zeroed 100-slot buffer, cursor 0, no emissions, and remembers the stored total |
| `StepCounter.FallbackStepCounter.CursorCadence` | packages/pedometer/android/src/main/kotlin/com/example/pedometer/SensorEventListenerFactory.kt:81-84 | after M non-null events the cursor is M mod 100, and M div 100 windows have completed |
| `StepCounter.FallbackStepCounter.EmittedTotals` | packages/pedometer/android/src/main/kotlin/com/example/pedometer/SensorEventListenerFactory.kt:87-95 | one total per window; each is the initial value plus the counts so far; totals never decrease; the last equals the stored value |
| `StepCounter.FallbackStepCounter.CompleteWindow` | packages/pedometer/android/src/main/kotlin/com/example/pedometer/SensorEventListenerFactory.kt:84-96 | the buffer becomes the filtered window, `stepCount` is that window's count, and the stored total and the emissions follow it |
| `StepCounter.FallbackStepCounter.RecordWindowCount` | packages/pedometer/android/src/main/kotlin/com/example/pedometer/SensorEventListenerFactory.kt:87-95 | the stored `"stepCount"` becomes its old value (default 0) plus the count, and the new stored value is emitted |
| `StepCounter.FallbackStepCounter.OnSensorChanged` | packages/pedometer/android/src/main/kotlin/com/example/pedometer/SensorEventListenerFactory.kt:76-101 | a null event changes nothing. A sample writes slot `tick` and advances the cursor. When the cursor wraps, the 100 magnitudes since the last window, in order, are filtered and counted, added to the stored total, and the new total is emitted |
| `StepDetector.ClassifyRules` | packages/pedometer/android/src/main/kotlin/com/example/pedometer/SensorEventListenerFactory.kt:175-182 | a pair emits `-1` iff both counts are 0, `-2` iff both are positive, nothing for a mixed pair, and never two values |
| `StepDetector.SignalsBounds` | packages/pedometer/android/src/main/kotlin/com/example/pedometer/SensorEventListenerFactory.kt:172-183 | the first two windows emit nothing; n windows emit at most n - 2 values, all of them sentinels |
| `StepDetector.SteadySignals` | packages/pedometer/android/src/main/kotlin/com/example/pedometer/SensorEventListenerFactory.kt:172-183 | a run of windows that all have steps emits `-2` once per window from the third on; a run with none emits `-1` in the same way |
| `StepDetector.RecentAppend` | packages/pedometer/android/src/main/kotlin/com/example/pedometer/SensorEventListenerFactory.kt:172-174 | the list holds at most two counts; a new count is appended, and the oldest is evicted once there would be three |
| `StepDetector.SignalsAppend` | packages/pedometer/android/src/main/kotlin/com/example/pedometer/SensorEventListenerFactory.kt:172-183 | a new window emits the classification of the previous count and the new count, once two counts were retained |
| `StepDetector.FallbackStepDetector.constructor` | packages/pedometer/android/src/main/kotlin/com/example/pedometer/SensorEventListenerFactory.kt:112-124 | a new listener has a zeroed 100-slot buffer, cursor 0, an empty list and no emissions |
| `StepDetector.FallbackStepDetector.CursorCadence` | packages/pedometer/android/src/main/kotlin/com/example/pedometer/SensorEventListenerFactory.kt:167-169 | after M non-null events the cursor is M mod 100, and M div 100 windows have completed |
| `StepDetector.FallbackStepDetector.HistoryBounded` | packages/pedometer/android/src/main/kotlin/com/example/pedometer/SensorEventListenerFactory.kt:172-174 | `stepCounts` holds min(windows, 2) entries, and the newest is the latest window's count |
| `StepDetector.FallbackStepDetector.EmissionsBounded` | packages/pedometer/android/src/main/kotlin/com/example/pedometer/SensorEventListenerFactory.kt:172-183 | nothing is emitted before the third window, at most one value per window after that, and only `-1` or `-2` |
| `StepDetector.FallbackStepDetector.CompleteWindow` | packages/pedometer/android/src/main/kotlin/com/example/pedometer/SensorEventListenerFactory.kt:169-184 | the buffer becomes the filtered window, `stepCount` is that window's count, and the list and the emissions follow it |
| `StepDetector.FallbackStepDetector.RecordWindowCount` | packages/pedometer/android/src/main/kotlin/com/example/pedometer/SensorEventListenerFactory.kt:172-183 | the count is appended and the oldest evicted beyond two; after an eviction, the retained pair is classified and its emission appended |
| `StepDetector.FallbackStepDetector.OnSensorChanged` | packages/pedometer/android/src/main/kotlin/com/example/pedometer/SensorEventListenerFactory.kt:162-189 | a null event changes nothing. A sample writes slot `tick` and advances the cursor. When the cursor wraps, the 100 magnitudes since the last window are filtered and counted, the count joins the two-entry list, and the pair is classified from the third window on |

## Left out

- The Butterworth low-pass filter (order 20, cutoff 5 Hz at 50 Hz sampling; lines 40-46, 126-132) is a floating-point routine from an external library. Each listener takes it as a parameter of type `Window -> Window`. The model assumes only that it maps a 100-value window to a 100-value window.
- The magnitude `sqrt(x² + y² + z²)` (lines 80, 166) is floating-point arithmetic. A sensor event carries its magnitude as a `real`, and a null event is `None`.
- IEEE double semantics are not modelled: values are `real`, there is no rounding, and there is no NaN. The mean uses 0.0 when there is no peak, which is proved not to matter.
- The stored total is an unbounded integer; the 32-bit `Int` overflow of `currentStepCount + stepCount` is not modelled.
- FallbackStepCounter.Valid: assumes that this listener is the only writer of `"stepCount"` while it runs. The stored total is tied to the value read at construction plus the window counts, whereas line 91 re-reads whatever is stored at each window. The plugin installs one handler per channel, so the two agree; `EmittedTotals` depends on this assumption.
- The shared-preferences file and `editor.apply()`: one `SharedPreferences` object stands for the file `"fallbackSensorEventListener"`, and a write is visible to the next read at once.
- Not modelled: `@Volatile`, concurrent delivery, the `events.success` transport, and the `try`/`catch` around `onSensorChanged`. Samples arrive by sequential calls, emissions are appended to a sequence, and nothing in the model can throw.
- `onAccuracyChanged` (lines 103, 191) has an empty body.
- The detector's field `last` (line 124) is never read or written after initialisation.
- `defaultSensorEventListener` (lines 12-24) only converts the hardware sensor's first value to an integer and emits it.
- `PedometerPlugin.kt` (sensor detection, channel wiring) and `SensorStreamHandler.kt` (listener registration with the sensor manager) are platform plumbing and are not part of this model.
