/**
 * `fallbackStepCounterSensorEventListener`: adds each completed window's
 * step count to the persisted total under "stepCount" and emits the new
 * total.
 */
module StepCounter {

  import opened Wrappers
  import opened SampleWindow
  import opened PeakDetection
  import opened Preferences

  /** The key of the persisted running total. */
  const StepCountKey: string := "stepCount"

  /** The sum of a sequence of window counts. */
  function Sum(counts: seq<nat>): nat
  {
    if counts == [] then 0 else Sum(counts[..|counts| - 1]) + counts[|counts| - 1]
  }

  /** The totals emitted after each of the given windows, starting from the stored value `initial`. */
  function Totals(initial: int, counts: seq<nat>): (r: seq<int>)
    ensures |r| == |counts|
  {
    if counts == [] then [] else Totals(initial, counts[..|counts| - 1]) + [initial + Sum(counts)]
  }

  /** The `j`-th emitted total is the initial value plus the counts of the first `j + 1` windows. */
  lemma {:induction false} TotalsAt(initial: int, counts: seq<nat>, j: nat)
    requires j < |counts|
    ensures Totals(initial, counts)[j] == initial + Sum(counts[..j + 1])
  {
    if j < |counts| - 1 {
      var init := counts[..|counts| - 1];
      TotalsAt(initial, init, j);
      assert init[..j + 1] == counts[..j + 1];
    } else {
      assert counts[..j + 1] == counts;
    }
  }

  /** Sums of longer prefixes are no smaller. */
  lemma {:induction false} SumPrefixMonotone(counts: seq<nat>, i: nat, j: nat)
    requires i <= j <= |counts|
    ensures Sum(counts[..i]) <= Sum(counts[..j])
  {
    if i < j {
      SumPrefixMonotone(counts, i, j - 1);
      assert counts[..j][..j - 1] == counts[..j - 1];
    }
  }

  /** Emitted totals never decrease. */
  lemma TotalsNonDecreasing(initial: int, counts: seq<nat>, i: nat, j: nat)
    requires i <= j < |counts|
    ensures Totals(initial, counts)[i] <= Totals(initial, counts)[j]
  {
    TotalsAt(initial, counts, i);
    TotalsAt(initial, counts, j);
    SumPrefixMonotone(counts, i + 1, j + 1);
  }

  lemma SumAppend(initial: int, counts: seq<nat>, c: nat)
    ensures Sum(counts + [c]) == Sum(counts) + c
    ensures Totals(initial, counts + [c]) == Totals(initial, counts) + [initial + Sum(counts) + c]
  {
    assert (counts + [c])[..|counts|] == counts;
  }

  class FallbackStepCounter {
    /** `arrayBuffer`: the magnitudes of the current window. */
    var arrayBuffer: array<real>
    /** `tick`: the slot the next magnitude is written to. */
    var tick: nat
    /** `stepCount`: the step count of the last completed window. */
    var stepCount: nat
    /** The values passed to `events.success`, in order. */
    var emitted: seq<int>
    /** The low-pass filter applied to each completed window. */
    const lowPass: LowPass
    /** The shared preferences file "fallbackSensorEventListener". */
    const prefs: SharedPreferences

    /** The magnitudes received since the last completed window, in order. */
    ghost var samples: seq<real>
    /** The number of non-null events received. */
    ghost var received: nat
    /** The step counts of all completed windows, in order. */
    ghost var windows: seq<nat>
    /** The stored total when the listener was created. */
    ghost const initial: int

    ghost predicate Valid()
      reads this, arrayBuffer, prefs
    {
      arrayBuffer.Length == BufferSize &&
      tick < BufferSize &&
      received == |windows| * BufferSize + tick &&
      samples == arrayBuffer[..tick] &&
      prefs.GetInt(StepCountKey, 0) == initial + Sum(windows) &&
      emitted == Totals(initial, windows)
    }

    constructor (prefs: SharedPreferences, lowPass: LowPass)
      ensures Valid() && fresh(arrayBuffer)
      ensures this.prefs == prefs && this.lowPass == lowPass
      ensures forall i :: 0 <= i < BufferSize ==> arrayBuffer[i] == 0.0
      ensures tick == 0 && stepCount == 0 && emitted == []
      ensures received == 0 && windows == [] && initial == prefs.GetInt(StepCountKey, 0)
      ensures prefs.entries == old(prefs.entries)
    {
      arrayBuffer := new real[BufferSize](_ => 0.0);
      tick, stepCount, emitted := 0, 0, [];
      this.lowPass, this.prefs := lowPass, prefs;
      samples, received, windows := [], 0, [];
      initial := prefs.GetInt(StepCountKey, 0);
    }

    /** After `received` non-null events the cursor is `received % 100` and `received / 100` windows have completed. */
    lemma CursorCadence()
      requires Valid()
      ensures tick == received % BufferSize && |windows| == received / BufferSize
    {
      Cadence(received, |windows|, tick);
    }

    /**
     * One total is emitted per completed window; each is the initial
     * stored value plus the counts of the windows so far, the totals never
     * decrease, and the last one is the value now stored.
     */
    lemma EmittedTotals()
      requires Valid()
      ensures |emitted| == |windows|
      ensures forall j :: 0 <= j < |emitted| ==> emitted[j] == initial + Sum(windows[..j + 1])
      ensures forall i, j :: 0 <= i <= j < |emitted| ==> emitted[i] <= emitted[j]
      ensures |emitted| > 0 ==> emitted[|emitted| - 1] == prefs.GetInt(StepCountKey, 0)
    {
      forall j | 0 <= j < |emitted|
        ensures emitted[j] == initial + Sum(windows[..j + 1])
      {
        TotalsAt(initial, windows, j);
      }
      forall i, j | 0 <= i <= j < |emitted|
        ensures emitted[i] <= emitted[j]
      {
        TotalsNonDecreasing(initial, windows, i, j);
      }
      if |emitted| > 0 {
        assert windows[..|windows|] == windows;
      }
    }

    /**
     * Window processing, run when the cursor wraps: `filterBuffer`,
     * `checkSteps`, then the update of the stored total.
     */
    method CompleteWindow()
      requires arrayBuffer.Length == BufferSize
      requires prefs.GetInt(StepCountKey, 0) == initial + Sum(windows) && emitted == Totals(initial, windows)
      modifies this`arrayBuffer, this`stepCount, this`emitted, this`windows, prefs
      ensures fresh(arrayBuffer) && arrayBuffer[..] == lowPass(old(arrayBuffer[..]))
      ensures stepCount == WindowSteps(lowPass(old(arrayBuffer[..])))
      ensures windows == old(windows) + [stepCount]
      ensures prefs.entries == old(prefs.entries)[StepCountKey := old(prefs.GetInt(StepCountKey, 0)) + stepCount]
      ensures emitted == old(emitted) + [prefs.GetInt(StepCountKey, 0)]
      ensures prefs.GetInt(StepCountKey, 0) == initial + Sum(windows) && emitted == Totals(initial, windows)
    {
      arrayBuffer := FilterBuffer(arrayBuffer, lowPass);
      stepCount := CheckSteps(arrayBuffer);
      RecordWindowCount(stepCount);
    }

    /**
     * The read-modify-write of the stored total under "stepCount",
     * followed by the emission of the value read back.
     */
    method RecordWindowCount(count: nat)
      requires prefs.GetInt(StepCountKey, 0) == initial + Sum(windows) && emitted == Totals(initial, windows)
      modifies this`emitted, this`windows, prefs
      ensures windows == old(windows) + [count]
      ensures prefs.entries == old(prefs.entries)[StepCountKey := old(prefs.GetInt(StepCountKey, 0)) + count]
      ensures emitted == old(emitted) + [prefs.GetInt(StepCountKey, 0)]
      ensures prefs.GetInt(StepCountKey, 0) == initial + Sum(windows) && emitted == Totals(initial, windows)
    {
      var currentStepCount := prefs.GetInt(StepCountKey, 0);
      prefs.PutInt(StepCountKey, currentStepCount + count);
      emitted := emitted + [prefs.GetInt(StepCountKey, 0)];
      SumAppend(initial, windows, count);
      windows := windows + [count];
    }

    /**
     * `onSensorChanged`: a null event changes nothing. Otherwise the
     * magnitude goes to slot `tick` and the cursor advances; when it wraps
     * to 0 the 100 magnitudes since the last window are filtered and
     * counted, the count is added to the stored total and the new total
     * is emitted.
     */
    method OnSensorChanged(event: Option<real>)
      requires Valid()
      modifies this, arrayBuffer, prefs
      ensures Valid()
      ensures event.None? ==> unchanged(this) && unchanged(arrayBuffer) && unchanged(prefs)
      ensures event.Some? ==> received == old(received) + 1 && tick == NextTick(old(tick))
      ensures event.Some? && tick != 0 ==>
        arrayBuffer == old(arrayBuffer) &&
        arrayBuffer[..] == old(arrayBuffer[..])[old(tick) := event.value] &&
        stepCount == old(stepCount) && emitted == old(emitted) && windows == old(windows) &&
        prefs.entries == old(prefs.entries)
      ensures event.Some? && tick == 0 ==>
        var window := old(arrayBuffer[..])[old(tick) := event.value];
        window == old(samples) + [event.value] &&
        fresh(arrayBuffer) && arrayBuffer[..] == lowPass(window) &&
        stepCount == WindowSteps(lowPass(window)) &&
        windows == old(windows) + [stepCount] &&
        prefs.entries == old(prefs.entries)[StepCountKey := old(prefs.GetInt(StepCountKey, 0)) + stepCount] &&
        emitted == old(emitted) + [prefs.GetInt(StepCountKey, 0)]
    {
      if event.Some? {
        var mag := event.value;
        ghost var window := arrayBuffer[..][tick := mag];
        assert window == samples + [mag] + arrayBuffer[tick + 1..];
        CadenceStep(received, |windows|, tick);
        tick := WriteSample(arrayBuffer, tick, mag);
        received := received + 1;
        if tick == 0 {
          assert window == old(samples) + [mag];
          CompleteWindow();
          samples := [];
        } else {
          samples := samples + [mag];
        }
      }
    }
  }
}
