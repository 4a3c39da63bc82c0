/**
 * `fallbackStepDetectorSensorEventListener`: keeps the step counts of
 * the last two completed windows and emits `-1` (stopped) when both are
 * zero and `-2` (walking) when both are positive.
 */
module StepDetector {

  import opened Wrappers
  import opened SampleWindow
  import opened PeakDetection

  /** Emitted when two consecutive windows have no step. */
  const Stopped: int := -1

  /** Emitted when two consecutive windows both have steps. */
  const Walking: int := -2

  /** What is emitted when the retained pair of window counts is `(previous, current)`. */
  function Classify(previous: int, current: int): seq<int>
  {
    (if previous == 0 && current == 0 then [Stopped] else [])
    + (if previous > 0 && current > 0 then [Walking] else [])
  }

  /**
   * The two tests are independent but exclusive by value: a pair emits
   * "stopped" exactly when both counts are zero, "walking" exactly when
   * both are positive, nothing for a mixed pair, and never two values.
   */
  lemma ClassifyRules(previous: int, current: int)
    ensures |Classify(previous, current)| <= 1
    ensures Classify(previous, current) == [Stopped] <==> previous == 0 && current == 0
    ensures Classify(previous, current) == [Walking] <==> previous > 0 && current > 0
    ensures Classify(previous, current) == [] <==> !(previous == 0 && current == 0) && !(previous > 0 && current > 0)
  {
    assert [Stopped] + [] == [Stopped] && [] + [Walking] == [Walking] && [Stopped] != [Walking];
  }

  /** The `stepCounts` list after the given windows: the last two counts, oldest first. */
  function Recent(counts: seq<nat>): seq<int>
  {
    if |counts| <= 2 then counts else counts[|counts| - 2..]
  }

  /**
   * Everything emitted over the given windows: each window from the third
   * on emits the classification of itself and the window before it.
   */
  function Signals(counts: seq<nat>): seq<int>
  {
    if |counts| <= 2 then []
    else Signals(counts[..|counts| - 1]) + Classify(counts[|counts| - 2], counts[|counts| - 1])
  }

  /**
   * The first two windows emit nothing, and after that each window emits
   * at most one value, so `n` windows emit at most `n - 2` values, all of
   * them sentinels.
   */
  lemma {:induction false} SignalsBounds(counts: seq<nat>)
    ensures |counts| <= 2 ==> Signals(counts) == []
    ensures |Signals(counts)| <= (if |counts| <= 2 then 0 else |counts| - 2)
    ensures forall j :: 0 <= j < |Signals(counts)| ==> Signals(counts)[j] in {Stopped, Walking}
  {
    if |counts| > 2 {
      SignalsBounds(counts[..|counts| - 1]);
    }
  }

  /**
   * When every window has steps, the detector reports "walking" once per
   * window from the third on; when none has, "stopped".
   */
  lemma {:induction false} SteadySignals(counts: seq<nat>, walking: bool)
    requires forall j :: 0 <= j < |counts| ==> (counts[j] > 0) == walking
    ensures Signals(counts) == seq(if |counts| <= 2 then 0 else |counts| - 2, _ => if walking then Walking else Stopped)
  {
    if |counts| > 2 {
      SteadySignals(counts[..|counts| - 1], walking);
    }
  }

  /** Adding a window: the list grows to two entries, then the oldest is evicted. */
  lemma RecentAppend(counts: seq<nat>, c: nat)
    ensures |Recent(counts)| <= 2
    ensures Recent(counts + [c]) ==
            if |Recent(counts)| == 2 then [Recent(counts)[1], c] else Recent(counts) + [c]
  {
  }

  /** Adding a window emits the classification of the last retained count and the new one, once two were retained. */
  lemma SignalsAppend(counts: seq<nat>, c: nat)
    ensures |Recent(counts)| == 2 ==> Signals(counts + [c]) == Signals(counts) + Classify(Recent(counts)[1], c)
    ensures |Recent(counts)| < 2 ==> Signals(counts + [c]) == []
  {
    assert (counts + [c])[..|counts|] == counts;
  }

  class FallbackStepDetector {
    /** `arrayBuffer`: the magnitudes of the current window. */
    var arrayBuffer: array<real>
    /** `tick`: the slot the next magnitude is written to. */
    var tick: nat
    /** `stepCount`: the step count of the last completed window. */
    var stepCount: nat
    /** `stepCounts`: the counts of the last (at most two) completed windows, oldest first. */
    var stepCounts: seq<int>
    /** The values passed to `events.success`, in order. */
    var emitted: seq<int>
    /** The low-pass filter applied to each completed window. */
    const lowPass: LowPass

    /** The magnitudes received since the last completed window, in order. */
    ghost var samples: seq<real>
    /** The number of non-null events received. */
    ghost var received: nat
    /** The step counts of all completed windows, in order. */
    ghost var windows: seq<nat>

    ghost predicate Valid()
      reads this, arrayBuffer
    {
      arrayBuffer.Length == BufferSize &&
      tick < BufferSize &&
      received == |windows| * BufferSize + tick &&
      samples == arrayBuffer[..tick] &&
      stepCounts == Recent(windows) &&
      emitted == Signals(windows)
    }

    constructor (lowPass: LowPass)
      ensures Valid() && fresh(arrayBuffer)
      ensures this.lowPass == lowPass
      ensures forall i :: 0 <= i < BufferSize ==> arrayBuffer[i] == 0.0
      ensures tick == 0 && stepCount == 0 && stepCounts == [] && emitted == []
      ensures received == 0 && windows == []
    {
      arrayBuffer := new real[BufferSize](_ => 0.0);
      tick, stepCount, stepCounts, emitted := 0, 0, [], [];
      this.lowPass := lowPass;
      samples, received, windows := [], 0, [];
    }

    /** After `received` non-null events the cursor is `received % 100` and `received / 100` windows have completed. */
    lemma CursorCadence()
      requires Valid()
      ensures tick == received % BufferSize && |windows| == received / BufferSize
    {
      Cadence(received, |windows|, tick);
    }

    /** The retained history never holds more than two counts, and holds the latest ones. */
    lemma HistoryBounded()
      requires Valid()
      ensures |stepCounts| <= 2 && |stepCounts| == (if |windows| < 2 then |windows| else 2)
      ensures |windows| > 0 ==> stepCounts[|stepCounts| - 1] == windows[|windows| - 1]
    {
    }

    /**
     * Nothing is emitted before the third window, at most one value per
     * window after that, and only the two sentinels.
     */
    lemma EmissionsBounded()
      requires Valid()
      ensures |windows| <= 2 ==> emitted == []
      ensures |emitted| <= (if |windows| <= 2 then 0 else |windows| - 2)
      ensures forall j :: 0 <= j < |emitted| ==> emitted[j] == Stopped || emitted[j] == Walking
    {
      SignalsBounds(windows);
    }

    /**
     * Window processing, run when the cursor wraps: `filterBuffer`,
     * `checkSteps`, then the update of the recent counts.
     */
    method CompleteWindow()
      requires arrayBuffer.Length == BufferSize
      requires stepCounts == Recent(windows) && emitted == Signals(windows)
      modifies this`arrayBuffer, this`stepCount, this`stepCounts, this`emitted, this`windows
      ensures fresh(arrayBuffer) && arrayBuffer[..] == lowPass(old(arrayBuffer[..]))
      ensures stepCount == WindowSteps(lowPass(old(arrayBuffer[..])))
      ensures windows == old(windows) + [stepCount]
      ensures stepCounts == Recent(windows) && emitted == Signals(windows)
      ensures stepCounts == (if |old(stepCounts)| == 2 then [old(stepCounts)[1], stepCount]
                             else old(stepCounts) + [stepCount])
      ensures emitted == old(emitted) + (if |old(stepCounts)| == 2 then Classify(old(stepCounts)[1], stepCount) else [])
    {
      arrayBuffer := FilterBuffer(arrayBuffer, lowPass);
      stepCount := CheckSteps(arrayBuffer);
      RecordWindowCount(stepCount);
    }

    /**
     * `stepCounts.add(count)`, then, once the list holds more than two
     * counts, `removeAt(0)` and the classification of the pair that
     * remains. The list and the emissions are built locally and stored
     * at the end; nothing else observes them in between.
     */
    method RecordWindowCount(count: nat)
      requires stepCounts == Recent(windows) && emitted == Signals(windows)
      modifies this`stepCounts, this`emitted, this`windows
      ensures windows == old(windows) + [count]
      ensures stepCounts == Recent(windows) && emitted == Signals(windows)
      ensures stepCounts == (if |old(stepCounts)| == 2 then [old(stepCounts)[1], count]
                             else old(stepCounts) + [count])
      ensures emitted == old(emitted) + (if |old(stepCounts)| == 2 then Classify(old(stepCounts)[1], count) else [])
    {
      RecentAppend(windows, count);
      SignalsAppend(windows, count);
      var counts := stepCounts + [count];
      var out := emitted;
      if |counts| > 2 {
        counts := counts[1..];
        if counts[0] == 0 && counts[1] == 0 {
          out := out + [Stopped];
        }
        if counts[0] > 0 && counts[1] > 0 {
          out := out + [Walking];
        }
        assert counts == [stepCounts[1], count];
        assert out == emitted + Classify(stepCounts[1], count);
      }
      stepCounts, emitted, windows := counts, out, windows + [count];
    }

    /**
     * `onSensorChanged`: a null event changes nothing. Otherwise the
     * magnitude goes to slot `tick` and the cursor advances; when it wraps
     * to 0 the 100 magnitudes since the last window are filtered and
     * counted, the count joins `stepCounts` (evicting the oldest once
     * there are more than two) and, when an entry was evicted, the
     * retained pair is classified.
     */
    method OnSensorChanged(event: Option<real>)
      requires Valid()
      modifies this, arrayBuffer
      ensures Valid()
      ensures event.None? ==> unchanged(this) && unchanged(arrayBuffer)
      ensures event.Some? ==> received == old(received) + 1 && tick == NextTick(old(tick))
      ensures event.Some? && tick != 0 ==>
        arrayBuffer == old(arrayBuffer) &&
        arrayBuffer[..] == old(arrayBuffer[..])[old(tick) := event.value] &&
        stepCount == old(stepCount) && stepCounts == old(stepCounts) &&
        emitted == old(emitted) && windows == old(windows)
      ensures event.Some? && tick == 0 ==>
        var window := old(arrayBuffer[..])[old(tick) := event.value];
        window == old(samples) + [event.value] &&
        fresh(arrayBuffer) && arrayBuffer[..] == lowPass(window) &&
        stepCount == WindowSteps(lowPass(window)) &&
        windows == old(windows) + [stepCount] &&
        stepCounts == (if |old(stepCounts)| == 2 then [old(stepCounts)[1], stepCount]
                       else old(stepCounts) + [stepCount]) &&
        emitted == old(emitted) + (if |old(stepCounts)| == 2 then Classify(old(stepCounts)[1], stepCount) else [])
    {
      if event.Some? {
        var mag := event.value;
        ghost var window := arrayBuffer[..][tick := mag];
        assert window == samples + [mag] + arrayBuffer[tick + 1..];
        CadenceStep(received, |windows|, tick);
        tick := WriteSample(arrayBuffer, tick, mag);
        received := received + 1;
        if tick == 0 {
          assert window == old(samples) + [mag];
          CompleteWindow();
          samples := [];
        } else {
          samples := samples + [mag];
        }
      }
    }
  }
}
