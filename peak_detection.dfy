/**
 * `checkSteps`: local peaks of a filtered window, their mean, the peaks
 * that clear both the relative and the absolute threshold, and the bias
 * correction. The scan ranges over `1 until size - 1`.
 */
module PeakDetection {

  /** Relative-amplitude multiplier `c`. */
  const C: real := 1.05

  /** Absolute noise floor `threshold`. */
  const Threshold: real := 1.2

  /** Index `i` is a strict interior local peak of `s`. */
  predicate IsPeak(s: seq<real>, i: int)
  {
    1 <= i < |s| - 1 && s[i] - s[i - 1] > 0.0 && s[i] - s[i + 1] > 0.0
  }

  /** Index `i` is a peak that qualifies as a step against the given peak mean. */
  predicate IsStep(s: seq<real>, i: int, peakMean: real)
  {
    IsPeak(s, i) && s[i] > C * peakMean && s[i] > Threshold
  }

  /** Exclusive end of the scan `1 until n - 1`, never below its start 1. */
  function ScanEnd(n: nat): nat
  {
    if n < 2 then 1 else n - 1
  }

  /** The peaks among the indices below `k`, in increasing order. */
  function PeaksBelow(s: seq<real>, k: nat): (r: seq<nat>)
    ensures forall j :: 0 <= j < |r| ==> IsPeak(s, r[j]) && r[j] < k
  {
    if k == 0 then [] else PeaksBelow(s, k - 1) + (if IsPeak(s, k - 1) then [k - 1] else [])
  }

  /** The step indices among the indices below `k`, in increasing order. */
  function StepsBelow(s: seq<real>, peakMean: real, k: nat): (r: seq<nat>)
    ensures forall j :: 0 <= j < |r| ==> IsStep(s, r[j], peakMean) && r[j] < k
  {
    if k == 0 then [] else StepsBelow(s, peakMean, k - 1) + (if IsStep(s, k - 1, peakMean) then [k - 1] else [])
  }

  /** The sum of the values of `s` at the indices `idx`. */
  function SumAt(s: seq<real>, idx: seq<nat>): real
    requires forall j :: 0 <= j < |idx| ==> idx[j] < |s|
  {
    if idx == [] then 0.0 else SumAt(s, idx[..|idx| - 1]) + s[idx[|idx| - 1]]
  }

  /** All local peaks of the window. */
  function Peaks(s: seq<real>): seq<nat>
  {
    PeaksBelow(s, ScanEnd(|s|))
  }

  /** `peakAccumulate`: the sum of all peak values. */
  function PeakSum(s: seq<real>): real
  {
    SumAt(s, Peaks(s))
  }

  /**
   * `peakMean`. With no peak the source divides by zero; the model picks
   * 0.0, which cannot matter (see NoPeaksNoSteps).
   */
  function PeakMean(s: seq<real>): real
  {
    if |Peaks(s)| > 0 then PeakSum(s) / (|Peaks(s)| as real) else 0.0
  }

  /** The indices counted as steps before the bias correction. */
  function Steps(s: seq<real>): seq<nat>
  {
    StepsBelow(s, PeakMean(s), ScanEnd(|s|))
  }

  /** The raw count of qualifying peaks. */
  function RawSteps(s: seq<real>): nat
  {
    |Steps(s)|
  }

  /** The window's step count after the "minus one if positive" correction. */
  function WindowSteps(s: seq<real>): nat
  {
    if RawSteps(s) > 0 then RawSteps(s) - 1 else 0
  }

  /** The scan below `k` finds every peak below `k`. */
  lemma {:induction false} PeaksBelowComplete(s: seq<real>, k: nat, i: int)
    requires 0 <= i < k && IsPeak(s, i)
    ensures i in PeaksBelow(s, k)
  {
    if i < k - 1 {
      PeaksBelowComplete(s, k - 1, i);
    }
  }

  /** The scan below `k` finds every step index below `k`. */
  lemma {:induction false} StepsBelowComplete(s: seq<real>, peakMean: real, k: nat, i: int)
    requires 0 <= i < k && IsStep(s, i, peakMean)
    ensures i in StepsBelow(s, peakMean, k)
  {
    if i < k - 1 {
      StepsBelowComplete(s, peakMean, k - 1, i);
    }
  }

  /** The peak scan lists each index once, in increasing order. */
  lemma {:induction false} PeaksBelowIncreasing(s: seq<real>, k: nat)
    ensures forall a, b :: 0 <= a < b < |PeaksBelow(s, k)| ==> PeaksBelow(s, k)[a] < PeaksBelow(s, k)[b]
  {
    if k > 0 {
      PeaksBelowIncreasing(s, k - 1);
    }
  }

  /** The step scan lists each index once, in increasing order. */
  lemma {:induction false} StepsBelowIncreasing(s: seq<real>, peakMean: real, k: nat)
    ensures forall a, b :: 0 <= a < b < |StepsBelow(s, peakMean, k)| ==>
              StepsBelow(s, peakMean, k)[a] < StepsBelow(s, peakMean, k)[b]
  {
    if k > 0 {
      StepsBelowIncreasing(s, peakMean, k - 1);
    }
  }

  /**
   * Peaks are exactly the strict interior local maxima: indices 0 and
   * `|s| - 1` and plateau points are never peaks.
   */
  lemma PeaksAreInteriorMaxima(s: seq<real>, i: int)
    ensures i in Peaks(s) <==> 1 <= i <= |s| - 2 && s[i] > s[i - 1] && s[i] > s[i + 1]
    ensures i in Peaks(s) ==> i != 0 && i != |s| - 1
  {
    if 1 <= i <= |s| - 2 && s[i] > s[i - 1] && s[i] > s[i + 1] {
      PeaksBelowComplete(s, ScanEnd(|s|), i);
    }
  }

  /** Every index counted as a step is a peak above both thresholds, and every such peak is counted. */
  lemma StepsQualify(s: seq<real>, i: int)
    ensures i in Steps(s) <==> IsPeak(s, i) && s[i] > C * PeakMean(s) && s[i] > Threshold
  {
    if IsStep(s, i, PeakMean(s)) {
      StepsBelowComplete(s, PeakMean(s), ScanEnd(|s|), i);
    }
  }

  /** The second scan re-finds a subset of the first scan's peaks; the sets coincide only if every peak qualifies. */
  lemma {:induction false} StepsWithinPeaks(s: seq<real>, peakMean: real, k: nat)
    ensures |StepsBelow(s, peakMean, k)| <= |PeaksBelow(s, k)|
    ensures |StepsBelow(s, peakMean, k)| == |PeaksBelow(s, k)| ==> StepsBelow(s, peakMean, k) == PeaksBelow(s, k)
  {
    if k > 0 {
      StepsWithinPeaks(s, peakMean, k - 1);
    }
  }

  /** `n` copies of `t` added up, the bound a sum of `n` values above `t` exceeds. */
  function Times(n: nat, t: real): real
  {
    if n == 0 then 0.0 else Times(n - 1, t) + t
  }

  lemma {:induction false} TimesIsProduct(n: nat, t: real)
    ensures Times(n, t) == (n as real) * t
  {
    if n > 0 {
      TimesIsProduct(n - 1, t);
    }
  }

  /** A sum of values that all exceed `t` exceeds `|idx|` copies of `t` (strictly once there is one). */
  lemma {:induction false} SumAbove(s: seq<real>, idx: seq<nat>, t: real)
    requires forall j :: 0 <= j < |idx| ==> idx[j] < |s| && s[idx[j]] > t
    ensures SumAt(s, idx) >= Times(|idx|, t)
    ensures |idx| > 0 ==> SumAt(s, idx) > Times(|idx|, t)
  {
    if idx != [] {
      SumAbove(s, idx[..|idx| - 1], t);
    }
  }

  /**
   * `n` values whose sum is `sum` cannot all exceed both 1.05 times their
   * mean and the positive floor 1.2.
   */
  lemma AllQualifyingIsImpossible(sum: real, n: nat, mean: real)
    requires n > 0 && mean == sum / (n as real)
    ensures !(sum > Times(n, C * mean) && sum > Times(n, Threshold))
  {
    TimesIsProduct(n, C * mean);
    TimesIsProduct(n, Threshold);
    assert (n as real) * mean == sum;
    assert (n as real) * (C * mean) == C * ((n as real) * mean);
  }

  /** The values at step indices sum to more than `|p|` copies of either threshold. */
  lemma StepsExceed(s: seq<real>, p: seq<nat>, peakMean: real)
    requires |p| > 0
    requires forall j :: 0 <= j < |p| ==> p[j] < |s| && IsStep(s, p[j], peakMean)
    ensures SumAt(s, p) > Times(|p|, C * peakMean)
    ensures SumAt(s, p) > Times(|p|, Threshold)
  {
    SumAbove(s, p, C * peakMean);
    SumAbove(s, p, Threshold);
  }

  /**
   * Not every peak can qualify: otherwise the peak sum would exceed 1.05
   * times itself while being positive. So the raw count is at most
   * `peakCount - 1` whenever there is a peak.
   */
  lemma NotAllPeaksQualify(s: seq<real>)
    requires |Peaks(s)| > 0
    ensures RawSteps(s) <= |Peaks(s)| - 1
  {
    var p, mean := Peaks(s), PeakMean(s);
    StepsWithinPeaks(s, mean, ScanEnd(|s|));
    if RawSteps(s) == |p| {
      assert Steps(s) == p;
      StepsExceed(s, p, mean);
      AllQualifyingIsImpossible(PeakSum(s), |p|, mean);
      assert false;
    }
  }

  /** With no peak nothing qualifies, whatever the (undefined) mean is. */
  lemma NoPeaksNoSteps(s: seq<real>, peakMean: real)
    requires Peaks(s) == []
    ensures StepsBelow(s, peakMean, ScanEnd(|s|)) == []
    ensures WindowSteps(s) == 0
  {
    StepsWithinPeaks(s, peakMean, ScanEnd(|s|));
    StepsWithinPeaks(s, PeakMean(s), ScanEnd(|s|));
  }

  /**
   * The window count is `max(raw - 1, 0)`, never above the peak count, and
   * because not every peak qualifies a window with fewer than three peaks
   * yields no step.
   */
  lemma WindowStepsBounds(s: seq<real>)
    ensures WindowSteps(s) == (if RawSteps(s) >= 1 then RawSteps(s) - 1 else 0)
    ensures WindowSteps(s) == 0 || WindowSteps(s) + 2 <= |Peaks(s)|
    ensures |Peaks(s)| < 3 ==> WindowSteps(s) == 0
  {
    if |Peaks(s)| > 0 {
      NotAllPeaksQualify(s);
    } else {
      NoPeaksNoSteps(s, PeakMean(s));
    }
  }

  /** An idle (constant) window has no peak and no step. */
  lemma ConstantWindowNoSteps(s: seq<real>)
    requires forall i :: 0 <= i < |s| ==> s[i] == s[0]
    ensures Peaks(s) == []
    ensures WindowSteps(s) == 0
  {
    NoPeaksNoSteps(s, PeakMean(s));
  }

  lemma SumAtAppend(s: seq<real>, idx: seq<nat>, i: nat)
    requires forall j :: 0 <= j < |idx| ==> idx[j] < |s|
    requires i < |s|
    ensures SumAt(s, idx + [i]) == SumAt(s, idx) + s[i]
  {
    assert (idx + [i])[..|idx|] == idx;
  }

  /** The first scan of `checkSteps`: counts the peaks and adds up their values. */
  method ScanPeaks(buffer: array<real>) returns (peakCount: nat, peakAccumulate: real)
    ensures peakCount == |Peaks(buffer[..])|
    ensures peakAccumulate == PeakSum(buffer[..])
  {
    ghost var s := buffer[..];
    var n := buffer.Length;
    peakCount, peakAccumulate := 0, 0.0;
    var i := 1;
    while i < n - 1
      invariant 1 <= i <= ScanEnd(n)
      invariant peakCount == |PeaksBelow(s, i)|
      invariant peakAccumulate == SumAt(s, PeaksBelow(s, i))
    {
      var curr := buffer[i];
      assert curr == s[i] && buffer[i - 1] == s[i - 1] && buffer[i + 1] == s[i + 1];
      if curr - buffer[i - 1] > 0.0 && curr - buffer[i + 1] > 0.0 {
        assert PeaksBelow(s, i + 1) == PeaksBelow(s, i) + [i];
        SumAtAppend(s, PeaksBelow(s, i), i);
        peakCount := peakCount + 1;
        peakAccumulate := peakAccumulate + curr;
      } else {
        assert PeaksBelow(s, i + 1) == PeaksBelow(s, i);
      }
      i := i + 1;
    }
  }

  /** The second scan of `checkSteps`: counts the peaks above both thresholds. */
  method CountQualifying(buffer: array<real>, peakMean: real) returns (count: nat)
    ensures count == |StepsBelow(buffer[..], peakMean, ScanEnd(buffer.Length))|
  {
    ghost var s := buffer[..];
    var n := buffer.Length;
    count := 0;
    var i := 1;
    while i < n - 1
      invariant 1 <= i <= ScanEnd(n)
      invariant count == |StepsBelow(s, peakMean, i)|
    {
      var curr := buffer[i];
      assert curr == s[i] && buffer[i - 1] == s[i - 1] && buffer[i + 1] == s[i + 1];
      if curr - buffer[i - 1] > 0.0 && curr - buffer[i + 1] > 0.0
         && curr > C * peakMean && curr > Threshold
      {
        assert StepsBelow(s, peakMean, i + 1) == StepsBelow(s, peakMean, i) + [i];
        count := count + 1;
      } else {
        assert StepsBelow(s, peakMean, i + 1) == StepsBelow(s, peakMean, i);
      }
      i := i + 1;
    }
  }

  /**
   * `checkSteps`: the two scans and the bias correction. The result
   * depends on the buffer contents alone; the counters start from zero on
   * every call, so nothing carries over from an earlier window.
   */
  method CheckSteps(buffer: array<real>) returns (stepCount: nat)
    ensures stepCount == WindowSteps(buffer[..])
  {
    var peakCount, peakAccumulate := ScanPeaks(buffer);
    var peakMean := if peakCount > 0 then peakAccumulate / (peakCount as real) else 0.0;
    stepCount := CountQualifying(buffer, peakMean);
    if stepCount > 0 {
      stepCount := stepCount - 1;
    }
  }
}
