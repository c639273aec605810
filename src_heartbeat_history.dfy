/**
 * The older copy of the heartbeat window (src/_heartbeat_history.py). Its
 * constructor, `drop_oldest` and `__add__` are the same as the main copy's
 * and are modelled once, in HeartbeatHistory. Only its statistics differ:
 * `mean` divides the running sum by the capacity rather than by the number
 * of samples, and `variance` subtracts the square of that mean.
 */
module SrcHeartbeatHistory {
  import opened Wrappers
  import opened HeartbeatHistory

  /**
   * `mean()` as written in the older copy: the running sum over the
   * capacity. On a valid non-empty window this is the sample mean scaled by
   * how full the window is.
   */
  function CapacityMean(h: History): (m: real)
    requires h.maxSampleSize >= 1
    ensures Valid(h) && |h.intervals| > 0 ==>
              m == SampleMean(h.intervals) * (|h.intervals| as real / h.maxSampleSize as real)
  {
    h.intervalSum as real / h.maxSampleSize as real
  }

  /**
   * `variance()` of the older copy: squares averaged over the samples, minus
   * the capacity mean squared. On a valid window it exceeds the population
   * variance by exactly the difference of the two squared means.
   */
  function CapacityVariance(h: History): (v: real)
    requires h.maxSampleSize >= 1 && |h.intervals| > 0
    ensures Valid(h) ==>
              v == PopulationVariance(h.intervals)
                   + (SampleMean(h.intervals) * SampleMean(h.intervals) - CapacityMean(h) * CapacityMean(h))
  {
    RunningVariance(h.intervals);
    h.squaredIntervalSum as real / |h.intervals| as real - CapacityMean(h) * CapacityMean(h)
  }

  /**
   * Once the window is full, the capacity-based statistics are the sample
   * mean and the population variance of the window.
   */
  lemma FullWindowStatistics(h: History)
    requires Valid(h) && |h.intervals| == h.maxSampleSize
    ensures CapacityMean(h) == SampleMean(h.intervals)
    ensures CapacityVariance(h) == PopulationVariance(h.intervals)
  {
  }

  /**
   * While the window is not yet full and holds a positive total, the
   * capacity-based mean is strictly below the sample mean and the variance
   * strictly above the population variance.
   */
  lemma PartialWindowStatistics(h: History)
    requires Valid(h) && 0 < |h.intervals| < h.maxSampleSize && Sum(h.intervals) > 0
    ensures 0.0 < CapacityMean(h) < SampleMean(h.intervals)
    ensures CapacityVariance(h) > PopulationVariance(h.intervals)
  {
    LargerDivisor(h.intervalSum as real, |h.intervals| as real, h.maxSampleSize as real);
  }

  lemma LargerDivisor(sum: real, n: real, cap: real)
    requires 0.0 < sum && 0.0 < n < cap
    ensures 0.0 < sum / cap < sum / n
    ensures (sum / cap) * (sum / cap) < (sum / n) * (sum / n)
  {
  }

  /** The window [1] of capacity 3: the older `mean` gives 1/3 where the sample mean is 1. */
  lemma SingleSampleCounterexample()
    ensures AppendAll(Empty(3), [1]) == Success(History(3, [1], 1, 1))
    ensures CapacityMean(History(3, [1], 1, 1)) == 1.0 / 3.0
    ensures SampleMean([1]) == 1.0
    ensures CapacityVariance(History(3, [1], 1, 1)) == 8.0 / 9.0
    ensures PopulationVariance([1]) == 0.0
  {
    SlidingWindow(3, [1]);
  }

  /**
   * After at least `maxSampleSize` non-negative appends to an empty window,
   * the older statistics agree with the closed-form statistics of the last
   * `maxSampleSize` intervals.
   */
  lemma StatisticsAfterFill(maxSampleSize: int, xs: seq<int>)
    requires maxSampleSize >= 1 && NonNegative(xs) && |xs| >= maxSampleSize
    ensures AppendAll(Empty(maxSampleSize), xs).Success?
    ensures |AppendAll(Empty(maxSampleSize), xs).value.intervals| == maxSampleSize
    ensures CapacityMean(AppendAll(Empty(maxSampleSize), xs).value) == SampleMean(LastN(xs, maxSampleSize))
    ensures CapacityVariance(AppendAll(Empty(maxSampleSize), xs).value) == PopulationVariance(LastN(xs, maxSampleSize))
  {
    SlidingWindow(maxSampleSize, xs);
    FullWindowStatistics(AppendAll(Empty(maxSampleSize), xs).value);
  }

  /** Capacity three, intervals 1, 2, 3: the full window gives mean 2 and variance 2/3. */
  lemma ThreeIntervalsFull()
    ensures AppendAll(Empty(3), [1, 2, 3]) == Success(History(3, [1, 2, 3], 6, 14))
    ensures CapacityMean(History(3, [1, 2, 3], 6, 14)) == 2.0
    ensures CapacityVariance(History(3, [1, 2, 3], 6, 14)) == 2.0 / 3.0
  {
    ThreeIntervals();
  }
}
