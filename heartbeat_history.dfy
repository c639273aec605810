/**
 * The sample window of the phi accrual failure detector: a bounded FIFO of
 * inter-heartbeat intervals that carries the running sum and the running
 * sum of squares of its intervals, so that mean and variance cost O(1).
 *
 * A history is an immutable value: the constructor, `DropOldest` and
 * `Append` each build a new one. Where the Python constructor raises, the
 * model returns `Failure`.
 */
module HeartbeatHistory {
  import opened Wrappers

  /** Why building a history fails. */
  datatype HistoryError =
    | MaxSampleSizeTooSmall(maxSampleSize: int)
    | NegativeIntervalSum(intervalSum: int)
    | NegativeSquaredIntervalSum(squaredIntervalSum: int)
      // `drop_oldest` on an empty window reads `intervals[0]` (an IndexError)
    | NoOldestInterval

  /** The four attributes of one history instance. */
  datatype History = History(
    maxSampleSize: int,
    intervals: seq<int>,
    intervalSum: int,
    squaredIntervalSum: int)

  /** Reference definitions of the two running aggregates. */
  function Sum(s: seq<int>): int
  {
    if s == [] then 0 else s[0] + Sum(s[1..])
  }

  function SumOfSquares(s: seq<int>): int
  {
    if s == [] then 0 else s[0] * s[0] + SumOfSquares(s[1..])
  }

  predicate NonNegative(s: seq<int>)
  {
    forall i :: 0 <= i < |s| ==> s[i] >= 0
  }

  /**
   * The representation invariant: a positive capacity that the window
   * respects, and running sums that agree with the window's contents.
   */
  ghost predicate Valid(h: History)
  {
    && h.maxSampleSize >= 1
    && |h.intervals| <= h.maxSampleSize
    && h.intervalSum == Sum(h.intervals)
    && h.squaredIntervalSum == SumOfSquares(h.intervals)
  }

  /**
   * The constructor: rejects a capacity below one and negative sums, in
   * that order; otherwise stores its arguments as given (it does not check
   * them against each other).
   */
  function New(maxSampleSize: int, intervals: seq<int>, intervalSum: int, squaredIntervalSum: int)
    : (r: Result<History, HistoryError>)
    ensures r.Success? <==> maxSampleSize >= 1 && intervalSum >= 0 && squaredIntervalSum >= 0
    ensures r.Success? ==> r.value == History(maxSampleSize, intervals, intervalSum, squaredIntervalSum)
    ensures maxSampleSize < 1 ==> r == Failure(MaxSampleSizeTooSmall(maxSampleSize))
    ensures maxSampleSize >= 1 && intervalSum < 0 ==> r == Failure(NegativeIntervalSum(intervalSum))
    ensures maxSampleSize >= 1 && intervalSum >= 0 && squaredIntervalSum < 0 ==>
              r == Failure(NegativeSquaredIntervalSum(squaredIntervalSum))
  {
    if maxSampleSize < 1 then Failure(MaxSampleSizeTooSmall(maxSampleSize))
    else if intervalSum < 0 then Failure(NegativeIntervalSum(intervalSum))
    else if squaredIntervalSum < 0 then Failure(NegativeSquaredIntervalSum(squaredIntervalSum))
    else Success(History(maxSampleSize, intervals, intervalSum, squaredIntervalSum))
  }

  /** The constructor called with the capacity alone: an empty window. */
  function Empty(maxSampleSize: int): (h: History)
    requires maxSampleSize >= 1
    ensures Valid(h) && h.maxSampleSize == maxSampleSize && h.intervals == []
    ensures New(maxSampleSize, [], 0, 0) == Success(h)
  {
    New(maxSampleSize, [], 0, 0).value
  }

  /**
   * A new history without the oldest interval; both sums lose exactly that
   * interval's contribution. On a valid history the squared-sum check can
   * never fire, and the sum check fires only if the remaining intervals
   * sum to a negative number.
   */
  function DropOldest(h: History): (r: Result<History, HistoryError>)
    ensures h.intervals == [] ==> r == Failure(NoOldestInterval)
    ensures r.Success? ==> r.value.maxSampleSize == h.maxSampleSize && r.value.intervals == h.intervals[1..]
    ensures Valid(h) && h.intervals != [] ==> (r.Success? <==> Sum(h.intervals[1..]) >= 0)
    ensures Valid(h) && r.Success? ==> Valid(r.value)
  {
    if |h.intervals| == 0 then Failure(NoOldestInterval)
    else
      SumOfSquaresNonNegative(h.intervals[1..]);
      New(h.maxSampleSize,
          h.intervals[1..],
          h.intervalSum - h.intervals[0],
          h.squaredIntervalSum - h.intervals[0] * h.intervals[0])
  }

  /**
   * `history + interval`. Below capacity the interval is appended and both
   * sums grow by it; at capacity the oldest interval is dropped first and
   * the append is retried on the shorter window. On a valid history the
   * result is valid, keeps the capacity, and holds the old window (less its
   * oldest element when full) followed by the new interval; the recursion
   * then takes exactly one step.
   */
  function Append(h: History, interval: int): (r: Result<History, HistoryError>)
    ensures r.Success? ==> r.value.maxSampleSize == h.maxSampleSize
    ensures Valid(h) && r.Success? ==>
              && Valid(r.value)
              && r.value.intervals ==
                   (if |h.intervals| < h.maxSampleSize then h.intervals else h.intervals[1..]) + [interval]
    decreases |h.intervals|
  {
    if |h.intervals| < h.maxSampleSize then
      SumsOfSnoc(h.intervals, interval);
      New(h.maxSampleSize,
          h.intervals + [interval],
          h.intervalSum + interval,
          h.squaredIntervalSum + interval * interval)
    else
      match DropOldest(h)
      case Failure(e) => Failure(e)
      case Success(rest) => Append(rest, interval)
  }

  /**
   * `history.mean()`: the running sum over the number of samples. On a
   * valid history this is the sample mean of the window.
   */
  function Mean(h: History): (m: real)
    requires |h.intervals| > 0
    ensures Valid(h) ==> m == SampleMean(h.intervals)
  {
    h.intervalSum as real / |h.intervals| as real
  }

  /**
   * `history.variance()`: the mean of the squares minus the square of the
   * mean. On a valid history this is the population variance of the
   * window, so it is never negative (what `std_dev`'s square root relies on).
   */
  function Variance(h: History): (v: real)
    requires |h.intervals| > 0
    ensures Valid(h) ==> v == PopulationVariance(h.intervals)
    ensures Valid(h) ==> v >= 0.0
  {
    RunningVariance(h.intervals);
    h.squaredIntervalSum as real / |h.intervals| as real - Mean(h) * Mean(h)
  }

  /**
   * `history.std_dev()`, with the square root supplied by the caller: on a
   * valid history, the root of the window's population variance.
   */
  function StdDev(h: History, sqrt: real -> real): (d: real)
    requires |h.intervals| > 0
    ensures Valid(h) ==> d == sqrt(PopulationVariance(h.intervals))
  {
    sqrt(Variance(h))
  }

  // ---------------------------------------------------------------------
  // Closed-form statistics of a window, defined without running sums

  function SampleMean(s: seq<int>): real
    requires |s| > 0
  {
    Sum(s) as real / |s| as real
  }

  function SquaredDeviations(s: seq<int>, c: real): real
  {
    if s == [] then 0.0 else (s[0] as real - c) * (s[0] as real - c) + SquaredDeviations(s[1..], c)
  }

  /** The population variance: the mean squared deviation from the mean. */
  function PopulationVariance(s: seq<int>): real
    requires |s| > 0
  {
    SquaredDeviations(s, SampleMean(s)) / |s| as real
  }

  // ---------------------------------------------------------------------
  // Repeated appends and the sliding-window specification

  /** `h + xs[0] + xs[1] + ...`, stopping at the first failure. */
  function AppendAll(h: History, xs: seq<int>): Result<History, HistoryError>
  {
    if xs == [] then Success(h)
    else
      match AppendAll(h, xs[..|xs| - 1])
      case Failure(e) => Failure(e)
      case Success(g) => Append(g, xs[|xs| - 1])
  }

  /** The last `min(|s|, n)` elements of `s`. */
  function LastN(s: seq<int>, n: nat): seq<int>
  {
    if |s| <= n then s else s[|s| - n..]
  }

  // ---------------------------------------------------------------------
  // Lemmas

  lemma {:induction false} SumsOfSnoc(s: seq<int>, x: int)
    ensures Sum(s + [x]) == Sum(s) + x
    ensures SumOfSquares(s + [x]) == SumOfSquares(s) + x * x
  {
    if s != [] {
      assert (s + [x])[1..] == s[1..] + [x];
      SumsOfSnoc(s[1..], x);
    }
  }

  lemma {:induction false} SumOfSquaresNonNegative(s: seq<int>)
    ensures SumOfSquares(s) >= 0
  {
    if s != [] {
      SumOfSquaresNonNegative(s[1..]);
      assert s[0] * s[0] >= 0;
    }
  }

  lemma {:induction false} SumNonNegative(s: seq<int>)
    requires NonNegative(s)
    ensures Sum(s) >= 0
  {
    if s != [] {
      SumNonNegative(s[1..]);
    }
  }

  /**
   * On a valid history, `Append` fails exactly when the running sum it
   * would build is negative: the capacity and squared-sum checks never fire.
   */
  lemma AppendFailsIff(h: History, x: int)
    requires Valid(h)
    ensures Append(h, x).Failure? <==>
              if |h.intervals| < h.maxSampleSize then Sum(h.intervals) + x < 0
              else Sum(h.intervals[1..]) < 0 || Sum(h.intervals[1..]) + x < 0
  {
    SumOfSquaresNonNegative(h.intervals);
    assert x * x >= 0;
    if |h.intervals| >= h.maxSampleSize {
      var d := DropOldest(h);
      if d.Success? {
        SumOfSquaresNonNegative(d.value.intervals);
      }
    }
  }

  /**
   * With non-negative intervals the constructor's negative-sum checks never
   * fire: appending a non-negative interval always succeeds and keeps every
   * interval non-negative.
   */
  lemma AppendNonNegative(h: History, x: int)
    requires Valid(h) && NonNegative(h.intervals) && x >= 0
    ensures Append(h, x).Success?
    ensures NonNegative(Append(h, x).value.intervals)
  {
    AppendFailsIff(h, x);
    SumNonNegative(h.intervals);
    if |h.intervals| >= h.maxSampleSize {
      SumNonNegative(h.intervals[1..]);
    }
  }

  lemma LastNOfSnoc(s: seq<int>, x: int, n: nat)
    requires n >= 1
    ensures LastN(s + [x], n) ==
              (if |LastN(s, n)| < n then LastN(s, n) else LastN(s, n)[1..]) + [x]
  {
  }

  /**
   * The sliding-window specification: appending non-negative intervals one
   * at a time to an empty window of capacity `maxSampleSize` never fails,
   * and leaves a valid history holding exactly the last
   * `min(|xs|, maxSampleSize)` intervals, oldest first.
   */
  lemma {:induction false} SlidingWindow(maxSampleSize: int, xs: seq<int>)
    requires maxSampleSize >= 1 && NonNegative(xs)
    ensures AppendAll(Empty(maxSampleSize), xs).Success?
    ensures Valid(AppendAll(Empty(maxSampleSize), xs).value)
    ensures AppendAll(Empty(maxSampleSize), xs).value.maxSampleSize == maxSampleSize
    ensures AppendAll(Empty(maxSampleSize), xs).value.intervals == LastN(xs, maxSampleSize)
  {
    if xs != [] {
      var init, x := xs[..|xs| - 1], xs[|xs| - 1];
      assert xs == init + [x];
      SlidingWindow(maxSampleSize, init);
      var g := AppendAll(Empty(maxSampleSize), init).value;
      assert NonNegative(g.intervals) by {
        forall i | 0 <= i < |g.intervals| ensures g.intervals[i] >= 0 {
          assert g.intervals[i] == init[|init| - |g.intervals| + i];
        }
      }
      AppendNonNegative(g, x);
      LastNOfSnoc(init, x, maxSampleSize);
    }
  }

  lemma {:induction false} SquaredDeviationsExpand(s: seq<int>, c: real)
    ensures SquaredDeviations(s, c) ==
              SumOfSquares(s) as real - 2.0 * c * Sum(s) as real + |s| as real * c * c
  {
    if s != [] {
      var t := s[1..];
      SquaredDeviationsExpand(t, c);
      var a := s[0] as real;
      var sqT, sumT, n := SumOfSquares(t) as real, Sum(t) as real, |t| as real;
      assert (s[0] * s[0]) as real == a * a;
      assert SumOfSquares(s) as real == a * a + sqT;
      assert Sum(s) as real == a + sumT;
      assert |s| as real == n + 1.0;
      var cc := c * c;
      assert (a - c) * (a - c) == a * a - 2.0 * (c * a) + cc;
      assert 2.0 * c * (a + sumT) == 2.0 * (c * a) + 2.0 * (c * sumT);
      assert 2.0 * c * sumT == 2.0 * (c * sumT);
      assert (n + 1.0) * c * c == n * cc + cc;
      assert n * c * c == n * cc;
    }
  }

  lemma {:induction false} SquaredDeviationsNonNegative(s: seq<int>, c: real)
    ensures SquaredDeviations(s, c) >= 0.0
  {
    if s != [] {
      SquaredDeviationsNonNegative(s[1..], c);
      var d := s[0] as real - c;
      assert d * d >= 0.0;
    }
  }

  /**
   * The identity behind computing the variance from the two running sums:
   * the mean of the squares minus the squared mean is the population
   * variance, which is never negative.
   */
  lemma {:induction false} RunningVariance(s: seq<int>)
    requires |s| > 0
    ensures PopulationVariance(s) == SumOfSquares(s) as real / |s| as real - SampleMean(s) * SampleMean(s)
    ensures PopulationVariance(s) >= 0.0
  {
    var mu := SampleMean(s);
    assert mu * |s| as real == Sum(s) as real;
    CenteredAt(s, mu);
    SquaredDeviationsNonNegative(s, mu);
  }

  /** Around any `c` with `c·n = Σx`: Σ(x−c)² / n = Σx² / n − c². */
  lemma {:induction false} CenteredAt(s: seq<int>, c: real)
    requires |s| > 0 && c * |s| as real == Sum(s) as real
    ensures SquaredDeviations(s, c) / |s| as real == SumOfSquares(s) as real / |s| as real - c * c
  {
    var dev, sq, sum, n := ExpandedSums(s, c);
    CenteredSquares(dev, sq, sum, n, c);
  }

  /**
   * `SquaredDeviationsExpand` with the sums returned as plain reals, so that
   * the algebra after it works on variables rather than on recursive calls.
   */
  lemma ExpandedSums(s: seq<int>, c: real) returns (dev: real, sq: real, sum: real, n: real)
    ensures dev == SquaredDeviations(s, c) && sq == SumOfSquares(s) as real
    ensures sum == Sum(s) as real && n == |s| as real
    ensures dev == sq - 2.0 * c * sum + n * c * c
  {
    dev, sq, sum, n := SquaredDeviations(s, c), SumOfSquares(s) as real, Sum(s) as real, |s| as real;
    SquaredDeviationsExpand(s, c);
  }

  /** With `c·n = sum` and `dev = sq − 2·c·sum + n·c²`: dev / n = sq / n − c². */
  lemma CenteredSquares(dev: real, sq: real, sum: real, n: real, c: real)
    requires n > 0.0 && c * n == sum
    requires dev == sq - 2.0 * c * sum + n * c * c
    ensures dev / n == sq / n - c * c
  {
  }

  /**
   * The statistics after any run of non-negative appends to an empty window
   * are the closed-form statistics of exactly the most recent
   * `min(|xs|, maxSampleSize)` intervals.
   */
  lemma WindowStatistics(maxSampleSize: int, xs: seq<int>)
    requires maxSampleSize >= 1 && NonNegative(xs) && |xs| > 0
    ensures AppendAll(Empty(maxSampleSize), xs).Success?
    ensures |AppendAll(Empty(maxSampleSize), xs).value.intervals| > 0
    ensures Mean(AppendAll(Empty(maxSampleSize), xs).value) == SampleMean(LastN(xs, maxSampleSize))
    ensures Variance(AppendAll(Empty(maxSampleSize), xs).value) == PopulationVariance(LastN(xs, maxSampleSize))
    ensures Variance(AppendAll(Empty(maxSampleSize), xs).value) >= 0.0
  {
    SlidingWindow(maxSampleSize, xs);
  }

  /** Capacity three, intervals 1, 2, 3: the window is [1, 2, 3], mean 2, variance 2/3. */
  lemma ThreeIntervals()
    ensures AppendAll(Empty(3), [1, 2, 3]) == Success(History(3, [1, 2, 3], 6, 14))
    ensures Mean(History(3, [1, 2, 3], 6, 14)) == 2.0
    ensures Variance(History(3, [1, 2, 3], 6, 14)) == 2.0 / 3.0
  {
    SlidingWindow(3, [1, 2, 3]);
  }

  /** A fourth interval on a full window of three evicts the oldest one. */
  lemma FourthIntervalEvictsOldest()
    ensures AppendAll(Empty(3), [1, 2, 3, 4]) == Success(History(3, [2, 3, 4], 9, 29))
  {
    SlidingWindow(3, [1, 2, 3, 4]);
    assert LastN([1, 2, 3, 4], 3) == [2, 3, 4];
  }
}
