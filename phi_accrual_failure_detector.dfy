/**
 * The phi accrual failure detector, run sequentially: the detector owns one
 * state cell holding an immutable snapshot (history, last timestamp), and
 * `Heartbeat` replaces that snapshot. The current time is a parameter, and
 * the square root and the phi formula (`_calc_phi`) are functions supplied
 * at construction.
 */
module PhiAccrual {
  import opened Wrappers
  import opened HeartbeatHistory

  /** The five constructor arguments, all times in milliseconds. */
  datatype Config = Config(
    threshold: real,
    maxSampleSize: int,
    minStdDeviationMs: int,
    acceptableHeartbeatPauseMs: int,
    firstHeartbeatEstimateMs: int)

  /** Which constructor check raised. */
  datatype ConfigError =
    | ThresholdNotPositive
    | MaxSampleSizeNotPositive
    | MinStdDeviationNotPositive
    | AcceptableHeartbeatPauseNegative
    | FirstHeartbeatEstimateNotPositive

  predicate WellFormed(c: Config)
  {
    && c.threshold > 0.0
    && c.maxSampleSize > 0
    && c.minStdDeviationMs > 0
    && c.acceptableHeartbeatPauseMs >= 0
    && c.firstHeartbeatEstimateMs > 0
  }

  /**
   * The constructor's checks, made in the source's order: the error
   * reported is the first violated constraint, and there is none exactly
   * when the configuration is well formed.
   */
  function Validate(c: Config): (r: Option<ConfigError>)
    ensures r.None? <==> WellFormed(c)
    ensures r == Some(ThresholdNotPositive) <==> c.threshold <= 0.0
    ensures r == Some(MaxSampleSizeNotPositive) <==> c.threshold > 0.0 && c.maxSampleSize <= 0
    ensures r == Some(MinStdDeviationNotPositive) <==>
              c.threshold > 0.0 && c.maxSampleSize > 0 && c.minStdDeviationMs <= 0
    ensures r == Some(AcceptableHeartbeatPauseNegative) <==>
              c.threshold > 0.0 && c.maxSampleSize > 0 && c.minStdDeviationMs > 0
              && c.acceptableHeartbeatPauseMs < 0
    ensures r == Some(FirstHeartbeatEstimateNotPositive) <==>
              c.threshold > 0.0 && c.maxSampleSize > 0 && c.minStdDeviationMs > 0
              && c.acceptableHeartbeatPauseMs >= 0 && c.firstHeartbeatEstimateMs <= 0
  {
    if c.threshold <= 0.0 then Some(ThresholdNotPositive)
    else if c.maxSampleSize <= 0 then Some(MaxSampleSizeNotPositive)
    else if c.minStdDeviationMs <= 0 then Some(MinStdDeviationNotPositive)
    else if c.acceptableHeartbeatPauseMs < 0 then Some(AcceptableHeartbeatPauseNegative)
    else if c.firstHeartbeatEstimateMs <= 0 then Some(FirstHeartbeatEstimateNotPositive)
    else None
  }

  /** A snapshot of the detector: the window and the last heartbeat's time, if any. */
  datatype State = State(history: History, timestamp: Option<int>)

  /** Python's `int()` on a float: the integer nearest `x` in the direction of zero. */
  function Trunc(x: real): (i: int)
    ensures x >= 0.0 ==> i as real <= x < i as real + 1.0
    ensures x < 0.0 ==> i as real - 1.0 < x <= i as real
  {
    if x >= 0.0 then x.Floor else -((-x).Floor)
  }

  /**
   * For a positive estimate `m`, the two synthetic intervals
   * `int(m - m/4)` and `int(m + m/4)` are the integer quotients
   * `3m div 4` and `5m div 4`.
   */
  lemma {:induction false} BootstrapIntervals(m: int)
    requires m > 0
    ensures Trunc(m as real - m as real / 4.0) == (3 * m) / 4
    ensures Trunc(m as real + m as real / 4.0) == (5 * m) / 4
  {
  }

  /**
   * `_first_heartbeat()`: an empty window of the configured capacity plus
   * `int(m - m/4)`, then plus `int(m + m/4)`, where `m` is the first
   * heartbeat estimate. With a capacity of one the second interval evicts
   * the first, so the window always holds `min(2, maxSampleSize)` intervals.
   */
  function FirstHeartbeat(c: Config): (h: History)
    requires WellFormed(c)
    ensures Valid(h) && h.maxSampleSize == c.maxSampleSize
    ensures h.intervals ==
              if c.maxSampleSize == 1 then [(5 * c.firstHeartbeatEstimateMs) / 4]
              else [(3 * c.firstHeartbeatEstimateMs) / 4, (5 * c.firstHeartbeatEstimateMs) / 4]
    ensures NonNegative(h.intervals)
  {
    var mean := c.firstHeartbeatEstimateMs as real;
    var stdDev := mean / 4.0;
    var low, high := Trunc(mean - stdDev), Trunc(mean + stdDev);
    BootstrapIntervals(c.firstHeartbeatEstimateMs);
    var empty := Empty(c.maxSampleSize);
    AppendNonNegative(empty, low);
    var first := Append(empty, low).value;
    AppendNonNegative(first, high);
    Append(first, high).value
  }

  class PhiAccrualFailureDetector {
    const config: Config
    const sqrt: real -> real
    const calcPhi: (real, real, real) -> real
    var state: State

    /**
     * The detector's invariant: a well-formed configuration, a valid window
     * of the configured capacity that is never empty (so `Mean` is always
     * defined), and, before the first heartbeat, the bootstrap window.
     */
    ghost predicate Valid()
      reads this
    {
      && WellFormed(config)
      && HeartbeatHistory.Valid(state.history)
      && state.history.maxSampleSize == config.maxSampleSize
      && |state.history.intervals| >= 1
      && (state.timestamp.None? ==> state.history == FirstHeartbeat(config))
    }

    /** Construction after the checks of `Validate` have passed: the bootstrap state. */
    constructor (config: Config, sqrt: real -> real, calcPhi: (real, real, real) -> real)
      requires Validate(config).None?
      ensures Valid()
      ensures this.config == config && this.sqrt == sqrt && this.calcPhi == calcPhi
      ensures state == State(FirstHeartbeat(config), None)
    {
      this.config := config;
      this.sqrt := sqrt;
      this.calcPhi := calcPhi;
      new;
      state := State(FirstHeartbeat(config), None);
    }

    /** `_ensure_valid_std_deviation`: the standard deviation, floored at the configured minimum. */
    function EnsureValidStdDeviation(stdDeviation: real): (r: real)
      ensures r >= stdDeviation && r >= config.minStdDeviationMs as real
      ensures r == stdDeviation || r == config.minStdDeviationMs as real
    {
      if stdDeviation >= config.minStdDeviationMs as real then stdDeviation
      else config.minStdDeviationMs as real
    }

    /**
     * `_phi(now)`: zero before the first heartbeat; afterwards the phi
     * formula applied to the time since the last heartbeat, the window's
     * sample mean shifted by the acceptable pause, and the square root of
     * the window's population variance floored at the minimum deviation.
     */
    function Phi(now: int): (p: real)
      reads this
      requires Valid()
      ensures state.timestamp.None? ==> p == 0.0
      ensures state.timestamp.Some? ==>
                p == calcPhi(
                  (now - state.timestamp.value) as real,
                  SampleMean(state.history.intervals) + config.acceptableHeartbeatPauseMs as real,
                  EnsureValidStdDeviation(sqrt(PopulationVariance(state.history.intervals))))
    {
      match state.timestamp
      case None => 0.0
      case Some(last) =>
        var history := state.history;
        calcPhi(
          (now - last) as real,
          Mean(history) + config.acceptableHeartbeatPauseMs as real,
          EnsureValidStdDeviation(StdDev(history, sqrt)))
    }

    /** `_is_available(now)`: phi below the threshold; always so before the first heartbeat. */
    predicate IsAvailable(now: int)
      reads this
      requires Valid()
      ensures state.timestamp.None? ==> IsAvailable(now)
    {
      Phi(now) < config.threshold
    }

    /**
     * `heartbeat()` at time `now`, with the compare-and-set taken to
     * succeed. Before the first heartbeat the window is re-bootstrapped;
     * afterwards the interval since the last heartbeat is appended only if
     * the pre-update state still judges the peer available. If appending
     * raises (a negative running sum), nothing changes and the error is
     * returned; otherwise the timestamp becomes `now`.
     */
    method Heartbeat(now: int) returns (outcome: Outcome<HistoryError>)
      requires Valid()
      modifies this
      ensures Valid()
      ensures old(state.timestamp).None? ==>
                outcome == Pass && state == State(FirstHeartbeat(config), Some(now))
      ensures old(state.timestamp).Some? && !old(IsAvailable(now)) ==>
                outcome == Pass && state == State(old(state.history), Some(now))
      ensures old(state.timestamp).Some? && old(IsAvailable(now)) ==>
                var appended := Append(old(state.history), now - old(state.timestamp).value);
                && (appended.Success? ==> outcome == Pass && state == State(appended.value, Some(now)))
                && (appended.Failure? ==> outcome == Fail(appended.error) && state == old(state))
      ensures old(NonNegative(state.history.intervals))
              && (old(state.timestamp).None? || now >= old(state.timestamp).value) ==>
                outcome == Pass && NonNegative(state.history.intervals)
    {
      var oldState := state;
      var newHistory;
      if oldState.timestamp.None? {
        newHistory := FirstHeartbeat(config);
      } else {
        var interval := now - oldState.timestamp.value;
        newHistory := oldState.history;
        if IsAvailable(now) {
          if interval >= 0 && NonNegative(newHistory.intervals) {
            AppendNonNegative(newHistory, interval);
          }
          var appended := Append(newHistory, interval);
          if appended.Failure? {
            return Fail(appended.error);
          }
          newHistory := appended.value;
        }
      }
      state := State(newHistory, Some(now));
      outcome := Pass;
    }
  }

  /**
   * The constructor as called from Python: it raises on the first violated
   * check, leaving no detector; otherwise the detector starts in the
   * bootstrap state.
   */
  method Create(config: Config, sqrt: real -> real, calcPhi: (real, real, real) -> real)
    returns (r: Result<PhiAccrualFailureDetector, ConfigError>)
    ensures Validate(config).Some? ==> r == Failure(Validate(config).value)
    ensures Validate(config).None? ==>
              && r.Success? && fresh(r.value) && r.value.Valid()
              && r.value.config == config && r.value.sqrt == sqrt && r.value.calcPhi == calcPhi
              && r.value.state == State(FirstHeartbeat(config), None)
  {
    var error := Validate(config);
    if error.Some? {
      return Failure(error.value);
    }
    var detector := new PhiAccrualFailureDetector(config, sqrt, calcPhi);
    r := Success(detector);
  }
}
