# Phi accrual failure detector — Dafny model

This project models the phi (φ) accrual failure detector of
`phi-accrual-failure-detector/` and the older heartbeat window of `src/`.

- **Heartbeat history** (`heartbeat_history.dfy`, module `HeartbeatHistory`).
  A bounded FIFO window of integer inter-heartbeat intervals. It carries a
  running sum and a running sum of squares. It is an immutable value: the
  constructor (`New`), `DropOldest` and `Append` (Python's `__add__`) each
  return a new history, or the error the Python constructor would raise.
  Proved:
  - the representation invariant (`Valid`: capacity ≥ 1, window within
    capacity, both sums equal to the sums of the window) is kept by every
    operation;
  - repeated appends hold exactly the last `min(n, capacity)` intervals;
  - `Mean` and `Variance`, computed from the running sums, equal the sample
    mean and the population variance of the window, so the variance is
    never negative (`RunningVariance`).
- **Older window** (`src_heartbeat_history.dfy`, module `SrcHeartbeatHistory`).
  Its constructor, `drop_oldest` and `__add__` (src/_heartbeat_history.py:12-36,
  56-81) are the same as the main copy's, so the model uses the
  `HeartbeatHistory` definitions for them. Only its `mean` (divided by the
  capacity) and its `variance` are modelled separately, with proofs of when
  they agree with the true statistics and when they do not.
- **Detector** (`phi_accrual_failure_detector.dfy`, module `PhiAccrual`).
  - Configuration validation, and the bootstrap history of two synthetic
    intervals.
  - A class `PhiAccrualFailureDetector` with one mutable `state` field, a
    snapshot `State(history, timestamp)`. `Heartbeat(now)` replaces it.
  - `Phi` and `IsAvailable` read it.
  - The class invariant says the window is never empty, so `Mean` is
    always defined.
  - The current time is a parameter.
  - The square root and the φ formula are functions supplied at
    construction.
- `wrappers.dfy`: the `Option`, `Result` and `Outcome` types used where
  Python raises.

## Model

| member | source | states |
|---|---|---|
| `HeartbeatHistory.New` | phi-accrual-failure-detector/_heartbeat_history.py:21-41 | Construction fails iff capacity < 1, interval sum < 0 or squared sum < 0, reporting the first of these in that order; on success the arguments are stored unchanged |
| `HeartbeatHistory.Empty` | phi-accrual-failure-detector/_heartbeat_history.py:21-27 | The constructor with only a capacity ≥ 1 succeeds and gives a valid empty window of that capacity |
| `HeartbeatHistory.DropOldest` | phi-accrual-failure-detector/_heartbeat_history.py:64-74 | Fails on an empty window; otherwise keeps the capacity and leaves `intervals[1:]`; on a valid history it succeeds iff the remaining intervals sum to ≥ 0, and the result is valid (both sums lose exactly the dropped interval) |
| `HeartbeatHistory.Append` | phi-accrual-failure-detector/_heartbeat_history.py:76-90 | Keeps the capacity; on a valid history a successful result is valid and holds the old window (without its oldest interval when full) followed by the new one, so the length never exceeds the capacity and the recursion takes one step |
| `HeartbeatHistory.SumsOfSnoc` | phi-accrual-failure-detector/_heartbeat_history.py:86-88 | Appending `x` adds `x` to the sum and `x*x` to the sum of squares, the additive update `__add__` makes |
| `HeartbeatHistory.AppendFailsIff` | phi-accrual-failure-detector/_heartbeat_history.py:64-90 | On a valid history `+` raises exactly when the running sum it would build is negative: the capacity and squared-sum checks never fire |
| `HeartbeatHistory.AppendNonNegative` | phi-accrual-failure-detector/_heartbeat_history.py:69-74 | With non-negative intervals, appending a non-negative interval never raises and keeps every interval non-negative |
| `HeartbeatHistory.SlidingWindow` | phi-accrual-failure-detector/_heartbeat_history.py:76-90 | Appending non-negative intervals one by one to an empty window never fails and leaves a valid window of the same capacity holding exactly the last `min(n, capacity)` of them, oldest first |
| `HeartbeatHistory.SquaredDeviationsNonNegative` | phi-accrual-failure-detector/_heartbeat_history.py:50-55 | A sum of squared deviations is never negative |
| `HeartbeatHistory.SquaredDeviationsExpand` | phi-accrual-failure-detector/_heartbeat_history.py:50-55 | Σ(x−c)² = Σx² − 2cΣx + nc², the identity behind computing the variance from the two running sums |
| `HeartbeatHistory.Mean` | phi-accrual-failure-detector/_heartbeat_history.py:43-48 | On a valid history, `mean()` (the running sum over the number of samples) is the sample mean Σx/n of the window |
| `HeartbeatHistory.Variance` | phi-accrual-failure-detector/_heartbeat_history.py:50-55 | On a valid history, `variance()` (the running squared sum over n, minus `mean()` squared) is the population variance Σ(x−mean)²/n of the window, so it is ≥ 0 |
| `HeartbeatHistory.StdDev` | phi-accrual-failure-detector/_heartbeat_history.py:57-62 | On a valid history, `std_dev()` is the square root of the window's population variance |
| `HeartbeatHistory.RunningVariance` | phi-accrual-failure-detector/_heartbeat_history.py:50-55 | For every non-empty window, Σx²/n − (Σx/n)² equals the population variance Σ(x−mean)²/n and is ≥ 0 |
| `HeartbeatHistory.CenteredAt` | phi-accrual-failure-detector/_heartbeat_history.py:50-55 | Around any c with c·n = Σx, Σ(x−c)²/n = Σx²/n − c²: the step from the expansion to the running-sum formula |
| `HeartbeatHistory.WindowStatistics` | phi-accrual-failure-detector/_heartbeat_history.py:43-90 | After any non-empty run of non-negative appends, mean and variance are the closed-form statistics of exactly the last `min(n, capacity)` intervals, and the variance is ≥ 0 |
| `HeartbeatHistory.ThreeIntervals` | phi-accrual-failure-detector/tests/test_heartbeat_history.py:18-49 | Capacity 3, intervals 1, 2, 3: window [1, 2, 3] with sums 6 and 14, mean 2, variance 2/3 |
| `HeartbeatHistory.FourthIntervalEvictsOldest` | phi-accrual-failure-detector/tests/test_heartbeat_history.py:51-58 | A fourth interval on a full window of three evicts the oldest: window [2, 3, 4], three long |
| `SrcHeartbeatHistory.CapacityMean` | src/_heartbeat_history.py:38-42 | On a valid non-empty window, the older `mean()` is the sample mean scaled by n / capacity, the fraction of the window that is filled |
| `SrcHeartbeatHistory.CapacityVariance` | src/_heartbeat_history.py:44-48 | On a valid window, the older `variance()` is the population variance plus (sample mean)² − (older mean)² |
| `SrcHeartbeatHistory.FullWindowStatistics` | src/_heartbeat_history.py:38-48 | When the window is full, the capacity-divided mean and its variance are the sample mean and the population variance |
| `SrcHeartbeatHistory.PartialWindowStatistics` | src/_heartbeat_history.py:38-48 | When the window is not full and its total is positive, the capacity-divided mean is strictly below the sample mean and the variance strictly above the population variance |
| `SrcHeartbeatHistory.LargerDivisor` | src/_heartbeat_history.py:42 | Dividing a positive sum by the capacity instead of the smaller sample count gives a smaller mean and a smaller squared mean |
| `SrcHeartbeatHistory.SingleSampleCounterexample` | src/_heartbeat_history.py:42 | Capacity 3 after the single interval 1: mean 1/3 (sample mean 1) and variance 8/9 (population variance 0) |
| `SrcHeartbeatHistory.StatisticsAfterFill` | src/_heartbeat_history.py:38-81 | After at least `capacity` non-negative appends the older statistics equal the closed-form statistics of the last `capacity` intervals |
| `SrcHeartbeatHistory.ThreeIntervalsFull` | tests/test_heartbeat_history.py:7-29 | Capacity 3, intervals 1, 2, 3: mean 2 and variance 2/3 |
| `PhiAccrual.Validate` | phi-accrual-failure-detector/phi_accrual_failure_detector.py:36-49 | No error iff threshold > 0, capacity > 0, minimum deviation > 0, pause ≥ 0 and first estimate > 0; otherwise the error names the first violated check in source order |
| `PhiAccrual.Create` | phi-accrual-failure-detector/phi_accrual_failure_detector.py:27-56 | An invalid configuration yields the first check's error and no detector; a valid one yields a fresh detector satisfying its invariant, storing the configuration, the square root and the φ formula it was given, with no timestamp and the bootstrap history |
| `PhiAccrual.PhiAccrualFailureDetector.constructor` | phi-accrual-failure-detector/phi_accrual_failure_detector.py:51-56 | Stores the configuration; the state is the bootstrap history with no timestamp, and the invariant holds |
| `PhiAccrual.Trunc` | phi-accrual-failure-detector/phi_accrual_failure_detector.py:126-127 | Python's `int()` on a float truncates toward zero: for x ≥ 0 the result is the integer i with i ≤ x < i + 1, for x < 0 the integer i with i − 1 < x ≤ i |
| `PhiAccrual.BootstrapIntervals` | phi-accrual-failure-detector/phi_accrual_failure_detector.py:124-127 | For an estimate m > 0, `int(m − m/4)` and `int(m + m/4)` are 3m div 4 and 5m div 4 |
| `PhiAccrual.FirstHeartbeat` | phi-accrual-failure-detector/phi_accrual_failure_detector.py:118-128 | A valid, non-negative window of the configured capacity holding [3m div 4, 5m div 4], or only [5m div 4] when the capacity is 1; never empty |
| `PhiAccrual.PhiAccrualFailureDetector.EnsureValidStdDeviation` | phi-accrual-failure-detector/phi_accrual_failure_detector.py:130-138 | The result is the larger of the deviation and the configured minimum: at least both, and equal to one of them |
| `PhiAccrual.PhiAccrualFailureDetector.Phi` | phi-accrual-failure-detector/phi_accrual_failure_detector.py:97-116 | 0 before the first heartbeat; afterwards the φ formula applied to the time since the last heartbeat, the window's sample mean plus the acceptable pause, and the square root of its population variance floored at the minimum deviation |
| `PhiAccrual.PhiAccrualFailureDetector.IsAvailable` | phi-accrual-failure-detector/phi_accrual_failure_detector.py:140-149 | φ below the threshold; always true before the first heartbeat |
| `PhiAccrual.PhiAccrualFailureDetector.Heartbeat` | phi-accrual-failure-detector/phi_accrual_failure_detector.py:74-95 | Keeps the invariant (window never empty). Without a timestamp: bootstrap history and timestamp `now`. Otherwise: `now − last` is appended only if the pre-update state judges the peer available, and the timestamp becomes `now`. If the append raises, the state is unchanged and the error is returned. Non-negative windows stay so, and `heartbeat` never raises when time does not go backwards, as long as the φ formula itself does not raise (see `_calc_phi` under Left out) |

## Left out

- The compare-and-set retry of `heartbeat` (phi_accrual_failure_detector.py:5, 93-95) is concurrency. The model runs sequentially: the compare-and-set always succeeds and `Heartbeat` assigns the state field. For the same reason `_phi` reading the cell twice and `_is_available` reading the current cell inside `heartbeat` make no difference here.
- `_calc_phi` (exp/log10 floating point, overflow saturation) is the `calcPhi` function given at construction. Apart from its totality (next line), no property of it is assumed, so that φ is monotone in time is not modelled.
- `calcPhi` and `sqrt` are total functions in the model and never raise. The Python `_calc_phi` can raise `ValueError`. For y above about 21.6, `math.exp` at phi_accrual_failure_detector.py:176 underflows to 0.0, and `-math.log10(0.0)` at line 181 then raises. Example: estimate 1000 ms, no pause, minimum deviation at most 250 ms, heartbeats at t = 0 and t = 6500. The bootstrap window [750, 1250] gives mean 1000 and deviation 250, so y = 22. `heartbeat` then raises before its compare-and-set, and the timestamp stays at 0. Every later heartbeat is further away and raises too, and `is_available()` raises instead of returning `False`. The model does not capture this.
- `math.sqrt` in `std_dev` is the `sqrt` function given at construction. Apart from its totality, no property of it is assumed. `HeartbeatHistory.Variance` proves that its argument is never negative on a valid history, so `math.sqrt` would not raise there.
- `HeartbeatHistory.Mean` requires a non-empty window, whereas `mean()` on an empty window raises `ZeroDivisionError` (phi-accrual-failure-detector/_heartbeat_history.py:48). This is not modelled, because the detector's invariant keeps its window non-empty.
- `HeartbeatHistory.Variance` requires a non-empty window, whereas `variance()` on an empty window raises `ZeroDivisionError` (phi-accrual-failure-detector/_heartbeat_history.py:55). This is not modelled, for the same reason.
- `HeartbeatHistory.StdDev` requires a non-empty window, whereas `std_dev()` on an empty window raises `ZeroDivisionError` through `variance()` (phi-accrual-failure-detector/_heartbeat_history.py:62). This is not modelled, for the same reason.
- `SrcHeartbeatHistory.CapacityVariance` requires a non-empty window, whereas the older `variance()` on an empty window raises `ZeroDivisionError` (src/_heartbeat_history.py:48). This is not modelled. `SrcHeartbeatHistory.CapacityMean` is total: it divides by the capacity, which is at least 1.
- `_get_time` and the public `phi()`, `is_available()` and `heartbeat()` read the wall clock. The model passes the time `now` to `Phi`, `IsAvailable` and `Heartbeat` instead.
- Floating point. Means and variances are exact reals, so the float literals of the tests (0.666666666666667, 0.8164965809277263) appear as 2/3 and are otherwise not modelled. Intervals, sums and timestamps are exact integers, as Python's are. `m / 4` for very large estimates loses precision as a float, which is not modelled.
- The sums are declared as floats in the Python signatures but only ever hold integers in this code, so they are `int`.
- `__init__` raises on the first violated check only (phi-accrual-failure-detector/phi_accrual_failure_detector.py:36-49). `Validate` reports that check.
- The scenario tests that depend on concrete φ values (phi-accrual-failure-detector/tests/test_phi_accrual_failure_detector.py:101-211) are not modelled, because φ is a parameter.
- src/phi_accrual_failure_detector.py only stores its arguments and has no behaviour. The three `_state.py` files are two-field records, represented by `PhiAccrual.State`.
- tests/test_phi_accrual_failure_detector.py targets that stub. setup.py is packaging.

## Findings

| source | as written | input that shows it | evidently intended | confidence | as-written member | corrected member |
|---|---|---|---|---|---|---|
| src/_heartbeat_history.py:42 | `mean` divides the running sum by `max_sample_size` (and `variance` subtracts that mean squared) | capacity 3 after the single interval 1: mean 1/3 instead of 1, variance 8/9 instead of 0 | divide by `len(intervals)`, as phi-accrual-failure-detector/_heartbeat_history.py:48 does | high; not executed | `SrcHeartbeatHistory.SingleSampleCounterexample` | `HeartbeatHistory.Mean` |
