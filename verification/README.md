# timekeeper timing state machines in Dafny

This project models the core of the `timekeeper` Rust library: the state machines that measure how
much time labelled sections of a program take. It covers the `SimpleTracker` accumulator, the
single `Timer` (Idle or Running(t0)), the keyed `TimerSet` (at most one running key), and the older
`SimpleTimer`.

The clock (the `Source` trait) is not modelled as code. Every operation that reads it takes the
reading as a parameter `now`. The `Source` contract, that successive readings never decrease, is
`Source.NonDecreasing` over a history's readings. For a single call it is the precondition that
`now` is not older than the running start reading. Under that precondition `now - t0` cannot
underflow. Durations and readings are unbounded `nat` nanoseconds.

The source panics on misuse: starting a running timer, or stopping an idle one. Here those calls
return `Err(StartWhileRunning)` or `Err(StopWhileIdle)` (`Common.Result`), so the error conditions
can be stated exactly. `TimerSet.stop` on an idle set is not an error in the source, and it is not
one here.

Modules:
- `Common`: `Option`, the two usage errors, `Result`.
- `Source`: the readings a sequence of calls takes, and the clock contract over them.
- `Units`: the `num_microseconds` … `num_hours` conversions, as a `Unit` datatype and one
  truncating `Convert`.
- `SimpleTracker`: src/simpletracker.rs.
- `Timer`: `Timer` in src/lib.rs:26-87. src/timer.rs is a line-for-line copy of it (only the
  `use` lines differ), so both files are modelled by this one module. The table below cites
  whichever of the two copies the row's lines come from.
- `TimerSet`: src/timerset.rs. `Close` is the hand-off step that `start` and `stop` share.
- `SimpleTimer`: src/simpletimer.rs. Instants are nanosecond readings and durations are nanosecond
  counts. It is related to `Timer` by an abstraction function `Abs`.

Main results:
- `TimerSet.ReadingsMatchHistory`: after any history of calls on a new set, a key has a reading
  exactly when some call started it. That reading equals an independent reference sum
  (`KeyTime`): the time during which the key was the running one.
- `Timer.ReplayOkIff`: a sequence of `start`/`stop` calls avoids a usage error exactly when the
  calls alternate. `Timer.PairsSum`: after n start/stop pairs the total is the sum of the pairs'
  lengths.
- `SimpleTimer.ReplayRefines`: on every call sequence whose instants never decrease, the older
  timer accepts and rejects the same calls as `Timer` and accumulates the same totals.

## Model

| member | source | states |
|---|---|---|
| `SimpleTracker.Default` | src/simpletracker.rs:8-14 | a default tracker reports 0 when nothing is in flight |
| `SimpleTracker.Record` | src/simpletracker.rs:19-21 | `record(t)` grows the total by exactly `t`; the total never decreases |
| `SimpleTracker.GetStats` | src/simpletracker.rs:23-25 | the statistics are the total plus the in-flight duration, or plus 0 without one; the tracker is not changed |
| `SimpleTracker.Get` | src/simpletracker.rs:27-29 | `get(p)` equals `get_stats(p)` for every `p`, and is at least the recorded total |
| `SimpleTracker.PartialActsAsRecorded` | src/simpletracker.rs:23-25 | folding in a partial duration `d` reports what recording `d` would leave behind |
| `SimpleTracker.RecordTwice` | src/simpletracker.rs:19-21 | recording `a` then `b` equals recording `a + b`, and equals recording `b` then `a` |
| `SimpleTracker.RecordAll` | src/simpletracker.rs:19-21 | recording a sequence of durations adds their sum to the total |
| `SimpleTracker.RecordOrderIrrelevant` | src/simpletracker.rs:19-21 | any permutation of the same durations leaves the same tracker |
| `Units.Convert` | src/lib.rs:63-86 | the result is the number of whole units in the total: `r*n <= ns < (r+1)*n` for the unit's nanosecond count `n` |
| `Units.WholeUnitsUnique` | src/timer.rs:42-65 | only one whole-unit count fits a total, so conversion is exactly truncating division |
| `Units.ConvertMonotone` | src/timerset.rs:69-92 | a larger nanosecond total never converts to fewer units |
| `Units.TruncatesExamples` | src/lib.rs:63-66 | 999 ns is 0 µs and 1000 ns is 1 µs; just under a minute is 0 minutes and 3.6e12 ns is 1 hour |
| `Timer.New` | src/lib.rs:33-40 | a new timer is idle and reads 0 ns at every clock reading |
| `Timer.Start` | src/lib.rs:42-46 | error iff already running; otherwise Running(now) with the tracker unchanged and the reading at `now` unchanged |
| `Timer.Stop` | src/lib.rs:48-52 | error iff idle; otherwise idle again with `now - t0` added; the total left behind equals the reading at `now`, for every later query |
| `Timer.GetStats` | src/lib.rs:54-56 | statistics equal the nanosecond reading |
| `Timer.NumNanoseconds` | src/lib.rs:58-61 | idle: the recorded total; running from `t0`: the recorded total plus `now - t0` |
| `Timer.NumIn` | src/lib.rs:63-86 | the micro/milli/second/minute/hour queries give the whole units in the nanosecond reading |
| `Timer.RunningQueryMonotone` | src/timer.rs:33-40 | while running, later queries never report less, in nanoseconds or in any unit, and never less than the recorded total |
| `Timer.ReplayOkIff` | src/timer.rs:21-31 | a call sequence runs without a usage error iff its calls alternate start/stop, starting from the timer's state |
| `Timer.IntervalsAccumulate` | src/timer.rs:27-31 | from an idle timer, n start/stop pairs succeed, leave it idle, and add the sum of `stop_i - start_i` |
| `Timer.PairsSum` | src/lib.rs:42-61 | after n start/stop pairs on a new timer, `num_nanoseconds` is the sum of the pairs' lengths |
| `SimpleTimer.Default` | src/simpletimer.rs:10-17 | a default timer is idle and reads 0 |
| `SimpleTimer.StartAt` | src/simpletimer.rs:20-23 | error iff running; otherwise running from the instant with `elapsed` unchanged |
| `SimpleTimer.StopAt` | src/simpletimer.rs:25-29 | error iff idle; otherwise idle with `elapsed` grown by exactly `instant - start` |
| `SimpleTimer.Get` | src/simpletimer.rs:31-36 | idle: `elapsed`; running from `s`: `elapsed + (now - s)` |
| `SimpleTimer.StepRefines` | src/simpletimer.rs:19-36 | `start_at`, `stop_at` and `get` match `Timer`'s `start`, `stop` and `num_nanoseconds` through `Abs` |
| `SimpleTimer.ReplayRefines` | src/simpletimer.rs:20-29 | on every call sequence whose instants never decrease, the sequence is admitted and gives the same errors and the same totals as on `Timer` |
| `SimpleTimer.ElapsedNeverDecreases` | src/simpletimer.rs:25-29 | `elapsed` never decreases across any sequence of `start_at`/`stop_at` calls that runs without a panic, whatever the order of the caller's instants; only each `stop_at` must not be earlier than the start it closes |
| `SimpleTimer.OutOfOrderInstants` | src/simpletimer.rs:20-29 | `start_at(10); stop_at(20); start_at(5); stop_at(8)` goes backwards in time, yet runs without a panic and leaves 13 |
| `SimpleTimer.StartStopPositive` | src/simpletimer.rs:43-48 | a start/stop pair with a later stop instant leaves a positive total |
| `TimerSet.New` | src/timerset.rs:21-28 | a new set is valid, has nothing running and has no trackers |
| `TimerSet.NewHasNoReadings` | src/timerset.rs:59-67 | a new set answers `None` for every key |
| `TimerSet.Close` | src/timerset.rs:34-36 | the running key gains exactly `now - t`; every other tracker is unchanged; no key is added or removed |
| `TimerSet.Start` | src/timerset.rs:30-40 | `k` becomes the running key from `now`; the running-key invariant holds; only `k` can be added, with a zero tracker; keys other than the old running key and `k` are untouched |
| `TimerSet.Stop` | src/timerset.rs:42-48 | nothing runs afterwards; the old running key gains exactly `now - t`; others are untouched; on an idle set it changes nothing |
| `TimerSet.GetStats` | src/timerset.rs:50-57 | statistics equal the nanosecond reading, `None` included |
| `TimerSet.NumNanoseconds` | src/timerset.rs:59-67 | `None` iff the key has no tracker; otherwise the recorded total, plus `now - t` only for the running key |
| `TimerSet.NumIn` | src/timerset.rs:69-92 | per-key unit queries are `None` iff the key has no tracker, else the whole units in its nanosecond reading |
| `TimerSet.StartKeepsReadings` | src/timerset.rs:31-39 | switching keys at `now` changes no reading taken at `now`; a key seen for the first time reads 0 |
| `TimerSet.StopFreezesReadings` | src/timerset.rs:43-48 | after `stop` at `now` every key's reading stays at its value at `now` |
| `TimerSet.Advance` | src/timerset.rs:59-66 | between two readings only the running key's answer grows, by exactly their difference |
| `TimerSet.HandOffContinuous` | src/timerset.rs:31-38 | on a switch the old key's gain plus the new key's gain equals the time since the old key's start: no gap, no overlap |
| `TimerSet.RestartCurrent` | src/timerset.rs:31-39 | starting the running key again is not an error, and no reading can tell it from letting the key run |
| `TimerSet.StopIdempotent` | src/timerset.rs:42-48 | stopping twice equals stopping once |
| `TimerSet.TestScenario` | src/timerset.rs:95-109 | after `start(x); start(y); stop()`, `x` holds the time to the switch, `y` the time from the switch to the stop, an unseen key reads `None` |
| `TimerSet.Run` | src/timerset.rs:34-45 | along any call history the running key always has a tracker, so the `unwrap()` calls cannot fail; the running key and its reading come from the last call, a `start` |
| `TimerSet.StepAccounts` | src/timerset.rs:31-67 | one `start`/`stop` call changes a key's answer only by giving it a reading when it is started, and by letting it grow from the call's reading only when the call starts it |
| `TimerSet.ReadingsMatchHistory` | src/timerset.rs:30-67 | after any history, a key reads `None` iff never started, and otherwise exactly the time during which it was the running key |

## Left out

- src/source.rs: the concrete clocks (`Instant`, `clock_gettime`, `GetProcessTimes`/`GetThreadTimes`) are OS calls. They appear only as the reading parameters and the `Source.NonDecreasing` contract.
- src/nop_timer.rs and src/nop_timerset.rs: the disabled-build stand-ins have no state, and every method returns a constant.
- The generic `Tracker::Statistics` type: the model uses `SimpleTracker`, whose statistics value is its `u64` total.
- `SimpleTracker.Record`: does not model the `u64` overflow of `+=` (src/simpletracker.rs:20), because totals are unbounded `nat`. The overflow panics when overflow checks are on (debug builds) and wraps around without them (release builds). `SimpleTracker.GetStats` and `SimpleTracker.Get` likewise do not model the same overflow of the `+` in src/simpletracker.rs:24.
- `Timer.Stop`: the `u64` underflow of `now - t0` is excluded by the precondition that the clock has not gone backwards, not modelled as a panic; the same holds for `TimerSet.Start`, `TimerSet.Stop` and the queries of `Timer` and `TimerSet`.
- `SimpleTimer.StopAt`: `ReadableAt` excludes an `instant` earlier than the start instant. Nothing in the source rules such a call out: both instants are chosen by the caller of `start_at`/`stop_at`. On an earlier instant, `instant.duration_since(start)` (src/simpletimer.rs:27) panicked in the Rust releases of the library's time. Since Rust 1.60 it returns a zero duration. Neither outcome is modelled. The overflow panic of `Duration`'s `+=` is not modelled either, because durations are unbounded `nat`.
- `SimpleTimer.Get`: `ReadableAt` excludes a start instant later than the reading `now`. In that case `i.elapsed()` (src/simpletimer.rs:33) behaves like `duration_since` above: a panic then, a zero duration now. The overflow panic of `Duration`'s `+` is not modelled.
- Panics: the usage-error panics are `Err` results, and a sequence of calls stops at the first one.
- `HashMap` hashing and `Clone` of keys: the trackers are a Dafny `map`.
- The `Duration` seconds-plus-subsecond representation used by `SimpleTimer`: durations are plain nanosecond counts.
- `SimpleTimer`'s `Timer` trait is not part of this model. So `start()`/`stop()` without an instant and the `num_*` helpers its test calls are not modelled. The sleep-based bounds of that test (`>= 100` ms, `<= 102000` µs) depend on real elapsed time.
- The positive totals asserted by the tests hold only under a strictly advancing clock. `TimerSet.TestScenario` and `SimpleTimer.StartStopPositive` state the exact totals, which are positive when the readings strictly increase.
- TimerSet has no `is_running` query in src/timerset.rs, so none is modelled.
- Queries do not change the state. Repeated at the same clock reading, a query gives the same answer. While a timer runs, a later reading adds the time between the two readings (`Timer.RunningQueryMonotone`, `TimerSet.Advance`). An idle timer gives the same answer at every reading.
