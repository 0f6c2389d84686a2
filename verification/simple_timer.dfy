/** `SimpleTimer` (src/simpletimer.rs): the older start/stop machine over instants and durations.
    An instant is a nanosecond reading of a monotonic clock and a duration a nanosecond count;
    `start == None` is idle. */
module SimpleTimer {
  import opened Common
  import SimpleTracker
  import Timer
  import Source

  datatype SimpleTimer = SimpleTimer(start: Option<nat>, elapsed: nat)

  /** What `stop_at` and `get` ask of their caller here: `instant` is not earlier than the start
      instant of a running timer. The instants are chosen by the caller, so this is an obligation
      on the caller, not a property of instants. */
  predicate ReadableAt(st: SimpleTimer, instant: nat) {
    st.start.Some? ==> st.start.value <= instant
  }

  /** `Default::default`: idle, zero elapsed, so a fresh timer reads 0. */
  function Default(): (r: SimpleTimer)
    ensures r.start.None?
    ensures forall now: nat :: Get(r, now) == 0
  {
    SimpleTimer(None, 0)
  }

  /** `start_at`: a usage error while running; otherwise remembers the start instant. */
  function StartAt(st: SimpleTimer, instant: nat): (r: Result<SimpleTimer>)
    ensures r.Err? <==> st.start.Some?
    ensures r.Err? ==> r.error == StartWhileRunning
    ensures r.Ok? ==> r.value.start == Some(instant) && r.value.elapsed == st.elapsed
  {
    if st.start.Some? then Err(StartWhileRunning) else Ok(SimpleTimer(Some(instant), st.elapsed))
  }

  /** `stop_at`: a usage error while idle; otherwise adds the time since the start instant. */
  function StopAt(st: SimpleTimer, instant: nat): (r: Result<SimpleTimer>)
    requires ReadableAt(st, instant)
    ensures r.Err? <==> st.start.None?
    ensures r.Err? ==> r.error == StopWhileIdle
    ensures r.Ok? ==> r.value.start.None? && r.value.elapsed >= st.elapsed
    ensures r.Ok? ==> r.value.elapsed - st.elapsed == instant - st.start.value
  {
    if st.start.None? then Err(StopWhileIdle)
    else Ok(SimpleTimer(None, st.elapsed + (instant - st.start.value)))
  }

  /** `get`: the elapsed total, plus the time since the start instant while running
      (`i.elapsed()` reads the clock; here that reading is `now`). */
  function Get(st: SimpleTimer, now: nat): (r: nat)
    requires ReadableAt(st, now)
    ensures r >= st.elapsed
    ensures st.start.None? ==> r == st.elapsed
    ensures st.start.Some? ==> r - st.elapsed == now - st.start.value
  {
    match st.start
    case Some(i) => st.elapsed + (now - i)
    case None => st.elapsed
  }

  /** The `Timer` state this timer corresponds to: its elapsed total as a simple tracker. */
  function Abs(st: SimpleTimer): Timer.Timer {
    Timer.Timer(SimpleTracker.Tracker(st.elapsed), st.start)
  }

  function Lift(r: Result<SimpleTimer>): Result<Timer.Timer> {
    match r
    case Ok(st) => Ok(Abs(st))
    case Err(e) => Err(e)
  }

  /** Each operation is the corresponding `Timer` operation seen through `Abs`: same errors, same
      next state, same reading. */
  lemma StepRefines(st: SimpleTimer, instant: nat)
    requires ReadableAt(st, instant)
    ensures Lift(StartAt(st, instant)) == Timer.Start(Abs(st), instant)
    ensures Lift(StopAt(st, instant)) == Timer.Stop(Abs(st), instant)
    ensures Get(st, instant) == Timer.NumNanoseconds(Abs(st), instant)
  {
  }

  /** Performs one call: `start_at` or `stop_at` at the call's instant. */
  function Apply(st: SimpleTimer, e: Timer.Event): Result<SimpleTimer>
    requires e.Stopped? ==> ReadableAt(st, e.at)
  {
    match e
    case Started(i) => StartAt(st, i)
    case Stopped(i) => StopAt(st, i)
  }

  /** The caller's side of `stop_at` along a call sequence: every `stop_at` that is reached gets an
      instant not earlier than the start instant it closes. Nothing else is asked of the instants:
      a later call may pass an instant earlier than those of earlier calls. */
  predicate StopsNotEarly(st: SimpleTimer, evs: seq<Timer.Event>)
    decreases |evs|
  {
    |evs| == 0 ||
      ((evs[0].Stopped? ==> ReadableAt(st, evs[0].at))
       && (Apply(st, evs[0]).Ok? ==> StopsNotEarly(Apply(st, evs[0]).value, evs[1..])))
  }

  /** Performs `start_at`/`stop_at` calls in order, stopping at the first panic. */
  function Replay(st: SimpleTimer, evs: seq<Timer.Event>): (r: Result<SimpleTimer>)
    requires StopsNotEarly(st, evs)
    decreases |evs|
  {
    if |evs| == 0 then Ok(st)
    else
      match Apply(st, evs[0])
      case Err(e) => Err(e)
      case Ok(next) => Replay(next, evs[1..])
  }

  /** Whole call sequences agree with `Timer` too: on every sequence whose instants obey `Timer`'s
      clock contract, the older design accepts and rejects exactly the same sequences and
      accumulates the same totals. */
  lemma {:induction false} ReplayRefines(st: SimpleTimer, evs: seq<Timer.Event>)
    requires Source.NonDecreasing(Timer.Timeline(Abs(st), evs))
    ensures StopsNotEarly(st, evs)
    ensures Lift(Replay(st, evs)) == Timer.Replay(Abs(st), evs)
    decreases |evs|
  {
    if |evs| > 0 {
      Timer.ClockStep(Abs(st), evs);
      StepRefines(st, evs[0].at);
      var step := Apply(st, evs[0]);
      if step.Ok? {
        assert Timer.Timeline(Abs(step.value), evs[1..])
            == (if evs[0].Started? then Timer.Readings(evs) else Timer.Readings(evs[1..]));
        ReplayRefines(step.value, evs[1..]);
      }
    }
  }

  /** `elapsed` never decreases across any sequence of `start_at`/`stop_at` calls that the source
      runs without a panic, whatever order the caller's instants come in. */
  lemma {:induction false} ElapsedNeverDecreases(st: SimpleTimer, evs: seq<Timer.Event>)
    requires StopsNotEarly(st, evs)
    ensures Replay(st, evs).Ok? ==> Replay(st, evs).value.elapsed >= st.elapsed
    decreases |evs|
  {
    if |evs| > 0 && Apply(st, evs[0]).Ok? {
      ElapsedNeverDecreases(Apply(st, evs[0]).value, evs[1..]);
    }
  }

  /** Instants that go backwards between calls: `start_at(10); stop_at(20); start_at(5); stop_at(8)`
      runs without a panic and leaves 13, though its instants are not a non-decreasing sequence. */
  lemma OutOfOrderInstants()
    ensures var evs := [Timer.Started(10), Timer.Stopped(20), Timer.Started(5), Timer.Stopped(8)];
      && !Source.NonDecreasing(Timer.Timeline(Abs(Default()), evs))
      && StopsNotEarly(Default(), evs)
      && Replay(Default(), evs) == Ok(SimpleTimer(None, 13))
  {
    var evs := [Timer.Started(10), Timer.Stopped(20), Timer.Started(5), Timer.Stopped(8)];
    assert Timer.Timeline(Abs(Default()), evs)[1] == 20 && Timer.Timeline(Abs(Default()), evs)[2] == 5;
  }

  /** The unit-test scenario without the sleep: a start/stop pair whose instants differ leaves a
      positive total. */
  lemma StartStopPositive(a: nat, b: nat)
    requires a < b
    ensures StartAt(Default(), a).Ok?
    ensures StopAt(StartAt(Default(), a).value, b).Ok?
    ensures Get(StopAt(StartAt(Default(), a).value, b).value, b) > 0
  {
  }
}
