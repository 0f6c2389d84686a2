/** `Timer` (src/lib.rs:26-87, duplicated verbatim in src/timer.rs): one tracker plus the reading
    taken at the latest `start`. `last == None` is the Idle state and `last == Some(t0)` is
    Running(t0). Every clock reading is passed in as `now`. */
module Timer {
  import opened Common
  import SimpleTracker
  import Units
  import Source

  datatype Timer = Timer(tracker: SimpleTracker.Tracker, last: Option<nat>)

  predicate Running(t: Timer) {
    t.last.Some?
  }

  /** The Source contract seen from one timer: a reading taken now is not older than the start
      reading of a running timer (so `now - t0` does not underflow). */
  predicate ReadableAt(t: Timer, now: nat) {
    t.last.Some? ==> t.last.value <= now
  }

  /** `Timer::new`: idle, nothing accumulated. */
  function New(): (r: Timer)
    ensures !Running(r)
    ensures forall now: nat :: NumNanoseconds(r, now) == 0
  {
    Timer(SimpleTracker.Default(), None)
  }

  /** `start`: a usage error while running; from Idle it snapshots the clock and changes nothing else. */
  function Start(t: Timer, now: nat): (r: Result<Timer>)
    ensures r.Err? <==> Running(t)
    ensures r.Err? ==> r.error == StartWhileRunning
    ensures r.Ok? ==> Running(r.value) && r.value.last.value == now && r.value.tracker == t.tracker
    ensures r.Ok? ==> NumNanoseconds(r.value, now) == NumNanoseconds(t, now)
  {
    if t.last.Some? then Err(StartWhileRunning) else Ok(Timer(t.tracker, Some(now)))
  }

  /** `stop`: a usage error while idle; from Running(t0) it records `now - t0` and becomes idle, so
      the total it leaves behind is exactly what a query at `now` would have reported. */
  function Stop(t: Timer, now: nat): (r: Result<Timer>)
    requires ReadableAt(t, now)
    ensures r.Err? <==> !Running(t)
    ensures r.Err? ==> r.error == StopWhileIdle
    ensures r.Ok? ==> !Running(r.value)
    ensures r.Ok? ==> r.value.tracker.elapsed - t.tracker.elapsed == now - t.last.value
    ensures r.Ok? ==> forall later: nat :: NumNanoseconds(r.value, later) == NumNanoseconds(t, now)
  {
    match t.last
    case None => Err(StopWhileIdle)
    case Some(t0) => Ok(Timer(SimpleTracker.Record(t.tracker, now - t0), None))
  }

  /** The in-flight duration handed to the tracker by the queries: present only while running. */
  function Partial(t: Timer, now: nat): Option<nat>
    requires ReadableAt(t, now)
  {
    match t.last
    case None => None
    case Some(t0) => Some(now - t0)
  }

  /** `get_stats`: the tracker's statistics including the running interval; for the simple tracker
      this is the nanosecond total. */
  function GetStats(t: Timer, now: nat): (r: nat)
    requires ReadableAt(t, now)
    ensures r == NumNanoseconds(t, now)
  {
    SimpleTracker.GetStats(t.tracker, Partial(t, now))
  }

  /** `num_nanoseconds`: completed intervals plus, while running, the time since the start reading. */
  function NumNanoseconds(t: Timer, now: nat): (r: nat)
    requires ReadableAt(t, now)
    ensures r >= t.tracker.elapsed
    ensures !Running(t) ==> r == t.tracker.elapsed
    ensures Running(t) ==> r - t.tracker.elapsed == now - t.last.value
  {
    SimpleTracker.Get(t.tracker, Partial(t, now))
  }

  /** `num_microseconds` … `num_hours`: the nanosecond total in whole units, truncated. */
  function NumIn(t: Timer, now: nat, u: Units.Unit): (r: nat)
    requires ReadableAt(t, now)
    ensures Units.WholeUnits(r, NumNanoseconds(t, now), u)
  {
    Units.Convert(NumNanoseconds(t, now), u)
  }

  /** While running, later queries never report less, in nanoseconds or in any unit, and never less
      than what completed intervals already hold. */
  lemma RunningQueryMonotone(t: Timer, a: nat, b: nat, u: Units.Unit)
    requires Running(t) && t.last.value <= a <= b
    ensures t.tracker.elapsed <= NumNanoseconds(t, a) <= NumNanoseconds(t, b)
    ensures NumIn(t, a, u) <= NumIn(t, b, u)
  {
    Units.ConvertMonotone(NumNanoseconds(t, a), NumNanoseconds(t, b), u);
  }

  // ---------------------------------------------------------------------------------------------
  // Sequences of calls

  /** A call of `start` or `stop` together with the clock reading it takes. */
  datatype Event = Started(at: nat) | Stopped(at: nat)

  /** The readings taken by a sequence of calls, in order. */
  function Readings(evs: seq<Event>): (rs: seq<nat>)
    ensures |rs| == |evs|
  {
    Source.Readings(evs, (e: Event) => e.at)
  }

  lemma ReadingsTail(evs: seq<Event>)
    requires |evs| > 0
    ensures Readings(evs) == [evs[0].at] + Readings(evs[1..])
  {
    Source.ReadingsTail(evs, (e: Event) => e.at);
  }

  lemma ReadingsAppend(a: seq<Event>, b: seq<Event>)
    ensures Readings(a + b) == Readings(a) + Readings(b)
  {
    Source.ReadingsAppend(a, b, (e: Event) => e.at);
  }

  /** The readings the Source contract orders: the running timer's start reading, if any, followed
      by the readings the calls take. */
  function Timeline(t: Timer, evs: seq<Event>): seq<nat> {
    match t.last
    case None => Readings(evs)
    case Some(t0) => [t0] + Readings(evs)
  }

  /** Performs one call. */
  function Apply(t: Timer, e: Event): Result<Timer>
    requires ReadableAt(t, e.at)
  {
    match e
    case Started(now) => Start(t, now)
    case Stopped(now) => Stop(t, now)
  }

  lemma ClockStep(t: Timer, evs: seq<Event>)
    requires |evs| > 0 && Source.NonDecreasing(Timeline(t, evs))
    ensures ReadableAt(t, evs[0].at)
    ensures Source.NonDecreasing(Readings(evs))
    ensures Source.NonDecreasing(Readings(evs[1..]))
    ensures Readings(evs) == [evs[0].at] + Readings(evs[1..])
  {
    ReadingsTail(evs);
    if Running(t) {
      assert (Timeline(t, evs))[1] == evs[0].at;
      assert (Timeline(t, evs))[0] <= (Timeline(t, evs))[1];
      assert (Timeline(t, evs))[1..] == Readings(evs);
      Source.DropOldest(Timeline(t, evs));
    } else {
      assert Timeline(t, evs) == Readings(evs);
    }
    assert Readings(evs)[1..] == Readings(evs[1..]);
    Source.DropOldest(Readings(evs));
  }

  /** Performs the calls in order, stopping at the first usage error (where the source panics). */
  function Replay(t: Timer, evs: seq<Event>): (r: Result<Timer>)
    requires Source.NonDecreasing(Timeline(t, evs))
    decreases |evs|
  {
    if |evs| == 0 then Ok(t)
    else
      ClockStep(t, evs);
      match Apply(t, evs[0])
      case Err(e) => Err(e)
      case Ok(next) =>
        assert Timeline(next, evs[1..]) == (if evs[0].Started? then Readings(evs) else Readings(evs[1..]));
        Replay(next, evs[1..])
  }

  /** Calls alternate `start`, `stop`, `start`, … beginning with `stop` when the timer already runs. */
  predicate Alternates(evs: seq<Event>, running: bool) {
    forall i :: 0 <= i < |evs| ==> (evs[i].Started? <==> (i % 2 == 0) != running)
  }

  lemma AlternatesUnfold(evs: seq<Event>, running: bool)
    requires |evs| > 0
    ensures Alternates(evs, running) <==> ((evs[0].Started? <==> !running) && Alternates(evs[1..], !running))
  {
    if (evs[0].Started? <==> !running) && Alternates(evs[1..], !running) {
      forall i | 0 < i < |evs|
        ensures evs[i].Started? <==> (i % 2 == 0) != running
      {
        assert evs[1..][i - 1] == evs[i];
      }
    }
    if Alternates(evs, running) {
      forall i | 0 <= i < |evs[1..]|
        ensures evs[1..][i].Started? <==> (i % 2 == 0) != !running
      {
        assert evs[1..][i] == evs[i + 1];
      }
    }
  }

  /** Usage errors exactly: a sequence of calls runs without panicking iff it alternates. */
  lemma {:induction false} ReplayOkIff(t: Timer, evs: seq<Event>)
    requires Source.NonDecreasing(Timeline(t, evs))
    ensures Replay(t, evs).Ok? <==> Alternates(evs, Running(t))
    decreases |evs|
  {
    if |evs| > 0 {
      ClockStep(t, evs);
      AlternatesUnfold(evs, Running(t));
      var step := Apply(t, evs[0]);
      if step.Ok? {
        assert Timeline(step.value, evs[1..]) == (if evs[0].Started? then Readings(evs) else Readings(evs[1..]));
        ReplayOkIff(step.value, evs[1..]);
      }
    }
  }

  /** A non-overlapping start/stop pair with its two readings. */
  datatype Interval = Interval(start: nat, stop: nat)

  function Calls(ps: seq<Interval>): seq<Event>
    decreases |ps|
  {
    if |ps| == 0 then [] else [Started(ps[0].start), Stopped(ps[0].stop)] + Calls(ps[1..])
  }

  /** Total length of the intervals. */
  function TotalDuration(ps: seq<Interval>): int
    decreases |ps|
  {
    if |ps| == 0 then 0 else (ps[0].stop - ps[0].start) + TotalDuration(ps[1..])
  }

  lemma {:induction false} IntervalsAccumulate(t: Timer, ps: seq<Interval>)
    requires !Running(t)
    requires Source.NonDecreasing(Readings(Calls(ps)))
    ensures Replay(t, Calls(ps)).Ok?
    ensures !Running(Replay(t, Calls(ps)).value)
    ensures Replay(t, Calls(ps)).value.tracker.elapsed == t.tracker.elapsed + TotalDuration(ps)
    decreases |ps|
  {
    if |ps| > 0 {
      var evs := Calls(ps);
      var p := ps[0];
      ReadingsAppend([Started(p.start), Stopped(p.stop)], Calls(ps[1..]));
      assert Readings(evs)[1] == p.stop && Readings(evs)[0] == p.start;
      var running := Start(t, p.start).value;
      assert evs[1..] == [Stopped(p.stop)] + Calls(ps[1..]);
      assert evs[1..][1..] == Calls(ps[1..]);
      ReadingsTail(evs);
      ReadingsTail(evs[1..]);
      Source.DropOldest(Readings(evs));
      Source.DropOldest(Readings(evs[1..]));
      assert Replay(t, evs) == Replay(running, evs[1..]);
      var stopped := Stop(running, p.stop).value;
      assert Replay(running, evs[1..]) == Replay(stopped, Calls(ps[1..]));
      IntervalsAccumulate(stopped, ps[1..]);
    }
  }

  /** After n start/stop pairs on a new timer, the reported total is the sum of the pairs' lengths,
      whenever it is queried. */
  lemma {:induction false} PairsSum(ps: seq<Interval>, now: nat)
    requires Source.NonDecreasing(Readings(Calls(ps)))
    ensures Replay(New(), Calls(ps)).Ok?
    ensures !Running(Replay(New(), Calls(ps)).value)
    ensures NumNanoseconds(Replay(New(), Calls(ps)).value, now) == TotalDuration(ps)
  {
    var t := New();
    IntervalsAccumulate(t, ps);
    var r := Replay(t, Calls(ps)).value;
    assert NumNanoseconds(r, now) == r.tracker.elapsed;
  }
}
