/** `TimerSet` (src/timerset.rs): one tracker per key and at most one running key. A single clock
    reading both closes the previously running key and opens the next, so no time is lost or counted
    twice. Every clock reading is passed in as `now`. */
module TimerSet {
  import opened Common
  import SimpleTracker
  import Units
  import Source

  /** The running key and the reading taken when it was started. */
  datatype Active<K> = Active(key: K, since: nat)

  datatype TimerSet<K> = TimerSet(trackers: map<K, SimpleTracker.Tracker>, current: Option<Active<K>>)

  /** The running key always has a tracker; the source's `unwrap()` calls rely on this. */
  predicate Valid<K>(ts: TimerSet<K>) {
    ts.current.Some? ==> ts.current.value.key in ts.trackers
  }

  /** The Source contract seen from the set: `now` is not older than the running key's start. */
  predicate ReadableAt<K>(ts: TimerSet<K>, now: nat) {
    ts.current.Some? ==> ts.current.value.since <= now
  }

  predicate IsCurrent<K>(ts: TimerSet<K>, k: K) {
    ts.current.Some? && ts.current.value.key == k
  }

  /** `TimerSet::new`: no trackers and nothing running. */
  function New<K>(): (r: TimerSet<K>)
    ensures Valid(r) && r.current.None?
    ensures |r.trackers| == 0
  {
    TimerSet(map[], None)
  }

  /** A new set answers `None` for every key at every reading. */
  lemma NewHasNoReadings<K>(k: K, now: nat)
    ensures NumNanoseconds(New(), k, now).None?
  {
  }

  /** The hand-off step shared by `start` and `stop`: the running key's tracker records the time since
      its start reading; every other tracker is left as it is. */
  function Close<K>(ts: TimerSet<K>, now: nat): (m: map<K, SimpleTracker.Tracker>)
    requires Valid(ts) && ReadableAt(ts, now)
    ensures m.Keys == ts.trackers.Keys
    ensures forall j :: j in ts.trackers && !IsCurrent(ts, j) ==> m[j] == ts.trackers[j]
    ensures ts.current.Some? ==> var Active(k0, t0) := ts.current.value;
      m[k0].elapsed - ts.trackers[k0].elapsed == now - t0
  {
    match ts.current
    case None => ts.trackers
    case Some(Active(k0, t0)) => ts.trackers[k0 := SimpleTracker.Record(ts.trackers[k0], now - t0)]
  }

  /** `start(k)`: closes the running key (possibly `k` itself) at `now`, makes `k` the running key
      from that same reading, and creates a zero tracker for `k` only if it has none. */
  function Start<K>(ts: TimerSet<K>, k: K, now: nat): (r: TimerSet<K>)
    requires Valid(ts) && ReadableAt(ts, now)
    ensures Valid(r) && r.current == Some(Active(k, now))
    ensures r.trackers.Keys == ts.trackers.Keys + {k}
    ensures k !in ts.trackers ==> r.trackers[k] == SimpleTracker.Default()
    ensures forall j :: j in ts.trackers && !IsCurrent(ts, j) ==> r.trackers[j] == ts.trackers[j]
    ensures ts.current.Some? ==> var Active(k0, t0) := ts.current.value;
      r.trackers[k0].elapsed - ts.trackers[k0].elapsed == now - t0
  {
    var closed := Close(ts, now);
    TimerSet(if k in closed then closed else closed[k := SimpleTracker.Default()], Some(Active(k, now)))
  }

  /** `stop()`: closes the running key at `now` and leaves nothing running; with nothing running it
      changes nothing. */
  function Stop<K>(ts: TimerSet<K>, now: nat): (r: TimerSet<K>)
    requires Valid(ts) && ReadableAt(ts, now)
    ensures Valid(r) && r.current.None?
    ensures r.trackers.Keys == ts.trackers.Keys
    ensures forall j :: j in ts.trackers && !IsCurrent(ts, j) ==> r.trackers[j] == ts.trackers[j]
    ensures ts.current.Some? ==> var Active(k0, t0) := ts.current.value;
      r.trackers[k0].elapsed - ts.trackers[k0].elapsed == now - t0
    ensures ts.current.None? ==> r == ts
  {
    TimerSet(Close(ts, now), None)
  }

  /** The partial duration a query hands to the tracker: only for the running key. */
  function InFlight<K>(ts: TimerSet<K>, k: K, now: nat): Option<nat>
    requires ReadableAt(ts, now)
  {
    match ts.current
    case Some(Active(c, t)) => if c == k then Some(now - t) else None
    case None => None
  }

  /** `get_stats(k)`: `None` for a key never started; for the simple tracker the statistics value is
      the nanosecond total. */
  function GetStats<K>(ts: TimerSet<K>, k: K, now: nat): (r: Option<nat>)
    requires ReadableAt(ts, now)
    ensures r == NumNanoseconds(ts, k, now)
  {
    if k in ts.trackers then Some(SimpleTracker.GetStats(ts.trackers[k], InFlight(ts, k, now))) else None
  }

  /** `num_nanoseconds(k)`: `None` iff `k` has no tracker; otherwise its total, including the time
      since its start reading when `k` is the running key. */
  function NumNanoseconds<K>(ts: TimerSet<K>, k: K, now: nat): (r: Option<nat>)
    requires ReadableAt(ts, now)
    ensures r.None? <==> k !in ts.trackers
    ensures r.Some? ==> r.value >= ts.trackers[k].elapsed
    ensures r.Some? && !IsCurrent(ts, k) ==> r.value == ts.trackers[k].elapsed
    ensures r.Some? && IsCurrent(ts, k) ==> r.value - ts.trackers[k].elapsed == now - ts.current.value.since
  {
    if k in ts.trackers then Some(SimpleTracker.Get(ts.trackers[k], InFlight(ts, k, now))) else None
  }

  /** `num_microseconds(k)` … `num_hours(k)`: the nanosecond answer in whole units, truncated,
      mapped over the option. */
  function NumIn<K>(ts: TimerSet<K>, k: K, now: nat, u: Units.Unit): (r: Option<nat>)
    requires ReadableAt(ts, now)
    ensures r.None? <==> k !in ts.trackers
    ensures r.Some? ==> Units.WholeUnits(r.value, NumNanoseconds(ts, k, now).value, u)
  {
    match NumNanoseconds(ts, k, now)
    case None => None
    case Some(ns) => Some(Units.Convert(ns, u))
  }

  // ---------------------------------------------------------------------------------------------
  // Properties of single calls

  /** Switching keys at `now` changes no reading taken at `now`: the closed key keeps exactly the total
      it had, and a key seen for the first time starts from zero. */
  lemma StartKeepsReadings<K>(ts: TimerSet<K>, k: K, now: nat, j: K)
    requires Valid(ts) && ReadableAt(ts, now)
    ensures j in ts.trackers ==> NumNanoseconds(Start(ts, k, now), j, now) == NumNanoseconds(ts, j, now)
    ensures j !in ts.trackers ==> NumNanoseconds(Start(ts, k, now), j, now) == (if j == k then Some(0) else None)
  {
    var r := Start(ts, k, now);
    if j in ts.trackers {
      if IsCurrent(ts, j) {
        assert r.trackers[j].elapsed == ts.trackers[j].elapsed + (now - ts.current.value.since);
        assert InFlight(r, j, now).UnwrapOr(0) == 0;
      } else {
        assert r.trackers[j] == ts.trackers[j];
        assert InFlight(r, j, now).UnwrapOr(0) == 0;
      }
    }
  }

  /** After `stop()` at `now` every reading is frozen at its value at `now`. */
  lemma StopFreezesReadings<K>(ts: TimerSet<K>, now: nat, j: K, later: nat)
    requires Valid(ts) && ReadableAt(ts, now)
    ensures NumNanoseconds(Stop(ts, now), j, later) == NumNanoseconds(ts, j, now)
  {
  }

  /** At most one key accrues time: between two readings only the running key's answer grows, and by
      exactly the time between them. */
  lemma Advance<K>(ts: TimerSet<K>, k: K, a: nat, b: nat)
    requires ReadableAt(ts, a) && a <= b
    ensures NumNanoseconds(ts, k, a).None? <==> NumNanoseconds(ts, k, b).None?
    ensures IsCurrent(ts, k) && k in ts.trackers ==>
      NumNanoseconds(ts, k, b).value == NumNanoseconds(ts, k, a).value + (b - a)
    ensures !IsCurrent(ts, k) ==> NumNanoseconds(ts, k, b) == NumNanoseconds(ts, k, a)
  {
  }

  /** The hand-off is continuous: switching from the running key `k0` (started at `t0`) to `k` at
      `now`, the time `k0` gains plus the time `k` gains by any later reading is exactly the time
      since `t0` -- no gap and no overlap. */
  lemma HandOffContinuous<K>(ts: TimerSet<K>, k0: K, t0: nat, k: K, now: nat, later: nat)
    requires Valid(ts) && ts.current == Some(Active(k0, t0)) && k0 != k
    requires t0 <= now <= later
    ensures k0 in Start(ts, k, now).trackers && k in Start(ts, k, now).trackers
    ensures NumNanoseconds(Start(ts, k, now), k0, later).value - ts.trackers[k0].elapsed
          + NumNanoseconds(Start(ts, k, now), k, later).value - Baseline(ts, k)
          == later - t0
  {
    var r := Start(ts, k, now);
    assert NumNanoseconds(ts, k0, now).value == ts.trackers[k0].elapsed + (now - t0);
    Advance(r, k, now, later);
    Advance(r, k0, now, later);
  }

  /** What a key held before being started: its total, or zero if it had no tracker. */
  function Baseline<K>(ts: TimerSet<K>, k: K): nat {
    if k in ts.trackers then ts.trackers[k].elapsed else 0
  }

  /** Starting the running key again is not an error: it banks the time so far and restarts the key
      at `now`, which no reading can tell apart from letting it run. */
  lemma RestartCurrent<K>(ts: TimerSet<K>, now: nat, later: nat)
    requires Valid(ts) && ts.current.Some? && ts.current.value.since <= now <= later
    ensures var k := ts.current.value.key;
            forall j :: NumNanoseconds(Start(ts, k, now), j, later) == NumNanoseconds(ts, j, later)
  {
    var k := ts.current.value.key;
    var r := Start(ts, k, now);
    forall j
      ensures NumNanoseconds(r, j, later) == NumNanoseconds(ts, j, later)
    {
      Advance(r, j, now, later);
      Advance(ts, j, now, later);
    }
  }

  /** A redundant `stop` is a no-op: stopping twice is stopping once. */
  lemma StopIdempotent<K>(ts: TimerSet<K>, now: nat, later: nat)
    requires Valid(ts) && ReadableAt(ts, now)
    ensures Stop(Stop(ts, now), later) == Stop(ts, now)
  {
  }

  /** The calls of the unit test, `start(x); start(y); stop()`, at readings `a`, `b`, `c`. */
  function TestCalls<K>(x: K, y: K, a: nat, b: nat, c: nat): TimerSet<K>
    requires a <= b <= c
  {
    Stop(Start(Start(New(), x, a), y, b), c)
  }

  lemma SwitchFromFirstKey<K>(x: K, y: K, a: nat, b: nat)
    requires x != y && a <= b
    ensures var s2 := Start(Start(New(), x, a), y, b);
            && NumNanoseconds(s2, x, b) == Some(b - a)
            && NumNanoseconds(s2, y, b) == Some(0)
            && s2.trackers.Keys == {x, y}
  {
    var s1 := Start(New(), x, a);
    assert NumNanoseconds(s1, x, b) == Some(b - a);
    assert y !in s1.trackers;
    StartKeepsReadings(s1, y, b, x);
    StartKeepsReadings(s1, y, b, y);
  }

  lemma StopAfterSwitch<K>(s2: TimerSet<K>, x: K, y: K, z: K, a: nat, b: nat, c: nat, later: nat)
    requires Valid(s2) && s2.current == Some(Active(y, b)) && x != y && z != x && z != y
    requires a <= b <= c
    requires NumNanoseconds(s2, x, b) == Some(b - a) && NumNanoseconds(s2, y, b) == Some(0)
    requires s2.trackers.Keys == {x, y}
    ensures NumNanoseconds(Stop(s2, c), x, later) == Some(b - a)
    ensures NumNanoseconds(Stop(s2, c), y, later) == Some(c - b)
    ensures NumNanoseconds(Stop(s2, c), z, later).None?
  {
    Advance(s2, x, b, c);
    Advance(s2, y, b, c);
    StopFreezesReadings(s2, c, x, later);
    StopFreezesReadings(s2, c, y, later);
    StopFreezesReadings(s2, c, z, later);
  }

  /** The unit-test scenario for any three distinct keys: `x` holds the time until the switch, `y` the
      time from the switch to the stop, and `z`, never started, has no reading. Under a strictly
      increasing clock both totals are positive, as the test asserts. */
  lemma TestScenario<K>(x: K, y: K, z: K, a: nat, b: nat, c: nat, later: nat)
    requires x != y && z != x && z != y
    requires a <= b <= c
    ensures NumNanoseconds(TestCalls(x, y, a, b, c), x, later) == Some(b - a)
    ensures NumNanoseconds(TestCalls(x, y, a, b, c), y, later) == Some(c - b)
    ensures NumNanoseconds(TestCalls(x, y, a, b, c), z, later).None?
  {
    SwitchFromFirstKey(x, y, a, b);
    StopAfterSwitch(Start(Start(New(), x, a), y, b), x, y, z, a, b, c, later);
  }

  // ---------------------------------------------------------------------------------------------
  // Whole histories

  /** A call on the set together with the clock reading it takes. */
  datatype Call<K> = StartKey(key: K, at: nat) | StopAll(at: nat)

  /** The readings taken by a history of calls, in order. */
  function Readings<K>(calls: seq<Call<K>>): (rs: seq<nat>)
    ensures |rs| == |calls|
  {
    Source.Readings(calls, (c: Call<K>) => c.at)
  }

  /** Performs one call. */
  function Step<K>(ts: TimerSet<K>, c: Call<K>): TimerSet<K>
    requires Valid(ts) && ReadableAt(ts, c.at)
  {
    match c
    case StartKey(k, now) => Start(ts, k, now)
    case StopAll(now) => Stop(ts, now)
  }

  /** Dropping the newest call keeps the Source contract, and the last two calls are ordered. */
  lemma HistoryPrefix<K>(calls: seq<Call<K>>)
    requires |calls| > 0 && Source.NonDecreasing(Readings(calls))
    ensures Source.NonDecreasing(Readings(calls[..|calls| - 1]))
    ensures |calls| > 1 ==> calls[|calls| - 2].at <= calls[|calls| - 1].at
  {
    assert Readings(calls)[..|calls| - 1] == Readings(calls[..|calls| - 1]);
    Source.DropNewest(Readings(calls));
    if |calls| > 1 {
      assert Readings(calls)[|calls| - 2] <= Readings(calls)[|calls| - 1];
    }
  }

  /** The state a new set reaches after a history of calls whose readings obey the Source contract.
      The map invariant holds throughout, and the running key is the one named by the last call, a
      `start`, from that call's reading. */
  function Run<K>(calls: seq<Call<K>>): (r: TimerSet<K>)
    requires Source.NonDecreasing(Readings(calls))
    ensures Valid(r)
    ensures r.current.Some? ==>
      |calls| > 0 && calls[|calls| - 1] == StartKey(r.current.value.key, r.current.value.since)
    decreases |calls|
  {
    if |calls| == 0 then New()
    else
      var pre := calls[..|calls| - 1];
      HistoryPrefix(calls);
      Step(Run(pre), calls[|calls| - 1])
  }

  /** Some call of the history started `k`. */
  ghost predicate Started<K>(calls: seq<Call<K>>, k: K) {
    exists i :: 0 <= i < |calls| && calls[i].StartKey? && calls[i].key == k
  }

  /** Reference definition of the time attributed to `k`: the sum, over the calls that start `k`, of
      the time from that call's reading to the next call's reading (or to `now` for the last call). */
  function KeyTime<K(==)>(calls: seq<Call<K>>, k: K, now: nat): int
    decreases |calls|
  {
    if |calls| == 0 then 0
    else
      var until := if |calls| > 1 then calls[1].at else now;
      (if calls[0].StartKey? && calls[0].key == k then until - calls[0].at else 0)
        + KeyTime(calls[1..], k, now)
  }

  lemma {:induction false} KeyTimeSnoc<K>(pre: seq<Call<K>>, c: Call<K>, k: K, now: nat)
    ensures KeyTime(pre + [c], k, now)
         == KeyTime(pre, k, c.at) + (if c.StartKey? && c.key == k then now - c.at else 0)
    decreases |pre|
  {
    if |pre| == 0 {
      assert [c][1..] == [];
    } else {
      assert (pre + [c])[1..] == pre[1..] + [c];
      KeyTimeSnoc(pre[1..], c, k, now);
    }
  }

  lemma {:induction false} KeyTimeUnstarted<K>(calls: seq<Call<K>>, k: K, now: nat)
    requires !Started(calls, k)
    ensures KeyTime(calls, k, now) == 0
    decreases |calls|
  {
    if |calls| > 0 {
      assert !(calls[0].StartKey? && calls[0].key == k);
      forall i | 0 <= i < |calls[1..]|
        ensures !(calls[1..][i].StartKey? && calls[1..][i].key == k)
      {
        assert calls[1..][i] == calls[i + 1];
      }
      KeyTimeUnstarted(calls[1..], k, now);
    }
  }

  lemma StartedSnoc<K>(pre: seq<Call<K>>, c: Call<K>, k: K)
    ensures Started(pre + [c], k) <==> Started(pre, k) || (c.StartKey? && c.key == k)
  {
    var calls := pre + [c];
    if Started(pre, k) {
      var i :| 0 <= i < |pre| && pre[i].StartKey? && pre[i].key == k;
      assert calls[i] == pre[i];
    }
    if c.StartKey? && c.key == k {
      assert calls[|pre|] == c;
    }
    if Started(calls, k) {
      var i :| 0 <= i < |calls| && calls[i].StartKey? && calls[i].key == k;
      if i < |pre| {
        assert calls[i] == pre[i];
      }
    }
  }

  /** One call's accounting for a key: the key gets a reading when the call starts it or it already
      had one, and its reading grows from the call's reading to `now` only if the call starts it. */
  lemma StepAccounts<K>(s: TimerSet<K>, c: Call<K>, k: K, now: nat)
    requires Valid(s) && ReadableAt(s, c.at) && c.at <= now
    ensures NumNanoseconds(Step(s, c), k, now).None? <==>
      NumNanoseconds(s, k, c.at).None? && !(c.StartKey? && c.key == k)
    ensures NumNanoseconds(Step(s, c), k, now).Some? ==>
      NumNanoseconds(Step(s, c), k, now).value
        == NumNanoseconds(s, k, c.at).UnwrapOr(0) + (if c.StartKey? && c.key == k then now - c.at else 0)
  {
    match c
    case StartKey(k', t) =>
      StartKeepsReadings(s, k', t, k);
      Advance(Step(s, c), k, t, now);
    case StopAll(t) =>
      StopFreezesReadings(s, t, k, now);
  }

  /** `StepAccounts` for the last call of a history. */
  lemma RunAccounts<K>(calls: seq<Call<K>>, k: K, now: nat)
    requires |calls| > 0 && Source.NonDecreasing(Readings(calls)) && calls[|calls| - 1].at <= now
    ensures Source.NonDecreasing(Readings(calls[..|calls| - 1]))
    ensures |calls| > 1 ==> calls[|calls| - 2].at <= calls[|calls| - 1].at
    ensures var pre, c := calls[..|calls| - 1], calls[|calls| - 1];
      var before, after := NumNanoseconds(Run(pre), k, c.at), NumNanoseconds(Run(calls), k, now);
      var starts := c.StartKey? && c.key == k;
      && (after.None? <==> before.None? && !starts)
      && (after.Some? ==> after.value == before.UnwrapOr(0) + (if starts then now - c.at else 0))
  {
    HistoryPrefix(calls);
    StepAccounts(Run(calls[..|calls| - 1]), calls[|calls| - 1], k, now);
  }

  /** `StartedSnoc` and `KeyTimeSnoc` for the last call of a history. */
  lemma HistoryLast<K>(calls: seq<Call<K>>, k: K, now: nat)
    requires |calls| > 0
    ensures var pre, c := calls[..|calls| - 1], calls[|calls| - 1];
      var starts := c.StartKey? && c.key == k;
      && (Started(calls, k) <==> Started(pre, k) || starts)
      && KeyTime(calls, k, now) == KeyTime(pre, k, c.at) + (if starts then now - c.at else 0)
  {
    var pre, c := calls[..|calls| - 1], calls[|calls| - 1];
    assert calls == pre + [c];
    StartedSnoc(pre, c, k);
    KeyTimeSnoc(pre, c, k, now);
  }

  /** What the set reports is its history: after any sequence of calls on a new set, a key has a
      reading iff some call started it, and that reading is exactly the time during which it was the
      running key. So no time is lost or counted twice, and only one key accrues time at once. */
  lemma {:induction false} ReadingsMatchHistory<K>(calls: seq<Call<K>>, k: K, now: nat)
    requires Source.NonDecreasing(Readings(calls))
    requires |calls| > 0 ==> calls[|calls| - 1].at <= now
    ensures NumNanoseconds(Run(calls), k, now).None? <==> !Started(calls, k)
    ensures Started(calls, k) ==> NumNanoseconds(Run(calls), k, now).value == KeyTime(calls, k, now)
    decreases |calls|
  {
    if |calls| == 0 {
      assert !Started(calls, k);
    } else {
      var pre, c := calls[..|calls| - 1], calls[|calls| - 1];
      RunAccounts(calls, k, now);
      ReadingsMatchHistory(pre, k, c.at);
      HistoryLast(calls, k, now);
      if !Started(pre, k) {
        KeyTimeUnstarted(pre, k, c.at);
      }
    }
  }
}
