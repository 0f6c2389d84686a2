/** `SimpleTracker` (src/simpletracker.rs): the canonical `Tracker`, a running nanosecond sum whose
    statistics are the total itself. */
module SimpleTracker {
  import opened Common

  /** Accumulated nanoseconds of completed intervals. The source's field is a `u64`; here a `nat`. */
  datatype Tracker = Tracker(elapsed: nat)

  /** `Default::default`: nothing recorded yet. */
  function Default(): (r: Tracker)
    ensures Get(r, None) == 0
  {
    Tracker(0)
  }

  /** `record`: add one completed interval of `time` nanoseconds. */
  function Record(tr: Tracker, time: nat): (r: Tracker)
    ensures r.elapsed >= tr.elapsed
    ensures r.elapsed - tr.elapsed == time
  {
    Tracker(tr.elapsed + time)
  }

  /** `get_stats`: the total, with an optional in-flight duration folded in; the tracker itself is
      left as it is (it is passed by value). */
  function GetStats(tr: Tracker, partial: Option<nat>): (r: nat)
    ensures r >= tr.elapsed
    ensures r - tr.elapsed == partial.UnwrapOr(0)
  {
    tr.elapsed + partial.UnwrapOr(0)
  }

  /** `get`: the nanosecond total; for this tracker it is the statistics value itself. */
  function Get(tr: Tracker, partial: Option<nat>): (r: nat)
    ensures r == GetStats(tr, partial)
    ensures r >= tr.elapsed
  {
    GetStats(tr, partial)
  }

  /** Folding a partial duration into a query reports exactly what recording it would have left,
      while the queried tracker stays as it was. */
  lemma PartialActsAsRecorded(tr: Tracker, d: nat)
    ensures GetStats(tr, Some(d)) == Get(Record(tr, d), None)
    ensures GetStats(tr, None) == Get(tr, None) == tr.elapsed
  {
  }

  /** Recording `a` then `b` is the same as recording `a + b` at once. */
  lemma RecordTwice(tr: Tracker, a: nat, b: nat)
    ensures Record(Record(tr, a), b) == Record(tr, a + b)
    ensures Record(Record(tr, a), b) == Record(Record(tr, b), a)
  {
  }

  /** Sum of a sequence of durations. */
  function Sum(ds: seq<nat>): nat {
    if |ds| == 0 then 0 else ds[0] + Sum(ds[1..])
  }

  /** Record every duration of `ds`, oldest first. */
  function RecordAll(tr: Tracker, ds: seq<nat>): (r: Tracker)
    ensures r.elapsed == tr.elapsed + Sum(ds)
    decreases |ds|
  {
    if |ds| == 0 then tr else RecordAll(Record(tr, ds[0]), ds[1..])
  }

  lemma {:induction false} SumConcat(a: seq<nat>, b: seq<nat>)
    ensures Sum(a + b) == Sum(a) + Sum(b)
    decreases |a|
  {
    if |a| > 0 {
      assert (a + b)[1..] == a[1..] + b;
      SumConcat(a[1..], b);
    } else {
      assert a + b == b;
    }
  }

  lemma SumWithout(ds: seq<nat>, i: nat)
    requires i < |ds|
    ensures Sum(ds) == ds[i] + Sum(ds[..i] + ds[i + 1..])
  {
    assert ds == ds[..i] + ds[i..];
    SumConcat(ds[..i], ds[i..]);
    assert ds[i..][1..] == ds[i + 1..];
    SumConcat(ds[..i], ds[i + 1..]);
  }

  lemma MultisetWithout(es: seq<nat>, i: nat)
    requires i < |es|
    ensures multiset(es[..i] + es[i + 1..]) == multiset(es) - multiset{es[i]}
  {
    assert es == es[..i] + [es[i]] + es[i + 1..];
    assert multiset(es) == multiset(es[..i]) + multiset{es[i]} + multiset(es[i + 1..]);
  }

  lemma IndexOf(es: seq<nat>, x: nat) returns (i: nat)
    requires x in multiset(es)
    ensures i < |es| && es[i] == x
  {
    assert x in es;
    i :| 0 <= i < |es| && es[i] == x;
  }

  lemma MultisetTail(ds: seq<nat>)
    requires |ds| > 0
    ensures multiset(ds[1..]) == multiset(ds) - multiset{ds[0]}
  {
    assert ds == [ds[0]] + ds[1..];
  }

  /** Removes from `es` one occurrence of `ds[0]`, leaving the permutation of `ds[1..]`. */
  lemma RemoveFirst(ds: seq<nat>, es: seq<nat>) returns (rest: seq<nat>)
    requires |ds| > 0 && multiset(ds) == multiset(es)
    ensures multiset(ds[1..]) == multiset(rest)
    ensures Sum(es) == ds[0] + Sum(rest)
  {
    var i := IndexOf(es, ds[0]);
    rest := es[..i] + es[i + 1..];
    MultisetWithout(es, i);
    assert multiset(rest) == multiset(es) - multiset{ds[0]};
    MultisetTail(ds);
    SumWithout(es, i);
  }

  lemma {:induction false} SumPermutation(ds: seq<nat>, es: seq<nat>)
    requires multiset(ds) == multiset(es)
    ensures Sum(ds) == Sum(es)
    decreases |ds|
  {
    if |ds| == 0 {
      assert |es| == |multiset(es)| == 0;
    } else {
      var rest := RemoveFirst(ds, es);
      SumPermutation(ds[1..], rest);
    }
  }

  /** The order in which intervals are recorded does not matter: any permutation of the same
      durations leaves the tracker in the same state. */
  lemma RecordOrderIrrelevant(tr: Tracker, ds: seq<nat>, es: seq<nat>)
    requires multiset(ds) == multiset(es)
    ensures RecordAll(tr, ds) == RecordAll(tr, es)
  {
    SumPermutation(ds, es);
  }
}
