/** The `Source` capability: a clock handing out nanosecond readings. Its only promise is that
    successive readings never decrease; the readings themselves are parameters of the model. */
module Source {

  /** The readings taken by a sequence of calls, in order; `at` is the reading one call takes. */
  function Readings<E>(es: seq<E>, at: E -> nat): (rs: seq<nat>)
    ensures |rs| == |es|
  {
    seq(|es|, i requires 0 <= i < |es| => at(es[i]))
  }

  lemma ReadingsTail<E>(es: seq<E>, at: E -> nat)
    requires |es| > 0
    ensures Readings(es, at) == [at(es[0])] + Readings(es[1..], at)
  {
    assert forall i :: 0 < i < |es| ==> Readings(es, at)[i] == Readings(es[1..], at)[i - 1];
  }

  lemma ReadingsAppend<E>(a: seq<E>, b: seq<E>, at: E -> nat)
    ensures Readings(a + b, at) == Readings(a, at) + Readings(b, at)
  {
    assert forall i :: 0 <= i < |a| + |b| ==>
      Readings(a + b, at)[i] == (Readings(a, at) + Readings(b, at))[i];
  }

  /** The clock contract over a sequence of successive readings. */
  ghost predicate NonDecreasing(rs: seq<nat>) {
    forall i :: 0 < i < |rs| ==> rs[i - 1] <= rs[i]
  }

  /** Dropping the oldest reading keeps the contract. */
  lemma DropOldest(rs: seq<nat>)
    requires NonDecreasing(rs) && |rs| > 0
    ensures NonDecreasing(rs[1..])
  {
    forall i | 0 < i < |rs[1..]|
      ensures rs[1..][i - 1] <= rs[1..][i]
    {
      assert rs[1..][i - 1] == rs[i] && rs[1..][i] == rs[i + 1];
    }
  }

  /** Dropping the newest reading keeps the contract. */
  lemma DropNewest(rs: seq<nat>)
    requires NonDecreasing(rs) && |rs| > 0
    ensures NonDecreasing(rs[..|rs| - 1])
  {
  }
}
