/** The `/delta` handler's normalisation: flatten the notification's
    change-sets into one insert list and one delete list, then drop every
    statement that the other side cancels. */
module Normalizer {
  import opened Seqs
  import opened Triples
  import opened ChangeSets

  /** The accumulator the reduction starts from. */
  const Nothing := ChangeSet([], [])

  /** The `reduce` over the notification body: each step appends the current
      change-set's inserts and deletes to the accumulated ones. */
  function Reduce(acc: ChangeSet, body: seq<ChangeSet>): (r: ChangeSet)
    ensures |r.inserts| == |acc.inserts| + |InsertsOf(body)|
    ensures |r.deletes| == |acc.deletes| + |DeletesOf(body)|
    decreases |body|
  {
    if |body| == 0 then acc
    else Reduce(ChangeSet(acc.inserts + body[0].inserts, acc.deletes + body[0].deletes), body[1..])
  }

  /** The left fold computes the in-order concatenation. */
  lemma {:induction false} ReduceConcatenates(acc: ChangeSet, body: seq<ChangeSet>)
    ensures Reduce(acc, body) == ChangeSet(acc.inserts + InsertsOf(body), acc.deletes + DeletesOf(body))
    decreases |body|
  {
    if |body| > 0 {
      var next := ChangeSet(acc.inserts + body[0].inserts, acc.deletes + body[0].deletes);
      ReduceConcatenates(next, body[1..]);
      assert acc.inserts + body[0].inserts + InsertsOf(body[1..]) == acc.inserts + InsertsOf(body);
      assert acc.deletes + body[0].deletes + DeletesOf(body[1..]) == acc.deletes + DeletesOf(body);
    }
  }

  /** The flattened notification: all inserts in arrival order, all deletes
      in arrival order. */
  function Flatten(body: seq<ChangeSet>): (r: ChangeSet)
    ensures r.inserts == InsertsOf(body)
    ensures r.deletes == DeletesOf(body)
  {
    ReduceConcatenates(Nothing, body);
    Reduce(Nothing, body)
  }

  /** `x` is equal to some statement of `against`. */
  predicate CancelledBy(x: Triple, against: seq<Triple>)
  {
    exists y :: y in against && y.IsEqual(x)
  }

  /** `!against.some(y => y.isEqual(x))`. */
  function Survives(x: Triple, against: seq<Triple>): (r: bool)
    ensures r <==> !CancelledBy(x, against)
  {
    !Any((y: Triple) => y.IsEqual(x), against)
  }

  /** `xs.filter(x => !against.some(y => y.isEqual(x)))`. */
  function Cancel(xs: seq<Triple>, against: seq<Triple>): (r: seq<Triple>)
    ensures IsSubsequence(r, xs)
    ensures forall x :: x in r ==> x in xs && !CancelledBy(x, against)
    ensures forall x :: multiset(r)[x] == if CancelledBy(x, against) then 0 else multiset(xs)[x]
  {
    Filter(x => Survives(x, against), xs)
  }

  /** A normalised notification: the flattened lists with each side's
      statements removed when the other side holds an equal one. */
  function Normalize(body: seq<ChangeSet>): (r: ChangeSet)
    ensures IsSubsequence(r.inserts, InsertsOf(body))
    ensures IsSubsequence(r.deletes, DeletesOf(body))
    ensures forall x :: multiset(r.inserts)[x] == if CancelledBy(x, DeletesOf(body)) then 0 else multiset(InsertsOf(body))[x]
    ensures forall x :: multiset(r.deletes)[x] == if CancelledBy(x, InsertsOf(body)) then 0 else multiset(DeletesOf(body))[x]
    ensures forall x :: x in r.inserts ==> !CancelledBy(x, DeletesOf(body))
    ensures forall x :: x in r.deletes ==> !CancelledBy(x, InsertsOf(body))
    ensures NoOverlap(r)
  {
    var flat := Flatten(body);
    ChangeSet(Cancel(flat.inserts, flat.deletes), Cancel(flat.deletes, flat.inserts))
  }

  /** A statement both inserted and deleted in one notification survives on
      neither side, and neither does any statement equal to it. */
  lemma SelfCancellation(body: seq<ChangeSet>, s: Triple)
    requires s in InsertsOf(body) && s in DeletesOf(body)
    ensures forall x :: x in Normalize(body).inserts ==> !x.IsEqual(s)
    ensures forall x :: x in Normalize(body).deletes ==> !x.IsEqual(s)
  {
  }

  /** A notification whose sides share no statement is only flattened. */
  lemma NormalizeWithoutOverlap(body: seq<ChangeSet>)
    requires NoOverlap(Flatten(body))
    ensures Normalize(body) == Flatten(body)
  {
    var flat := Flatten(body);
    forall x | x in flat.inserts
      ensures Survives(x, flat.deletes)
    {
      forall y | y in flat.deletes
        ensures !y.IsEqual(x)
      {
        assert !x.IsEqual(y);
      }
    }
    forall x | x in flat.deletes
      ensures Survives(x, flat.inserts)
    {
      forall y | y in flat.inserts
        ensures !y.IsEqual(x)
      {
      }
    }
    FilterKeepsAll(x => Survives(x, flat.deletes), flat.inserts);
    FilterKeepsAll(x => Survives(x, flat.inserts), flat.deletes);
    assert Normalize(body) == ChangeSet(Cancel(flat.inserts, flat.deletes), Cancel(flat.deletes, flat.inserts));
  }

  /** Normalising an already normalised change-set changes nothing. */
  lemma NormalizeIdempotent(body: seq<ChangeSet>)
    ensures Normalize([Normalize(body)]) == Normalize(body)
  {
    var n := Normalize(body);
    assert InsertsOf([n]) == n.inserts;
    assert DeletesOf([n]) == n.deletes;
    NormalizeWithoutOverlap([n]);
  }
}
