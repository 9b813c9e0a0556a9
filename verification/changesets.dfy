/** Change-sets: the `{inserts, deletes}` pairs a delta notification carries,
    and the flattening of a sequence of them into one insert list and one
    delete list. */
module ChangeSets {
  import opened Triples

  datatype ChangeSet = ChangeSet(inserts: seq<Triple>, deletes: seq<Triple>)

  /** A change-set with nothing in it. */
  predicate IsEmpty(cs: ChangeSet)
  {
    |cs.inserts| == 0 && |cs.deletes| == 0
  }

  /** No statement of `cs` is on both sides. */
  predicate NoOverlap(cs: ChangeSet)
  {
    forall i, d :: i in cs.inserts && d in cs.deletes ==> !i.IsEqual(d)
  }

  /** `css.map(d => d.inserts).flat()`: every change-set's inserts, in order. */
  function InsertsOf(css: seq<ChangeSet>): (r: seq<Triple>)
    ensures forall t :: t in r <==> exists k :: 0 <= k < |css| && t in css[k].inserts
  {
    if |css| == 0 then []
    else
      var rest := InsertsOf(css[1..]);
      assert forall k :: 0 < k < |css| ==> css[k] == css[1..][k - 1];
      css[0].inserts + rest
  }

  /** `css.map(d => d.deletes).flat()`: every change-set's deletes, in order. */
  function DeletesOf(css: seq<ChangeSet>): (r: seq<Triple>)
    ensures forall t :: t in r <==> exists k :: 0 <= k < |css| && t in css[k].deletes
  {
    if |css| == 0 then []
    else
      var rest := DeletesOf(css[1..]);
      assert forall k :: 0 < k < |css| ==> css[k] == css[1..][k - 1];
      css[0].deletes + rest
  }

  /** Appending a change-set appends its lists to the flattened ones. */
  lemma {:induction false} FlattenSnoc(css: seq<ChangeSet>, cs: ChangeSet)
    ensures InsertsOf(css + [cs]) == InsertsOf(css) + cs.inserts
    ensures DeletesOf(css + [cs]) == DeletesOf(css) + cs.deletes
  {
    if |css| > 0 {
      assert (css + [cs])[1..] == css[1..] + [cs];
      FlattenSnoc(css[1..], cs);
    } else {
      assert css + [cs] == [cs];
    }
  }

  /** A sequence of change-sets, at least one of them non-empty, flattens to
      something non-empty. */
  lemma {:induction false} FlattenNonEmpty(css: seq<ChangeSet>, k: nat)
    requires k < |css| && !IsEmpty(css[k])
    ensures |InsertsOf(css)| + |DeletesOf(css)| > 0
  {
    if |css[k].inserts| > 0 {
      assert css[k].inserts[0] in InsertsOf(css);
    } else {
      assert css[k].deletes[0] in DeletesOf(css);
    }
  }
}
