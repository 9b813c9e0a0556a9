/** The classification of a flushed bucket into net insertions, net deletions
    and updates, keyed on the (subject value, predicate value) pair. */
module Classifier {
  import opened Wrappers
  import opened Seqs
  import opened Triples
  import opened ChangeSets
  import opened Aggregator

  /** The message JavaScript throws when `.toNTriple()` is called on the
      `undefined` a failed `find` returns. */
  const NoOldValue := "TypeError: Cannot read properties of undefined (reading 'toNTriple')"

  /** The classifier's match: same predicate value and same subject value.
      Node types and objects are not looked at. */
  predicate SameKey(a: Triple, b: Triple)
  {
    a.Predicate() == b.Predicate() && a.Subject() == b.Subject()
  }

  /** Some statement of `s` shares `t`'s key. */
  predicate KeyIn(t: Triple, s: seq<Triple>)
  {
    exists x :: x in s && SameKey(x, t)
  }

  /** `s.some(x => sameKey(x, t))`. */
  function HasPartner(t: Triple, s: seq<Triple>): (r: bool)
    ensures r <==> KeyIn(t, s)
  {
    Any((x: Triple) => SameKey(x, t), s)
  }

  /** Net deletions: the deletes no insert shares a key with. */
  function Deletions(inserts: seq<Triple>, deletes: seq<Triple>): (r: seq<Triple>)
    ensures IsSubsequence(r, deletes)
    ensures forall d :: d in r <==> d in deletes && !KeyIn(d, inserts)
    ensures forall d :: multiset(r)[d] == if KeyIn(d, inserts) then 0 else multiset(deletes)[d]
  {
    Filter(d => !HasPartner(d, inserts), deletes)
  }

  /** Net insertions: the inserts no delete shares a key with. */
  function Insertions(inserts: seq<Triple>, deletes: seq<Triple>): (r: seq<Triple>)
    ensures IsSubsequence(r, inserts)
    ensures forall i :: i in r <==> i in inserts && !KeyIn(i, deletes)
    ensures forall i :: multiset(r)[i] == if KeyIn(i, deletes) then 0 else multiset(inserts)[i]
  {
    Filter(i => !HasPartner(i, deletes), inserts)
  }

  /** `inserts.filter(i => !insertions.includes(i))`: the inserts some delete
      shares a key with, i.e. the rest of `inserts`. */
  function NewValues(inserts: seq<Triple>, deletes: seq<Triple>): (r: seq<Triple>)
    ensures IsSubsequence(r, inserts)
    ensures forall i :: i in r <==> i in inserts && KeyIn(i, deletes)
    ensures forall i :: multiset(r)[i] == if KeyIn(i, deletes) then multiset(inserts)[i] else 0
  {
    var insertions := Insertions(inserts, deletes);
    Filter(i => i !in insertions, inserts)
  }

  /** `deletes.filter(d => !deletions.includes(d))`: the deletes some insert
      shares a key with, i.e. the rest of `deletes`. */
  function OldValues(inserts: seq<Triple>, deletes: seq<Triple>): (r: seq<Triple>)
    ensures IsSubsequence(r, deletes)
    ensures forall d :: d in r <==> d in deletes && KeyIn(d, inserts)
    ensures forall d :: multiset(r)[d] == if KeyIn(d, inserts) then multiset(deletes)[d] else 0
  {
    var deletions := Deletions(inserts, deletes);
    Filter(d => d !in deletions, deletes)
  }

  /** An old value replaced by a new one. */
  datatype Update = Update(oldValue: Triple, newValue: Triple)

  /** `d` is the first element of `olds` sharing `i`'s key. */
  predicate IsFirstMatch(d: Triple, i: Triple, olds: seq<Triple>)
  {
    exists j :: 0 <= j < |olds| && olds[j] == d && SameKey(d, i) && forall j' :: 0 <= j' < j ==> !SameKey(olds[j'], i)
  }

  /** `newValues.map(i => ({oldValue: oldValues.find(d => sameKey(d, i)), newValue: i}))`:
      a `find` that comes back empty makes the whole map throw. */
  function PairUpdates(newValues: seq<Triple>, oldValues: seq<Triple>): (r: Result<seq<Update>>)
    ensures r.Success? <==> forall k :: 0 <= k < |newValues| ==> KeyIn(newValues[k], oldValues)
    ensures r.Failure? ==> r.error == NoOldValue
    ensures r.Success? ==> |r.value| == |newValues|
    ensures r.Success? ==> forall k :: 0 <= k < |newValues| ==>
      r.value[k].newValue == newValues[k] && IsFirstMatch(r.value[k].oldValue, newValues[k], oldValues)
  {
    if |newValues| == 0 then Success([])
    else
      var i := newValues[0];
      match Find((d: Triple) => SameKey(d, i), oldValues)
      case None => Failure(NoOldValue)
      case Some(d) =>
        var rest := PairUpdates(newValues[1..], oldValues);
        assert forall k :: 0 < k < |newValues| ==> newValues[k] == newValues[1..][k - 1];
        if rest.Failure? then rest
        else Success([Update(d, i)] + rest.value)
  }

  /** The classification of one bucket. */
  datatype HistoryRecord = HistoryRecord(
    date: nat,
    account: Account,
    insertions: seq<Triple>,
    deletions: seq<Triple>,
    updates: seq<Update>)

  /** The body of the flush loop for one bucket, up to the persistence call. */
  function Classify(b: Bucket): (r: Result<HistoryRecord>)
    ensures r.Success? ==> r.value.date == b.date && r.value.account == b.account
  {
    var inserts := InsertsOf(b.deltas);
    var deletes := DeletesOf(b.deltas);
    var deletions := Deletions(inserts, deletes);
    var insertions := Insertions(inserts, deletes);
    match PairUpdates(NewValues(inserts, deletes), OldValues(inserts, deletes))
    case Failure(e) => Failure(e)
    case Success(updates) => Success(HistoryRecord(b.date, b.account, insertions, deletions, updates))
  }

  /** Every new value finds an old value: the `find` never returns `undefined`,
      so classification never throws. */
  lemma NewValuesHaveOldValues(inserts: seq<Triple>, deletes: seq<Triple>)
    ensures forall k :: 0 <= k < |NewValues(inserts, deletes)| ==>
      KeyIn(NewValues(inserts, deletes)[k], OldValues(inserts, deletes))
    ensures PairUpdates(NewValues(inserts, deletes), OldValues(inserts, deletes)).Success?
  {
    var nv, ov := NewValues(inserts, deletes), OldValues(inserts, deletes);
    forall k | 0 <= k < |nv|
      ensures KeyIn(nv[k], ov)
    {
      var i := nv[k];
      assert i in nv;
      var d :| d in deletes && SameKey(d, i);
      assert KeyIn(d, inserts) by { assert i in inserts && SameKey(i, d); }
      assert d in ov;
    }
  }

  /** The updates of a window, which always exist. */
  function Updates(inserts: seq<Triple>, deletes: seq<Triple>): (r: seq<Update>)
    ensures PairUpdates(NewValues(inserts, deletes), OldValues(inserts, deletes)) == Success(r)
  {
    NewValuesHaveOldValues(inserts, deletes);
    PairUpdates(NewValues(inserts, deletes), OldValues(inserts, deletes)).value
  }

  /** The classification of a bucket, field by field. */
  function Record(b: Bucket): HistoryRecord
  {
    var inserts, deletes := InsertsOf(b.deltas), DeletesOf(b.deltas);
    HistoryRecord(b.date, b.account, Insertions(inserts, deletes), Deletions(inserts, deletes), Updates(inserts, deletes))
  }

  /** Classifying any bucket succeeds, with the record above. */
  lemma ClassifyNeverFails(b: Bucket)
    ensures Classify(b) == Success(Record(b))
  {
    NewValuesHaveOldValues(InsertsOf(b.deltas), DeletesOf(b.deltas));
  }

  /** Net insertions and new values split the inserts. */
  lemma InsertsSplit(inserts: seq<Triple>, deletes: seq<Triple>)
    ensures multiset(Insertions(inserts, deletes)) + multiset(NewValues(inserts, deletes)) == multiset(inserts)
  {
    var insertions := Insertions(inserts, deletes);
    FilterComplement(i => !HasPartner(i, deletes), i => i !in insertions, inserts);
  }

  /** Net deletions and old values split the deletes. */
  lemma DeletesSplit(inserts: seq<Triple>, deletes: seq<Triple>)
    ensures multiset(Deletions(inserts, deletes)) + multiset(OldValues(inserts, deletes)) == multiset(deletes)
  {
    var deletions := Deletions(inserts, deletes);
    FilterComplement(d => !HasPartner(d, inserts), d => d !in deletions, deletes);
  }

  /** Net deletions and old values split the window's deletes, net
      insertions and new values split its inserts; each part keeps the
      original order. */
  lemma ClassifyPartitions(b: Bucket)
    ensures var inserts, deletes := InsertsOf(b.deltas), DeletesOf(b.deltas);
      && Record(b).insertions == Insertions(inserts, deletes)
      && Record(b).deletions == Deletions(inserts, deletes)
      && multiset(Insertions(inserts, deletes)) + multiset(NewValues(inserts, deletes)) == multiset(inserts)
      && multiset(Deletions(inserts, deletes)) + multiset(OldValues(inserts, deletes)) == multiset(deletes)
  {
    InsertsSplit(InsertsOf(b.deltas), DeletesOf(b.deltas));
    DeletesSplit(InsertsOf(b.deltas), DeletesOf(b.deltas));
  }

  /** The updates: one per new value, in insert order, each pairing the new
      value with the first old value sharing its subject and predicate. */
  lemma ClassifyUpdates(b: Bucket)
    ensures var inserts, deletes := InsertsOf(b.deltas), DeletesOf(b.deltas);
      var nv, ov, ups := NewValues(inserts, deletes), OldValues(inserts, deletes), Record(b).updates;
      && |ups| == |nv|
      && forall k :: 0 <= k < |ups| ==>
           && ups[k].newValue == nv[k]
           && IsFirstMatch(ups[k].oldValue, nv[k], ov)
           && ups[k].oldValue.Subject() == ups[k].newValue.Subject()
           && ups[k].oldValue.Predicate() == ups[k].newValue.Predicate()
  {
  }

  /** An insert and a delete that both have a same-key partner on the other
      side are never net insertions or deletions. */
  lemma RestIsNotNet(inserts: seq<Triple>, deletes: seq<Triple>, i: Triple, d: Triple)
    requires i in inserts && KeyIn(i, deletes)
    requires d in deletes && KeyIn(d, inserts)
    ensures i !in Insertions(inserts, deletes) && i !in Deletions(inserts, deletes)
    ensures d !in Insertions(inserts, deletes) && d !in Deletions(inserts, deletes)
  {
    assert KeyIn(d, deletes) by { assert d in deletes && SameKey(d, d); }
    assert KeyIn(i, inserts) by { assert i in inserts && SameKey(i, i); }
  }

  /** Neither half of an update also appears among the net insertions or the
      net deletions of the same record. */
  lemma UpdateHalvesAreNotNet(b: Bucket)
    ensures forall u :: u in Record(b).updates ==>
      && u.oldValue !in Record(b).insertions && u.oldValue !in Record(b).deletions
      && u.newValue !in Record(b).insertions && u.newValue !in Record(b).deletions
  {
    var inserts, deletes := InsertsOf(b.deltas), DeletesOf(b.deltas);
    var nv, ov, ups := NewValues(inserts, deletes), OldValues(inserts, deletes), Record(b).updates;
    ClassifyPartitions(b);
    ClassifyUpdates(b);
    forall u | u in ups
      ensures u.oldValue !in Insertions(inserts, deletes) && u.oldValue !in Deletions(inserts, deletes)
      ensures u.newValue !in Insertions(inserts, deletes) && u.newValue !in Deletions(inserts, deletes)
    {
      var k :| 0 <= k < |ups| && ups[k] == u;
      assert IsFirstMatch(u.oldValue, nv[k], ov);
      var j :| 0 <= j < |ov| && ov[j] == u.oldValue;
      assert nv[k] in nv && ov[j] in ov;
      assert u.newValue in inserts && KeyIn(u.newValue, deletes);
      assert u.oldValue in deletes && KeyIn(u.oldValue, inserts);
      RestIsNotNet(inserts, deletes, u.newValue, u.oldValue);
    }
  }

  /** Non-empty lists leave something in at least one class. */
  lemma ClassesCoverInput(inserts: seq<Triple>, deletes: seq<Triple>)
    requires |inserts| + |deletes| > 0
    ensures |Insertions(inserts, deletes)| + |Deletions(inserts, deletes)| + |NewValues(inserts, deletes)| > 0
  {
    if |inserts| > 0 {
      var i := inserts[0];
      if KeyIn(i, deletes) {
        assert i in NewValues(inserts, deletes);
      } else {
        assert i in Insertions(inserts, deletes);
      }
    } else {
      var d := deletes[0];
      assert !KeyIn(d, inserts);
      assert d in Deletions(inserts, deletes);
    }
  }

  /** A bucket holding at least one non-empty change-set yields a record with
      something to persist. */
  lemma RecordNonEmpty(b: Bucket)
    requires exists k :: 0 <= k < |b.deltas| && !IsEmpty(b.deltas[k])
    ensures |Record(b).insertions| + |Record(b).deletions| + |Record(b).updates| > 0
  {
    var inserts, deletes := InsertsOf(b.deltas), DeletesOf(b.deltas);
    var k :| 0 <= k < |b.deltas| && !IsEmpty(b.deltas[k]);
    FlattenNonEmpty(b.deltas, k);
    ClassesCoverInput(inserts, deletes);
    ClassifyPartitions(b);
    ClassifyUpdates(b);
  }

  /** An update as handed to persistence: both statements rendered. */
  datatype RenderedUpdate = RenderedUpdate(oldValue: NTriple, newValue: NTriple)

  /** The argument of the persistence call. */
  datatype RenderedRecord = RenderedRecord(
    date: nat,
    account: Account,
    insertions: seq<NTriple>,
    deletions: seq<NTriple>,
    updates: seq<RenderedUpdate>)

  /** `toNTriple()` applied to every statement of a record. */
  function Render(esc: Escapers, rec: HistoryRecord): (r: RenderedRecord)
    ensures r.date == rec.date && r.account == rec.account
    ensures |r.insertions| == |rec.insertions| && |r.deletions| == |rec.deletions| && |r.updates| == |rec.updates|
    ensures forall k :: 0 <= k < |r.insertions| ==> r.insertions[k] == rec.insertions[k].ToNTriple(esc)
    ensures forall k :: 0 <= k < |r.deletions| ==> r.deletions[k] == rec.deletions[k].ToNTriple(esc)
    ensures forall k :: 0 <= k < |r.updates| ==>
      r.updates[k] == RenderedUpdate(rec.updates[k].oldValue.ToNTriple(esc), rec.updates[k].newValue.ToNTriple(esc))
  {
    RenderedRecord(
      rec.date, rec.account,
      seq(|rec.insertions|, k requires 0 <= k < |rec.insertions| => rec.insertions[k].ToNTriple(esc)),
      seq(|rec.deletions|, k requires 0 <= k < |rec.deletions| => rec.deletions[k].ToNTriple(esc)),
      seq(|rec.updates|, k requires 0 <= k < |rec.updates| =>
        RenderedUpdate(rec.updates[k].oldValue.ToNTriple(esc), rec.updates[k].newValue.ToNTriple(esc))))
  }
}
