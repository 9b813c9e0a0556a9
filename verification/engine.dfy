/** The whole pipeline: notifications are normalised into the store, and a
    flush tick classifies every expired bucket into a history record. */
module Engine {
  import opened Wrappers
  import opened Seqs
  import opened Triples
  import opened ChangeSets
  import opened Normalizer
  import opened Aggregator
  import opened Classifier

  /** The result of one flush tick: the store left behind, one record per
      flushed account, and the argument each record is persisted with. */
  datatype Tick = Tick(remaining: Store, records: map<Account, HistoryRecord>, persisted: map<Account, RenderedRecord>)

  /** The argument every record is persisted with. */
  function Persist(esc: Escapers, records: map<Account, HistoryRecord>): (r: map<Account, RenderedRecord>)
    ensures r.Keys == records.Keys
    ensures forall a :: a in r ==> r[a] == Render(esc, records[a])
  {
    map a | a in records :: Render(esc, records[a])
  }

  /** The interval callback, as one atomic step: take out the expired
      buckets, classify each and render it for persistence. */
  function FlushTick(esc: Escapers, store: Store, now: nat, interval: nat): (r: Tick)
    ensures r.remaining == Flush(store, now, interval).remaining
    ensures forall a :: a in r.records <==> a in store && Expired(store[a], now, interval)
    ensures forall a :: a in r.records ==> r.records[a] == Record(store[a])
    ensures r.persisted.Keys == r.records.Keys
    ensures forall a :: a in r.persisted ==> r.persisted[a] == Render(esc, r.records[a])
  {
    var f := Flush(store, now, interval);
    var records := map a | a in f.expired :: Record(f.expired[a]);
    Tick(f.remaining, records, Persist(esc, records))
  }

  /** From a store the handler built, every record a tick produces, and the
      argument it is persisted with, carries its bucket's account and date
      and has something in it. */
  lemma FlushTickRecordsNonEmpty(esc: Escapers, store: Store, now: nat, interval: nat)
    requires Valid(store)
    ensures var t := FlushTick(esc, store, now, interval);
      forall a :: a in t.records ==>
        && t.records[a].account == a
        && t.records[a].date == store[a].date
        && |t.records[a].insertions| + |t.records[a].deletions| + |t.records[a].updates| > 0
    ensures var t := FlushTick(esc, store, now, interval);
      forall a :: a in t.persisted ==>
        && t.persisted[a].account == a
        && t.persisted[a].date == store[a].date
        && |t.persisted[a].insertions| + |t.persisted[a].deletions| + |t.persisted[a].updates| > 0
  {
    var t := FlushTick(esc, store, now, interval);
    forall a | a in t.records
      ensures |t.records[a].insertions| + |t.records[a].deletions| + |t.records[a].updates| > 0
    {
      assert ValidBucket(a, store[a]);
      assert !IsEmpty(store[a].deltas[0]);
      RecordNonEmpty(store[a]);
    }
  }

  /** A window that only inserted: every insert is a net insertion. */
  lemma OnlyInsertsAreInsertions(b: Bucket)
    requires DeletesOf(b.deltas) == []
    ensures Record(b).insertions == InsertsOf(b.deltas)
    ensures Record(b).deletions == [] && Record(b).updates == []
  {
    var inserts := InsertsOf(b.deltas);
    FilterKeepsAll(i => !HasPartner(i, []), inserts);
    ClassifyPartitions(b);
    ClassifyUpdates(b);
  }

  /** A window that only deleted: every delete is a net deletion. */
  lemma OnlyDeletesAreDeletions(b: Bucket)
    requires InsertsOf(b.deltas) == []
    ensures Record(b).deletions == DeletesOf(b.deltas)
    ensures Record(b).insertions == [] && Record(b).updates == []
  {
    var deletes := DeletesOf(b.deltas);
    FilterKeepsAll(d => !HasPartner(d, []), deletes);
    ClassifyPartitions(b);
    ClassifyUpdates(b);
  }

  /** One insert and one delete sharing a key: neither is net. */
  lemma OnePairNothingNet(i: Triple, d: Triple)
    requires SameKey(i, d)
    ensures Insertions([i], [d]) == [] && Deletions([i], [d]) == []
  {
    assert KeyIn(i, [d]) by { assert d in [d] && SameKey(d, i); }
    assert KeyIn(d, [i]) by { assert i in [i] && SameKey(i, d); }
    assert multiset(Insertions([i], [d])) == multiset{} by {
      assert forall x :: multiset(Insertions([i], [d]))[x] == 0;
    }
    assert multiset(Deletions([i], [d])) == multiset{} by {
      assert forall x :: multiset(Deletions([i], [d]))[x] == 0;
    }
  }

  /** One insert and one delete sharing a key: both are kept for pairing. */
  lemma OnePairBothKept(i: Triple, d: Triple)
    requires SameKey(i, d)
    ensures NewValues([i], [d]) == [i] && OldValues([i], [d]) == [d]
  {
    assert KeyIn(i, [d]) by { assert d in [d] && SameKey(d, i); }
    assert KeyIn(d, [i]) by { assert i in [i] && SameKey(i, d); }
    var nv := NewValues([i], [d]);
    assert multiset(nv) == multiset{i} by {
      assert forall x :: multiset(nv)[x] == multiset{i}[x];
    }
    assert |nv| == 1;
    assert nv[0] in nv;
    var ov := OldValues([i], [d]);
    assert multiset(ov) == multiset{d} by {
      assert forall x :: multiset(ov)[x] == multiset{d}[x];
    }
    assert |ov| == 1;
    assert ov[0] in ov;
  }

  /** One insert and one delete sharing a key classify as a single update. */
  lemma ClassifyOnePair(i: Triple, d: Triple)
    requires SameKey(i, d)
    ensures Insertions([i], [d]) == [] && Deletions([i], [d]) == []
    ensures NewValues([i], [d]) == [i] && OldValues([i], [d]) == [d]
    ensures PairUpdates([i], [d]) == Success([Update(d, i)])
  {
    OnePairNothingNet(i, d);
    OnePairBothKept(i, d);
    assert KeyIn(i, [d]) by { assert d in [d] && SameKey(d, i); }
    var r := PairUpdates([i], [d]);
    assert r.Success? && |r.value| == 1;
    assert IsFirstMatch(r.value[0].oldValue, i, [d]);
    assert r.value[0] == Update(d, i);
    assert r.value == [Update(d, i)];
  }

  /** A bucket whose window flattens to one insert and one delete sharing a
      key yields exactly that update. */
  lemma RecordOfOnePair(b: Bucket, i: Triple, d: Triple)
    requires InsertsOf(b.deltas) == [i] && DeletesOf(b.deltas) == [d]
    requires SameKey(i, d)
    ensures Record(b) == HistoryRecord(b.date, b.account, [], [], [Update(d, i)])
  {
    ClassifyOnePair(i, d);
  }

  /** A statement inserted in one change-set and deleted in a later one of
      the same window is neither a net insertion nor a net deletion; it
      shows up as an update from itself to itself. */
  lemma CancelAcrossChangeSets(s: Triple, date: nat, account: Account)
    ensures var b := Bucket(date, account, [ChangeSet([s], []), ChangeSet([], [s])]);
      Record(b) == HistoryRecord(date, account, [], [], [Update(s, s)])
  {
    var css := [ChangeSet([s], []), ChangeSet([], [s])];
    assert css[1..] == [ChangeSet([], [s])];
    assert css[1..][1..] == [];
    assert InsertsOf(css[1..]) == [] && DeletesOf(css[1..]) == [s];
    assert InsertsOf(css) == [s];
    assert DeletesOf(css) == [s];
    RecordOfOnePair(Bucket(date, account, css), s, s);
  }

  /** The pair of statements of the update scenario below. */
  function Alice(): Triple
  {
    Triple(Node(UriKind, "ex:a", None), Node(UriKind, "ex:name", None), Node("literal", "Alice", None), None)
  }

  function Bob(): Triple
  {
    Triple(Node(UriKind, "ex:a", None), Node(UriKind, "ex:name", None), Node("literal", "Bob", None), None)
  }

  /** The notification replacing Alice by Bob is stored as it came. */
  lemma UpdateScenarioIngest(now: nat)
    ensures HandleDelta(map[], Some("ex:acct1"), [ChangeSet([Bob()], [Alice()])], now)
         == Success(map["ex:acct1" := Bucket(now, "ex:acct1", [ChangeSet([Bob()], [Alice()])])])
  {
    var body := [ChangeSet([Bob()], [Alice()])];
    assert InsertsOf(body) == [Bob()];
    assert DeletesOf(body) == [Alice()];
    NormalizeWithoutOverlap(body);
  }

  /** A map with one key is the one-entry map display. */
  lemma SingletonMap<K, V>(m: map<K, V>, k: K, v: V)
    requires m.Keys == {k} && m[k] == v
    ensures m == map[k := v]
  {
  }

  /** A store holding one due bucket yields exactly that bucket's record. */
  lemma FlushTickSingle(esc: Escapers, b: Bucket, now: nat, interval: nat)
    requires Expired(b, now, interval)
    ensures FlushTick(esc, map[b.account := b], now, interval).records == map[b.account := Record(b)]
  {
    var t := FlushTick(esc, map[b.account := b], now, interval);
    assert t.records.Keys == {b.account};
    assert t.records[b.account] == Record(b);
    SingletonMap(t.records, b.account, Record(b));
  }

  /** ... and persists exactly that record, rendered. */
  lemma FlushTickSinglePersisted(esc: Escapers, b: Bucket, now: nat, interval: nat)
    requires Expired(b, now, interval)
    ensures FlushTick(esc, map[b.account := b], now, interval).persisted == map[b.account := Render(esc, Record(b))]
  {
    var t := FlushTick(esc, map[b.account := b], now, interval);
    assert t.records.Keys == {b.account};
    assert t.records[b.account] == Record(b);
    assert t.persisted.Keys == {b.account};
    assert t.persisted[b.account] == Render(esc, Record(b));
    SingletonMap(t.persisted, b.account, Render(esc, Record(b)));
  }

  /** One notification replacing Alice by Bob as `ex:a`'s name becomes, one
      window later, a record holding that single update. */
  lemma UpdateScenario(esc: Escapers, now: nat, interval: nat)
    ensures var stored := HandleDelta(map[], Some("ex:acct1"), [ChangeSet([Bob()], [Alice()])], now);
      && stored.Success?
      && FlushTick(esc, stored.value, now + interval, interval).records
         == map["ex:acct1" := HistoryRecord(now, "ex:acct1", [], [], [Update(Alice(), Bob())])]
  {
    UpdateScenarioIngest(now);
    var b := Bucket(now, "ex:acct1", [ChangeSet([Bob()], [Alice()])]);
    assert InsertsOf(b.deltas) == [Bob()];
    assert DeletesOf(b.deltas) == [Alice()];
    RecordOfOnePair(b, Bob(), Alice());
    FlushTickSingle(esc, b, now + interval, interval);
  }

  /** The Alice-to-Bob update rendered with escapers that keep their
      argument. */
  function AliceToBob(): RenderedUpdate
  {
    RenderedUpdate(NTriple("ex:a", "ex:name", "Alice"), NTriple("ex:a", "ex:name", "Bob"))
  }

  /** Rendering the Alice-to-Bob record renders its single update. */
  lemma RenderUpdateScenario(now: nat)
    ensures Render(Verbatim(), HistoryRecord(now, "ex:acct1", [], [], [Update(Alice(), Bob())]))
         == RenderedRecord(now, "ex:acct1", [], [], [AliceToBob()])
  {
    var r := Render(Verbatim(), HistoryRecord(now, "ex:acct1", [], [], [Update(Alice(), Bob())]));
    assert Alice().ToNTriple(Verbatim()) == NTriple("ex:a", "ex:name", "Alice");
    assert Bob().ToNTriple(Verbatim()) == NTriple("ex:a", "ex:name", "Bob");
    assert r.updates == [AliceToBob()];
  }

  /** One window after the Alice-to-Bob notification, the account's record
      is handed to persistence rendered. */
  lemma UpdateScenarioPersisted(esc: Escapers, now: nat, interval: nat)
    ensures var stored := HandleDelta(map[], Some("ex:acct1"), [ChangeSet([Bob()], [Alice()])], now);
      && stored.Success?
      && FlushTick(esc, stored.value, now + interval, interval).persisted
         == map["ex:acct1" := Render(esc, HistoryRecord(now, "ex:acct1", [], [], [Update(Alice(), Bob())]))]
  {
    UpdateScenarioIngest(now);
    var b := Bucket(now, "ex:acct1", [ChangeSet([Bob()], [Alice()])]);
    assert InsertsOf(b.deltas) == [Bob()];
    assert DeletesOf(b.deltas) == [Alice()];
    RecordOfOnePair(b, Bob(), Alice());
    FlushTickSinglePersisted(esc, b, now + interval, interval);
  }

  /** A lone new value is paired with the first old value when that one
      already shares its key; the old values after it are never looked at. */
  lemma PairWithFirst(i: Triple, olds: seq<Triple>)
    requires |olds| > 0 && SameKey(olds[0], i)
    ensures PairUpdates([i], olds) == Success([Update(olds[0], i)])
  {
    assert KeyIn(i, olds) by { assert olds[0] in olds && SameKey(olds[0], i); }
    assert [i][0] == i;
    var r := PairUpdates([i], olds);
    assert r.Success? && |r.value| == 1;
    assert IsFirstMatch(r.value[0].oldValue, i, olds);
    var j :| 0 <= j < |olds| && olds[j] == r.value[0].oldValue && SameKey(olds[j], i)
             && forall j' :: 0 <= j' < j ==> !SameKey(olds[j'], i);
    assert j == 0;
    assert r.value[0] == Update(olds[0], i);
    assert r.value == [Update(olds[0], i)];
  }

  /** One insert and two deletes sharing its key: nothing is net, the
      insert is the one new value and both deletes are old values. */
  lemma TwoOldValuesNothingNet(a: Triple, b: Triple, c: Triple)
    requires SameKey(a, c) && SameKey(b, c)
    ensures Insertions([c], [a, b]) == [] && Deletions([c], [a, b]) == []
  {
    assert KeyIn(c, [a, b]) by { assert a in [a, b] && SameKey(a, c); }
    assert KeyIn(a, [c]) by { assert c in [c] && SameKey(c, a); }
    assert KeyIn(b, [c]) by { assert c in [c] && SameKey(c, b); }
    assert multiset(Insertions([c], [a, b])) == multiset{} by {
      assert forall x :: multiset(Insertions([c], [a, b]))[x] == 0;
    }
    assert multiset(Deletions([c], [a, b])) == multiset{} by {
      assert forall x :: multiset(Deletions([c], [a, b]))[x] == 0;
    }
  }

  /** ... and both lists pass whole into the pairing. */
  lemma TwoOldValuesBothKept(a: Triple, b: Triple, c: Triple)
    requires SameKey(a, c) && SameKey(b, c)
    ensures NewValues([c], [a, b]) == [c] && OldValues([c], [a, b]) == [a, b]
  {
    TwoOldValuesNothingNet(a, b, c);
    var deletions := Deletions([c], [a, b]);
    FilterKeepsAll(d => d !in deletions, [a, b]);
    var insertions := Insertions([c], [a, b]);
    FilterKeepsAll(i => i !in insertions, [c]);
  }

  /** ... and the single update pairs the insert with the first delete. */
  lemma TwoOldValuesFirstPaired(a: Triple, b: Triple, c: Triple)
    requires SameKey(a, c) && SameKey(b, c)
    ensures Updates([c], [a, b]) == [Update(a, c)]
  {
    TwoOldValuesBothKept(a, b, c);
    PairWithFirst(c, [a, b]);
  }

  /** A window flattening to one insert and two deletes sharing its key
      records only the update from the first delete. */
  lemma RecordOfTwoOldValues(bucket: Bucket, a: Triple, b: Triple, c: Triple)
    requires InsertsOf(bucket.deltas) == [c] && DeletesOf(bucket.deltas) == [a, b]
    requires SameKey(a, c) && SameKey(b, c)
    ensures Record(bucket) == HistoryRecord(bucket.date, bucket.account, [], [], [Update(a, c)])
  {
    TwoOldValuesNothingNet(a, b, c);
    TwoOldValuesFirstPaired(a, b, c);
  }

  /** Two deletes sharing a key with one insert: only the first is paired
      with it. The second is neither a net deletion nor the old half of any
      update, so it is not recorded at all. */
  lemma OnlyFirstOldValueRecorded(a: Triple, b: Triple, c: Triple, date: nat, account: Account)
    requires SameKey(a, c) && SameKey(b, c)
    ensures Record(Bucket(date, account, [ChangeSet([c], [a, b])]))
         == HistoryRecord(date, account, [], [], [Update(a, c)])
    ensures a != b ==> forall u :: u in Record(Bucket(date, account, [ChangeSet([c], [a, b])])).updates ==> u.oldValue != b
  {
    var css := [ChangeSet([c], [a, b])];
    assert css[1..] == [];
    assert InsertsOf(css[1..]) == [] && DeletesOf(css[1..]) == [];
    assert InsertsOf(css) == [c] && DeletesOf(css) == [a, b];
    RecordOfTwoOldValues(Bucket(date, account, css), a, b, c);
  }
}
