# History-changes aggregation engine, modelled in Dafny

This project models the core of a service that turns delta notifications into
history records. A delta notification is a list of change-sets. Each
change-set holds inserted and deleted statements, and the service receives it
for one account.

- `triple.js` defines the statement value type. A `Triple` holds three typed
  nodes `{type, value, datatype?}`. It has structural equality (`isEqual`),
  value getters, and an N-Triples rendering of each node.
- `app.js` does the aggregation. The `/delta` handler flattens a notification
  and drops the statements that cancel each other. It then appends the
  remaining change-set to the account's bucket in `STORE`. A periodic flush
  takes out every bucket whose age has reached the aggregation interval. It
  classifies the bucket's contents into net insertions, net deletions and
  updates, matching statements on their (subject value, predicate value) pair.

Modules, one per part of the program:

- `Wrappers`: `Option` (JavaScript's `undefined`) and `Result` (a value or a
  thrown message).
- `Seqs`: `Array.prototype.filter`, `some` and `find` as functions on
  sequences, with contracts that characterise them completely. `Filter` keeps
  an order-preserving subsequence with exact multiplicities.
- `Triples`: `Node`, `Triple` with `IsEqual` and the getters, `NodeTerm`,
  and `ToNTriple`.
- `ChangeSets`: the `{inserts, deletes}` pair, plus `InsertsOf`/`DeletesOf`.
  These model `deltas.map(d => d.inserts).flat()` and its delete counterpart.
- `Normalizer`: the `reduce` over the body, then the two cancelling filters.
- `Aggregator`: the store, `Append`, the handler (`Ingest`, `HandleDelta`)
  and the flush selection (`Flush`).
- `Classifier`: net deletions and insertions, new and old values, update
  pairing, the whole record, and its rendering for persistence.
- `Engine`: one flush tick, which takes out the expired buckets and
  classifies each. It also holds the end-to-end scenarios.

Time is a parameter. `now` and the bucket dates are milliseconds as `nat`.
The aggregation interval is a `nat` parameter; the service's default is
15 000 ms. The escapers `sparqlEscapeUri` and `sparqlEscapeString` are the
function fields of an `Escapers` value. Nothing is assumed about them.

Behaviour of the code worth noting:

- Equality compares the `type` and `value` of the subject, predicate and
  object nodes. It also compares `type`/`value` of the triple-level
  `datatype` field. It never compares a node's own `datatype`. So two typed
  literals with the same lexical value and different datatypes are equal, yet
  they render differently (`Triples.EqualTriplesMayRenderDifferently`).
- Node types are an open string. `"uri"` renders as an IRI; every other type,
  e.g. `"literal"` or `"typed-literal"`, renders as a literal.
- The flush persists every classified record without checking whether it is
  empty. The model proves that such a record cannot arise from a store the
  handler built (`Engine.FlushTickRecordsNonEmpty`).
- Say a statement is inserted in one change-set and deleted in a later one of
  the same window. It is then neither a net insertion nor a net deletion, but
  the code still emits an update from the statement to itself
  (`Engine.CancelAcrossChangeSets`).
- An update holds the two whole statements, old and new. The persisted form
  renders both in full, not only their objects.
- Each new value is paired with the first delete sharing its key, and only
  that one. When one insert meets two deletes with the same subject and
  predicate, the second delete is neither a net deletion nor the old half of
  any update, so it is recorded nowhere (`Engine.OnlyFirstOldValueRecorded`).
- A bucket dated after `now` (a clock set back) has a negative age and is
  never due (`Aggregator.Expired`).

## Model

| member | source | states |
|---|---|---|
| `Seqs.Filter` | app.js:64-70 | `filter` keeps an order-preserving subsequence of its input: exactly the elements that pass, each with its full multiplicity |
| `Seqs.Any` | app.js:111-113 | `some` is true exactly when some index holds an element that passes |
| `Triples.Triple.IsEqual` | triple.js:11-22 | the comparison `isEqual` performs; `Triples.IsEqualIffSameCompared` states which fields it reads |
| `Triples.Triple.Subject` | triple.js:36-38 | the `subject` getter, the subject node's value; `Triples.GettersIgnoreKindAndDatatype` states what it ignores |
| `Triples.Triple.Predicate` | triple.js:40-42 | the `predicate` getter, the predicate node's value |
| `Triples.Triple.Object` | triple.js:44-46 | the `object` getter, the object node's value |
| `Triples.Triple.SubjectNt` | triple.js:24-26 | the subject node's N-Triples term, whose form `Triples.NodeTerm` states |
| `Triples.Triple.PredicateNt` | triple.js:28-30 | the predicate node's N-Triples term |
| `Triples.Triple.ObjectNt` | triple.js:32-34 | the object node's N-Triples term |
| `Triples.IsEqualIffSameCompared` | triple.js:11-22 | two triples are equal exactly when the types and values of subject, predicate and object, and the type/value of the triple-level datatype, coincide |
| `Triples.IsEqualIsEquivalence` | triple.js:11-22 | equality is reflexive, symmetric and transitive |
| `Triples.IsEqualIgnoresNodeDatatypes` | triple.js:4-22 | triples that differ only in their nodes' own datatypes are equal |
| `Triples.IsEqualSameValues` | triple.js:11-46 | equal triples have the same subject, predicate and object values, hence the same (subject, predicate) key |
| `Triples.GettersIgnoreKindAndDatatype` | triple.js:36-46 | the getters return node values only: node types and datatypes do not affect them |
| `Triples.NodeTerm` | triple.js:57-66 | a `uri` node renders as its escaped IRI; any other node renders as its escaped string, followed by `^^` and the escaped datatype exactly when the datatype is present and non-empty |
| `Triples.UriRenderingIgnoresDatatype` | triple.js:57-60 | an IRI node renders the same whatever its datatype |
| `Triples.EmptyDatatypeRendersAsAbsent` | triple.js:61-65 | an empty datatype string renders like a missing one |
| `Triples.Triple.ToNTriple` | triple.js:24-54 | `toNTriple` returns the subject, predicate and object node renderings, each in its own position |
| `Triples.IsEqualSameRendering` | triple.js:11-54 | equal triples whose nodes carry the same datatypes have identical `toNTriple` renderings |
| `Triples.EqualTriplesMayRenderDifferently` | triple.js:11-66 | some equal triples render differently (typed literals that differ only in datatype) |
| `ChangeSets.InsertsOf` | app.js:106 | a statement is in the flattened inserts exactly when some change-set inserts it |
| `ChangeSets.DeletesOf` | app.js:107 | a statement is in the flattened deletes exactly when some change-set deletes it |
| `ChangeSets.FlattenSnoc` | app.js:81 | pushing a change-set onto a bucket appends its inserts and deletes to the flattened lists |
| `Normalizer.Reduce` | app.js:45-59 | each step of the `reduce` appends to the accumulator, so the result is exactly as long as the accumulator plus every change-set's inserts (resp. deletes); `Normalizer.ReduceConcatenates` gives the contents |
| `Normalizer.ReduceConcatenates` | app.js:45-59 | the left-to-right `reduce` from any accumulator yields the accumulator followed by the in-order concatenation of the change-sets' inserts (resp. deletes) |
| `Normalizer.Flatten` | app.js:45-59 | the flattened notification is the in-order concatenation of every change-set's inserts, and of every change-set's deletes |
| `Normalizer.Survives` | app.js:65 | the `some` test is true exactly when the other side holds an equal statement |
| `Normalizer.Cancel` | app.js:64-70 | the filter keeps an order-preserving subsequence: every statement the other side does not cancel, with its full multiplicity, and nothing else |
| `Normalizer.Normalize` | app.js:61-70 | both sides are order-preserving subsequences of the flattened lists, keeping exactly the non-cancelled statements with duplicates; no kept insert equals an original delete and vice versa; no statement remains on both sides |
| `Normalizer.SelfCancellation` | app.js:61-70 | a statement both inserted and deleted in one notification survives on neither side, and neither does anything equal to it |
| `Normalizer.NormalizeWithoutOverlap` | app.js:61-70 | a notification whose sides share no equal statement comes out exactly as flattened |
| `Normalizer.NormalizeIdempotent` | app.js:45-70 | normalising a normalised change-set again changes nothing |
| `Aggregator.Append` | app.js:74-82 | an account without a bucket gets `{date: now, account, deltas: [cs]}`; otherwise `cs` goes at the end of its deltas with date and account kept; every other account's bucket is unchanged |
| `Aggregator.Ingest` | app.js:72-83 | a notification that normalises to nothing leaves the store unchanged; otherwise its normalised change-set is appended |
| `Aggregator.HandleDelta` | app.js:43-83 | a missing or empty account fails with "No account found!" and changes nothing; otherwise the notification is ingested |
| `Aggregator.Expired` | app.js:100-102 | a bucket is due exactly when its date plus the interval is at most `now`; a bucket dated in the future is never due |
| `Aggregator.Flush` | app.js:99-105 | the flush takes out exactly the buckets whose age is at least the interval; the rest stay untouched; together they make up the old store |
| `Aggregator.HandleDeltaPreservesValid` | app.js:72-83 | the handler keeps every bucket filed under its own account, non-empty, and holding only non-empty change-sets with no statement on both sides |
| `Aggregator.FlushPreservesValid` | app.js:99-105 | both the flushed buckets and the remaining store keep that invariant |
| `Aggregator.FlushLatency` | app.js:100-102 | a bucket is flushed exactly when `now - date >= interval` and stays exactly when its age is below it |
| `Aggregator.AppendAfterFlushOpensFreshBucket` | app.js:74-105 | a change appended after its account's bucket was flushed opens a fresh bucket dated at its arrival |
| `Aggregator.AppendKeepsWindowStart` | app.js:80-82 | appending to an open bucket keeps its date and extends its flattened inserts and deletes by the new change-set's |
| `Classifier.HasPartner` | app.js:111-113 | the `some` test is true exactly when the list holds a statement with the same subject and predicate values |
| `Classifier.Deletions` | app.js:109-114 | net deletions are the order-preserving subsequence of deletes, with multiplicities, whose key no insert shares |
| `Classifier.Insertions` | app.js:115-120 | net insertions are the order-preserving subsequence of inserts, with multiplicities, whose key no delete shares |
| `Classifier.NewValues` | app.js:122 | the inserts not among the net insertions are exactly those some delete shares a key with |
| `Classifier.OldValues` | app.js:123 | the deletes not among the net deletions are exactly those some insert shares a key with |
| `Seqs.Find` | app.js:127-128 | `find` returns nothing exactly when no element matches, and otherwise the first matching element |
| `Classifier.PairUpdates` | app.js:125-132 | the map succeeds exactly when every new value has a same-key old value; it then yields one update per new value, in order, each with the first such old value; otherwise it throws |
| `Classifier.NewValuesHaveOldValues` | app.js:122-129 | every new value has a same-key old value, so the `find` never returns `undefined` |
| `Classifier.Updates` | app.js:125-132 | the window's updates are what the `map` over new values produces, which always succeeds |
| `Classifier.ClassifyNeverFails` | app.js:106-132 | classifying any bucket never throws, and yields the record of net insertions, net deletions and updates |
| `Classifier.Record` | app.js:106-132 | the record a flush builds for a bucket; `Classifier.ClassifyNeverFails` shows it is what the classification always returns |
| `Classifier.Classify` | app.js:106-132 | a record carries its bucket's date and account |
| `Classifier.ClassifyPartitions` | app.js:106-123 | net deletions and old values partition the window's deletes; net insertions and new values partition its inserts |
| `Classifier.ClassifyUpdates` | app.js:122-132 | one update per new value in insert order; its old value is the first old value sharing the new value's subject and predicate |
| `Classifier.UpdateHalvesAreNotNet` | app.js:109-132 | neither half of an update is also a net insertion or a net deletion of the same record |
| `Classifier.ClassesCoverInput` | app.js:106-123 | if the window holds any statement, at least one of net insertions, net deletions and new values is non-empty |
| `Classifier.RecordNonEmpty` | app.js:106-132 | a bucket with a non-empty change-set yields a record with at least one insertion, deletion or update |
| `Classifier.Render` | app.js:125-142 | the argument of `insertHistory` renders every insertion, deletion and both halves of every update with `toNTriple`, position by position, keeping date, account and every list's length |
| `Engine.Persist` | app.js:134-142 | every record of a tick is handed to persistence rendered, one argument per flushed account |
| `Engine.FlushTick` | app.js:98-142 | a tick keeps exactly the non-expired buckets, produces one record per expired account, the classification of its bucket, and persists each record rendered |
| `Engine.FlushTickRecordsNonEmpty` | app.js:72-142 | from a store built by the handler, every record and every persisted argument carries its account and window date and has something in it |
| `Engine.OnlyInsertsAreInsertions` | app.js:109-132 | a window with no deletes yields all its inserts as net insertions, and no deletions or updates |
| `Engine.OnlyDeletesAreDeletions` | app.js:109-132 | a window with no inserts yields all its deletes as net deletions, and no insertions or updates |
| `Engine.ClassifyOnePair` | app.js:109-132 | one insert and one delete sharing a key give no net insertion or deletion and exactly one update |
| `Engine.RecordOfOnePair` | app.js:106-132 | a window flattening to one same-key insert/delete pair yields exactly that update |
| `Engine.CancelAcrossChangeSets` | app.js:106-132 | a statement inserted and later deleted in one window is neither a net insertion nor a net deletion, and becomes an update to itself |
| `Engine.PairWithFirst` | app.js:125-132 | a lone new value is paired with the first old value when that one shares its key, whatever follows it |
| `Engine.TwoOldValuesNothingNet` | app.js:109-120 | one insert and two deletes sharing its key leave no net insertion or deletion |
| `Engine.TwoOldValuesBothKept` | app.js:122-123 | in that window the insert is the one new value and both deletes are old values |
| `Engine.TwoOldValuesFirstPaired` | app.js:122-132 | in that window the only update pairs the insert with the first delete |
| `Engine.RecordOfTwoOldValues` | app.js:106-132 | a window flattening to one insert and two same-key deletes records only the update from the first delete |
| `Engine.OnlyFirstOldValueRecorded` | app.js:106-132 | the second of two same-key deletes appears neither among the net deletions nor as the old half of any update |
| `Engine.UpdateScenarioIngest` | app.js:45-83 | the Alice-to-Bob notification is stored as one new bucket dated at its arrival |
| `Engine.FlushTickSingle` | app.js:99-132 | a store holding one due bucket yields exactly that bucket's record |
| `Engine.FlushTickSinglePersisted` | app.js:99-142 | a store holding one due bucket persists exactly that bucket's rendered record |
| `Engine.UpdateScenario` | app.js:45-132 | one window after the Alice-to-Bob notification, the account's record holds that single update and nothing else |
| `Engine.UpdateScenarioPersisted` | app.js:45-142 | one window after the Alice-to-Bob notification, persistence receives exactly that account's rendered single-update record |
| `Engine.RenderUpdateScenario` | triple.js:48-66 | with escapers that keep their argument, the Alice-to-Bob record renders as one update of plain terms |

## Left out

- HTTP routing, the JSON body parser, the error middleware and the listing/detail read paths (app.js:21-37, 85-95, 151-248): web plumbing and queries to an external store.
- Session-to-account resolution (app.js:151-161): an external query. The handler takes the resolved account as an `Option` and models only the emptiness check.
- queries.js: SPARQL text templates built with random identifiers. `Classifier.Render` and `Engine.Persist` model the argument handed to `insertHistory`, not the query text.
- `sparqlEscapeUri` and `sparqlEscapeString`: functions of an external library, passed in as uninterpreted parameters.
- `setInterval`, `new Date()`, environment configuration and the `await updateSudo` call: timers, clock, configuration and persistence I/O. A tick is one atomic step taking `now` and `interval`. The source deletes each bucket inside the loop, between awaits, and that interleaving is not modelled.
- Malformed notifications. A change-set without an `inserts` or `deletes` array makes the handler throw at app.js:50/54, and nothing is stored. A triple without a subject, predicate or object node is different: the constructor and `isEqual` (triple.js:4-22) never dereference a node, so the handler stores it. The `TypeError` comes later, in the flush tick, from the getters (triple.js:37-45, reached at app.js:111-128) or from `_toNtriple` (triple.js:58, reached at app.js:129-139). By then `STORE.delete` (app.js:105) has run, so the account's whole window is lost, the interval callback rejects, and the tick's remaining due buckets wait for the next tick. The model's `Node` is always present, so neither failure is modelled.
- `Array.prototype.includes` compares object identity. The model uses value membership. This gives the same answer here, because whether a statement is kept depends only on its key.
- `.flat()` after the spread at app.js:51 and app.js:55 does nothing to a list of `Triple` objects, so it is not modelled.
