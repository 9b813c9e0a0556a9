/** The per-account store: one bucket of normalised change-sets per account,
    filled by the `/delta` handler and emptied by the periodic flush. */
module Aggregator {
  import opened Wrappers
  import opened Triples
  import opened ChangeSets
  import opened Normalizer

  /** The message the handler throws when no account was resolved. */
  const NoAccount := "No account found!"

  /** An account URI, as resolved from the session. */
  type Account = string

  /** `{date, account, deltas}`: `date` is the time, in milliseconds, at which
      the bucket was created. */
  datatype Bucket = Bucket(date: nat, account: Account, deltas: seq<ChangeSet>)

  /** The `STORE` map. */
  type Store = map<Account, Bucket>

  /** What every bucket the handler creates satisfies: it is filed under its
      own account and holds only non-empty normalised change-sets, at least
      one of them. */
  predicate ValidBucket(a: Account, b: Bucket)
  {
    && b.account == a
    && |b.deltas| > 0
    && forall k :: 0 <= k < |b.deltas| ==> !IsEmpty(b.deltas[k]) && NoOverlap(b.deltas[k])
  }

  predicate Valid(store: Store)
  {
    forall a :: a in store ==> ValidBucket(a, store[a])
  }

  /** Files `cs` under `account`: a new bucket dated `now` when the account
      has none, otherwise `cs` is pushed onto the existing bucket's deltas
      and its date is kept. No other account's bucket changes. */
  function Append(store: Store, account: Account, cs: ChangeSet, now: nat): (r: Store)
    ensures r.Keys == store.Keys + {account}
    ensures account !in store ==> r[account] == Bucket(now, account, [cs])
    ensures account in store ==>
      && r[account].date == store[account].date
      && r[account].account == store[account].account
      && r[account].deltas == store[account].deltas + [cs]
    ensures forall a :: a in store && a != account ==> r[a] == store[a]
  {
    if account !in store then store[account := Bucket(now, account, [cs])]
    else
      var b := store[account];
      store[account := b.(deltas := b.deltas + [cs])]
  }

  /** The handler body once the account is known: normalise the body and
      append it unless nothing is left. */
  function Ingest(store: Store, account: Account, body: seq<ChangeSet>, now: nat): (r: Store)
    ensures IsEmpty(Normalize(body)) ==> r == store
    ensures !IsEmpty(Normalize(body)) ==> r == Append(store, account, Normalize(body), now)
  {
    var cs := Normalize(body);
    if |cs.inserts| > 0 || |cs.deletes| > 0 then Append(store, account, cs, now) else store
  }

  /** The `/delta` handler: a missing or empty account is an error and leaves
      the store alone; otherwise the body is ingested. */
  function HandleDelta(store: Store, account: Option<Account>, body: seq<ChangeSet>, now: nat): (r: Result<Store>)
    ensures r.Failure? <==> account.None? || |account.value| == 0
    ensures r.Failure? ==> r.error == NoAccount
    ensures r.Success? ==> r.value == Ingest(store, account.value, body, now)
  {
    match account
    case None => Failure(NoAccount)
    case Some(a) => if |a| == 0 then Failure(NoAccount) else Success(Ingest(store, a, body, now))
  }

  /** A bucket is due once `interval` milliseconds have passed since its date. */
  predicate Expired(b: Bucket, now: nat, interval: nat): (r: bool)
    ensures r <==> b.date + interval <= now
    ensures b.date > now ==> !r
  {
    now - b.date >= interval
  }

  /** The buckets a flush takes out of the store, and the store it leaves. */
  datatype Flushed = Flushed(remaining: Store, expired: Store)

  /** One flush tick: take out exactly the expired buckets. */
  function Flush(store: Store, now: nat, interval: nat): (r: Flushed)
    ensures r.expired.Keys !! r.remaining.Keys
    ensures r.expired.Keys + r.remaining.Keys == store.Keys
    ensures forall a :: a in r.expired <==> a in store && Expired(store[a], now, interval)
    ensures forall a :: a in r.expired ==> r.expired[a] == store[a]
    ensures forall a :: a in r.remaining ==> r.remaining[a] == store[a]
  {
    var sink := map a | a in store && Expired(store[a], now, interval) :: store[a];
    Flushed(store - sink.Keys, sink)
  }

  /** Handling a notification keeps the store valid. */
  lemma HandleDeltaPreservesValid(store: Store, account: Option<Account>, body: seq<ChangeSet>, now: nat)
    requires Valid(store)
    requires HandleDelta(store, account, body, now).Success?
    ensures Valid(HandleDelta(store, account, body, now).value)
  {
    var a := account.value;
    var cs := Normalize(body);
    if !IsEmpty(cs) {
      var r := Append(store, a, cs, now);
      if a in store {
        var ds := store[a].deltas + [cs];
        assert forall k :: 0 <= k < |ds| ==> ds[k] == if k < |store[a].deltas| then store[a].deltas[k] else cs;
      }
      assert ValidBucket(a, r[a]);
    }
  }

  /** A flush keeps both parts valid. */
  lemma FlushPreservesValid(store: Store, now: nat, interval: nat)
    requires Valid(store)
    ensures Valid(Flush(store, now, interval).remaining)
    ensures Valid(Flush(store, now, interval).expired)
  {
  }

  /** A flush leaves no expired bucket behind and takes no bucket early. */
  lemma FlushLatency(store: Store, now: nat, interval: nat, a: Account)
    requires a in store
    ensures a in Flush(store, now, interval).expired <==> now - store[a].date >= interval
    ensures a in Flush(store, now, interval).remaining <==> now - store[a].date < interval
  {
  }

  /** A notification arriving after its account's bucket was flushed opens a
      fresh bucket dated at its own arrival and holding only its changes. */
  lemma AppendAfterFlushOpensFreshBucket(store: Store, now: nat, interval: nat, account: Account, cs: ChangeSet, later: nat)
    requires account in store && Expired(store[account], now, interval)
    ensures Append(Flush(store, now, interval).remaining, account, cs, later)[account] == Bucket(later, account, [cs])
  {
  }

  /** While a bucket stays open, every change appended to it is kept and its
      date never moves. */
  lemma AppendKeepsWindowStart(store: Store, account: Account, cs: ChangeSet, now: nat)
    requires account in store
    ensures Append(store, account, cs, now)[account].date == store[account].date
    ensures InsertsOf(Append(store, account, cs, now)[account].deltas) == InsertsOf(store[account].deltas) + cs.inserts
    ensures DeletesOf(Append(store, account, cs, now)[account].deltas) == DeletesOf(store[account].deltas) + cs.deletes
  {
    FlattenSnoc(store[account].deltas, cs);
  }
}
