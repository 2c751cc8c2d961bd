/** The driver's batch in progress: what it lets a provider dispatch, and how it returns what was never sent. */
module BackfillDriver {
  import opened Wrappers
  import opened BackfillModel
  import opened BackfillTransactions
  import BackfillProtocol
  import opened BackfillCalls

  class BackfillBatch {
    const identity: Identity
    const lease: BackfillLease
    const rows: seq<RowId>
    const authorized: set<RowId>
    var requestOf: map<int, RequestId>
    var indexesOf: map<RequestId, set<int>>
    var latest: Option<RequestId>

    /** Rows are distinct, and the two request tables mirror each other. */
    ghost predicate Valid()
      reads this
    {
      Sound(AsBatch()) && Mirrored(requestOf, indexesOf, latest)
    }

    constructor (identity: Identity, lease: BackfillLease, rows: seq<RowId>, authorized: set<RowId>)
      requires forall i, j :: 0 <= i < j < |rows| ==> rows[i] != rows[j]
      ensures Valid() && this.identity == identity && this.lease == lease && this.rows == rows && this.authorized == authorized
      ensures requestOf == map[] && indexesOf == map[] && latest == None
    {
      this.identity, this.lease, this.rows, this.authorized := identity, lease, rows, authorized;
      requestOf, indexesOf, latest := map[], map[], None;
    }

    function AsBatch(): (b: Batch)
      reads this
    {
      Batch(identity, lease.AsLease(), rows, authorized, requestOf)
    }

    /**
     The callback before each real sub-request. It dispatches exactly the named rows under a fresh
     request, each for the first time in this batch, or refuses and changes nothing.
     */
    method BeforeDispatch(db: BackfillDatabase, indexes: seq<int>, request: RequestId) returns (sent: bool)
      requires Valid() && request !in indexesOf
      modifies this, db`inflight
      ensures Valid()
      ensures match Dispatch(old(db.Contents()), old(AsBatch()), indexes, request)
        case None =>
          && !sent && db.Contents() == old(db.Contents()) && AsBatch() == old(AsBatch())
          && indexesOf == old(indexesOf) && latest == old(latest)
        case Some(after) =>
          && sent && db.Contents() == after && AsBatch() == AfterDispatch(old(AsBatch()), indexes, request)
          && indexesOf == old(indexesOf)[request := Set(indexes)] && latest == Some(request)
          && SentRows(AsBatch()) == SentRows(old(AsBatch())) + BackfillProtocol.Rows(RowsAt(rows, indexes))
          && SentRows(old(AsBatch())) !! BackfillProtocol.Rows(RowsAt(rows, indexes))
    {
      if !ValidIndexes(indexes, |rows|, requestOf.Keys) {
        return false;
      }
      var ids := RowsAt(rows, indexes);
      var count := db.MarkDispatched(identity, lease, ids, request, authorized);
      if count != |ids| {
        return false;
      }
      DispatchSends(AsBatch(), indexes, request);
      DispatchKeepsMirror(AsBatch(), indexesOf, latest, indexes, request);
      indexesOf := indexesOf[request := Set(indexes)];
      requestOf := requestOf + (map i | i in Set(indexes) :: request);
      latest := Some(request);
      return true;
    }

    /** A claim of this lease on a row of the batch that was never handed to the provider. */
    ghost predicate UnsentClaim(inflight: map<Key, Entry>, k: Key, upTo: nat)
      reads this
      requires upTo <= |rows|
    {
      && k in inflight && k.identity == identity && k.row !in authorized
      && inflight[k].owner == lease.leaseId && inflight[k].generation == lease.generation && inflight[k].state == Claimed
      && exists i :: 0 <= i < upTo && rows[i] == k.row && i !in requestOf
    }

    /**
     After a failure: returns every claim on a row that was never sent, and nothing else. Each
     return is a transaction of its own; here no other worker commits between them.
     */
    method ReleaseUnsent(db: BackfillDatabase) returns (held: bool)
      requires Valid()
      modifies db`inflight
      ensures old(db.IsHolder(lease)) ==>
        && held
        && (forall k :: k in db.inflight <==> k in old(db.inflight) && !UnsentClaim(old(db.inflight), k, |rows|))
        && (forall k :: k in db.inflight ==> db.inflight[k] == old(db.inflight)[k])
      ensures !old(db.IsHolder(lease)) ==> db.inflight == old(db.inflight)
      ensures db.Contents() == ReturnFirst(old(db.Contents()), AsBatch(), |rows|)
    {
      for n := 0 to |rows|
        invariant old(db.IsHolder(lease)) ==>
          && (forall k :: k in db.inflight <==> k in old(db.inflight) && !UnsentClaim(old(db.inflight), k, n))
          && (forall k :: k in db.inflight ==> db.inflight[k] == old(db.inflight)[k])
        invariant !old(db.IsHolder(lease)) ==> db.inflight == old(db.inflight)
        invariant db.Contents() == ReturnFirst(old(db.Contents()), AsBatch(), n)
      {
        if n !in requestOf {
          held := db.ResolveRow(identity, lease, None, rows[n], authorized);
          if !held {
            LostReturnsNothing(old(db.Contents()), AsBatch(), |rows|);
            return false;
          }
        }
      }
      return true;
    }
  }
}
