/**
 The transactions of the embedding backfill as the program runs them: statements that change
 tables one after another, with a rollback when a check fails. Each method is proved to take the
 database exactly where the corresponding function of `BackfillModel` says.
 */
module BackfillTransactions {
  import opened Wrappers
  import opened BackfillModel

  class BackfillDatabase {
    var cell: Option<LeaseValue>
    var inflight: map<Key, Entry>
    var published: set<Key>

    ghost function Contents(): (db: Db)
      reads this
    {
      Db(cell, inflight, published)
    }

    predicate IsHolder(lease: BackfillLease)
      reads this
    {
      && cell.Some?
      && cell.value.Object?
      && cell.value.owner == Some(lease.leaseId)
      && cell.value.generation == Counted(lease.generation)
    }

    constructor (cell: Option<LeaseValue>, inflight: map<Key, Entry>, published: set<Key>)
      ensures Contents() == Db(cell, inflight, published)
    {
      this.cell, this.inflight, this.published := cell, inflight, published;
    }

    /** Acquires the lease for a fresh owner id, stealing only an expired one. */
    method AcquireLease(leaseId: Owner, ttl: real, heartbeatEvery: real, now: real)
      returns (outcome: Result<Option<BackfillLease>, Error>)
      modifies this`cell
      ensures match Acquire(old(Contents()), leaseId, now, ttl)
        case Refused => outcome == Ok(None) && Contents() == old(Contents())
        case Raised => outcome == Err(MalformedCell) && Contents() == old(Contents())
        case Granted(db, lease) =>
          && Contents() == db
          && outcome.Ok? && outcome.value.Some? && fresh(outcome.value.value)
          && outcome.value.value.AsLease() == lease
          && outcome.value.value.lastHeartbeat == now
          && outcome.value.value.heartbeatEvery == heartbeatEvery
    {
      var generation := 1;
      if cell.Some? {
        var heartbeat := Heartbeat(cell.value);
        if heartbeat.Unconvertible? {
          return Err(MalformedCell);
        }
        if IsLive(heartbeat, now, ttl) {
          return Ok(None);
        }
        match cell.value {
          case NotJson =>
          case TooDeep => assert false;
          case NonObject(_) => return Err(MalformedCell);
          case Object(_, prior, _) =>
            if prior.Infinite? {
              return Err(MalformedCell);
            }
            generation := if prior.Counted? then prior.number + 1 else 1;
        }
      }
      var lease := new BackfillLease(leaseId, generation, heartbeatEvery, now);
      cell := Some(Claim(leaseId, generation, now));
      return Ok(Some(lease));
    }

    /** Recovers what earlier leases left behind; the staged rows are the SQL-limited selections. */
    method PrepareInflight(identity: Identity, lease: BackfillLease, claimed: set<Key>, dispatched: set<Key>)
      returns (outcome: Result<(), Error>)
      requires StagedFrom(claimed, Predecessors(Contents(), identity, lease.AsLease(), Claimed))
      requires StagedFrom(dispatched, Predecessors(Contents(), identity, lease.AsLease(), Dispatched))
      modifies this`inflight
      ensures match Recover(old(Contents()), lease.AsLease(), claimed, dispatched)
        case Err(error) => outcome == Err(error) && Contents() == old(Contents())
        case Ok(db) => outcome == Ok(()) && Contents() == db
    {
      if !IsHolder(lease) {
        return Err(LeaseLost);
      }
      inflight := inflight - claimed;
      var todo := dispatched;
      while todo != {}
        invariant todo <= dispatched
        invariant forall k :: k in inflight <==> k in old(inflight) && k !in claimed
        invariant forall k :: k in inflight ==>
          inflight[k] == if k in dispatched - todo then old(inflight[k]).(state := Uncertain) else old(inflight[k])
        decreases |todo|
      {
        var k :| k in todo;
        assert IsPredecessor(old(Contents()), identity, lease.AsLease(), Dispatched, k);
        assert k !in Predecessors(old(Contents()), identity, lease.AsLease(), Claimed);
        inflight := inflight[k := inflight[k].(state := Uncertain)];
        todo := todo - {k};
      }
      assert inflight == RecoverRows(old(inflight), claimed, dispatched);
      return Ok(());
    }

    /** Reserves every row of the batch or none of them. */
    method MarkInflight(identity: Identity, lease: BackfillLease, rows: seq<RowId>, authorized: set<RowId>)
      returns (outcome: Result<(), Error>)
      modifies this`inflight
      ensures match BackfillModel.MarkInflight(old(Contents()), identity, lease.AsLease(), rows, authorized)
        case Err(error) => outcome == Err(error) && Contents() == old(Contents())
        case Ok(db) => outcome == Ok(()) && Contents() == db
    {
      if !IsHolder(lease) {
        return Err(LeaseLost);
      }
      var before := inflight;
      for i := 0 to |rows|
        invariant ReserveRows(before, identity, lease.AsLease(), rows[..i], authorized) == Some(inflight)
      {
        assert rows[..i + 1][..i] == rows[..i];
        var k := Key(rows[i], identity);
        if rows[i] in authorized {
          if k !in inflight || inflight[k].state != Uncertain {
            ReserveStopsAt(before, identity, lease.AsLease(), rows, authorized, i);
            inflight := before;
            return Err(CandidateChanged);
          }
          inflight := inflight[k := inflight[k].(owner := lease.leaseId, generation := lease.generation, request := None)];
        } else {
          if k in inflight {
            ReserveStopsAt(before, identity, lease.AsLease(), rows, authorized, i);
            inflight := before;
            return Err(CandidateChanged);
          }
          inflight := inflight[k := Entry(lease.leaseId, lease.generation, Claimed, None)];
        }
      }
      assert rows[..|rows|] == rows;
      return Ok(());
    }

    /** Marks every row dispatched under the request, or rolls back and returns 0. */
    method MarkDispatched(identity: Identity, lease: BackfillLease, rows: seq<RowId>, request: RequestId,
                          authorized: set<RowId>) returns (count: nat)
      modifies this`inflight
      ensures match BackfillModel.MarkDispatched(old(Contents()), identity, lease.AsLease(), rows, request, authorized)
        case None => count == 0 && Contents() == old(Contents())
        case Some(db) => count == |rows| && Contents() == db
    {
      if rows == [] || !IsHolder(lease) {
        return 0;
      }
      var before := inflight;
      for i := 0 to |rows|
        invariant DispatchRows(before, identity, lease.AsLease(), rows[..i], request, authorized) == Some(inflight)
      {
        assert rows[..i + 1][..i] == rows[..i];
        var k := Key(rows[i], identity);
        var prior := if rows[i] in authorized then Uncertain else Claimed;
        if k !in inflight || inflight[k] != Entry(lease.leaseId, lease.generation, prior, None) {
          DispatchStopsAt(before, identity, lease.AsLease(), rows, request, authorized, i);
          inflight := before;
          return 0;
        }
        inflight := inflight[k := inflight[k].(state := Dispatched, request := Some(request))];
      }
      assert rows[..|rows|] == rows;
      return |rows|;
    }

    /** Resolves one row of the caller's own request, or an unsent claim when there is no request. */
    method ResolveRow(identity: Identity, lease: BackfillLease, request: Option<RequestId>, row: RowId,
                      authorized: set<RowId>) returns (held: bool)
      modifies this`inflight
      ensures match BackfillModel.ResolveRow(old(Contents()), identity, lease.AsLease(), request, row, authorized)
        case None => !held && Contents() == old(Contents())
        case Some(db) => held && Contents() == db
    {
      if !IsHolder(lease) {
        return false;
      }
      var k := Key(row, identity);
      if row in authorized && request.None? {
        // The reservation left the row uncertain and nothing was sent.
      } else if row in authorized {
        if k in inflight && inflight[k] == Entry(lease.leaseId, lease.generation, Dispatched, request) {
          inflight := inflight[k := inflight[k].(state := Uncertain, request := None)];
        }
      } else if request.None? {
        if k in inflight && inflight[k].owner == lease.leaseId && inflight[k].generation == lease.generation
           && inflight[k].state == Claimed {
          inflight := inflight - {k};
        }
      } else if k in inflight && inflight[k] == Entry(lease.leaseId, lease.generation, Dispatched, request) {
        inflight := inflight - {k};
      }
      return true;
    }

    /**
     Resolves a whole request. A definitive rejection first returns the authorised rows to
     uncertain one by one and then deletes the rest; otherwise every row becomes uncertain.
     */
    method ResolveRequest(identity: Identity, lease: BackfillLease, request: RequestId, retryable: bool,
                          authorized: set<RowId>) returns (held: bool)
      modifies this`inflight
      ensures match BackfillModel.ResolveRequest(old(Contents()), identity, lease.AsLease(), request, retryable, authorized)
        case None => !held && Contents() == old(Contents())
        case Some(db) => held && Contents() == db
    {
      if !IsHolder(lease) {
        return false;
      }
      var me := lease.AsLease();
      if retryable {
        var todo := authorized;
        while todo != {}
          invariant todo <= authorized
          invariant inflight.Keys == old(inflight.Keys)
          invariant forall k :: k in inflight ==>
            inflight[k] ==
              if InRequest(old(inflight), identity, me, request, k) && k.row in authorized - todo
              then old(inflight[k]).(state := Uncertain, request := None) else old(inflight[k])
          decreases |todo|
        {
          var row :| row in todo;
          var k := Key(row, identity);
          if InRequest(inflight, identity, me, request, k) {
            inflight := inflight[k := inflight[k].(state := Uncertain, request := None)];
          }
          todo := todo - {row};
        }
        inflight := map k | k in inflight
                            && !(InRequest(inflight, identity, me, request, k) && k.row !in authorized) :: inflight[k];
        assert inflight == RejectRows(old(inflight), identity, me, request, authorized);
      } else {
        inflight := map k | k in inflight ::
          if InRequest(inflight, identity, me, request, k) then inflight[k].(state := Uncertain) else inflight[k];
      }
      return true;
    }

    /** Publishes one accepted vector under the lease, or reports why it may not. */
    method PublishUnderLease(identity: Identity, lease: BackfillLease, row: RowId, request: RequestId, active: bool)
      returns (outcome: Outcome)
      modifies this
      ensures (Contents(), outcome) == Publish(old(Contents()), identity, lease.AsLease(), row, request, active)
    {
      var k := Key(row, identity);
      var me := lease.AsLease();
      if !IsHolder(lease) || !InRequest(inflight, identity, me, request, k) {
        return OwnershipLost;
      }
      if !active {
        inflight := map k' | k' in inflight ::
          if InRequest(inflight, identity, me, request, k') then inflight[k'].(state := Uncertain) else inflight[k'];
        cell := None;
        return IdentitySuperseded;
      }
      published := published + {k};
      inflight := inflight - {k};
      return PublishedRow;
    }
  }

  /** The renewable owner-checked lease of one worker, with its local heartbeat clock. */
  class BackfillLease {
    const leaseId: Owner
    const generation: int
    const heartbeatEvery: real
    var lastHeartbeat: real

    constructor (leaseId: Owner, generation: int, heartbeatEvery: real, now: real)
      ensures this.leaseId == leaseId && this.generation == generation
      ensures this.heartbeatEvery == heartbeatEvery && lastHeartbeat == now
    {
      this.leaseId, this.generation := leaseId, generation;
      this.heartbeatEvery, lastHeartbeat := heartbeatEvery, now;
    }

    function AsLease(): (lease: Lease) {
      Lease(leaseId, generation)
    }

    /**
     Renews the heartbeat. Within the heartbeat interval it answers true without looking at the
     cell, so only an answer after the interval proves that this lease is still the holder.
     */
    method RenewHeartbeat(db: BackfillDatabase, now: real, force: bool) returns (alive: bool)
      modifies this`lastHeartbeat, db`cell
      ensures db.Contents() == old(db.Contents())
        || db.Contents() == Renew(old(db.Contents()), AsLease(), now)
      ensures var checked := force || now - old(lastHeartbeat) >= heartbeatEvery;
        if checked then
          && alive == Holds(old(db.Contents()), AsLease())
          && db.Contents() == Renew(old(db.Contents()), AsLease(), now)
          && lastHeartbeat == (if alive then now else old(lastHeartbeat))
        else alive && db.Contents() == old(db.Contents()) && lastHeartbeat == old(lastHeartbeat)
    {
      if !force && now - lastHeartbeat < heartbeatEvery {
        return true;
      }
      if !db.IsHolder(this) {
        return false;
      }
      db.cell := Some(Claim(leaseId, generation, now));
      lastHeartbeat := now;
      return true;
    }

    method ReleaseLease(db: BackfillDatabase)
      modifies db`cell
      ensures db.Contents() == Release(old(db.Contents()), AsLease())
    {
      if db.IsHolder(this) {
        db.cell := None;
      }
    }
  }

  lemma {:induction false} ReserveStopsAt(inflight: map<Key, Entry>, identity: Identity, lease: Lease,
                                          rows: seq<RowId>, authorized: set<RowId>, i: nat)
    requires i < |rows|
    requires ReserveRows(inflight, identity, lease, rows[..i + 1], authorized) == None
    ensures ReserveRows(inflight, identity, lease, rows, authorized) == None
    decreases |rows| - i
  {
    if i + 1 < |rows| {
      assert rows[..i + 2][..i + 1] == rows[..i + 1];
      ReserveStopsAt(inflight, identity, lease, rows, authorized, i + 1);
    } else {
      assert rows[..i + 1] == rows;
    }
  }

  lemma {:induction false} DispatchStopsAt(inflight: map<Key, Entry>, identity: Identity, lease: Lease,
                                           rows: seq<RowId>, request: RequestId, authorized: set<RowId>, i: nat)
    requires i < |rows|
    requires DispatchRows(inflight, identity, lease, rows[..i + 1], request, authorized) == None
    ensures DispatchRows(inflight, identity, lease, rows, request, authorized) == None
    decreases |rows| - i
  {
    if i + 1 < |rows| {
      assert rows[..i + 2][..i + 1] == rows[..i + 1];
      DispatchStopsAt(inflight, identity, lease, rows, request, authorized, i + 1);
    } else {
      assert rows[..i + 1] == rows;
    }
  }
}
