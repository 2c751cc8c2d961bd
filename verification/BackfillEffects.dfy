/** What the holder's own steps achieve: where each leaves the rows it names, and that it leaves the rest alone. */
module BackfillEffects {
  import opened Wrappers
  import opened BackfillModel
  import opened BackfillProtocol

  /** Outside the named keys the in-flight table is as before. */
  ghost predicate OnlyKeys(before: Db, after: Db, keys: set<Key>) {
    forall k :: k !in keys ==>
      && (k in after.inflight <==> k in before.inflight)
      && (k in before.inflight ==> after.inflight[k] == before.inflight[k])
  }

  // ---------------------------------------------------------------- lease

  /** A grant protects its owner: until the TTL has passed since, every other acquisition is refused. */
  lemma GrantProtects(db: Db, owner: Owner, now: real, ttl: real, other: Owner, later: real)
    requires Acquire(db, owner, now, ttl).Granted? && later < now + ttl
    ensures Acquire(Acquire(db, owner, now, ttl).db, other, later, ttl) == Refused
  {
  }

  /** After the TTL, without a renewal, any worker gets the lease, and the old one is void even if the owner is the same. */
  lemma GrantExpires(db: Db, owner: Owner, now: real, ttl: real, other: Owner, later: real)
    requires Acquire(db, owner, now, ttl).Granted? && later >= now + ttl
    ensures var granted := Acquire(db, owner, now, ttl);
      var stolen := Acquire(granted.db, other, later, ttl);
      && stolen.Granted? && stolen.lease == Lease(other, granted.lease.generation + 1)
      && Holds(stolen.db, stolen.lease) && !Holds(stolen.db, granted.lease)
  {
  }

  /** A renewal by the holder starts the TTL anew and keeps it the holder; anyone else's changes nothing. */
  lemma RenewProtects(db: Db, lease: Lease, now: real, ttl: real, other: Owner, later: real)
    requires later < now + ttl
    ensures Holds(db, lease) ==>
      && Holds(Renew(db, lease, now), lease) && Acquire(Renew(db, lease, now), other, later, ttl) == Refused
      && Renew(db, lease, now).inflight == db.inflight && Renew(db, lease, now).published == db.published
    ensures !Holds(db, lease) ==> Renew(db, lease, now) == db
  {
  }

  /** A release by the holder lets anyone acquire at once, whatever the clock says; anyone else's changes nothing. */
  lemma ReleaseFrees(db: Db, lease: Lease, other: Owner, now: real, ttl: real)
    ensures Holds(db, lease) ==>
      && Acquire(Release(db, lease), other, now, ttl).Granted?
      && Release(db, lease).inflight == db.inflight && Release(db, lease).published == db.published
    ensures !Holds(db, lease) ==> Release(db, lease) == db
  {
  }

  /** The first lease on a cell that holds none: at once on an empty cell, after one TTL from time 0 on text that is not JSON. */
  lemma FirstGrant(db: Db, owner: Owner, now: real, ttl: real)
    requires db.cell.None? || db.cell == Some(NotJson)
    ensures Acquire(db, owner, now, ttl) ==
      if db.cell.None? || now >= ttl then
        Granted(Db(Some(Object(Some(owner), Counted(1), At(now))), db.inflight, db.published), Lease(owner, 1))
      else Refused
  {
  }

  /** A generation that is no number starts again at 1. */
  lemma UncountedGrant(db: Db, owner: Owner, now: real, ttl: real)
    requires db.cell.Some? && db.cell.value.Object? && db.cell.value.generation.Uncounted?
    ensures Acquire(db, owner, now, ttl).Granted? ==> Acquire(db, owner, now, ttl).lease == Lease(owner, 1)
    ensures db.cell.value.heartbeat.Expired? ==> Acquire(db, owner, now, ttl).Granted?
  {
  }

  // ---------------------------------------------------------------- recovery

  /** Whatever another lease left in the state, also an earlier one of the same owner, is a predecessor's. */
  lemma PredecessorsIff(db: Db, identity: Identity, lease: Lease, state: RowState, k: Key)
    ensures k in Predecessors(db, identity, lease, state) <==>
      k in db.inflight && k.identity == identity && db.inflight[k].state == state
      && Lease(db.inflight[k].owner, db.inflight[k].generation) != lease
  {
  }

  /** One recovery stages all candidates, or 256 of them if there are more. */
  lemma StagedIff(staged: set<Key>, candidates: set<Key>)
    ensures StagedFrom(staged, candidates) <==>
      staged <= candidates && |staged| == if |candidates| < 256 then |candidates| else 256
  {
    if staged <= candidates {
      SmallerSet(staged, candidates);
      if staged != candidates {
        ProperIsSmaller(staged, candidates);
      }
    }
  }

  lemma ProperIsSmaller<T>(a: set<T>, b: set<T>)
    requires a < b
    ensures |a| < |b|
  {
    var x :| x in b && x !in a;
    SmallerSet(a, b - {x});
  }

  /**
   A recovery by the holder makes every staged claim of a predecessor pending again, and turns every
   staged dispatch into an uncertain row that an operator can retry; all else stays.
   */
  lemma RecoveryResolvesStaged(s: System, step: Step)
    requires Inv(s) && step.RecoverStep? && Enabled(s, step) && Holds(s.db, s.workers[step.owner].lease)
    ensures var t := Apply(s, step);
      && (forall k :: k in step.claimed ==> IsPending(t.db, k.identity, k.row))
      && (forall k :: k in step.dispatched ==>
            && k in s.db.inflight && k in t.db.inflight
            && t.db.inflight[k] == s.db.inflight[k].(state := Uncertain)
            && IsRetryable(t.db, k.identity, k.row))
      && OnlyKeys(s.db, t.db, step.claimed + step.dispatched)
      && t.db.cell == s.db.cell && t.db.published == s.db.published
  {
    var w := s.workers[step.owner];
    forall k | k in step.claimed ensures IsPredecessor(s.db, w.identity, w.lease, Claimed, k) {
      assert k in Predecessors(s.db, w.identity, w.lease, Claimed);
    }
    forall k | k in step.dispatched ensures IsPredecessor(s.db, w.identity, w.lease, Dispatched, k) {
      assert k in Predecessors(s.db, w.identity, w.lease, Dispatched);
    }
    assert forall k :: k in s.db.inflight ==> k !in s.db.published;
  }

  lemma SmallerSet<T>(a: set<T>, b: set<T>)
    requires a <= b
    ensures |a| <= |b|
  {
    assert b == a + (b - a);
  }

  /** With fewer than 256 rows left behind in each state, one recovery leaves none of them claimed or dispatched. */
  lemma RecoveryLeavesNoPredecessor(s: System, step: Step, k: Key)
    requires Inv(s) && step.RecoverStep? && Enabled(s, step) && Holds(s.db, s.workers[step.owner].lease)
    requires var w := s.workers[step.owner];
      |Predecessors(s.db, w.identity, w.lease, Claimed)| < 256 && |Predecessors(s.db, w.identity, w.lease, Dispatched)| < 256
    ensures var w := s.workers[step.owner];
      !IsPredecessor(Apply(s, step).db, w.identity, w.lease, Claimed, k)
      && !IsPredecessor(Apply(s, step).db, w.identity, w.lease, Dispatched, k)
  {
    var w := s.workers[step.owner];
    SmallerSet(step.claimed, Predecessors(s.db, w.identity, w.lease, Claimed));
    SmallerSet(step.dispatched, Predecessors(s.db, w.identity, w.lease, Dispatched));
    RecoveryResolvesStaged(s, step);
    assert IsPredecessor(s.db, w.identity, w.lease, Claimed, k) ==> k in Predecessors(s.db, w.identity, w.lease, Claimed);
    assert IsPredecessor(s.db, w.identity, w.lease, Dispatched, k) ==>
      k in Predecessors(s.db, w.identity, w.lease, Dispatched);
  }

  // ---------------------------------------------------------------- reservation and dispatch

  /** What a reservation leaves of a row: the holder's claim, or the holder's name on an authorised uncertain row. */
  predicate Reserved(db: Db, w: Worker, row: RowId, authorized: set<RowId>) {
    var k := Key(row, w.identity);
    k in db.inflight
    && db.inflight[k] == Entry(w.lease.owner, w.lease.generation, if row in authorized then Uncertain else Claimed, None)
  }

  /** The holder's reservation of rows it discovered takes effect on all of them, and they become its batch. */
  lemma HolderReserves(s: System, step: Step)
    requires Inv(s) && step.ReserveStep? && Enabled(s, step) && Holds(s.db, s.workers[step.owner].lease)
    ensures var w, t := s.workers[step.owner], Apply(s, step);
      && (forall row :: row in step.ids ==> Reserved(t.db, w, row, w.authorized))
      && OnlyKeys(s.db, t.db, Keys(Rows(step.ids), w.identity))
      && t.db.cell == s.db.cell && t.db.published == s.db.published
      && t.workers[step.owner] ==
           w.(documents := w.documents - Rows(step.ids), batch := Rows(step.ids), requests := map[])
  {
    var w := s.workers[step.owner];
    var auth := Rows(step.ids) * w.authorized;
    ReserveRowsSucceed(s, w, step.ids, step.ids);
    forall k ensures k in Keys(Rows(step.ids), w.identity) <==> k.identity == w.identity && k.row in step.ids {
      ReserveRowsAt(s.db.inflight, w.identity, w.lease, step.ids, auth, k);
    }
    forall k { ReserveRowsAt(s.db.inflight, w.identity, w.lease, step.ids, auth, k); }
  }

  lemma {:induction false} DispatchRowsSucceed(db: Db, w: Worker, ids: seq<RowId>, request: RequestId, authorized: set<RowId>)
    requires Distinct(ids) && forall i :: 0 <= i < |ids| ==> Reserved(db, w, ids[i], authorized)
    ensures DispatchRows(db.inflight, w.identity, w.lease, ids, request, authorized).Some?
  {
    if ids != [] {
      var front, last := ids[..|ids| - 1], ids[|ids| - 1];
      DispatchRowsSucceed(db, w, front, request, authorized);
      DispatchRowsAt(db.inflight, w.identity, w.lease, front, request, authorized, Key(last, w.identity));
      assert last !in front;
      assert Reserved(db, w, last, authorized);
    }
  }

  /** A dispatch takes effect exactly when it names rows and its worker, still the holder, has reserved all of them. */
  lemma DispatchSucceedsIff(s: System, step: Step)
    requires step.DispatchStep? && Enabled(s, step)
    ensures var w := s.workers[step.owner];
      MarkDispatched(s.db, w.identity, w.lease, step.ids, step.request, BatchAuthorized(w)).Some? <==>
        && step.ids != [] && Holds(s.db, w.lease)
        && forall i :: 0 <= i < |step.ids| ==> Reserved(s.db, w, step.ids[i], BatchAuthorized(w))
  {
    var w := s.workers[step.owner];
    if MarkDispatched(s.db, w.identity, w.lease, step.ids, step.request, BatchAuthorized(w)).Some? {
      forall i | 0 <= i < |step.ids| ensures Reserved(s.db, w, step.ids[i], BatchAuthorized(w)) {
        DispatchRowsAt(s.db.inflight, w.identity, w.lease, step.ids, step.request, BatchAuthorized(w),
                       Key(step.ids[i], w.identity));
      }
    } else if forall i :: 0 <= i < |step.ids| ==> Reserved(s.db, w, step.ids[i], BatchAuthorized(w)) {
      DispatchRowsSucceed(s.db, w, step.ids, step.request, BatchAuthorized(w));
    }
  }

  /** Exactly the named rows are then dispatched under the new request, and each counts one more send. */
  lemma DispatchTakesEffect(s: System, step: Step)
    requires step.DispatchStep? && Enabled(s, step)
    requires var w := s.workers[step.owner];
      MarkDispatched(s.db, w.identity, w.lease, step.ids, step.request, BatchAuthorized(w)).Some?
    ensures var w, t := s.workers[step.owner], Apply(s, step);
      && (forall row :: row in step.ids ==>
            && InRequest(t.db.inflight, w.identity, w.lease, step.request, Key(row, w.identity))
            && t.sent[Key(row, w.identity)] == s.sent[Key(row, w.identity)] + 1
            && row in t.workers[step.owner].requests && t.workers[step.owner].requests[row] == step.request)
      && OnlyKeys(s.db, t.db, Keys(Rows(step.ids), w.identity))
      && t.db.cell == s.db.cell && t.db.published == s.db.published
  {
    var w := s.workers[step.owner];
    forall k { DispatchRowsAt(s.db.inflight, w.identity, w.lease, step.ids, step.request, BatchAuthorized(w), k); }
    forall row | row in step.ids ensures Key(row, w.identity) in Keys(Rows(step.ids), w.identity) {
      assert row in Rows(step.ids);
    }
  }

  // ---------------------------------------------------------------- answers

  /** The row is dispatched under the worker's own identity and lease, in that request. */
  predicate OfRequest(db: Db, w: Worker, request: RequestId, k: Key) {
    && k in db.inflight && k.identity == w.identity
    && db.inflight[k].owner == w.lease.owner && db.inflight[k].generation == w.lease.generation
    && db.inflight[k].state == Dispatched && db.inflight[k].request == Some(request)
  }

  /** An accepted row of the holder's request is published and leaves the table; nothing else changes. */
  lemma PublishRecords(s: System, step: Step)
    requires step.PublishStep? && step.active && Enabled(s, step)
    requires var w := s.workers[step.owner];
      Holds(s.db, w.lease) && OfRequest(s.db, w, w.requests[step.row], Key(step.row, w.identity))
    ensures var w, t := s.workers[step.owner], Apply(s, step);
      var k := Key(step.row, w.identity);
      && t.db.published == s.db.published + {k} && k !in t.db.inflight
      && OnlyKeys(s.db, t.db, {k}) && t.db.cell == s.db.cell
      && !IsPending(t.db, w.identity, step.row) && !IsRetryable(t.db, w.identity, step.row)
  {
  }

  /** Under a superseded profile nothing is published: the whole request becomes uncertain and the lease is given up. */
  lemma SupersededPublishQuarantines(s: System, step: Step, k: Key)
    requires step.PublishStep? && !step.active && Enabled(s, step)
    requires var w := s.workers[step.owner];
      Holds(s.db, w.lease) && OfRequest(s.db, w, w.requests[step.row], Key(step.row, w.identity))
    ensures var w, t := s.workers[step.owner], Apply(s, step);
      && t.db.published == s.db.published && t.db.cell == None
      && (k in t.db.inflight <==> k in s.db.inflight)
      && (k in s.db.inflight ==>
            t.db.inflight[k] ==
              if OfRequest(s.db, w, w.requests[step.row], k)
              then s.db.inflight[k].(state := Uncertain) else s.db.inflight[k])
  {
  }

  /** A request in doubt: every row of it becomes uncertain and keeps its request, and no other row changes. */
  lemma DoubtMakesUncertain(s: System, step: Step, k: Key)
    requires step.ResolveRequestStep? && !step.retryable && Enabled(s, step) && Holds(s.db, s.workers[step.owner].lease)
    ensures var w, t := s.workers[step.owner], Apply(s, step);
      && (k in t.db.inflight <==> k in s.db.inflight)
      && (OfRequest(s.db, w, step.request, k) ==>
            t.db.inflight[k] == Entry(w.lease.owner, w.lease.generation, Uncertain, Some(step.request)))
      && (k in s.db.inflight && !OfRequest(s.db, w, step.request, k) ==>
            t.db.inflight[k] == s.db.inflight[k])
      && t.db.cell == s.db.cell && t.db.published == s.db.published && t.released == s.released
  {
  }

  /** A rejected request: its ordinary rows are released, its authorised ones uncertain again without a request. */
  lemma RejectionReleases(s: System, step: Step, k: Key)
    requires step.ResolveRequestStep? && step.retryable && Enabled(s, step) && Holds(s.db, s.workers[step.owner].lease)
    ensures var w, t := s.workers[step.owner], Apply(s, step);
      && (OfRequest(s.db, w, step.request, k) ==>
            && t.released[k] == s.released[k] + 1
            && (if k.row in BatchAuthorized(w) then
                  k in t.db.inflight && t.db.inflight[k] == Entry(w.lease.owner, w.lease.generation, Uncertain, None)
                else k !in t.db.inflight))
      && (!OfRequest(s.db, w, step.request, k) ==>
            && t.released[k] == s.released[k]
            && (k in t.db.inflight <==> k in s.db.inflight)
            && (k in s.db.inflight ==> t.db.inflight[k] == s.db.inflight[k]))
      && t.db.cell == s.db.cell && t.db.published == s.db.published
  {
    var w := s.workers[step.owner];
    assert k in RequestRows(s.db, w, step.request) <==> OfRequest(s.db, w, step.request, k);
  }

  /** A row skipped by the provider, or never sent, is released: an ordinary one goes, an authorised one is uncertain again. */
  lemma SkipReleases(s: System, step: Step)
    requires step.ResolveRowStep? && Enabled(s, step) && Holds(s.db, s.workers[step.owner].lease)
    ensures var w, t := s.workers[step.owner], Apply(s, step);
      var k := Key(step.row, w.identity);
      var mine := k in s.db.inflight && s.db.inflight[k].owner == w.lease.owner && s.db.inflight[k].generation == w.lease.generation;
      && OnlyKeys(s.db, t.db, {k}) && t.db.cell == s.db.cell && t.db.published == s.db.published
      && (step.row !in w.requests && step.row !in w.authorized && mine && s.db.inflight[k].state == Claimed ==> k !in t.db.inflight)
      && (step.row in w.requests && OfRequest(s.db, w, w.requests[step.row], k) ==>
            && t.released[k] == s.released[k] + 1
            && (if step.row in w.authorized then
                  k in t.db.inflight && t.db.inflight[k] == Entry(w.lease.owner, w.lease.generation, Uncertain, None)
                else k !in t.db.inflight))
      && (step.row !in w.requests && !(step.row !in w.authorized && mine && s.db.inflight[k].state == Claimed) ==> t.db == s.db)
      && (step.row in w.requests && !OfRequest(s.db, w, w.requests[step.row], k) ==> t.db == s.db)
  {
  }

  // ---------------------------------------------------------------- the life of one row

  lemma RunOfThree(s: System, a: Step, b: Step, c: Step)
    requires Enabled(s, a) && Enabled(Apply(s, a), b) && Enabled(Apply(Apply(s, a), b), c)
    ensures IsRun(s, [a, b, c]) && Final(s, [a, b, c]) == Apply(Apply(Apply(s, a), b), c)
  {
    var s1, s2 := Apply(s, a), Apply(Apply(s, a), b);
    assert [a, b, c][1..] == [b, c] && [b, c][1..] == [c] && [c][1..] == [];
    assert IsRun(Apply(s2, c), []) && Final(Apply(s2, c), []) == Apply(s2, c);
    assert IsRun(s2, [c]) && Final(s2, [c]) == Apply(s2, c);
    assert IsRun(s1, [b, c]) && Final(s1, [b, c]) == Apply(s2, c);
  }

  /**
   A worker that is granted the lease can take any pending row, or with the operator's word any
   uncertain one, into its selection.
   */
  lemma FreshWorkerDiscovers(s: System, owner: Owner, identity: Identity, now: real, ttl: real, retry: bool, row: RowId)
    requires Inv(s) && owner !in s.owners && Acquire(s.db, owner, now, ttl).Granted?
    requires if retry then IsRetryable(s.db, identity, row) else IsPending(s.db, identity, row)
    ensures var acquire, discover := AcquireStep(owner, identity, now, ttl), DiscoverStep(owner, retry, {row});
      && Enabled(s, acquire) && Enabled(Apply(s, acquire), discover)
      && var t := Apply(Apply(s, acquire), discover);
         && Inv(t) && owner in t.workers && Holds(t.db, t.workers[owner].lease) && t.workers[owner].identity == identity
         && t.workers[owner].documents == {row} && t.workers[owner].authorized == (if retry then {row} else {})
         && t.db.inflight == s.db.inflight && t.db.published == s.db.published && t.used == s.used
  {
    var acquire, discover := AcquireStep(owner, identity, now, ttl), DiscoverStep(owner, retry, {row});
    StepKeepsInv(s, acquire);
    StepKeepsInv(Apply(s, acquire), discover);
  }

  /** One row of the holder's batch, reserved and not yet sent. */
  ghost predicate ReadyToSend(s: System, owner: Owner, w: Worker, row: RowId) {
    && Inv(s) && owner in s.workers && Holds(s.db, w.lease)
    && s.workers[owner] == w.(documents := w.documents - {row}, batch := {row}, requests := map[])
    && Reserved(s.db, w, row, w.authorized)
  }

  lemma RowIsReserved(s: System, owner: Owner, row: RowId)
    requires Inv(s) && owner in s.workers && Holds(s.db, s.workers[owner].lease) && row in s.workers[owner].documents
    ensures var reserve := ReserveStep(owner, [row]);
      && Enabled(s, reserve) && ReadyToSend(Apply(s, reserve), owner, s.workers[owner], row)
      && Apply(s, reserve).used == s.used
  {
    var reserve := ReserveStep(owner, [row]);
    assert Rows([row]) == {row};
    HolderReserves(s, reserve);
    StepKeepsInv(s, reserve);
  }

  ghost predicate IsSent(s: System, owner: Owner, w: Worker, row: RowId, request: RequestId) {
    && Inv(s) && owner in s.workers && Holds(s.db, w.lease)
    && s.workers[owner].lease == w.lease && s.workers[owner].identity == w.identity
    && s.workers[owner].authorized == w.authorized && s.workers[owner].batch == {row}
    && row in s.workers[owner].requests && s.workers[owner].requests[row] == request
    && InRequest(s.db.inflight, w.identity, w.lease, request, Key(row, w.identity))
  }

  lemma RowIsDispatched(s: System, owner: Owner, w: Worker, row: RowId, request: RequestId)
    requires ReadyToSend(s, owner, w, row) && request !in s.used
    ensures var dispatch := DispatchStep(owner, [row], request);
      Enabled(s, dispatch) && IsSent(Apply(s, dispatch), owner, w, row, request)
  {
    var dispatch := DispatchStep(owner, [row], request);
    assert Rows([row]) == {row};
    var now := s.workers[owner];
    assert BatchAuthorized(now) == {row} * w.authorized;
    assert forall i :: 0 <= i < |[row]| ==> Reserved(s.db, now, [row][i], BatchAuthorized(now));
    DispatchSucceedsIff(s, dispatch);
    DispatchTakesEffect(s, dispatch);
    StepKeepsInv(s, dispatch);
  }

  /**
   A holder that discovered a row gets it published by reserving, dispatching and publishing it; if
   the provider rejects it instead, an ordinary row is pending again and an authorised one retryable;
   if the outcome is in doubt it is retryable.
   */
  lemma RowLifecycle(s: System, owner: Owner, row: RowId, request: RequestId)
    requires Inv(s) && owner in s.workers && Holds(s.db, s.workers[owner].lease)
    requires row in s.workers[owner].documents && request !in s.used
    ensures var w := s.workers[owner];
      var reserve, dispatch := ReserveStep(owner, [row]), DispatchStep(owner, [row], request);
      var publish, reject, doubt :=
        PublishStep(owner, row, true), ResolveRequestStep(owner, request, true), ResolveRequestStep(owner, request, false);
      && IsRun(s, [reserve, dispatch, publish])
      && Key(row, w.identity) in Final(s, [reserve, dispatch, publish]).db.published
      && IsRun(s, [reserve, dispatch, reject])
      && (if row in w.authorized then IsRetryable(Final(s, [reserve, dispatch, reject]).db, w.identity, row)
          else IsPending(Final(s, [reserve, dispatch, reject]).db, w.identity, row))
      && IsRun(s, [reserve, dispatch, doubt])
      && IsRetryable(Final(s, [reserve, dispatch, doubt]).db, w.identity, row)
  {
    var w := s.workers[owner];
    var k := Key(row, w.identity);
    var reserve, dispatch := ReserveStep(owner, [row]), DispatchStep(owner, [row], request);
    RowIsReserved(s, owner, row);
    RowIsDispatched(Apply(s, reserve), owner, w, row, request);
    var t := Apply(Apply(s, reserve), dispatch);
    assert k in t.db.inflight && k !in t.db.published;
    var publish := PublishStep(owner, row, true);
    PublishRecords(t, publish);
    RunOfThree(s, reserve, dispatch, publish);
    assert t.workers[owner].requests[row] == request;
    var reject, doubt := ResolveRequestStep(owner, request, true), ResolveRequestStep(owner, request, false);
    RejectionReleases(t, reject, k);
    RunOfThree(s, reserve, dispatch, reject);
    DoubtMakesUncertain(t, doubt, k);
    RunOfThree(s, reserve, dispatch, doubt);
  }
}
