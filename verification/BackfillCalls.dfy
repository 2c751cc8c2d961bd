/**
 The calls the driver makes on its batch in progress, on values, and the steps of the protocol they
 are. Steps of other workers may fall between any two calls.
 */
module BackfillCalls {
  import opened Wrappers
  import opened BackfillModel
  import opened BackfillProtocol

  /** A batch as the driver sees it: its rows in order, and the request each sent index went under. */
  datatype Batch = Batch(identity: Identity, lease: Lease, rows: seq<RowId>, authorized: set<RowId>,
                         requestOf: map<int, RequestId>)

  datatype Call =
    | DispatchCall(indexes: seq<int>, request: RequestId)
    | ReturnCall(index: nat)
    | OtherCall(step: Step)

  predicate ValidIndexes(indexes: seq<int>, batchSize: nat, dispatched: set<int>) {
    && indexes != []
    && (forall i, j :: 0 <= i < j < |indexes| ==> indexes[i] != indexes[j])
    && (forall i :: 0 <= i < |indexes| ==> 0 <= indexes[i] < batchSize && indexes[i] !in dispatched)
  }

  function Set(indexes: seq<int>): set<int> {
    set i | i in indexes
  }

  function RowsAt(rows: seq<RowId>, indexes: seq<int>): seq<RowId>
    requires forall i :: 0 <= i < |indexes| ==> 0 <= indexes[i] < |rows|
  {
    seq(|indexes|, i requires 0 <= i < |indexes| => rows[indexes[i]])
  }

  // ---------------------------------------------------------------- one call

  /** The database after the dispatch callback, or None when the callback refuses. */
  function Dispatch(db: Db, b: Batch, indexes: seq<int>, request: RequestId): Option<Db> {
    if !ValidIndexes(indexes, |b.rows|, b.requestOf.Keys) then None
    else MarkDispatched(db, b.identity, b.lease, RowsAt(b.rows, indexes), request, b.authorized)
  }

  function AfterDispatch(b: Batch, indexes: seq<int>, request: RequestId): Batch {
    b.(requestOf := b.requestOf + (map i | i in Set(indexes) :: request))
  }

  /** The return of one claim; an index that was sent is passed over. */
  function Return(db: Db, b: Batch, index: nat): Db
    requires index < |b.rows|
  {
    if index in b.requestOf then db
    else
      match ResolveRow(db, b.identity, b.lease, None, b.rows[index], b.authorized)
      case None => db
      case Some(after) => after
  }

  function ReturnFirst(db: Db, b: Batch, count: nat): Db
    requires count <= |b.rows|
  {
    if count == 0 then db else Return(ReturnFirst(db, b, count - 1), b, count - 1)
  }

  /** Without the lease nothing is returned. */
  lemma {:induction false} LostReturnsNothing(db: Db, b: Batch, count: nat)
    requires !Holds(db, b.lease) && count <= |b.rows|
    ensures ReturnFirst(db, b, count) == db
  {
    if count > 0 {
      LostReturnsNothing(db, b, count - 1);
    }
  }

  // ---------------------------------------------------------------- calls as steps

  ghost predicate Sound(b: Batch) {
    Distinct(b.rows) && forall i :: i in b.requestOf ==> 0 <= i < |b.rows|
  }

  /** The worker of the protocol remembers what the batch holds. */
  ghost predicate Reflects(s: System, b: Batch, owner: Owner) {
    && Sound(b) && owner in s.workers
    && var w := s.workers[owner];
       && w.identity == b.identity && w.lease == b.lease && w.batch == Rows(b.rows) && BatchAuthorized(w) == b.authorized
       && RequestsReflected(w.requests, b)
  }

  ghost predicate RequestsReflected(requests: map<RowId, RequestId>, b: Batch) {
    (forall row :: row in requests ==> row in b.rows) && (forall i :: IndexReflected(requests, b, i))
  }

  ghost predicate IndexReflected(requests: map<RowId, RequestId>, b: Batch, i: int) {
    0 <= i < |b.rows| ==>
      && (b.rows[i] in requests <==> i in b.requestOf)
      && (i in b.requestOf ==> requests[b.rows[i]] == b.requestOf[i])
  }

  function WithRequest(requests: map<RowId, RequestId>, ids: seq<RowId>, request: RequestId): map<RowId, RequestId> {
    requests + (map row | row in Rows(ids) :: request)
  }

  ghost predicate Possible(s: System, b: Batch, owner: Owner, call: Call) {
    match call
    case DispatchCall(_, request) => request !in s.used
    case ReturnCall(index) => index < |b.rows|
    case OtherCall(step) => step.owner != owner && Enabled(s, step)
  }

  /** The step a call is; a dispatch with bad indexes and the return of a sent row touch nothing. */
  function StepOf(b: Batch, owner: Owner, call: Call): Option<Step>
    requires call.ReturnCall? ==> call.index < |b.rows|
  {
    match call
    case DispatchCall(indexes, request) =>
      if ValidIndexes(indexes, |b.rows|, b.requestOf.Keys)
      then Some(DispatchStep(owner, RowsAt(b.rows, indexes), request)) else None
    case ReturnCall(index) => if index in b.requestOf then None else Some(ResolveRowStep(owner, b.rows[index]))
    case OtherCall(step) => Some(step)
  }

  function BatchAfter(db: Db, b: Batch, call: Call): Batch {
    if call.DispatchCall? && Dispatch(db, b, call.indexes, call.request).Some?
    then AfterDispatch(b, call.indexes, call.request) else b
  }

  /** What a call of the driver's own does to the database. */
  function DbAfter(db: Db, b: Batch, call: Call): Db
    requires !call.OtherCall? && (call.ReturnCall? ==> call.index < |b.rows|)
  {
    match call
    case DispatchCall(indexes, request) =>
      (match Dispatch(db, b, indexes, request)
       case None => db
       case Some(after) => after)
    case ReturnCall(index) => Return(db, b, index)
  }

  lemma RowsAtMembers(rows: seq<RowId>, indexes: seq<int>, i: int)
    requires Distinct(rows) && 0 <= i < |rows|
    requires forall n :: 0 <= n < |indexes| ==> 0 <= indexes[n] < |rows|
    ensures rows[i] in Rows(RowsAt(rows, indexes)) <==> i in Set(indexes)
  {
    if i in Set(indexes) {
      var n :| 0 <= n < |indexes| && indexes[n] == i;
      assert RowsAt(rows, indexes)[n] == rows[i];
    }
    if rows[i] in Rows(RowsAt(rows, indexes)) {
      var n :| 0 <= n < |indexes| && RowsAt(rows, indexes)[n] == rows[i];
      assert indexes[n] == i;
    }
  }

  lemma DispatchIsEnabled(s: System, b: Batch, owner: Owner, indexes: seq<int>, request: RequestId)
    requires Reflects(s, b, owner) && request !in s.used && ValidIndexes(indexes, |b.rows|, b.requestOf.Keys)
    ensures Enabled(s, DispatchStep(owner, RowsAt(b.rows, indexes), request))
  {
    var w := s.workers[owner];
    forall row | row in Rows(RowsAt(b.rows, indexes)) ensures row in w.batch && row !in w.requests {
      var n :| 0 <= n < |indexes| && RowsAt(b.rows, indexes)[n] == row;
      assert IndexReflected(w.requests, b, indexes[n]) && b.rows[indexes[n]] == row;
    }
  }

  /** The driver's two request tables mirror each other. */
  ghost predicate Mirrored(requestOf: map<int, RequestId>, indexesOf: map<RequestId, set<int>>, latest: Option<RequestId>) {
    && (forall i :: i in requestOf ==> requestOf[i] in indexesOf && i in indexesOf[requestOf[i]])
    && (forall r, i :: r in indexesOf && i in indexesOf[r] ==> i in requestOf && requestOf[i] == r)
    && (latest.Some? ==> latest.value in indexesOf)
  }

  lemma DispatchKeepsMirror(b: Batch, indexesOf: map<RequestId, set<int>>, latest: Option<RequestId>, indexes: seq<int>,
                            request: RequestId)
    requires Sound(b) && Mirrored(b.requestOf, indexesOf, latest) && request !in indexesOf
    requires ValidIndexes(indexes, |b.rows|, b.requestOf.Keys)
    ensures var after := AfterDispatch(b, indexes, request);
      Sound(after) && Mirrored(after.requestOf, indexesOf[request := Set(indexes)], Some(request))
  {
  }

  /** The rows already handed to the provider. */
  ghost function SentRows(b: Batch): set<RowId>
    requires Sound(b)
  {
    set i | i in b.requestOf :: b.rows[i]
  }

  /** A dispatch hands out exactly the named rows, each for the first time. */
  lemma DispatchSends(b: Batch, indexes: seq<int>, request: RequestId)
    requires Sound(b) && ValidIndexes(indexes, |b.rows|, b.requestOf.Keys)
    ensures SentRows(AfterDispatch(b, indexes, request)) == SentRows(b) + Rows(RowsAt(b.rows, indexes))
    ensures SentRows(b) !! Rows(RowsAt(b.rows, indexes))
  {
    var after := AfterDispatch(b, indexes, request);
    forall row ensures row in SentRows(after) <==> row in SentRows(b) || row in Rows(RowsAt(b.rows, indexes)) {
      if row in SentRows(after) {
        var i :| i in after.requestOf && b.rows[i] == row;
        RowsAtMembers(b.rows, indexes, i);
      }
      if row in SentRows(b) {
        var i :| i in b.requestOf && b.rows[i] == row;
        assert i in after.requestOf;
      }
      if row in Rows(RowsAt(b.rows, indexes)) {
        var n :| 0 <= n < |indexes| && RowsAt(b.rows, indexes)[n] == row;
        assert indexes[n] in after.requestOf && b.rows[indexes[n]] == row;
      }
    }
    forall i | i in b.requestOf ensures b.rows[i] !in Rows(RowsAt(b.rows, indexes)) {
      RowsAtMembers(b.rows, indexes, i);
    }
  }

  lemma RowsAtWithin(rows: seq<RowId>, indexes: seq<int>)
    requires forall n :: 0 <= n < |indexes| ==> 0 <= indexes[n] < |rows|
    ensures forall row :: row in Rows(RowsAt(rows, indexes)) ==> row in rows
  {
    forall row | row in Rows(RowsAt(rows, indexes)) ensures row in rows {
      var n :| 0 <= n < |indexes| && RowsAt(rows, indexes)[n] == row;
      assert rows[indexes[n]] == row;
    }
  }

  lemma DispatchedRequest(requests: map<RowId, RequestId>, b: Batch, indexes: seq<int>, request: RequestId, i: int)
    requires Sound(b) && IndexReflected(requests, b, i) && ValidIndexes(indexes, |b.rows|, b.requestOf.Keys)
    ensures IndexReflected(WithRequest(requests, RowsAt(b.rows, indexes), request), AfterDispatch(b, indexes, request), i)
  {
    if 0 <= i < |b.rows| {
      RowsAtMembers(b.rows, indexes, i);
    }
  }

  lemma DispatchedRequests(requests: map<RowId, RequestId>, b: Batch, indexes: seq<int>, request: RequestId)
    requires Sound(b) && RequestsReflected(requests, b) && ValidIndexes(indexes, |b.rows|, b.requestOf.Keys)
    ensures RequestsReflected(WithRequest(requests, RowsAt(b.rows, indexes), request), AfterDispatch(b, indexes, request))
  {
    RowsAtWithin(b.rows, indexes);
    forall i ensures IndexReflected(WithRequest(requests, RowsAt(b.rows, indexes), request), AfterDispatch(b, indexes, request), i) {
      DispatchedRequest(requests, b, indexes, request, i);
    }
  }

  lemma DispatchEffect(s: System, b: Batch, owner: Owner, indexes: seq<int>, request: RequestId)
    requires Reflects(s, b, owner) && ValidIndexes(indexes, |b.rows|, b.requestOf.Keys)
    ensures var ids := RowsAt(b.rows, indexes);
      var after := Apply(s, DispatchStep(owner, ids, request));
      match Dispatch(s.db, b, indexes, request)
      case None => after.db == s.db && after.workers == s.workers
      case Some(db) =>
        var w := s.workers[owner];
        after.db == db
        && after.workers == s.workers[owner := w.(requests := WithRequest(w.requests, ids, request))]
  {
  }

  lemma DispatchReflected(s: System, b: Batch, owner: Owner, indexes: seq<int>, request: RequestId)
    requires Reflects(s, b, owner) && ValidIndexes(indexes, |b.rows|, b.requestOf.Keys)
    requires Enabled(s, DispatchStep(owner, RowsAt(b.rows, indexes), request))
    ensures var after := Apply(s, DispatchStep(owner, RowsAt(b.rows, indexes), request));
      && after.db == DbAfter(s.db, b, DispatchCall(indexes, request))
      && Reflects(after, BatchAfter(s.db, b, DispatchCall(indexes, request)), owner)
  {
    DispatchEffect(s, b, owner, indexes, request);
    if Dispatch(s.db, b, indexes, request).Some? {
      DispatchedRequests(s.workers[owner].requests, b, indexes, request);
    }
  }

  lemma ReturnIsStep(s: System, b: Batch, owner: Owner, index: nat)
    requires Reflects(s, b, owner) && index < |b.rows| && index !in b.requestOf
    ensures Enabled(s, ResolveRowStep(owner, b.rows[index]))
    ensures var after := Apply(s, ResolveRowStep(owner, b.rows[index]));
      after.db == Return(s.db, b, index) && Reflects(after, b, owner)
  {
    assert IndexReflected(s.workers[owner].requests, b, index);
  }

  /** Each call is an enabled step with the call's effect, after which the worker again reflects the batch. */
  lemma CallIsStep(s: System, b: Batch, owner: Owner, call: Call)
    requires Reflects(s, b, owner) && Possible(s, b, owner, call)
    ensures match StepOf(b, owner, call)
      case None => BatchAfter(s.db, b, call) == b && DbAfter(s.db, b, call) == s.db
      case Some(step) =>
        && Enabled(s, step) && Reflects(Apply(s, step), BatchAfter(s.db, b, call), owner)
        && (!call.OtherCall? ==> Apply(s, step).db == DbAfter(s.db, b, call))
  {
    match call
    case DispatchCall(indexes, request) =>
      if ValidIndexes(indexes, |b.rows|, b.requestOf.Keys) {
        DispatchIsEnabled(s, b, owner, indexes, request);
        DispatchReflected(s, b, owner, indexes, request);
      }
    case ReturnCall(index) =>
      if index !in b.requestOf {
        ReturnIsStep(s, b, owner, index);
      }
    case OtherCall(step) => StepTouchesOneWorker(s, step, owner);
  }

  /** A reservation that succeeds starts a batch with nothing sent. */
  lemma ReserveStartsBatch(s: System, owner: Owner, ids: seq<RowId>)
    requires OwnersKnown(s) && Enabled(s, ReserveStep(owner, ids))
    requires var w := s.workers[owner]; MarkInflight(s.db, w.identity, w.lease, ids, Rows(ids) * w.authorized).Ok?
    ensures var w := s.workers[owner];
      Reflects(Apply(s, ReserveStep(owner, ids)),
               Batch(w.identity, w.lease, ids, Rows(ids) * w.authorized, map[]), owner)
  {
  }

  // ---------------------------------------------------------------- runs of calls

  ghost function SystemAfter(s: System, b: Batch, owner: Owner, call: Call): System
    requires Reflects(s, b, owner) && Possible(s, b, owner, call)
  {
    CallIsStep(s, b, owner, call);
    match StepOf(b, owner, call)
    case None => s
    case Some(step) => Apply(s, step)
  }

  ghost predicate CallsPossible(s: System, b: Batch, owner: Owner, calls: seq<Call>)
    requires Reflects(s, b, owner)
    decreases |calls|
  {
    calls == []
    || (&& Possible(s, b, owner, calls[0])
        && (CallIsStep(s, b, owner, calls[0]);
            CallsPossible(SystemAfter(s, b, owner, calls[0]), BatchAfter(s.db, b, calls[0]), owner, calls[1..])))
  }

  ghost function StepsOf(s: System, b: Batch, owner: Owner, calls: seq<Call>): seq<Step>
    requires Reflects(s, b, owner) && CallsPossible(s, b, owner, calls)
    decreases |calls|
  {
    if calls == [] then []
    else
      CallIsStep(s, b, owner, calls[0]);
      var later := StepsOf(SystemAfter(s, b, owner, calls[0]), BatchAfter(s.db, b, calls[0]), owner, calls[1..]);
      match StepOf(b, owner, calls[0])
      case None => later
      case Some(step) => [step] + later
  }

  /** Where the calls lead: the system and the driver's batch. */
  ghost function AfterCalls(s: System, b: Batch, owner: Owner, calls: seq<Call>): (System, Batch)
    requires Reflects(s, b, owner) && CallsPossible(s, b, owner, calls)
    decreases |calls|
  {
    if calls == [] then (s, b)
    else
      CallIsStep(s, b, owner, calls[0]);
      AfterCalls(SystemAfter(s, b, owner, calls[0]), BatchAfter(s.db, b, calls[0]), owner, calls[1..])
  }

  /**
   Any sequence of calls, with any steps of other workers between them, is a run of the protocol:
   every step is enabled, the run ends where the calls lead, and the worker reflects the batch there.
   */
  lemma {:induction false} CallsAreRun(s: System, b: Batch, owner: Owner, calls: seq<Call>)
    requires Reflects(s, b, owner) && CallsPossible(s, b, owner, calls)
    ensures IsRun(s, StepsOf(s, b, owner, calls))
    ensures Final(s, StepsOf(s, b, owner, calls)) == AfterCalls(s, b, owner, calls).0
    ensures Reflects(AfterCalls(s, b, owner, calls).0, AfterCalls(s, b, owner, calls).1, owner)
    decreases |calls|
  {
    if calls != [] {
      CallIsStep(s, b, owner, calls[0]);
      var next, after := SystemAfter(s, b, owner, calls[0]), BatchAfter(s.db, b, calls[0]);
      CallsAreRun(next, after, owner, calls[1..]);
      match StepOf(b, owner, calls[0])
      case None =>
      case Some(step) =>
        assert ([step] + StepsOf(next, after, owner, calls[1..]))[1..] == StepsOf(next, after, owner, calls[1..]);
    }
  }
}
