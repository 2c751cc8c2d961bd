/**
 Any number of backfill workers over one database. A step is one committed transaction of one
 worker; steps of different workers interleave freely, and a worker that crashes or stalls
 simply takes no further step. Clock readings are arbitrary.
 */
module BackfillProtocol {
  import opened Wrappers
  import opened BackfillModel

  /**
   What one run of the driver remembers: its lease and identity, the rows it discovered and has
   not reserved yet, the rows the operator authorised, and the batch in progress with the
   request each row was dispatched under.
   */
  datatype Worker = Worker(
    lease: Lease, identity: Identity, discovered: bool, documents: set<RowId>,
    authorized: set<RowId>, batch: set<RowId>, requests: map<RowId, RequestId>)

  /**
   The tallies record, per row and identity, how often it was dispatched to the provider, how
   often a dispatched row came back rejected or skipped, and how often an operator authorised
   a retry.
   */
  datatype System = System(
    db: Db, owners: set<Owner>, used: set<RequestId>, workers: map<Owner, Worker>,
    sent: multiset<Key>, released: multiset<Key>, authorised: multiset<Key>)

  datatype Step =
    | AcquireStep(owner: Owner, identity: Identity, now: real, ttl: real)
    | RenewStep(owner: Owner, now: real)
    | ReleaseStep(owner: Owner)
    | RecoverStep(owner: Owner, claimed: set<Key>, dispatched: set<Key>)
    | DiscoverStep(owner: Owner, retryUncertain: bool, rows: set<RowId>)
    | ReserveStep(owner: Owner, ids: seq<RowId>)
    | DispatchStep(owner: Owner, ids: seq<RowId>, request: RequestId)
    | PublishStep(owner: Owner, row: RowId, active: bool)
    | ResolveRowStep(owner: Owner, row: RowId)
    | ResolveRequestStep(owner: Owner, request: RequestId, retryable: bool)

  function Rows(ids: seq<RowId>): set<RowId> {
    set r | r in ids
  }

  ghost predicate Distinct(ids: seq<RowId>) {
    forall i, j :: 0 <= i < j < |ids| ==> ids[i] != ids[j]
  }

  function Keys(rows: set<RowId>, identity: Identity): set<Key> {
    set r | r in rows :: Key(r, identity)
  }

  function BatchAuthorized(w: Worker): set<RowId> {
    w.batch * w.authorized
  }

  function RequestRows(db: Db, w: Worker, request: RequestId): set<Key> {
    set k | k in db.inflight && InRequest(db.inflight, w.identity, w.lease, request, k)
  }

  /** What the driver's own control flow and the uniqueness of uuids guarantee about a step. */
  ghost predicate Enabled(s: System, step: Step) {
    if step.AcquireStep? then step.owner !in s.owners
    else
      && step.owner in s.workers
      && var w := s.workers[step.owner];
         match step
         case RecoverStep(_, claimed, dispatched) =>
           && StagedFrom(claimed, Predecessors(s.db, w.identity, w.lease, Claimed))
           && StagedFrom(dispatched, Predecessors(s.db, w.identity, w.lease, Dispatched))
         case DiscoverStep(_, retry, rows) =>
           && !w.discovered
           && forall r :: r in rows ==>
                if retry then IsRetryable(s.db, w.identity, r) else IsPending(s.db, w.identity, r)
         case ReserveStep(_, ids) => Distinct(ids) && Rows(ids) <= w.documents
         case DispatchStep(_, ids, request) =>
           && request !in s.used
           && Distinct(ids)
           && Rows(ids) <= w.batch
           && Rows(ids) !! w.requests.Keys
         case PublishStep(_, row, _) => row in w.requests
         case ResolveRowStep(_, row) => row in w.batch
         case ResolveRequestStep(_, request, _) => request in w.requests.Values
         case _ => true
  }

  function ApplyAcquire(s: System, owner: Owner, identity: Identity, now: real, ttl: real): System {
    match Acquire(s.db, owner, now, ttl)
    case Granted(db, lease) =>
      s.(db := db, owners := s.owners + {owner},
         workers := s.workers[owner := Worker(lease, identity, false, {}, {}, {}, map[])])
    case _ => s.(owners := s.owners + {owner})
  }

  function ApplyReserve(s: System, owner: Owner, ids: seq<RowId>): System
    requires owner in s.workers
  {
    var w := s.workers[owner];
    var auth := Rows(ids) * w.authorized;
    match MarkInflight(s.db, w.identity, w.lease, ids, auth)
    case Err(_) => s
    case Ok(db) =>
      s.(db := db,
         workers := s.workers[owner :=
           w.(documents := w.documents - Rows(ids), batch := Rows(ids), requests := map[])],
         authorised := s.authorised + multiset(Keys(auth, w.identity)))
  }

  function ApplyDispatch(s: System, owner: Owner, ids: seq<RowId>, request: RequestId): System
    requires owner in s.workers
  {
    var w := s.workers[owner];
    match MarkDispatched(s.db, w.identity, w.lease, ids, request, BatchAuthorized(w))
    case None => s.(used := s.used + {request})
    case Some(db) =>
      s.(db := db, used := s.used + {request},
         workers := s.workers[owner :=
           w.(requests := w.requests + (map r | r in Rows(ids) :: request))],
         sent := s.sent + multiset(Keys(Rows(ids), w.identity)))
  }

  function ApplyResolveRow(s: System, w: Worker, row: RowId): System {
    var request := if row in w.requests then Some(w.requests[row]) else None;
    var k := Key(row, w.identity);
    match ResolveRow(s.db, w.identity, w.lease, request, row, BatchAuthorized(w))
    case None => s
    case Some(db) =>
      var skipped := request.Some? && InRequest(s.db.inflight, w.identity, w.lease, request.value, k);
      s.(db := db, released := if skipped then s.released + multiset{k} else s.released)
  }

  function ApplyResolveRequest(s: System, w: Worker, request: RequestId, retryable: bool): System {
    match ResolveRequest(s.db, w.identity, w.lease, request, retryable, BatchAuthorized(w))
    case None => s
    case Some(db) =>
      s.(db := db,
         released := if retryable then s.released + multiset(RequestRows(s.db, w, request)) else s.released)
  }

  function Apply(s: System, step: Step): System
    requires !step.AcquireStep? ==> step.owner in s.workers
    requires step.PublishStep? ==> step.row in s.workers[step.owner].requests
  {
    if step.AcquireStep? then ApplyAcquire(s, step.owner, step.identity, step.now, step.ttl)
    else
      var w := s.workers[step.owner];
      match step
      case RenewStep(_, now) => s.(db := Renew(s.db, w.lease, now))
      case ReleaseStep(_) => s.(db := Release(s.db, w.lease))
      case RecoverStep(_, claimed, dispatched) =>
        (match Recover(s.db, w.lease, claimed, dispatched)
         case Err(_) => s
         case Ok(db) => s.(db := db))
      case DiscoverStep(_, retry, rows) =>
        s.(workers := s.workers[step.owner :=
          w.(discovered := true, documents := rows, authorized := if retry then rows else {})])
      case ReserveStep(_, ids) => ApplyReserve(s, step.owner, ids)
      case DispatchStep(_, ids, request) => ApplyDispatch(s, step.owner, ids, request)
      case PublishStep(_, row, active) =>
        s.(db := Publish(s.db, w.identity, w.lease, row, w.requests[row], active).0)
      case ResolveRowStep(_, row) => ApplyResolveRow(s, w, row)
      case ResolveRequestStep(_, request, retryable) => ApplyResolveRequest(s, w, request, retryable)
  }

  // ---------------------------------------------------------------- invariant

  ghost predicate OwnersKnown(s: System) {
    && (s.db.cell.Some? && s.db.cell.value.Object? && s.db.cell.value.owner.Some? ==> s.db.cell.value.owner.value in s.owners)
    && (forall k :: k in s.db.inflight ==> s.db.inflight[k].owner in s.owners)
    && (forall k :: k in s.db.inflight && s.db.inflight[k].request.Some? ==> s.db.inflight[k].request.value in s.used)
    && (forall o :: o in s.workers ==> o in s.owners && s.workers[o].lease.owner == o)
    && (forall o, r :: o in s.workers && r in s.workers[o].requests ==> s.workers[o].requests[r] in s.used)
  }

  /** The holder's undiscovered-by-others view: what it selected and has not reserved is still so. */
  ghost predicate HolderViewFresh(s: System) {
    forall o, r :: o in s.workers && Holds(s.db, s.workers[o].lease) && r in s.workers[o].documents ==>
      var w := s.workers[o];
      if r in w.authorized then IsRetryable(s.db, w.identity, r) else IsPending(s.db, w.identity, r)
  }

  ghost predicate BatchesApart(s: System) {
    forall o :: o in s.workers ==>
      var w := s.workers[o];
      && w.batch !! w.documents
      && w.requests.Keys <= w.batch
      && (!w.discovered ==> w.batch == w.documents == w.authorized == {})
  }

  ghost predicate RequestsTracked(s: System) {
    forall k, o | k in s.db.inflight && o in s.workers && s.db.inflight[k].state == Dispatched
        && s.db.inflight[k].owner == o && s.db.inflight[k].request.Some?
        && s.db.inflight[k].request.value in s.workers[o].requests.Values ::
      k.row in s.workers[o].batch
  }

  /** 1 when the provider may hold an answer to a dispatch nobody has released. */
  function Outstanding(db: Db, k: Key): nat {
    if k in db.published then 1
    else if k in db.inflight && db.inflight[k].state != Claimed && db.inflight[k].request.Some? then 1
    else 0
  }

  ghost predicate AccountedAt(s: System, k: Key) {
    s.sent[k] <= s.released[k] + s.authorised[k] + Outstanding(s.db, k)
  }

  /** An authorised row stays in the table, never merely claimed, until it is published. */
  ghost predicate AuthorisationKeptAt(s: System, k: Key) {
    s.authorised[k] > 0 ==>
      || k in s.db.published
      || (&& k in s.db.inflight
          && s.db.inflight[k].state != Claimed
          && (s.db.inflight[k].state == Dispatched && s.db.inflight[k].owner in s.workers ==>
                k.row in s.workers[s.db.inflight[k].owner].authorized))
  }

  ghost predicate Names(s: System) {
    && OwnersKnown(s)
    && s.db.inflight.Keys !! s.db.published
    && BatchesApart(s)
  }

  ghost predicate Structure(s: System) {
    && Names(s)
    && HolderViewFresh(s)
    && RequestsTracked(s)
  }

  ghost predicate Inv(s: System) {
    && Structure(s)
    && (forall k :: AccountedAt(s, k))
    && (forall k :: AuthorisationKeptAt(s, k))
  }

  /** Any database may be found at start-up, provided its owners and requests count as used. */
  ghost predicate Init(s: System) {
    && s.workers == map[]
    && s.sent == multiset{} && s.released == multiset{} && s.authorised == multiset{}
    && OwnersKnown(s)
    && s.db.inflight.Keys !! s.db.published
  }

  // ---------------------------------------------------------------- shape of the row loops

  lemma {:induction false} ReserveRowsAt(inflight: map<Key, Entry>, identity: Identity, lease: Lease,
                                         rows: seq<RowId>, authorized: set<RowId>, k: Key)
    requires ReserveRows(inflight, identity, lease, rows, authorized).Some?
    ensures var after := ReserveRows(inflight, identity, lease, rows, authorized).value;
      if k.identity == identity && k.row in rows then
        && k in after
        && after[k] == Entry(lease.owner, lease.generation, if k.row in authorized then Uncertain else Claimed, None)
        && (k.row in authorized ==> k in inflight && inflight[k].state == Uncertain)
        && (k.row !in authorized ==> k !in inflight)
      else (k in after <==> k in inflight) && (k in inflight ==> after[k] == inflight[k])
  {
    if rows != [] {
      var front, last := rows[..|rows| - 1], rows[|rows| - 1];
      assert rows == front + [last];
      ReserveRowsAt(inflight, identity, lease, front, authorized, k);
      if k == Key(last, identity) {
        ReserveRowsAt(inflight, identity, lease, front, authorized, Key(last, identity));
      }
    }
  }

  lemma {:induction false} DispatchRowsAt(inflight: map<Key, Entry>, identity: Identity, lease: Lease,
                                          rows: seq<RowId>, request: RequestId, authorized: set<RowId>, k: Key)
    requires DispatchRows(inflight, identity, lease, rows, request, authorized).Some?
    ensures var after := DispatchRows(inflight, identity, lease, rows, request, authorized).value;
      if k.identity == identity && k.row in rows then
        && k in after && k in inflight
        && after[k] == Entry(lease.owner, lease.generation, Dispatched, Some(request))
        && inflight[k] == Entry(lease.owner, lease.generation,
                                if k.row in authorized then Uncertain else Claimed, None)
      else (k in after <==> k in inflight) && (k in inflight ==> after[k] == inflight[k])
  {
    if rows != [] {
      var front, last := rows[..|rows| - 1], rows[|rows| - 1];
      assert rows == front + [last];
      DispatchRowsAt(inflight, identity, lease, front, request, authorized, k);
    }
  }

  // ---------------------------------------------------------------- every step keeps the structure

  lemma StructureKept(s: System, step: Step)
    requires Structure(s) && Enabled(s, step)
    ensures Structure(Apply(s, step))
  {
    match step
    case AcquireStep(_, _, _, _) => AcquireKeepsStructure(s, step);
    case RecoverStep(_, _, _) => RecoverKeepsStructure(s, step);
    case RenewStep(_, _) => LeaseKeepsStructure(s, step);
    case ReleaseStep(_) => LeaseKeepsStructure(s, step);
    case DiscoverStep(_, _, _) => LeaseKeepsStructure(s, step);
    case ReserveStep(_, _) => ReserveKeepsStructure(s, step);
    case DispatchStep(_, _, _) => DispatchKeepsNames(s, step); DispatchKeepsStructure(s, step);
    case PublishStep(_, _, _) => AnswerKeepsStructure(s, step);
    case ResolveRowStep(_, _) => AnswerKeepsStructure(s, step);
    case ResolveRequestStep(_, _, _) => AnswerKeepsStructure(s, step);
  }

  lemma AcquireKeepsStructure(s: System, step: Step)
    requires Structure(s) && step.AcquireStep? && Enabled(s, step)
    ensures Structure(Apply(s, step))
  {
  }

  lemma LeaseKeepsStructure(s: System, step: Step)
    requires Structure(s) && (step.RenewStep? || step.ReleaseStep? || step.DiscoverStep?) && Enabled(s, step)
    ensures Structure(Apply(s, step))
  {
  }

  lemma RecoverKeepsStructure(s: System, step: Step)
    requires Structure(s) && step.RecoverStep? && Enabled(s, step)
    ensures Structure(Apply(s, step))
  {
  }

  lemma ReserveKeepsStructure(s: System, step: Step)
    requires Structure(s) && step.ReserveStep? && Enabled(s, step)
    ensures Structure(Apply(s, step))
  {
    var w := s.workers[step.owner];
    var auth := Rows(step.ids) * w.authorized;
    if MarkInflight(s.db, w.identity, w.lease, step.ids, auth).Ok? {
      forall k { ReserveRowsAt(s.db.inflight, w.identity, w.lease, step.ids, auth, k); }
    }
  }

  lemma DispatchKeepsNames(s: System, step: Step)
    requires Structure(s) && step.DispatchStep? && Enabled(s, step)
    ensures Names(Apply(s, step))
  {
    var w := s.workers[step.owner];
    if MarkDispatched(s.db, w.identity, w.lease, step.ids, step.request, BatchAuthorized(w)).Some? {
      forall k { DispatchRowsAt(s.db.inflight, w.identity, w.lease, step.ids, step.request, BatchAuthorized(w), k); }
    }
  }

  lemma DispatchKeepsStructure(s: System, step: Step)
    requires Structure(s) && step.DispatchStep? && Enabled(s, step)
    ensures HolderViewFresh(Apply(s, step)) && RequestsTracked(Apply(s, step))
  {
    var w := s.workers[step.owner];
    if MarkDispatched(s.db, w.identity, w.lease, step.ids, step.request, BatchAuthorized(w)).Some? {
      forall k { DispatchRowsAt(s.db.inflight, w.identity, w.lease, step.ids, step.request, BatchAuthorized(w), k); }
    }
  }

  predicate IsAnswer(step: Step) {
    step.PublishStep? || step.ResolveRowStep? || step.ResolveRequestStep?
  }

  /** An answer only removes entries or turns dispatched ones uncertain, and publishes only removed ones. */
  ghost predicate AnswerShape(before: Db, after: Db) {
    && (after.cell == before.cell || after.cell == None)
    && (forall k :: k in after.inflight ==>
          && k in before.inflight
          && (after.inflight[k] == before.inflight[k]
              || (&& before.inflight[k].state == Dispatched
                  && after.inflight[k].state == Uncertain
                  && after.inflight[k].owner == before.inflight[k].owner
                  && (after.inflight[k].request == before.inflight[k].request
                      || after.inflight[k].request == None))))
    && (forall k :: k in before.inflight && k !in after.inflight ==> before.inflight[k].state != Uncertain)
    && (forall k :: k in after.published ==> k in before.published || (k in before.inflight && k !in after.inflight))
    && (forall k :: k in after.published && k !in before.published ==> before.inflight[k].state == Dispatched)
  }

  lemma AnswerHasShape(s: System, step: Step)
    requires Enabled(s, step) && IsAnswer(step)
    ensures AnswerShape(s.db, Apply(s, step).db)
  {
  }

  lemma AnswerKeepsWorkers(s: System, step: Step)
    requires Enabled(s, step) && IsAnswer(step)
    ensures Apply(s, step).workers == s.workers
    ensures Apply(s, step).owners == s.owners && Apply(s, step).used == s.used
  {
  }

  /** Only the holder's answers change anything, and only rows of its own requests. */
  lemma AnswerKeepsStructure(s: System, step: Step)
    requires Structure(s) && Enabled(s, step) && IsAnswer(step)
    ensures Structure(Apply(s, step))
  {
    AnswerHasShape(s, step);
    AnswerKeepsWorkers(s, step);
    AnswerKeepsView(s, step);
  }

  lemma AnswerKeepsView(s: System, step: Step)
    requires Structure(s) && Enabled(s, step) && IsAnswer(step)
    ensures HolderViewFresh(Apply(s, step))
  {
    AnswerHasShape(s, step);
    AnswerKeepsWorkers(s, step);
    var t := Apply(s, step);
    forall o, r | o in t.workers && Holds(t.db, t.workers[o].lease) && r in t.workers[o].documents
      ensures var w := t.workers[o];
        if r in w.authorized then IsRetryable(t.db, w.identity, r) else IsPending(t.db, w.identity, r)
    {
      var k := Key(r, t.workers[o].identity);
      assert Holds(s.db, s.workers[o].lease) && r in s.workers[o].documents;
    }
  }

  // ---------------------------------------------------------------- every step keeps the accounts

  lemma AccountKept(s: System, step: Step, k: Key)
    requires Structure(s) && Enabled(s, step) && AccountedAt(s, k) && AuthorisationKeptAt(s, k)
    ensures AccountedAt(Apply(s, step), k) && AuthorisationKeptAt(Apply(s, step), k)
  {
    match step
    case AcquireStep(_, _, _, _) =>
    case RenewStep(_, _) =>
    case ReleaseStep(_) =>
    case DiscoverStep(_, _, _) =>
    case RecoverStep(_, _, _) =>
    case ReserveStep(_, _) => ReserveKeepsAccount(s, step, k);
    case DispatchStep(_, _, _) => DispatchKeepsAccount(s, step, k);
    case PublishStep(_, _, _) =>
    case ResolveRowStep(_, _) => ResolveRowKeepsAccount(s, step, k);
    case ResolveRequestStep(_, _, _) => ResolveRequestKeepsAccount(s, step, k);
  }

  lemma ReserveKeepsAccount(s: System, step: Step, k: Key)
    requires Structure(s) && step.ReserveStep? && Enabled(s, step) && AccountedAt(s, k) && AuthorisationKeptAt(s, k)
    ensures AccountedAt(Apply(s, step), k) && AuthorisationKeptAt(Apply(s, step), k)
  {
    var w := s.workers[step.owner];
    var auth := Rows(step.ids) * w.authorized;
    if MarkInflight(s.db, w.identity, w.lease, step.ids, auth).Ok? {
      ReserveRowsAt(s.db.inflight, w.identity, w.lease, step.ids, auth, k);
      assert k in Keys(auth, w.identity) <==> k.identity == w.identity && k.row in auth;
    }
  }

  lemma DispatchKeepsAccount(s: System, step: Step, k: Key)
    requires Structure(s) && step.DispatchStep? && Enabled(s, step) && AccountedAt(s, k) && AuthorisationKeptAt(s, k)
    ensures AccountedAt(Apply(s, step), k) && AuthorisationKeptAt(Apply(s, step), k)
  {
    var w := s.workers[step.owner];
    if MarkDispatched(s.db, w.identity, w.lease, step.ids, step.request, BatchAuthorized(w)).Some? {
      DispatchRowsAt(s.db.inflight, w.identity, w.lease, step.ids, step.request, BatchAuthorized(w), k);
      assert k in Keys(Rows(step.ids), w.identity) <==> k.identity == w.identity && k.row in Rows(step.ids);
    }
  }

  lemma ResolveRowKeepsAccount(s: System, step: Step, k: Key)
    requires Structure(s) && step.ResolveRowStep? && Enabled(s, step) && AccountedAt(s, k) && AuthorisationKeptAt(s, k)
    ensures AccountedAt(Apply(s, step), k) && AuthorisationKeptAt(Apply(s, step), k)
  {
  }

  lemma ResolveRequestKeepsAccount(s: System, step: Step, k: Key)
    requires Structure(s) && step.ResolveRequestStep? && Enabled(s, step)
    requires AccountedAt(s, k) && AuthorisationKeptAt(s, k)
    ensures AccountedAt(Apply(s, step), k) && AuthorisationKeptAt(Apply(s, step), k)
  {
    var w := s.workers[step.owner];
    if Holds(s.db, w.lease) && InRequest(s.db.inflight, w.identity, w.lease, step.request, k) {
      assert k.row in w.batch;
    }
  }

  lemma StepKeepsInv(s: System, step: Step)
    requires Inv(s) && Enabled(s, step)
    ensures Inv(Apply(s, step))
  {
    StructureKept(s, step);
    forall k ensures AccountedAt(Apply(s, step), k) && AuthorisationKeptAt(Apply(s, step), k) {
      AccountKept(s, step, k);
    }
  }

  // ---------------------------------------------------------------- runs

  /** A run of the system: each step is enabled where it is taken. */
  ghost predicate IsRun(s: System, steps: seq<Step>)
    decreases |steps|
  {
    steps == [] || (Enabled(s, steps[0]) && IsRun(Apply(s, steps[0]), steps[1..]))
  }

  ghost function Final(s: System, steps: seq<Step>): System
    requires IsRun(s, steps)
    decreases |steps|
  {
    if steps == [] then s else Final(Apply(s, steps[0]), steps[1..])
  }

  lemma {:induction false} RunKeepsInv(s: System, steps: seq<Step>)
    requires Inv(s) && IsRun(s, steps)
    ensures Inv(Final(s, steps))
    decreases |steps|
  {
    if steps != [] {
      StepKeepsInv(s, steps[0]);
      RunKeepsInv(Apply(s, steps[0]), steps[1..]);
    }
  }

  /**
   In every run a row is handed to the provider at most once, plus once for every time it came
   back rejected or skipped, plus once for every retry an operator authorised.
   */
  lemma SendsBounded(s: System, steps: seq<Step>, k: Key)
    requires Init(s) && IsRun(s, steps)
    ensures var t := Final(s, steps); t.sent[k] <= 1 + t.released[k] + t.authorised[k]
  {
    RunKeepsInv(s, steps);
    assert AccountedAt(Final(s, steps), k);
  }

  /** In every run a row whose retry was authorised leaves the in-flight table only by publication. */
  lemma AuthorisationNeverLost(s: System, steps: seq<Step>, k: Key)
    requires Init(s) && IsRun(s, steps)
    ensures var t := Final(s, steps);
      t.authorised[k] > 0 ==> k in t.db.published || (k in t.db.inflight && t.db.inflight[k].state != Claimed)
  {
    RunKeepsInv(s, steps);
    assert AuthorisationKeptAt(Final(s, steps), k);
  }

  /** The lease holder never finds its own selection changed when it reserves it. */
  lemma HolderReservationSucceeds(s: System, steps: seq<Step>, step: Step)
    requires Init(s) && IsRun(s, steps)
    requires step.ReserveStep? && Enabled(Final(s, steps), step)
    ensures var t := Final(s, steps);
      var w := t.workers[step.owner];
      Holds(t.db, w.lease) <==> MarkInflight(t.db, w.identity, w.lease, step.ids, Rows(step.ids) * w.authorized).Ok?
  {
    RunKeepsInv(s, steps);
    var t := Final(s, steps);
    var w := t.workers[step.owner];
    if Holds(t.db, w.lease) {
      ReserveRowsSucceed(t, w, step.ids, step.ids);
    }
  }

  lemma {:induction false} ReserveRowsSucceed(s: System, w: Worker, all: seq<RowId>, ids: seq<RowId>)
    requires Inv(s) && w.lease.owner in s.workers && s.workers[w.lease.owner] == w && Holds(s.db, w.lease)
    requires Distinct(all) && Rows(all) <= w.documents && ids <= all
    ensures ReserveRows(s.db.inflight, w.identity, w.lease, ids, Rows(all) * w.authorized).Some?
  {
    if ids != [] {
      var front, last := ids[..|ids| - 1], ids[|ids| - 1];
      ReserveRowsSucceed(s, w, all, front);
      ReserveRowsAt(s.db.inflight, w.identity, w.lease, front, Rows(all) * w.authorized, Key(last, w.identity));
      assert last == all[|ids| - 1];
      assert last !in front;
      assert last in Rows(all);
    }
  }

  // ---------------------------------------------------------------- a dispatched row stays put

  ghost predicate Unanswered(db: Db, k: Key) {
    k in db.inflight && db.inflight[k].state != Claimed
  }

  lemma StepKeepsUnanswered(s: System, step: Step, k: Key)
    requires Structure(s) && Enabled(s, step) && Unanswered(s.db, k)
    ensures var t := Apply(s, step);
      && t.released[k] >= s.released[k]
      && (t.released[k] == s.released[k] && k !in t.db.published ==> Unanswered(t.db, k))
  {
    if step.ReserveStep? {
      var w := s.workers[step.owner];
      var auth := Rows(step.ids) * w.authorized;
      if MarkInflight(s.db, w.identity, w.lease, step.ids, auth).Ok? {
        ReserveRowsAt(s.db.inflight, w.identity, w.lease, step.ids, auth, k);
      }
    } else if step.DispatchStep? {
      var w := s.workers[step.owner];
      if MarkDispatched(s.db, w.identity, w.lease, step.ids, step.request, BatchAuthorized(w)).Some? {
        DispatchRowsAt(s.db.inflight, w.identity, w.lease, step.ids, step.request, BatchAuthorized(w), k);
      }
    }
  }

  lemma StepKeepsHistory(s: System, step: Step, k: Key)
    requires Enabled(s, step)
    ensures Apply(s, step).released[k] >= s.released[k]
    ensures k in s.db.published ==> k in Apply(s, step).db.published
  {
  }

  lemma {:induction false} RunKeepsHistory(s: System, steps: seq<Step>, k: Key)
    requires IsRun(s, steps)
    ensures Final(s, steps).released[k] >= s.released[k]
    ensures k in s.db.published ==> k in Final(s, steps).db.published
    decreases |steps|
  {
    if steps != [] {
      StepKeepsHistory(s, steps[0], k);
      RunKeepsHistory(Apply(s, steps[0]), steps[1..], k);
    }
  }

  /**
   Whatever the workers do afterwards, a row that was dispatched stays dispatched or uncertain
   until it is published or the provider's answer releases it, and until then ordinary discovery
   does not select it.
   */
  lemma {:induction false} UnansweredNeverRediscovered(s: System, steps: seq<Step>, k: Key)
    requires Inv(s) && IsRun(s, steps) && Unanswered(s.db, k)
    requires Final(s, steps).released[k] == s.released[k]
    requires k !in Final(s, steps).db.published
    ensures Unanswered(Final(s, steps).db, k)
    ensures !IsPending(Final(s, steps).db, k.identity, k.row)
    decreases |steps|
  {
    if steps != [] {
      var next := Apply(s, steps[0]);
      StepKeepsInv(s, steps[0]);
      StepKeepsUnanswered(s, steps[0], k);
      RunKeepsHistory(next, steps[1..], k);
      UnansweredNeverRediscovered(next, steps[1..], k);
    }
  }

  // ---------------------------------------------------------------- fencing

  ghost predicate OwnerHolds(db: Db, owner: Owner) {
    db.cell.Some? && db.cell.value.Object? && db.cell.value.owner == Some(owner)
  }

  /** The two systems differ at most in what the fenced-out worker remembers. */
  ghost predicate SameExcept(s: System, t: System, owner: Owner) {
    && s.db == t.db
    && s.owners == t.owners
    && t.used <= s.used
    && (forall o :: o in s.workers && o != owner ==> o in t.workers && s.workers[o] == t.workers[o])
    && (forall o :: o in t.workers && o != owner ==> o in s.workers)
    && owner in s.owners
    && !OwnerHolds(s.db, owner)
  }

  function Without(steps: seq<Step>, owner: Owner): seq<Step> {
    if steps == [] then []
    else (if steps[0].owner == owner then [] else [steps[0]]) + Without(steps[1..], owner)
  }

  lemma FencedStepChangesNothing(s: System, step: Step)
    requires OwnersKnown(s) && Enabled(s, step) && !step.AcquireStep? && !OwnerHolds(s.db, step.owner)
    ensures Apply(s, step).db == s.db
    ensures Apply(s, step).owners == s.owners
  {
  }

  lemma OtherStepEnabled(s: System, t: System, step: Step, owner: Owner)
    requires SameExcept(s, t, owner) && Enabled(s, step) && step.owner != owner
    ensures Enabled(t, step)
  {
  }

  lemma OtherStepSameEffect(s: System, t: System, step: Step, owner: Owner)
    requires SameExcept(s, t, owner) && Enabled(s, step) && Enabled(t, step) && step.owner != owner
    ensures var s', t' := Apply(s, step), Apply(t, step);
      && s'.db == t'.db && s'.owners == t'.owners && t'.used <= s'.used
      && (step.owner in s'.workers <==> step.owner in t'.workers)
      && (step.owner in s'.workers ==> s'.workers[step.owner] == t'.workers[step.owner])
  {
  }

  lemma StepTouchesOneWorker(s: System, step: Step, o: Owner)
    requires Enabled(s, step) && o != step.owner
    ensures o in Apply(s, step).workers <==> o in s.workers
    ensures o in s.workers ==> Apply(s, step).workers[o] == s.workers[o]
  {
  }

  lemma OthersNeverTakeTheLeaseBack(s: System, step: Step, owner: Owner)
    requires OwnersKnown(s) && Enabled(s, step) && owner in s.owners && !OwnerHolds(s.db, owner)
    ensures owner in Apply(s, step).owners && !OwnerHolds(Apply(s, step).db, owner)
  {
  }

  lemma OtherStepKeepsSame(s: System, t: System, step: Step, owner: Owner)
    requires OwnersKnown(s) && SameExcept(s, t, owner)
    requires Enabled(s, step) && Enabled(t, step) && step.owner != owner
    ensures SameExcept(Apply(s, step), Apply(t, step), owner)
  {
    var s', t' := Apply(s, step), Apply(t, step);
    OtherStepSameEffect(s, t, step, owner);
    OthersNeverTakeTheLeaseBack(s, step, owner);
    forall o: Owner | o != owner
      ensures o in s'.workers <==> o in t'.workers
      ensures o in s'.workers ==> s'.workers[o] == t'.workers[o]
    {
      if o != step.owner {
        StepTouchesOneWorker(s, step, o);
        StepTouchesOneWorker(t, step, o);
      }
    }
  }

  /**
   Once a worker has lost the lease it is fenced out for good: removing every later step of that
   worker from any run leaves a run with the same final database. Time plays no part.
   */
  lemma {:induction false} FencedWorkerIsErasable(s: System, t: System, steps: seq<Step>, owner: Owner)
    requires Inv(s) && IsRun(s, steps) && SameExcept(s, t, owner)
    ensures IsRun(t, Without(steps, owner))
    ensures Final(s, steps).db == Final(t, Without(steps, owner)).db
    ensures !OwnerHolds(Final(s, steps).db, owner)
    decreases |steps|
  {
    if steps != [] {
      var step, next := steps[0], Apply(s, steps[0]);
      StepKeepsInv(s, step);
      if step.owner == owner {
        FencedStepChangesNothing(s, step);
        FencedWorkerIsErasable(next, t, steps[1..], owner);
        assert Without(steps, owner) == Without(steps[1..], owner);
      } else {
        OtherStepEnabled(s, t, step, owner);
        OtherStepKeepsSame(s, t, step, owner);
        FencedWorkerIsErasable(next, Apply(t, step), steps[1..], owner);
        assert Without(steps, owner) == [step] + Without(steps[1..], owner);
        assert ([step] + Without(steps[1..], owner))[1..] == Without(steps[1..], owner);
      }
    }
  }

  // ---------------------------------------------------------------- acquisition

  /** What no acquisition gets past: it raises on the value, or takes its heartbeat for live at any time. */
  predicate IsBlocking(value: LeaseValue) {
    || value.NonObject?
    || Heartbeat(value).Unconvertible? || Heartbeat(value).Endless?
    || (value.Object? && value.generation.Infinite?)
  }

  /**
   A lease is granted exactly on an empty cell, or on one that does not block and whose heartbeat is
   no longer live; the new owner then holds it under a larger generation.
   */
  lemma GrantedOnlyWhenExpired(db: Db, owner: Owner, now: real, ttl: real)
    ensures Acquire(db, owner, now, ttl).Granted? <==>
      db.cell.None? || (!IsLive(Heartbeat(db.cell.value), now, ttl) && !IsBlocking(db.cell.value))
    ensures Acquire(db, owner, now, ttl).Granted? ==>
      var g := Acquire(db, owner, now, ttl);
      && g.lease.owner == owner && Holds(g.db, g.lease)
      && g.db.inflight == db.inflight && g.db.published == db.published
      && (db.cell.Some? && db.cell.value.Object? && db.cell.value.generation.Counted? ==>
            g.lease.generation > db.cell.value.generation.number)
  {
  }

  /** Waiting helps in every other case: the lease is refused at all times exactly when the cell blocks. */
  lemma BlockedAtAllTimesIff(db: Db, owner: Owner, ttl: real)
    ensures (forall now :: !Acquire(db, owner, now, ttl).Granted?) <==> db.cell.Some? && IsBlocking(db.cell.value)
  {
    if db.cell.None? {
      assert Acquire(db, owner, 0.0, ttl).Granted?;
    } else if !IsBlocking(db.cell.value) {
      var now := if Heartbeat(db.cell.value).At? then Heartbeat(db.cell.value).time + ttl else 0.0;
      assert Acquire(db, owner, now, ttl).Granted?;
    }
  }

  /** A blocking cell that no worker holds. */
  ghost predicate IsStuck(s: System) {
    s.db.cell.Some? && IsBlocking(s.db.cell.value) && forall o :: o in s.workers ==> !Holds(s.db, s.workers[o].lease)
  }

  lemma StuckStepChangesNothing(s: System, step: Step)
    requires Inv(s) && Enabled(s, step) && IsStuck(s)
    ensures Apply(s, step).db == s.db && IsStuck(Apply(s, step))
  {
    if step.AcquireStep? {
      GrantedOnlyWhenExpired(s.db, step.owner, step.now, step.ttl);
    } else {
      StepKeepsLeases(s, step);
    }
  }

  lemma StepKeepsLeases(s: System, step: Step)
    requires Enabled(s, step) && !step.AcquireStep? && step.owner in s.workers && !Holds(s.db, s.workers[step.owner].lease)
    ensures Apply(s, step).db == s.db
    ensures forall o :: o in Apply(s, step).workers ==> o in s.workers && Apply(s, step).workers[o].lease == s.workers[o].lease
  {
  }

  /** No run ever gets past a blocking cell that nobody holds: neither the lease nor any row changes again. */
  lemma {:induction false} BlockingCellStaysForever(s: System, steps: seq<Step>)
    requires Inv(s) && IsRun(s, steps) && IsStuck(s)
    ensures Final(s, steps).db == s.db
    decreases |steps|
  {
    if steps != [] {
      StepKeepsInv(s, steps[0]);
      StuckStepChangesNothing(s, steps[0]);
      BlockingCellStaysForever(Apply(s, steps[0]), steps[1..]);
    }
  }

  // ---------------------------------------------------------------- recovery

  /**
   Recovery by the holder deletes exactly staged claims of predecessors, which no provider has
   seen since they were last released, and turns staged dispatches of predecessors uncertain.
   Uncertain rows, rows of other identities and the holder's own rows stay as they are.
   */
  lemma RecoveryTouchesOnlyPredecessors(s: System, step: Step, k: Key)
    requires Inv(s) && step.RecoverStep? && Enabled(s, step) && k in s.db.inflight
    ensures var w := s.workers[step.owner];
      var e, t := s.db.inflight[k], Apply(s, step);
      && (k !in t.db.inflight <==> Holds(s.db, w.lease) && k in step.claimed)
      && (k !in t.db.inflight ==>
           && IsPredecessor(s.db, w.identity, w.lease, Claimed, k)
           && s.sent[k] <= s.released[k] + s.authorised[k])
      && (k in t.db.inflight && t.db.inflight[k] != e ==>
           && IsPredecessor(s.db, w.identity, w.lease, Dispatched, k)
           && t.db.inflight[k] == e.(state := Uncertain))
      && (e.state == Uncertain || k.identity != w.identity || Lease(e.owner, e.generation) == w.lease ==>
           k in t.db.inflight && t.db.inflight[k] == e)
  {
    assert AccountedAt(s, k);
    var w := s.workers[step.owner];
    assert step.claimed <= Predecessors(s.db, w.identity, w.lease, Claimed);
    assert step.dispatched <= Predecessors(s.db, w.identity, w.lease, Dispatched);
  }
}
