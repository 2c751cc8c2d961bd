/**
 The embedding backfill database as a value: the lease cell in `metadata`, the durable in-flight
 table and the recorded embeddings. Every function below is one `BEGIN IMMEDIATE ... COMMIT`
 block of the program, or one statement that SQLite commits on its own.
 */
module BackfillModel {
  import opened Wrappers

  type RowId = string
  type Identity = string
  type Owner = string
  type RequestId = string

  datatype Key = Key(row: RowId, identity: Identity)

  datatype RowState = Claimed | Dispatched | Uncertain

  // A NULL lease_id of a migrated row is an owner that no worker has.
  datatype Entry = Entry(owner: Owner, generation: int, state: RowState, request: Option<RequestId>)

  /**
   `float()` of a stored heartbeat: a time, plus infinity, NaN or minus infinity, or an integer too
   large for a float, on which it raises. What is missing or no number counts as time 0.
   */
  datatype HeartbeatField = At(time: real) | Endless | Expired | Unconvertible

  /** `int()` of a stored generation: a number, nothing usable, or an infinity, on which it raises. */
  datatype GenerationField = Counted(number: int) | Uncounted | Infinite

  /** The text stored in the lease cell, after JSON parsing, which raises on text nested too deeply. */
  datatype LeaseValue =
    | Object(owner: Option<Owner>, generation: GenerationField, heartbeat: HeartbeatField)
    | NonObject(reading: HeartbeatField)
    | NotJson
    | TooDeep

  /** The value a lease writes. */
  function Claim(owner: Owner, generation: int, now: real): LeaseValue {
    Object(Some(owner), Counted(generation), At(now))
  }

  datatype Lease = Lease(owner: Owner, generation: int)

  datatype Db = Db(cell: Option<LeaseValue>, inflight: map<Key, Entry>, published: set<Key>)

  datatype Error = LeaseLost | CandidateChanged | MalformedCell

  const MAINTENANCE_LIMIT: nat := 256

  // ---------------------------------------------------------------- lease cell

  /** What is read as the heartbeat. `Unconvertible` stands for every reading that raises. */
  function Heartbeat(value: LeaseValue): HeartbeatField {
    match value
    case Object(_, _, heartbeat) => heartbeat
    case NonObject(reading) => reading
    case NotJson => At(0.0)
    case TooDeep => Unconvertible
  }

  /** `(now - heartbeat) < ttl` */
  predicate IsLive(heartbeat: HeartbeatField, now: real, ttl: real) {
    heartbeat.Endless? || (heartbeat.At? && now - heartbeat.time < ttl)
  }

  /** The generation a thief writes. None: the lookup raises. */
  function NextGeneration(value: LeaseValue): Option<int> {
    match value
    case Object(_, Counted(generation), _) => Some(generation + 1)
    case Object(_, Uncounted, _) => Some(1)
    case Object(_, Infinite, _) => None
    case NonObject(_) => None
    case NotJson => Some(1)
    case TooDeep => None
  }

  predicate Holds(db: Db, lease: Lease) {
    && db.cell.Some?
    && db.cell.value.Object?
    && db.cell.value.owner == Some(lease.owner)
    && db.cell.value.generation == Counted(lease.generation)
  }

  datatype Acquisition = Refused | Granted(db: Db, lease: Lease) | Raised

  function Acquire(db: Db, owner: Owner, now: real, ttl: real): Acquisition {
    if db.cell.None? then
      Granted(db.(cell := Some(Claim(owner, 1, now))), Lease(owner, 1))
    else if Heartbeat(db.cell.value).Unconvertible? then
      Raised
    else if IsLive(Heartbeat(db.cell.value), now, ttl) then
      Refused
    else
      match NextGeneration(db.cell.value)
      case None => Raised
      case Some(generation) =>
        Granted(db.(cell := Some(Claim(owner, generation, now))), Lease(owner, generation))
  }

  function Renew(db: Db, lease: Lease, now: real): Db {
    if Holds(db, lease) then db.(cell := Some(Claim(lease.owner, lease.generation, now))) else db
  }

  function Release(db: Db, lease: Lease): Db {
    if Holds(db, lease) then db.(cell := None) else db
  }

  // ---------------------------------------------------------------- recovery

  /** A row another lease left behind under this identity, in the given state. */
  predicate IsPredecessor(db: Db, identity: Identity, lease: Lease, state: RowState, k: Key) {
    && k in db.inflight
    && k.identity == identity
    && db.inflight[k].state == state
    && (db.inflight[k].owner != lease.owner || db.inflight[k].generation != lease.generation)
  }

  function Predecessors(db: Db, identity: Identity, lease: Lease, state: RowState): set<Key> {
    set k | k in db.inflight && IsPredecessor(db, identity, lease, state, k)
  }

  /** What `SELECT ... ORDER BY updated_at LIMIT 256` may stage: all of them, or 256 of them. */
  predicate StagedFrom(staged: set<Key>, candidates: set<Key>) {
    && staged <= candidates
    && |staged| <= MAINTENANCE_LIMIT
    && (|staged| < MAINTENANCE_LIMIT ==> staged == candidates)
  }

  function RecoverRows(inflight: map<Key, Entry>, claimed: set<Key>, dispatched: set<Key>): map<Key, Entry> {
    map k | k in inflight && k !in claimed ::
      if k in dispatched then inflight[k].(state := Uncertain) else inflight[k]
  }

  function Recover(db: Db, lease: Lease, claimed: set<Key>, dispatched: set<Key>): Result<Db, Error> {
    if !Holds(db, lease) then Err(LeaseLost)
    else Ok(db.(inflight := RecoverRows(db.inflight, claimed, dispatched)))
  }

  // ---------------------------------------------------------------- reservation

  function ReserveRow(inflight: map<Key, Entry>, identity: Identity, lease: Lease, row: RowId,
                      authorized: set<RowId>): Option<map<Key, Entry>>
  {
    var k := Key(row, identity);
    if row in authorized then
      if k in inflight && inflight[k].state == Uncertain then
        Some(inflight[k := Entry(lease.owner, lease.generation, Uncertain, None)])
      else None
    else if k in inflight then None
    else Some(inflight[k := Entry(lease.owner, lease.generation, Claimed, None)])
  }

  function ReserveRows(inflight: map<Key, Entry>, identity: Identity, lease: Lease, rows: seq<RowId>,
                       authorized: set<RowId>): Option<map<Key, Entry>>
  {
    if rows == [] then Some(inflight)
    else
      match ReserveRows(inflight, identity, lease, rows[..|rows| - 1], authorized)
      case None => None
      case Some(earlier) => ReserveRow(earlier, identity, lease, rows[|rows| - 1], authorized)
  }

  function MarkInflight(db: Db, identity: Identity, lease: Lease, rows: seq<RowId>, authorized: set<RowId>)
    : Result<Db, Error>
  {
    if !Holds(db, lease) then Err(LeaseLost)
    else
      match ReserveRows(db.inflight, identity, lease, rows, authorized)
      case None => Err(CandidateChanged)
      case Some(inflight) => Ok(db.(inflight := inflight))
  }

  // ---------------------------------------------------------------- dispatch

  function DispatchRow(inflight: map<Key, Entry>, identity: Identity, lease: Lease, row: RowId,
                       request: RequestId, authorized: set<RowId>): Option<map<Key, Entry>>
  {
    var k := Key(row, identity);
    var prior := if row in authorized then Uncertain else Claimed;
    if k in inflight && inflight[k] == Entry(lease.owner, lease.generation, prior, None) then
      Some(inflight[k := Entry(lease.owner, lease.generation, Dispatched, Some(request))])
    else None
  }

  function DispatchRows(inflight: map<Key, Entry>, identity: Identity, lease: Lease, rows: seq<RowId>,
                        request: RequestId, authorized: set<RowId>): Option<map<Key, Entry>>
  {
    if rows == [] then Some(inflight)
    else
      match DispatchRows(inflight, identity, lease, rows[..|rows| - 1], request, authorized)
      case None => None
      case Some(earlier) => DispatchRow(earlier, identity, lease, rows[|rows| - 1], request, authorized)
  }

  /** The database after `_mark_dispatched`, or None when it returns 0 and rolls back. */
  function MarkDispatched(db: Db, identity: Identity, lease: Lease, rows: seq<RowId>,
                          request: RequestId, authorized: set<RowId>): Option<Db>
  {
    if rows == [] || !Holds(db, lease) then None
    else
      match DispatchRows(db.inflight, identity, lease, rows, request, authorized)
      case None => None
      case Some(inflight) => Some(db.(inflight := inflight))
  }

  // ---------------------------------------------------------------- owned transitions

  /** The row is dispatched under exactly this lease, identity and request. */
  predicate InRequest(inflight: map<Key, Entry>, identity: Identity, lease: Lease, request: RequestId, k: Key) {
    && k in inflight
    && k.identity == identity
    && inflight[k] == Entry(lease.owner, lease.generation, Dispatched, Some(request))
  }

  function ResolveRows(inflight: map<Key, Entry>, identity: Identity, lease: Lease, request: Option<RequestId>,
                       row: RowId, authorized: set<RowId>): map<Key, Entry>
  {
    var k := Key(row, identity);
    if request.None? then
      if row !in authorized && k in inflight && inflight[k].owner == lease.owner
         && inflight[k].generation == lease.generation && inflight[k].state == Claimed
      then inflight - {k} else inflight
    else if !InRequest(inflight, identity, lease, request.value, k) then inflight
    else if row in authorized then inflight[k := inflight[k].(state := Uncertain, request := None)]
    else inflight - {k}
  }

  /** `_owned_inflight_transition` with an `embedded_id`: a skip, or the return of an unsent claim. */
  function ResolveRow(db: Db, identity: Identity, lease: Lease, request: Option<RequestId>,
                      row: RowId, authorized: set<RowId>): Option<Db>
  {
    if !Holds(db, lease) then None
    else Some(db.(inflight := ResolveRows(db.inflight, identity, lease, request, row, authorized)))
  }

  function RejectRows(inflight: map<Key, Entry>, identity: Identity, lease: Lease, request: RequestId,
                      authorized: set<RowId>): map<Key, Entry>
  {
    map k | k in inflight && (InRequest(inflight, identity, lease, request, k) ==> k.row in authorized) ::
      if InRequest(inflight, identity, lease, request, k)
      then inflight[k].(state := Uncertain, request := None) else inflight[k]
  }

  function DoubtRows(inflight: map<Key, Entry>, identity: Identity, lease: Lease, request: RequestId)
    : map<Key, Entry>
  {
    map k | k in inflight ::
      if InRequest(inflight, identity, lease, request, k) then inflight[k].(state := Uncertain) else inflight[k]
  }

  /** `_owned_inflight_transition` without an `embedded_id`: the whole request, rejected or in doubt. */
  function ResolveRequest(db: Db, identity: Identity, lease: Lease, request: RequestId,
                          retryable: bool, authorized: set<RowId>): Option<Db>
  {
    if !Holds(db, lease) then None
    else if retryable then
      Some(db.(inflight := RejectRows(db.inflight, identity, lease, request, authorized)))
    else
      Some(db.(inflight := DoubtRows(db.inflight, identity, lease, request)))
  }

  // ---------------------------------------------------------------- publication

  datatype Outcome = PublishedRow | OwnershipLost | IdentitySuperseded

  /** `_publish_under_lease` for one accepted row; `active` is the state of the embedding profile. */
  function Publish(db: Db, identity: Identity, lease: Lease, row: RowId, request: RequestId, active: bool)
    : (Db, Outcome)
  {
    var k := Key(row, identity);
    if !Holds(db, lease) || !InRequest(db.inflight, identity, lease, request, k) then (db, OwnershipLost)
    else if active then
      (db.(inflight := db.inflight - {k}, published := db.published + {k}), PublishedRow)
    else
      (db.(inflight := DoubtRows(db.inflight, identity, lease, request), cell := None), IdentitySuperseded)
  }

  // ---------------------------------------------------------------- discovery

  predicate IsPending(db: Db, identity: Identity, row: RowId) {
    var k := Key(row, identity);
    k !in db.published && k !in db.inflight
  }

  predicate IsRetryable(db: Db, identity: Identity, row: RowId) {
    var k := Key(row, identity);
    k in db.inflight && db.inflight[k].state == Uncertain && k !in db.published
  }
}
