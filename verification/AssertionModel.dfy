/**
 The assertion store as a value. A SHA-256 digest is modelled by the very text or record it was
 computed from, so digests are equal exactly when their inputs are.
 */
module AssertionModel {
  import opened Wrappers
  import opened Text

  const MAX_BATCH_SOURCES: nat := 500
  const MAX_CANDIDATES_PER_SOURCE: nat := 500
  const MAX_KEY_CHARS: nat := 512
  const MAX_VALUE_TEXT_CHARS: nat := 16384
  const MAX_OBJECT_JSON_CHARS: nat := 32768
  const MAX_VERSION_CHARS: nat := 128

  const ASSERTION_KINDS: set<string> :=
    {"fact", "event", "preference", "recommendation", "commitment", "action", "status", "quotation"}

  const ASSERTION_POLARITIES: set<string> := {"positive", "negative", "unknown"}

  const RELATION_TYPES: set<string> :=
    {"confirms", "supersedes", "contradicts", "narrows", "weakens", "reverses", "cancels", "fulfills", "quotes"}

  datatype Message = Message(session: string, source: string, role: string, content: string, timestamp: real)

  datatype Snapshot = Snapshot(storeId: int, message: Message)

  /** `payloadChars` is the length of the canonical JSON of the payload a candidate makes. */
  datatype Candidate = Candidate(
    start: int, end: int, subject: string, predicateKey: string, objectJson: string, valueText: string,
    kind: string, polarity: string, strength: Option<real>, scope: string,
    eventAt: Option<real>, validFrom: Option<real>, validTo: Option<real>, confidence: Option<real>,
    payloadChars: nat)

  /** The hashed payload of an assertion; as a value it is also the assertion's id. */
  datatype Assertion = Assertion(
    storeId: int, version: string, content: string, subject: string, predicateKey: string, objectJson: string,
    valueText: string, kind: string, polarity: string, strength: Option<real>, scope: string, role: string,
    observedAt: real, eventAt: Option<real>, validFrom: Option<real>, validTo: Option<real>,
    start: int, end: int, quote: string, confidence: real)

  /** Relation endpoints are named by id: the id of some assertion, or hex that names nothing. */
  datatype AssertionId = IdOf(assertion: Assertion) | Unassigned(hex: string) | NotHex

  datatype RelationCandidate = RelationCandidate(
    start: int, end: int, from: AssertionId, relationType: string, to: AssertionId, confidence: Option<real>,
    payloadChars: nat)

  datatype Relation = Relation(
    storeId: int, version: string, content: string, from: AssertionId, relationType: string, to: AssertionId,
    start: int, end: int, quote: string, confidence: real)

  /** Primary key of a receipt: source, extraction version and content hash. */
  datatype SourceKey = SourceKey(storeId: int, version: string, content: string)

  datatype Batch = Batch(assertions: set<Assertion>, relations: set<Relation>)

  datatype Invalidation = Invalidation(at: real, reason: string)

  /** The digest of a receipt is the pair of canonical row lists it was computed from. */
  datatype Receipt = Receipt(session: string, role: string, source: string, timestamp: real,
                             digest: Batch, invalidated: Option<Invalidation>)

  /** `created` holds the insertion times that order relations. */
  datatype Db = Db(messages: map<int, Message>, receipts: map<SourceKey, Receipt>,
                   assertions: map<Assertion, real>, relations: map<Relation, real>)

  datatype Error = Invalid(what: string) | SourceStale | PublicationConflict | EndpointMissing | ConstraintFailed

  // ---------------------------------------------------------------- preparation

  predicate InUnit(value: Option<real>) {
    value.Some? ==> 0.0 <= value.value <= 1.0
  }

  predicate ValidKeyText(value: string, allowEmpty: bool) {
    (allowEmpty || Strip(value) != "") && |Strip(value)| <= MAX_KEY_CHARS
  }

  function ValidVersion(version: string): Result<string, Error> {
    if Strip(version) == "" then Err(Invalid("extraction_version must not be empty"))
    else if |Strip(version)| > MAX_VERSION_CHARS then Err(Invalid("extraction_version too long"))
    else Ok(Strip(version))
  }

  function PrepareAssertion(s: Snapshot, c: Candidate, version: string): Result<Assertion, Error> {
    var kind, polarity := Lower(Strip(c.kind)), Lower(Strip(c.polarity));
    if c.start < 0 || c.end <= c.start || c.end > |s.message.content| then Err(Invalid("source span"))
    else if !ValidKeyText(c.subject, false) then Err(Invalid("subject_key"))
    else if !ValidKeyText(c.predicateKey, false) then Err(Invalid("predicate_key"))
    else if kind !in ASSERTION_KINDS then Err(Invalid("kind"))
    else if polarity !in ASSERTION_POLARITIES then Err(Invalid("polarity"))
    else if |c.valueText| > MAX_VALUE_TEXT_CHARS then Err(Invalid("value_text"))
    else if !ValidKeyText(c.scope, true) then Err(Invalid("scope_key"))
    else if !InUnit(c.strength) then Err(Invalid("strength"))
    else if c.confidence.None? || !InUnit(c.confidence) then Err(Invalid("confidence"))
    else if c.validFrom.Some? && c.validTo.Some? && c.validTo.value <= c.validFrom.value then Err(Invalid("valid_to"))
    else if |c.objectJson| > MAX_OBJECT_JSON_CHARS then Err(Invalid("object_value"))
    else if c.payloadChars > MAX_OBJECT_JSON_CHARS then Err(Invalid("assertion payload"))
    else
      Ok(Assertion(s.storeId, version, s.message.content, Strip(c.subject), Strip(c.predicateKey), c.objectJson,
                   c.valueText, kind, polarity, c.strength, Strip(c.scope), s.message.role, s.message.timestamp,
                   c.eventAt, c.validFrom, c.validTo, c.start, c.end, s.message.content[c.start..c.end],
                   c.confidence.value))
  }

  function PrepareRelation(s: Snapshot, c: RelationCandidate, version: string): Result<Relation, Error> {
    var relationType := Lower(Strip(c.relationType));
    if c.start < 0 || c.end <= c.start || c.end > |s.message.content| then Err(Invalid("relation source span"))
    else if relationType !in RELATION_TYPES then Err(Invalid("relation type"))
    else if c.from.NotHex? || c.to.NotHex? then Err(Invalid("relation assertion IDs"))
    else if c.from == c.to then Err(Invalid("self relation"))
    else if c.confidence.None? || !InUnit(c.confidence) then Err(Invalid("confidence"))
    else if c.payloadChars > MAX_OBJECT_JSON_CHARS then Err(Invalid("relation payload"))
    else
      Ok(Relation(s.storeId, version, s.message.content, c.from, relationType, c.to, c.start, c.end,
                  s.message.content[c.start..c.end], c.confidence.value))
  }

  function PrepareAssertions(s: Snapshot, cs: seq<Candidate>, version: string): Result<seq<Assertion>, Error> {
    if cs == [] then Ok([])
    else
      match PrepareAssertions(s, cs[..|cs| - 1], version)
      case Err(error) => Err(error)
      case Ok(rows) =>
        match PrepareAssertion(s, cs[|cs| - 1], version)
        case Err(error) => Err(error)
        case Ok(row) => Ok(rows + [row])
  }

  function PrepareRelations(s: Snapshot, cs: seq<RelationCandidate>, version: string): Result<seq<Relation>, Error> {
    if cs == [] then Ok([])
    else
      match PrepareRelations(s, cs[..|cs| - 1], version)
      case Err(error) => Err(error)
      case Ok(rows) =>
        match PrepareRelation(s, cs[|cs| - 1], version)
        case Err(error) => Err(error)
        case Ok(row) => Ok(rows + [row])
  }

  predicate NoDuplicates<T(==)>(s: seq<T>) {
    forall i, j :: 0 <= i < j < |s| ==> s[i] != s[j]
  }

  function ToSet<T>(s: seq<T>): set<T> {
    set x | x in s
  }

  /** A payload grows by `"assertion_id":"` or `"relation_id":"`, 64 hex digits, a quote and a comma. */
  const ASSERTION_ID_CHARS: nat := 82
  const RELATION_ID_CHARS: nat := 81

  function AssertionRowsChars(cs: seq<Candidate>): nat {
    if cs == [] then 0
    else
      AssertionRowsChars(cs[..|cs| - 1]) + cs[|cs| - 1].payloadChars + ASSERTION_ID_CHARS + if |cs| > 1 then 1 else 0
  }

  function RelationRowsChars(rs: seq<RelationCandidate>): nat {
    if rs == [] then 0
    else
      RelationRowsChars(rs[..|rs| - 1]) + rs[|rs| - 1].payloadChars + RELATION_ID_CHARS + if |rs| > 1 then 1 else 0
  }

  /** The length of `{"assertions":[...],"relations":[...]}`, the text behind the batch digest. */
  function BatchChars(cs: seq<Candidate>, rs: seq<RelationCandidate>): nat {
    32 + AssertionRowsChars(cs) + RelationRowsChars(rs)
  }

  /** The validated batch of one publication, before the database is touched. */
  function Prepare(s: Snapshot, cs: seq<Candidate>, rs: seq<RelationCandidate>, version: string): Result<Batch, Error> {
    if |cs| > MAX_CANDIDATES_PER_SOURCE || |rs| > MAX_CANDIDATES_PER_SOURCE then Err(Invalid("too many candidates"))
    else
      match PrepareAssertions(s, cs, version)
      case Err(error) => Err(error)
      case Ok(assertions) =>
        match PrepareRelations(s, rs, version)
        case Err(error) => Err(error)
        case Ok(relations) =>
          if !NoDuplicates(assertions) then Err(Invalid("duplicate assertion candidates"))
          else if !NoDuplicates(relations) then Err(Invalid("duplicate assertion relations"))
          else if BatchChars(cs, rs) > MAX_OBJECT_JSON_CHARS then Err(Invalid("batch"))
          else Ok(Batch(ToSet(assertions), ToSet(relations)))
  }

  // ---------------------------------------------------------------- publication

  function KeyOfAssertion(a: Assertion): SourceKey {
    SourceKey(a.storeId, a.version, a.content)
  }

  function KeyOfRelation(r: Relation): SourceKey {
    SourceKey(r.storeId, r.version, r.content)
  }

  predicate IsActive(db: Db, k: SourceKey) {
    k in db.receipts && db.receipts[k].invalidated.None?
  }

  predicate EndpointActive(db: Db, id: AssertionId) {
    id.IdOf? && id.assertion in db.assertions && IsActive(db, KeyOfAssertion(id.assertion))
  }

  /** Some active receipt of the source and version, whatever its content hash. */
  predicate HasActive(db: Db, storeId: int, version: string) {
    exists k :: k in db.receipts && k.storeId == storeId && k.version == version && IsActive(db, k)
  }

  function NewReceipt(s: Snapshot, batch: Batch): Receipt {
    Receipt(s.message.session, s.message.role, s.message.source, s.message.timestamp, batch, None)
  }

  datatype Published = Published(db: Db, batch: Batch, alreadyCurrent: bool)

  /** `publish_source` after preparation: one transaction that commits a new database or changes nothing. */
  function Publish(db: Db, s: Snapshot, batch: Batch, version: string, now: real): Result<Published, Error> {
    var key := SourceKey(s.storeId, version, s.message.content);
    if s.storeId !in db.messages || db.messages[s.storeId] != s.message then Err(SourceStale)
    else if HasActive(db, s.storeId, version) then
      if IsActive(db, key) && db.receipts[key].digest == batch then Ok(Published(db, batch, true))
      else Err(PublicationConflict)
    else if key in db.receipts then
      if db.receipts[key].digest != batch then Err(PublicationConflict)
      else Ok(Published(db.(receipts := db.receipts[key := NewReceipt(s, batch)]), batch, true))
    else if batch.assertions !! db.assertions.Keys then
      var inserted := db.(
        receipts := db.receipts[key := NewReceipt(s, batch)],
        assertions := db.assertions + (map a | a in batch.assertions :: now));
      if exists r :: r in batch.relations && !(EndpointActive(inserted, r.from) && EndpointActive(inserted, r.to))
      then Err(EndpointMissing)
      else if batch.relations !! db.relations.Keys then
        Ok(Published(inserted.(relations := db.relations + (map r | r in batch.relations :: now)), batch, false))
      else Err(ConstraintFailed)
    else Err(ConstraintFailed)
  }

  function Invalidate(db: Db, storeId: int, at: real, reason: string): Db {
    db.(receipts := map k | k in db.receipts ::
      if k.storeId == storeId && db.receipts[k].invalidated.None?
      then db.receipts[k].(invalidated := Some(Invalidation(at, reason))) else db.receipts[k])
  }

  /** Writing a message; the update trigger invalidates the source when its content changes. */
  function WriteMessage(db: Db, storeId: int, message: Message, at: real): Db {
    var changed := storeId in db.messages && db.messages[storeId].content != message.content;
    var written := db.(messages := db.messages[storeId := message]);
    if changed then Invalidate(written, storeId, at, "source_updated") else written
  }

  function DeleteMessage(db: Db, storeId: int, at: real): Db {
    if storeId !in db.messages then db
    else Invalidate(db.(messages := db.messages - {storeId}), storeId, at, "source_deleted")
  }

  /** The receipt belongs to the removed version. */
  predicate IsRemoved(db: Db, version: string, k: SourceKey) {
    k in db.receipts && k.version == version
  }

  /** The endpoint is a row stored under a removed receipt. */
  predicate LosesEndpoint(db: Db, version: string, id: AssertionId) {
    id.IdOf? && id.assertion in db.assertions && IsRemoved(db, version, KeyOfAssertion(id.assertion))
  }

  /**
   Removes one derived generation. The delete trigger of each receipt removes the rows it owns,
   and every relation, of whatever source and version, that has an endpoint among those rows.
   */
  function RemoveVersion(db: Db, version: string): Db {
    db.(receipts := map k | k in db.receipts && !IsRemoved(db, version, k) :: db.receipts[k],
        assertions := map a | a in db.assertions && !IsRemoved(db, version, KeyOfAssertion(a)) :: db.assertions[a],
        relations := map r | r in db.relations && !IsRemoved(db, version, KeyOfRelation(r))
                             && !LosesEndpoint(db, version, r.from) && !LosesEndpoint(db, version, r.to) :: db.relations[r])
  }
}
