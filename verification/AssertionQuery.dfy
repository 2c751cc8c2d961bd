/** Bitemporal reads over the assertion tables: joins, filters, order and limit. */
module AssertionQuery {
  import opened Wrappers
  import opened Ordering
  import opened AssertionModel
  import opened AssertionHistory

  /** The position of an id in the order of its hex digest. */
  type Rank = AssertionId -> int

  datatype Filter = Filter(
    version: string, subject: Option<string>, predicateKey: Option<string>, kinds: Option<set<string>>,
    scope: Option<string>, role: Option<string>, storeId: Option<int>, id: Option<AssertionId>,
    asOf: Option<real>, includeInvalidated: bool, limit: int)

  datatype Row = Row(assertion: Assertion, created: real, session: string, role: string, source: string,
                     timestamp: real, invalidated: Option<Invalidation>, currentSession: Option<string>)

  predicate Matches<T(==)>(wanted: Option<T>, value: T) {
    wanted.None? || wanted.value == value
  }

  predicate ValidAt(a: Assertion, t: real) {
    && a.observedAt <= t
    && (a.validFrom.Some? ==> a.validFrom.value <= t)
    && (a.validTo.Some? ==> a.validTo.value > t)
  }

  predicate Selected(db: Db, f: Filter, a: Assertion) {
    && a in db.assertions
    && KeyOfAssertion(a) in db.receipts
    && a.version == f.version
    && (f.includeInvalidated || (IsActive(db, KeyOfAssertion(a)) && a.storeId in db.messages))
    && Matches(f.subject, a.subject) && Matches(f.predicateKey, a.predicateKey) && Matches(f.scope, a.scope)
    && Matches(f.role, a.role) && Matches(f.storeId, a.storeId) && Matches(f.id, IdOf(a))
    && (f.kinds.Some? ==> a.kind in f.kinds.value)
    && (f.asOf.Some? ==> ValidAt(a, f.asOf.value))
  }

  function RowOf(db: Db, a: Assertion): Row
    requires a in db.assertions && KeyOfAssertion(a) in db.receipts
  {
    var receipt := db.receipts[KeyOfAssertion(a)];
    Row(a, db.assertions[a], receipt.session, receipt.role, receipt.source, receipt.timestamp, receipt.invalidated,
        if a.storeId in db.messages then Some(db.messages[a.storeId].session) else None)
  }

  ghost function VisibleRows(db: Db, f: Filter): set<Row> {
    set a | a in db.assertions && Selected(db, f, a) :: RowOf(db, a)
  }

  /** ORDER BY observed_at DESC, assertion_id ASC */
  function RowOrder(rank: Rank): ((Row, Row) -> bool) {
    (x: Row, y: Row) =>
      || x.assertion.observedAt > y.assertion.observedAt
      || (x.assertion.observedAt == y.assertion.observedAt && rank(IdOf(x.assertion)) < rank(IdOf(y.assertion)))
  }

  function Take<T>(s: seq<T>, n: nat): seq<T> {
    if |s| <= n then s else s[..n]
  }

  function ContentOf(db: Db, storeId: int): string {
    if storeId in db.messages then db.messages[storeId].content else ""
  }

  /** The source still reads as recorded and the quote still stands at its span. */
  predicate ProvenanceHolds(content: string, recorded: string, start: int, end: int, quote: string) {
    content == recorded && 0 <= start <= end <= |content| && content[start..end] == quote
  }

  predicate ValidLimit(limit: int) {
    1 <= limit <= MAX_BATCH_SOURCES
  }

  predicate ValidFilter(f: Filter) {
    && ValidVersion(f.version) == Ok(f.version)
    && ValidLimit(f.limit)
    && (f.id.Some? ==> !f.id.value.NotHex?)
    && (f.kinds.Some? ==> f.kinds.value != {} && f.kinds.value <= ASSERTION_KINDS)
  }

  ghost function QueryAssertions(db: Db, f: Filter, rank: Rank): Result<seq<Row>, Error> {
    if !ValidFilter(f) then Err(Invalid("query"))
    else
      var rows := Take(Listing(RowOrder(rank), VisibleRows(db, f)), f.limit);
      if forall i :: 0 <= i < |rows| && rows[i].invalidated.None? ==>
           var a := rows[i].assertion;
           ProvenanceHolds(ContentOf(db, a.storeId), a.content, a.start, a.end, a.quote)
      then Ok(rows) else Err(SourceStale)
  }

  // ---------------------------------------------------------------- relations

  datatype RelationFilter = RelationFilter(
    version: string, ids: Option<set<AssertionId>>, types: Option<set<string>>,
    asOf: Option<real>, includeInvalidated: bool, limit: int)

  datatype RelationRow = RelationRow(relation: Relation, created: real, session: string, timestamp: real,
                                     invalidated: Option<Invalidation>)

  predicate Joined(db: Db, id: AssertionId) {
    id.IdOf? && id.assertion in db.assertions && KeyOfAssertion(id.assertion) in db.receipts
  }

  predicate SelectedRelation(db: Db, f: RelationFilter, r: Relation) {
    && r in db.relations
    && KeyOfRelation(r) in db.receipts
    && Joined(db, r.from) && Joined(db, r.to)
    && r.version == f.version
    && (f.includeInvalidated
        || (&& IsActive(db, KeyOfRelation(r)) && r.storeId in db.messages
            && IsActive(db, KeyOfAssertion(r.from.assertion)) && r.from.assertion.storeId in db.messages
            && IsActive(db, KeyOfAssertion(r.to.assertion)) && r.to.assertion.storeId in db.messages))
    && (f.ids.Some? ==> r.from in f.ids.value || r.to in f.ids.value)
    && (f.types.Some? ==> r.relationType in f.types.value)
    && (f.asOf.Some? ==>
          && db.receipts[KeyOfRelation(r)].timestamp <= f.asOf.value
          && ValidAt(r.from.assertion, f.asOf.value) && ValidAt(r.to.assertion, f.asOf.value))
  }

  function RelationRowOf(db: Db, r: Relation): RelationRow
    requires r in db.relations && KeyOfRelation(r) in db.receipts
  {
    var receipt := db.receipts[KeyOfRelation(r)];
    RelationRow(r, db.relations[r], receipt.session, receipt.timestamp, receipt.invalidated)
  }

  ghost function VisibleRelations(db: Db, f: RelationFilter): set<RelationRow> {
    set r | r in db.relations && SelectedRelation(db, f, r) :: RelationRowOf(db, r)
  }

  type RelationRank = Relation -> int

  /** ORDER BY created_at ASC, relation_id ASC */
  function RelationOrder(rank: RelationRank): ((RelationRow, RelationRow) -> bool) {
    (x: RelationRow, y: RelationRow) =>
      x.created < y.created || (x.created == y.created && rank(x.relation) < rank(y.relation))
  }

  predicate ValidRelationFilter(f: RelationFilter) {
    && ValidVersion(f.version) == Ok(f.version)
    && ValidLimit(f.limit)
    && (f.ids.Some? ==> 1 <= |f.ids.value| <= MAX_BATCH_SOURCES && NotHex !in f.ids.value)
    && (f.types.Some? ==> f.types.value != {} && f.types.value <= RELATION_TYPES)
  }

  ghost predicate RelationProvenanceHolds(db: Db, r: Relation) {
    && ProvenanceHolds(ContentOf(db, r.storeId), r.content, r.start, r.end, r.quote)
    && r.from.IdOf? && r.to.IdOf?
    && var a, b := r.from.assertion, r.to.assertion;
       && ProvenanceHolds(ContentOf(db, a.storeId), a.content, a.start, a.end, a.quote)
       && ProvenanceHolds(ContentOf(db, b.storeId), b.content, b.start, b.end, b.quote)
  }

  ghost function QueryRelations(db: Db, f: RelationFilter, rank: RelationRank): Result<seq<RelationRow>, Error> {
    if !ValidRelationFilter(f) then Err(Invalid("query"))
    else
      var rows := Take(Listing(RelationOrder(rank), VisibleRelations(db, f)), f.limit);
      if f.includeInvalidated || forall i :: 0 <= i < |rows| ==> RelationProvenanceHolds(db, rows[i].relation)
      then Ok(rows) else Err(SourceStale)
  }

  // ---------------------------------------------------------------- reads never find a stale source

  lemma ActiveProvenance(db: Db, a: Assertion)
    requires Inv(db) && a in db.assertions && IsActive(db, KeyOfAssertion(a))
    ensures ProvenanceHolds(ContentOf(db, a.storeId), a.content, a.start, a.end, a.quote)
  {
  }

  lemma ActiveRelationProvenance(db: Db, r: Relation)
    requires Inv(db) && r in db.relations && IsActive(db, KeyOfRelation(r))
    ensures ProvenanceHolds(ContentOf(db, r.storeId), r.content, r.start, r.end, r.quote)
  {
  }

  /** In every reachable database a well-formed read succeeds: active rows always match their message. */
  lemma AssertionReadsNeverStale(db: Db, f: Filter, rank: Rank)
    requires Inv(db)
    ensures QueryAssertions(db, f, rank).Ok? <==> ValidFilter(f)
  {
    if ValidFilter(f) {
      PageOfListing(RowOrder(rank), VisibleRows(db, f), f.limit);
      forall row | row in VisibleRows(db, f) && row.invalidated.None?
        ensures var a := row.assertion; ProvenanceHolds(ContentOf(db, a.storeId), a.content, a.start, a.end, a.quote)
      {
        ActiveProvenance(db, row.assertion);
      }
    }
  }

  lemma SelectedRelationProvenance(db: Db, f: RelationFilter, r: Relation)
    requires Inv(db) && SelectedRelation(db, f, r) && !f.includeInvalidated
    ensures RelationProvenanceHolds(db, r)
  {
    ActiveRelationProvenance(db, r);
    ActiveProvenance(db, r.from.assertion);
    ActiveProvenance(db, r.to.assertion);
  }

  lemma VisibleRelationProvenance(db: Db, f: RelationFilter)
    requires Inv(db) && !f.includeInvalidated
    ensures forall row :: row in VisibleRelations(db, f) ==> RelationProvenanceHolds(db, row.relation)
  {
    forall row | row in VisibleRelations(db, f) ensures RelationProvenanceHolds(db, row.relation) {
      var r :| r in db.relations && SelectedRelation(db, f, r) && row == RelationRowOf(db, r);
      SelectedRelationProvenance(db, f, r);
    }
  }

  lemma PageOfListing<T(!new)>(less: (T, T) -> bool, s: set<T>, n: nat)
    requires StrictOrder(less)
    ensures forall i :: 0 <= i < |Take(Listing(less, s), n)| ==> Take(Listing(less, s), n)[i] in s
  {
    ListingMembers(less, s);
    assert forall i :: 0 <= i < |Listing(less, s)| ==> Listing(less, s)[i] in s;
  }

  lemma RelationReadsNeverStale(db: Db, f: RelationFilter, rank: RelationRank)
    requires Inv(db)
    ensures QueryRelations(db, f, rank).Ok? <==> ValidRelationFilter(f)
  {
    if ValidRelationFilter(f) && !f.includeInvalidated {
      VisibleRelationProvenance(db, f);
      PageOfListing(RelationOrder(rank), VisibleRelations(db, f), f.limit);
    }
  }

  // ---------------------------------------------------------------- time travel

  /** The step publishes or reactivates a source observed after `t`. */
  predicate PublishesAfter(step: Step, t: real) {
    step.PublishStep? && step.snapshot.message.timestamp > t
  }

  /** Only rows of one source key changed, and all that is stored under it was observed after `t`. */
  ghost predicate LateChange(before: Db, after: Db, key: SourceKey, t: real) {
    && after.messages == before.messages
    && (forall k :: k != key ==> (k in after.receipts <==> k in before.receipts))
    && (forall k :: k in before.receipts && k != key ==> after.receipts[k] == before.receipts[k])
    && (key in before.receipts ==> key in after.receipts && !IsActive(before, key))
    && (key in after.receipts ==> after.receipts[key].timestamp > t)
  }

  ghost predicate LateRows(before: Db, after: Db, key: SourceKey, t: real) {
    LateAssertions(before, after, key, t) && RelationsOnlyAdded(before, after, key)
  }

  ghost predicate LateAssertions(before: Db, after: Db, key: SourceKey, t: real) {
    && (forall a :: a in after.assertions && KeyOfAssertion(a) == key ==> a.observedAt > t)
    && (forall a :: a in after.assertions && KeyOfAssertion(a) != key ==> a in before.assertions)
    && (forall a :: a in before.assertions ==> a in after.assertions && after.assertions[a] == before.assertions[a])
  }

  ghost predicate RelationsOnlyAdded(before: Db, after: Db, key: SourceKey) {
    && (forall r :: r in after.relations && KeyOfRelation(r) != key ==> r in before.relations)
    && (forall r :: r in before.relations ==> r in after.relations && after.relations[r] == before.relations[r])
  }

  lemma PublishIsLateChange(db: Db, s: Snapshot, batch: Batch, version: string, now: real, t: real)
    requires Inv(db) && s.message.timestamp > t
    requires Publish(db, s, batch, version, now).Ok? && Publish(db, s, batch, version, now).value.db != db
    ensures LateChange(db, Publish(db, s, batch, version, now).value.db,
                       SourceKey(s.storeId, version, s.message.content), t)
  {
  }

  lemma PublishOnlyAddsBatch(db: Db, s: Snapshot, batch: Batch, version: string, now: real)
    requires Publish(db, s, batch, version, now).Ok?
    ensures var after := Publish(db, s, batch, version, now).value.db;
      && (forall a :: a in after.assertions ==> a in db.assertions || a in batch.assertions)
      && (forall a :: a in db.assertions ==> a in after.assertions && after.assertions[a] == db.assertions[a])
      && var key := SourceKey(s.storeId, version, s.message.content);
         key in after.receipts && after.receipts[key].digest == batch
  {
  }

  lemma PublishAddsLateRows(db: Db, s: Snapshot, batch: Batch, version: string, now: real, t: real)
    requires s.message.timestamp > t
    requires BatchOf(batch, SourceKey(s.storeId, version, s.message.content)) && ObservedAt(batch, s.message.timestamp)
    requires Publish(db, s, batch, version, now).Ok?
    requires RowsMatchDigests(Publish(db, s, batch, version, now).value.db)
    ensures LateAssertions(db, Publish(db, s, batch, version, now).value.db,
                           SourceKey(s.storeId, version, s.message.content), t)
  {
    PublishOnlyAddsBatch(db, s, batch, version, now);
  }

  lemma PublishOnlyAddsRelations(db: Db, s: Snapshot, batch: Batch, version: string, now: real)
    requires Inv(db)
    requires BatchOf(batch, SourceKey(s.storeId, version, s.message.content))
    requires Publish(db, s, batch, version, now).Ok?
    ensures RelationsOnlyAdded(db, Publish(db, s, batch, version, now).value.db,
                               SourceKey(s.storeId, version, s.message.content))
  {
  }

  lemma LateChangeKeepsRow(before: Db, after: Db, key: SourceKey, t: real, f: Filter, a: Assertion)
    requires LateChange(before, after, key, t) && LateRows(before, after, key, t) && f.asOf == Some(t)
    ensures Selected(before, f, a) <==> Selected(after, f, a)
    ensures Selected(before, f, a) ==> RowOf(before, a) == RowOf(after, a)
  {
  }

  /** Of the relations a past read shows, a late publication takes away those of its own receipt and no other. */
  lemma LateChangeOnRelation(before: Db, after: Db, key: SourceKey, t: real, f: RelationFilter, r: Relation)
    requires LateChange(before, after, key, t) && LateRows(before, after, key, t) && f.asOf == Some(t)
    ensures SelectedRelation(after, f, r) <==> SelectedRelation(before, f, r) && KeyOfRelation(r) != key
    ensures SelectedRelation(after, f, r) ==> RelationRowOf(before, r) == RelationRowOf(after, r)
    ensures SelectedRelation(before, f, r) && KeyOfRelation(r) == key ==> f.includeInvalidated
  {
  }

  function PublishedKey(step: Step): SourceKey
    requires step.PublishStep? && ValidVersion(step.version).Ok?
  {
    SourceKey(step.snapshot.storeId, ValidVersion(step.version).value, step.snapshot.message.content)
  }

  lemma LatePublication(db: Db, step: Step, t: real)
    requires Inv(db) && PublishesAfter(step, t) && Apply(db, step) != db
    ensures LateChange(db, Apply(db, step), PublishedKey(step), t)
    ensures LateRows(db, Apply(db, step), PublishedKey(step), t)
  {
    var s, version := step.snapshot, ValidVersion(step.version).value;
    var batch := Prepare(s, step.candidates, step.relations, version).value;
    PreparedBatch(s, step.candidates, step.relations, version);
    PublishIsLateChange(db, s, batch, version, step.now, t);
    PublishKeepsRows(db, s, batch, version, step.now);
    PublishAddsLateRows(db, s, batch, version, step.now, t);
    PublishOnlyAddsRelations(db, s, batch, version, step.now);
  }

  /** Assertion reads at `t` do not see a source observed after `t`, nor does their order or limit. */
  lemma PublishLeavesPastAssertions(db: Db, step: Step, f: Filter, rank: Rank)
    requires Inv(db) && f.asOf.Some? && PublishesAfter(step, f.asOf.value)
    ensures VisibleRows(Apply(db, step), f) == VisibleRows(db, f)
    ensures QueryAssertions(Apply(db, step), f, rank) == QueryAssertions(db, f, rank)
  {
    if Apply(db, step) != db {
      LatePublication(db, step, f.asOf.value);
      forall a ensures (Selected(db, f, a) <==> Selected(Apply(db, step), f, a))
                       && (Selected(db, f, a) ==> RowOf(db, a) == RowOf(Apply(db, step), a)) {
        LateChangeKeepsRow(db, Apply(db, step), PublishedKey(step), f.asOf.value, f, a);
      }
      SameSelectionSameRows(db, Apply(db, step), f);
      SameRowsSameAnswer(db, Apply(db, step), f, rank);
    }
  }

  ghost predicate SameSelection(before: Db, after: Db, f: Filter) {
    && before.messages == after.messages
    && (forall a :: Selected(before, f, a) <==> Selected(after, f, a))
    && (forall a :: Selected(before, f, a) ==> RowOf(before, a) == RowOf(after, a))
  }

  lemma SameSelectionSameRows(before: Db, after: Db, f: Filter)
    requires SameSelection(before, after, f)
    ensures VisibleRows(before, f) == VisibleRows(after, f)
  {
    forall row ensures row in VisibleRows(before, f) <==> row in VisibleRows(after, f) {
      if row in VisibleRows(before, f) {
        var a :| a in before.assertions && Selected(before, f, a) && row == RowOf(before, a);
        assert Selected(after, f, a);
      }
      if row in VisibleRows(after, f) {
        var a :| a in after.assertions && Selected(after, f, a) && row == RowOf(after, a);
        assert Selected(before, f, a);
      }
    }
  }

  ghost predicate SameRelationSelection(before: Db, after: Db, f: RelationFilter) {
    && before.messages == after.messages
    && (forall r :: SelectedRelation(before, f, r) <==> SelectedRelation(after, f, r))
    && (forall r :: SelectedRelation(before, f, r) ==> RelationRowOf(before, r) == RelationRowOf(after, r))
  }

  lemma SameSelectionSameRelations(before: Db, after: Db, f: RelationFilter)
    requires SameRelationSelection(before, after, f)
    ensures VisibleRelations(before, f) == VisibleRelations(after, f)
  {
    forall row ensures row in VisibleRelations(before, f) <==> row in VisibleRelations(after, f) {
      if row in VisibleRelations(before, f) {
        var r :| r in before.relations && SelectedRelation(before, f, r) && row == RelationRowOf(before, r);
        assert SelectedRelation(after, f, r);
      }
      if row in VisibleRelations(after, f) {
        var r :| r in after.relations && SelectedRelation(after, f, r) && row == RelationRowOf(after, r);
        assert SelectedRelation(before, f, r);
      }
    }
  }

  lemma SameRowsSameAnswer(before: Db, after: Db, f: Filter, rank: Rank)
    requires VisibleRows(before, f) == VisibleRows(after, f) && before.messages == after.messages
    ensures QueryAssertions(before, f, rank) == QueryAssertions(after, f, rank)
  {
  }

  lemma SameRelationsSameAnswer(before: Db, after: Db, f: RelationFilter, rank: RelationRank)
    requires VisibleRelations(before, f) == VisibleRelations(after, f) && before.messages == after.messages
    ensures QueryRelations(before, f, rank) == QueryRelations(after, f, rank)
  {
  }

  /** The step publishes under the receipt that recorded the relation. */
  predicate PublishesReceiptOf(step: Step, r: Relation) {
    step.PublishStep? && ValidVersion(step.version).Ok? && KeyOfRelation(r) == PublishedKey(step)
  }

  /**
   The guard of the branch that reactivates a receipt: the batch prepares, the message still reads as
   in the snapshot, no receipt of the source and version is active, and the published one recorded
   this very batch.
   */
  predicate Reactivation(db: Db, step: Step) {
    && step.PublishStep? && ValidVersion(step.version).Ok?
    && var version := ValidVersion(step.version).value;
       var prepared := Prepare(step.snapshot, step.candidates, step.relations, version);
       && prepared.Ok?
       && step.snapshot.storeId in db.messages && db.messages[step.snapshot.storeId] == step.snapshot.message
       && !HasActive(db, step.snapshot.storeId, version)
       && PublishedKey(step) in db.receipts && db.receipts[PublishedKey(step)].digest == prepared.value
  }

  /** The step reactivates no receipt, or the read shows none of the relations recorded under it. */
  ghost predicate Untouched(db: Db, step: Step, f: RelationFilter) {
    Reactivation(db, step) ==> forall r :: SelectedRelation(db, f, r) ==> !PublishesReceiptOf(step, r)
  }

  lemma ReactivationChanges(db: Db, step: Step)
    requires Reactivation(db, step)
    ensures Apply(db, step) != db
  {
    assert IsActive(Apply(db, step), PublishedKey(step)) && !IsActive(db, PublishedKey(step));
  }

  /** A publication that changes the database without reactivating a receipt records a new one. */
  lemma ReactivatesOrInserts(db: Db, step: Step)
    requires step.PublishStep? && Apply(db, step) != db
    ensures ValidVersion(step.version).Ok? && (Reactivation(db, step) || PublishedKey(step) !in db.receipts)
  {
  }

  ghost predicate SelectionLosesKey(before: Db, after: Db, key: SourceKey, f: RelationFilter) {
    && (forall r :: SelectedRelation(after, f, r) <==> SelectedRelation(before, f, r) && KeyOfRelation(r) != key)
    && (forall r :: SelectedRelation(after, f, r) ==> RelationRowOf(before, r) == RelationRowOf(after, r))
  }

  lemma LateSelection(before: Db, after: Db, key: SourceKey, t: real, f: RelationFilter)
    requires LateChange(before, after, key, t) && LateRows(before, after, key, t) && f.asOf == Some(t)
    ensures SelectionLosesKey(before, after, key, f)
    ensures !f.includeInvalidated ==> forall r :: SelectedRelation(before, f, r) ==> KeyOfRelation(r) != key
  {
    forall r
      ensures SelectedRelation(after, f, r) <==> SelectedRelation(before, f, r) && KeyOfRelation(r) != key
      ensures SelectedRelation(after, f, r) ==> RelationRowOf(before, r) == RelationRowOf(after, r)
      ensures SelectedRelation(before, f, r) && KeyOfRelation(r) == key ==> f.includeInvalidated
    {
      LateChangeOnRelation(before, after, key, t, f, r);
    }
  }

  lemma LateVisible(before: Db, after: Db, key: SourceKey, f: RelationFilter)
    requires SelectionLosesKey(before, after, key, f) && before.messages == after.messages
    ensures VisibleRelations(after, f) <= VisibleRelations(before, f)
    ensures VisibleRelations(after, f) == VisibleRelations(before, f) <==>
      forall r :: SelectedRelation(before, f, r) ==> KeyOfRelation(r) != key
  {
    VisibleOnlyShrinks(before, after, f);
    if r :| SelectedRelation(before, f, r) && KeyOfRelation(r) == key {
      MissingRelationShows(before, after, f, r);
    } else {
      SameSelectionSameRelations(before, after, f);
    }
  }

  lemma VisibleOnlyShrinks(db: Db, after: Db, f: RelationFilter)
    requires forall r :: SelectedRelation(after, f, r) ==> SelectedRelation(db, f, r) && RelationRowOf(db, r) == RelationRowOf(after, r)
    ensures VisibleRelations(after, f) <= VisibleRelations(db, f)
  {
  }

  lemma MissingRelationShows(db: Db, after: Db, f: RelationFilter, r: Relation)
    requires SelectedRelation(db, f, r) && !SelectedRelation(after, f, r)
    ensures VisibleRelations(after, f) != VisibleRelations(db, f)
  {
    assert RelationRowOf(db, r) in VisibleRelations(db, f);
  }

  /**
   A publication observed after `t` never adds to a relation read at `t`, and leaves it as it was
   exactly when it reactivates no receipt or the read shows no relation of the one it reactivates.
   Reads of valid relations never do; a read that includes invalidated ones loses those of a
   reactivated receipt, because the receipt takes the new observation time.
   */
  lemma PublishLeavesPastRelationsIff(db: Db, step: Step, f: RelationFilter)
    requires Inv(db) && f.asOf.Some? && PublishesAfter(step, f.asOf.value)
    ensures VisibleRelations(Apply(db, step), f) <= VisibleRelations(db, f)
    ensures VisibleRelations(Apply(db, step), f) == VisibleRelations(db, f) <==> Untouched(db, step, f)
    ensures !f.includeInvalidated ==> Untouched(db, step, f)
  {
    var after := Apply(db, step);
    if after != db {
      LatePublication(db, step, f.asOf.value);
      LateSelection(db, after, PublishedKey(step), f.asOf.value, f);
      LateVisible(db, after, PublishedKey(step), f);
      ReactivatesOrInserts(db, step);
    } else if Reactivation(db, step) {
      ReactivationChanges(db, step);
    }
  }

  /** Order and limit of an untouched relation read are untouched too. */
  lemma PublishLeavesPastRelations(db: Db, step: Step, f: RelationFilter, rank: RelationRank)
    requires Inv(db) && f.asOf.Some? && PublishesAfter(step, f.asOf.value)
    requires f.includeInvalidated ==> Untouched(db, step, f)
    ensures VisibleRelations(Apply(db, step), f) == VisibleRelations(db, f)
    ensures QueryRelations(Apply(db, step), f, rank) == QueryRelations(db, f, rank)
  {
    PublishLeavesPastRelationsIff(db, step, f);
    if Apply(db, step) != db {
      LatePublication(db, step, f.asOf.value);
    }
    SameRelationsSameAnswer(db, Apply(db, step), f, rank);
  }

  ghost predicate RunUntouched(db: Db, steps: seq<Step>, f: RelationFilter)
    decreases |steps|
  {
    steps == [] || (Untouched(db, steps[0], f) && RunUntouched(Apply(db, steps[0]), steps[1..], f))
  }

  /** Over any history of later publications a relation read at `t` only loses rows, and none exactly when no step touches it. */
  lemma {:induction false} PastRelationsStableIff(db: Db, steps: seq<Step>, f: RelationFilter)
    requires Inv(db) && f.asOf.Some?
    requires forall i :: 0 <= i < |steps| ==> PublishesAfter(steps[i], f.asOf.value)
    ensures VisibleRelations(Run(db, steps), f) <= VisibleRelations(db, f)
    ensures VisibleRelations(Run(db, steps), f) == VisibleRelations(db, f) <==> RunUntouched(db, steps, f)
    ensures !f.includeInvalidated ==> RunUntouched(db, steps, f)
    decreases |steps|
  {
    if steps != [] {
      StepKeepsInv(db, steps[0]);
      PublishLeavesPastRelationsIff(db, steps[0], f);
      PastRelationsStableIff(Apply(db, steps[0]), steps[1..], f);
    }
  }

  /** Over any history of later publications that does not touch it a read at `t` keeps its answer. */
  lemma {:induction false} PastIsStable(db: Db, steps: seq<Step>, f: Filter, g: RelationFilter, t: real,
                                        rank: Rank, relationRank: RelationRank)
    requires Inv(db) && f.asOf == g.asOf == Some(t)
    requires forall i :: 0 <= i < |steps| ==> PublishesAfter(steps[i], t)
    requires g.includeInvalidated ==> RunUntouched(db, steps, g)
    ensures QueryAssertions(Run(db, steps), f, rank) == QueryAssertions(db, f, rank)
    ensures QueryRelations(Run(db, steps), g, relationRank) == QueryRelations(db, g, relationRank)
    decreases |steps|
  {
    if steps != [] {
      StepKeepsInv(db, steps[0]);
      PublishLeavesPastAssertions(db, steps[0], f, rank);
      PublishLeavesPastRelations(db, steps[0], g, relationRank);
      PastIsStable(Apply(db, steps[0]), steps[1..], f, g, t, rank, relationRank);
    }
  }
}
