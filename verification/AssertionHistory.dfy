/**
 What every sequence of publications, invalidations, message writes and version removals keeps,
 and how the bitemporal reads behave over such a history.
 */
module AssertionHistory {
  import opened Wrappers
  import opened AssertionModel

  datatype Step =
    | PublishStep(snapshot: Snapshot, candidates: seq<Candidate>, relations: seq<RelationCandidate>,
                  version: string, now: real)
    | InvalidateStep(storeId: int, at: real, reason: string)
    | WriteMessageStep(storeId: int, message: Message, at: real)
    | DeleteMessageStep(storeId: int, at: real)
    | RemoveVersionStep(version: string)

  function PublishSource(db: Db, step: Step): Result<Published, Error>
    requires step.PublishStep?
  {
    match ValidVersion(step.version)
    case Err(error) => Err(error)
    case Ok(version) =>
      match Prepare(step.snapshot, step.candidates, step.relations, version)
      case Err(error) => Err(error)
      case Ok(batch) => Publish(db, step.snapshot, batch, version, step.now)
  }

  function Apply(db: Db, step: Step): Db {
    match step
    case PublishStep(_, _, _, _, _) =>
      (match PublishSource(db, step)
       case Err(_) => db
       case Ok(published) => published.db)
    case InvalidateStep(storeId, at, reason) => Invalidate(db, storeId, at, reason)
    case WriteMessageStep(storeId, message, at) => WriteMessage(db, storeId, message, at)
    case DeleteMessageStep(storeId, at) => DeleteMessage(db, storeId, at)
    case RemoveVersionStep(version) =>
      (match ValidVersion(version)
       case Err(_) => db
       case Ok(valid) => RemoveVersion(db, valid))
  }

  ghost function Run(db: Db, steps: seq<Step>): Db
    decreases |steps|
  {
    if steps == [] then db else Run(Apply(db, steps[0]), steps[1..])
  }

  // ---------------------------------------------------------------- invariant

  ghost predicate OneActive(db: Db) {
    forall k, l :: IsActive(db, k) && IsActive(db, l) && k.storeId == l.storeId && k.version == l.version ==> k == l
  }

  ghost predicate InDigest(db: Db, r: Relation) {
    KeyOfRelation(r) in db.receipts && r in db.receipts[KeyOfRelation(r)].digest.relations
  }

  /**
   The assertions stored under a receipt are exactly those its digest was computed from; the
   relations are among them.
   */
  ghost predicate RowsMatchDigests(db: Db) {
    AssertionsMatch(db) && RelationsAmong(db)
  }

  ghost predicate AssertionsMatch(db: Db) {
    forall a :: a in db.assertions <==>
      KeyOfAssertion(a) in db.receipts && a in db.receipts[KeyOfAssertion(a)].digest.assertions
  }

  ghost predicate RelationsAmong(db: Db) {
    forall r :: r in db.relations ==> InDigest(db, r)
  }

  /** No relation of a digest is missing from the table. */
  ghost predicate RelationsComplete(db: Db) {
    forall r :: InDigest(db, r) ==> r in db.relations
  }

  /** Batches under a receipt come from that source at its observation time, and quote it at their spans. */
  ghost predicate DigestsWellFormed(db: Db) {
    forall k :: k in db.receipts ==>
      BatchOf(db.receipts[k].digest, k) && ObservedAt(db.receipts[k].digest, db.receipts[k].timestamp)
  }

  ghost predicate BatchOf(batch: Batch, k: SourceKey) {
    && (forall a :: a in batch.assertions ==>
          KeyOfAssertion(a) == k && 0 <= a.start < a.end <= |k.content| && a.quote == k.content[a.start..a.end])
    && (forall r :: r in batch.relations ==>
          KeyOfRelation(r) == k && 0 <= r.start < r.end <= |k.content| && r.quote == k.content[r.start..r.end])
  }

  ghost predicate ActiveIsCurrent(db: Db) {
    forall k :: IsActive(db, k) ==> k.storeId in db.messages && db.messages[k.storeId].content == k.content
  }

  ghost predicate Inv(db: Db) {
    OneActive(db) && RowsMatchDigests(db) && DigestsWellFormed(db) && ActiveIsCurrent(db)
  }

  ghost predicate ObservedAt(batch: Batch, at: real) {
    forall a :: a in batch.assertions ==> a.observedAt == at
  }

  // ---------------------------------------------------------------- preparation

  lemma {:induction false} PreparedAssertions(s: Snapshot, cs: seq<Candidate>, version: string)
    requires PrepareAssertions(s, cs, version).Ok?
    ensures var k := SourceKey(s.storeId, version, s.message.content);
      forall i :: 0 <= i < |PrepareAssertions(s, cs, version).value| ==>
        var a := PrepareAssertions(s, cs, version).value[i];
        && KeyOfAssertion(a) == k && a.observedAt == s.message.timestamp
        && 0 <= a.start < a.end <= |k.content| && a.quote == k.content[a.start..a.end]
  {
    if cs != [] {
      PreparedAssertions(s, cs[..|cs| - 1], version);
    }
  }

  lemma {:induction false} PreparedRelations(s: Snapshot, cs: seq<RelationCandidate>, version: string)
    requires PrepareRelations(s, cs, version).Ok?
    ensures var k := SourceKey(s.storeId, version, s.message.content);
      forall i :: 0 <= i < |PrepareRelations(s, cs, version).value| ==>
        var r := PrepareRelations(s, cs, version).value[i];
        && KeyOfRelation(r) == k
        && 0 <= r.start < r.end <= |k.content| && r.quote == k.content[r.start..r.end]
  {
    if cs != [] {
      PreparedRelations(s, cs[..|cs| - 1], version);
    }
  }

  lemma PreparedBatch(s: Snapshot, cs: seq<Candidate>, rs: seq<RelationCandidate>, version: string)
    requires Prepare(s, cs, rs, version).Ok?
    ensures BatchOf(Prepare(s, cs, rs, version).value, SourceKey(s.storeId, version, s.message.content))
    ensures ObservedAt(Prepare(s, cs, rs, version).value, s.message.timestamp)
  {
    PreparedAssertions(s, cs, version);
    PreparedRelations(s, rs, version);
  }

  // ---------------------------------------------------------------- steps keep the invariant

  /** A committed publication leaves all as it was, reactivates a receipt, or inserts a new one with its rows. */
  ghost predicate Reactivates(db: Db, after: Db, key: SourceKey, receipt: Receipt) {
    && key in db.receipts && db.receipts[key].digest == receipt.digest
    && after == db.(receipts := db.receipts[key := receipt])
  }

  ghost predicate Inserts(db: Db, after: Db, key: SourceKey, receipt: Receipt, now: real) {
    && key !in db.receipts
    && receipt.digest.assertions !! db.assertions.Keys && receipt.digest.relations !! db.relations.Keys
    && after == Db(db.messages, db.receipts[key := receipt],
                   db.assertions + (map a | a in receipt.digest.assertions :: now),
                   db.relations + (map r | r in receipt.digest.relations :: now))
  }

  lemma PublishShape(db: Db, s: Snapshot, batch: Batch, version: string, now: real)
    requires Publish(db, s, batch, version, now).Ok?
    ensures var after := Publish(db, s, batch, version, now).value.db;
      var key := SourceKey(s.storeId, version, s.message.content);
      after == db || Reactivates(db, after, key, NewReceipt(s, batch)) || Inserts(db, after, key, NewReceipt(s, batch), now)
  {
  }

  lemma InsertKeepsRows(db: Db, after: Db, key: SourceKey, receipt: Receipt, now: real)
    requires RowsMatchDigests(db) && BatchOf(receipt.digest, key) && Inserts(db, after, key, receipt, now)
    ensures AssertionsMatch(after)
    ensures RelationsAmong(after)
  {
    forall r | r in after.relations ensures InDigest(after, r) {
      assert r in db.relations ==> InDigest(db, r);
    }
  }

  lemma PublishKeepsRows(db: Db, s: Snapshot, batch: Batch, version: string, now: real)
    requires Inv(db) && BatchOf(batch, SourceKey(s.storeId, version, s.message.content))
    requires Publish(db, s, batch, version, now).Ok?
    ensures RowsMatchDigests(Publish(db, s, batch, version, now).value.db)
  {
    PublishShape(db, s, batch, version, now);
    var after := Publish(db, s, batch, version, now).value.db;
    var key := SourceKey(s.storeId, version, s.message.content);
    if Inserts(db, after, key, NewReceipt(s, batch), now) {
      InsertKeepsRows(db, after, key, NewReceipt(s, batch), now);
    }
  }

  lemma PublishKeepsDigests(db: Db, s: Snapshot, batch: Batch, version: string, now: real)
    requires Inv(db) && BatchOf(batch, SourceKey(s.storeId, version, s.message.content)) && ObservedAt(batch, s.message.timestamp)
    requires Publish(db, s, batch, version, now).Ok?
    ensures DigestsWellFormed(Publish(db, s, batch, version, now).value.db)
  {
  }

  lemma PublishKeepsInv(db: Db, s: Snapshot, batch: Batch, version: string, now: real)
    requires Inv(db) && BatchOf(batch, SourceKey(s.storeId, version, s.message.content)) && ObservedAt(batch, s.message.timestamp)
    requires Publish(db, s, batch, version, now).Ok?
    ensures Inv(Publish(db, s, batch, version, now).value.db)
  {
    PublishKeepsRows(db, s, batch, version, now);
    PublishKeepsDigests(db, s, batch, version, now);
    var after := Publish(db, s, batch, version, now).value.db;
    var key := SourceKey(s.storeId, version, s.message.content);
    assert forall k :: IsActive(after, k) ==> k == key || IsActive(db, k);
  }

  lemma InvalidateKeepsInv(db: Db, storeId: int, at: real, reason: string)
    requires OneActive(db) && RowsMatchDigests(db) && DigestsWellFormed(db)
    requires forall k :: IsActive(db, k) && k.storeId != storeId ==>
      k.storeId in db.messages && db.messages[k.storeId].content == k.content
    ensures Inv(Invalidate(db, storeId, at, reason))
  {
    var after := Invalidate(db, storeId, at, reason);
    assert forall k :: IsActive(after, k) <==> IsActive(db, k) && k.storeId != storeId;
  }

  lemma WriteKeepsInv(db: Db, storeId: int, message: Message, at: real)
    requires Inv(db)
    ensures Inv(WriteMessage(db, storeId, message, at))
  {
    var written := db.(messages := db.messages[storeId := message]);
    assert forall k :: IsActive(written, k) <==> IsActive(db, k);
    if storeId in db.messages && db.messages[storeId].content != message.content {
      InvalidateKeepsInv(written, storeId, at, "source_updated");
    }
  }

  lemma DeleteKeepsInv(db: Db, storeId: int, at: real)
    requires Inv(db)
    ensures Inv(DeleteMessage(db, storeId, at))
  {
    if storeId in db.messages {
      var deleted := db.(messages := db.messages - {storeId});
      assert forall k :: IsActive(deleted, k) <==> IsActive(db, k);
      InvalidateKeepsInv(deleted, storeId, at, "source_deleted");
    }
  }

  lemma RemoveKeepsInv(db: Db, version: string)
    requires Inv(db)
    ensures Inv(RemoveVersion(db, version))
  {
    var after := RemoveVersion(db, version);
    assert forall k :: IsActive(after, k) ==> IsActive(db, k);
    forall r | r in after.relations ensures InDigest(after, r) {
      assert InDigest(db, r);
    }
  }

  lemma StepKeepsInv(db: Db, step: Step)
    requires Inv(db)
    ensures Inv(Apply(db, step))
  {
    match step
    case PublishStep(s, cs, rs, version, now) =>
      if PublishSource(db, step).Ok? {
        var valid := ValidVersion(version).value;
        PreparedBatch(s, cs, rs, valid);
        PublishKeepsInv(db, s, Prepare(s, cs, rs, valid).value, valid, now);
      }
    case InvalidateStep(storeId, at, reason) => InvalidateKeepsInv(db, storeId, at, reason);
    case WriteMessageStep(storeId, message, at) => WriteKeepsInv(db, storeId, message, at);
    case DeleteMessageStep(storeId, at) => DeleteKeepsInv(db, storeId, at);
    case RemoveVersionStep(version) =>
      if ValidVersion(version).Ok? {
        RemoveKeepsInv(db, ValidVersion(version).value);
      }
  }

  /**
   Over every sequence of steps each source and version has at most one active receipt, stored
   assertions are exactly those of the receipts' digests, stored relations are among them, and an
   active receipt describes the message as it now reads.
   */
  lemma {:induction false} RunKeepsInv(db: Db, steps: seq<Step>)
    requires Inv(db)
    ensures Inv(Run(db, steps))
    decreases |steps|
  {
    if steps != [] {
      StepKeepsInv(db, steps[0]);
      RunKeepsInv(Apply(db, steps[0]), steps[1..]);
    }
  }

  lemma StepKeepsDigest(db: Db, step: Step, k: SourceKey)
    requires k in db.receipts && (step.RemoveVersionStep? ==> ValidVersion(step.version) != Ok(k.version))
    ensures k in Apply(db, step).receipts && Apply(db, step).receipts[k].digest == db.receipts[k].digest
  {
    if step.PublishStep? && PublishSource(db, step).Ok? {
      var valid := ValidVersion(step.version).value;
      var batch := Prepare(step.snapshot, step.candidates, step.relations, valid).value;
      PublishShape(db, step.snapshot, batch, valid, step.now);
    }
  }

  /** Unless its version is removed, the digest recorded for a source, version and hash never changes. */
  lemma {:induction false} DigestIsPermanent(db: Db, steps: seq<Step>, k: SourceKey)
    requires k in db.receipts
    requires forall i :: 0 <= i < |steps| && steps[i].RemoveVersionStep? ==> ValidVersion(steps[i].version) != Ok(k.version)
    ensures k in Run(db, steps).receipts
    ensures Run(db, steps).receipts[k].digest == db.receipts[k].digest
    decreases |steps|
  {
    if steps != [] {
      StepKeepsDigest(db, steps[0], k);
      DigestIsPermanent(Apply(db, steps[0]), steps[1..], k);
    }
  }

  /** Publishing the batch of an active receipt again changes nothing and says so. */
  lemma RepublishingIsNoop(db: Db, step: Step)
    requires step.PublishStep? && PublishSource(db, step).Ok?
    ensures var published := PublishSource(db, step).value;
      var again := PublishSource(published.db, step);
      && again.Ok? && again.value.db == published.db && again.value.alreadyCurrent
  {
    var key := SourceKey(step.snapshot.storeId, ValidVersion(step.version).value, step.snapshot.message.content);
    assert IsActive(PublishSource(db, step).value.db, key);
  }

  /**
   A publication whose message still reads as planned is refused only for a conflict with the
   recorded output, for a missing endpoint of one of its relations, or not at all.
   */
  lemma FreshPublicationOutcome(db: Db, s: Snapshot, batch: Batch, version: string, now: real)
    requires Inv(db) && BatchOf(batch, SourceKey(s.storeId, version, s.message.content)) && ObservedAt(batch, s.message.timestamp)
    requires s.storeId in db.messages && db.messages[s.storeId] == s.message
    ensures var key := SourceKey(s.storeId, version, s.message.content);
      var outcome := Publish(db, s, batch, version, now);
      && (outcome == Err(PublicationConflict) <==> key in db.receipts && db.receipts[key].digest != batch)
      && outcome != Err(ConstraintFailed)
      && (outcome.Err? ==> outcome.error == PublicationConflict || outcome.error == EndpointMissing)
  {
    var key := SourceKey(s.storeId, version, s.message.content);
    if HasActive(db, s.storeId, version) {
      var k :| k in db.receipts && k.storeId == s.storeId && k.version == version && IsActive(db, k);
      assert k == key;
    }
  }
}
