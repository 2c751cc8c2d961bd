/** What removing an extraction version does to relations that other versions recorded. */
module AssertionRemoval {
  import opened Wrappers
  import opened AssertionModel
  import opened AssertionHistory

  // ---------------------------------------------------------------- no relation dangles

  ghost predicate EndpointStored(db: Db, id: AssertionId) {
    id.IdOf? && id.assertion in db.assertions
  }

  ghost predicate EndpointsStored(db: Db) {
    forall r :: r in db.relations ==> EndpointStored(db, r.from) && EndpointStored(db, r.to)
  }

  lemma PublishKeepsEndpoints(db: Db, s: Snapshot, batch: Batch, version: string, now: real)
    requires EndpointsStored(db) && Publish(db, s, batch, version, now).Ok?
    ensures EndpointsStored(Publish(db, s, batch, version, now).value.db)
  {
    PublishShape(db, s, batch, version, now);
    var after := Publish(db, s, batch, version, now).value.db;
    forall r | r in after.relations ensures EndpointStored(after, r.from) && EndpointStored(after, r.to) {
      assert r in db.relations ==> EndpointStored(db, r.from) && EndpointStored(db, r.to);
    }
  }

  lemma RemovalKeepsEndpoints(db: Db, version: string)
    requires AssertionsMatch(db) && EndpointsStored(db)
    ensures EndpointsStored(RemoveVersion(db, version))
  {
    var after := RemoveVersion(db, version);
    forall r | r in after.relations ensures EndpointStored(after, r.from) && EndpointStored(after, r.to) {
      assert EndpointStored(db, r.from) && EndpointStored(db, r.to);
    }
  }

  lemma StepKeepsEndpoints(db: Db, step: Step)
    requires Inv(db) && EndpointsStored(db)
    ensures EndpointsStored(Apply(db, step))
  {
    match step
    case PublishStep(s, cs, rs, version, now) =>
      if PublishSource(db, step).Ok? {
        var valid := ValidVersion(version).value;
        PublishKeepsEndpoints(db, s, Prepare(s, cs, rs, valid).value, valid, now);
      }
    case RemoveVersionStep(version) =>
      if ValidVersion(version).Ok? {
        RemovalKeepsEndpoints(db, ValidVersion(version).value);
      }
    case _ =>
  }

  /** Over every run each stored relation has both its endpoints stored. */
  lemma {:induction false} RunKeepsEndpoints(db: Db, steps: seq<Step>)
    requires Inv(db) && EndpointsStored(db)
    ensures EndpointsStored(Run(db, steps))
    decreases |steps|
  {
    if steps != [] {
      StepKeepsInv(db, steps[0]);
      StepKeepsEndpoints(db, steps[0]);
      RunKeepsEndpoints(Apply(db, steps[0]), steps[1..]);
    }
  }

  // ---------------------------------------------------------------- relations lost with an endpoint

  /** A relation that survives by its own receipt but loses a row it points at. */
  ghost predicate LosesAnEndpoint(db: Db, version: string, r: Relation) {
    && r in db.relations && !IsRemoved(db, version, KeyOfRelation(r))
    && (LosesEndpoint(db, version, r.from) || LosesEndpoint(db, version, r.to))
  }

  /**
   Removing a version leaves every remaining receipt with all the relations of its digest exactly
   when no relation of another version points at a row of the removed one.
   */
  lemma RemovalKeepsRelationsIff(db: Db, version: string)
    requires RelationsAmong(db) && RelationsComplete(db)
    ensures RelationsComplete(RemoveVersion(db, version)) <==> forall r :: !LosesAnEndpoint(db, version, r)
  {
    var after := RemoveVersion(db, version);
    if r :| LosesAnEndpoint(db, version, r) {
      assert InDigest(db, r) && InDigest(after, r) && r !in after.relations;
    } else {
      forall r | InDigest(after, r) ensures r in after.relations {
        assert InDigest(db, r);
        assert !LosesAnEndpoint(db, version, r);
      }
    }
  }

  ghost predicate CleanRemoval(db: Db, step: Step) {
    step.RemoveVersionStep? && ValidVersion(step.version).Ok? ==>
      forall r :: !LosesAnEndpoint(db, ValidVersion(step.version).value, r)
  }

  ghost predicate RemovalsClean(db: Db, steps: seq<Step>)
    decreases |steps|
  {
    steps == [] || (CleanRemoval(db, steps[0]) && RemovalsClean(Apply(db, steps[0]), steps[1..]))
  }

  lemma PublishKeepsRelations(db: Db, s: Snapshot, batch: Batch, version: string, now: real)
    requires RelationsComplete(db) && Publish(db, s, batch, version, now).Ok?
    requires BatchOf(batch, SourceKey(s.storeId, version, s.message.content))
    ensures RelationsComplete(Publish(db, s, batch, version, now).value.db)
  {
    PublishShape(db, s, batch, version, now);
    var after := Publish(db, s, batch, version, now).value.db;
    forall r | InDigest(after, r) ensures r in after.relations {
      assert InDigest(db, r) || r in batch.relations;
    }
  }

  lemma InvalidateKeepsRelations(db: Db, storeId: int, at: real, reason: string)
    requires RelationsComplete(db)
    ensures RelationsComplete(Invalidate(db, storeId, at, reason))
  {
    forall r | InDigest(Invalidate(db, storeId, at, reason), r) ensures r in db.relations {
      assert InDigest(db, r);
    }
  }

  lemma StepKeepsRelations(db: Db, step: Step)
    requires Inv(db) && RelationsComplete(db) && CleanRemoval(db, step)
    ensures RelationsComplete(Apply(db, step))
  {
    match step
    case PublishStep(s, cs, rs, version, now) =>
      if PublishSource(db, step).Ok? {
        var valid := ValidVersion(version).value;
        PreparedBatch(s, cs, rs, valid);
        PublishKeepsRelations(db, s, Prepare(s, cs, rs, valid).value, valid, now);
      }
    case InvalidateStep(storeId, at, reason) => InvalidateKeepsRelations(db, storeId, at, reason);
    case WriteMessageStep(storeId, message, at) =>
      var written := db.(messages := db.messages[storeId := message]);
      assert forall r :: InDigest(written, r) <==> InDigest(db, r);
      InvalidateKeepsRelations(written, storeId, at, "source_updated");
    case DeleteMessageStep(storeId, at) =>
      var deleted := db.(messages := db.messages - {storeId});
      assert forall r :: InDigest(deleted, r) <==> InDigest(db, r);
      InvalidateKeepsRelations(deleted, storeId, at, "source_deleted");
    case RemoveVersionStep(version) =>
      if ValidVersion(version).Ok? {
        RemovalKeepsRelationsIff(db, ValidVersion(version).value);
      }
  }

  /** Over every run whose removals are clean, stored relations are exactly those of the digests. */
  lemma {:induction false} RunKeepsRelations(db: Db, steps: seq<Step>)
    requires Inv(db) && RelationsComplete(db) && RemovalsClean(db, steps)
    ensures RelationsComplete(Run(db, steps))
    decreases |steps|
  {
    if steps != [] {
      StepKeepsInv(db, steps[0]);
      StepKeepsRelations(db, steps[0]);
      RunKeepsRelations(Apply(db, steps[0]), steps[1..]);
    }
  }

  lemma PublishRestoresNothing(db: Db, s: Snapshot, batch: Batch, version: string, now: real, r: Relation)
    requires KeyOfRelation(r) in db.receipts && r !in db.relations
    requires BatchOf(batch, SourceKey(s.storeId, version, s.message.content))
    requires Publish(db, s, batch, version, now).Ok?
    ensures var after := Publish(db, s, batch, version, now).value.db;
      KeyOfRelation(r) in after.receipts && r !in after.relations
  {
    PublishShape(db, s, batch, version, now);
  }

  lemma StepRestoresNothing(db: Db, step: Step, r: Relation)
    requires KeyOfRelation(r) in db.receipts && r !in db.relations
    requires step.RemoveVersionStep? ==> ValidVersion(step.version) != Ok(r.version)
    ensures KeyOfRelation(r) in Apply(db, step).receipts && r !in Apply(db, step).relations
  {
    if step.PublishStep? && PublishSource(db, step).Ok? {
      var valid := ValidVersion(step.version).value;
      PreparedBatch(step.snapshot, step.candidates, step.relations, valid);
      PublishRestoresNothing(db, step.snapshot, Prepare(step.snapshot, step.candidates, step.relations, valid).value, valid,
                             step.now, r);
    }
  }

  /** A relation lost while its receipt stays is never stored again until its own version is removed. */
  lemma {:induction false} LostRelationStaysLost(db: Db, steps: seq<Step>, r: Relation)
    requires KeyOfRelation(r) in db.receipts && r !in db.relations
    requires forall i :: 0 <= i < |steps| && steps[i].RemoveVersionStep? ==> ValidVersion(steps[i].version) != Ok(r.version)
    ensures r !in Run(db, steps).relations
    decreases |steps|
  {
    if steps != [] {
      StepRestoresNothing(db, steps[0], r);
      LostRelationStaysLost(Apply(db, steps[0]), steps[1..], r);
    }
  }
}
