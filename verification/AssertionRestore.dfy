/** Invalidating a source and publishing the same batch again: what comes back. */
module AssertionRestore {
  import opened Wrappers
  import opened AssertionModel
  import opened AssertionHistory
  import opened AssertionQuery

  /** The publication is recorded and active under its message as it reads now. */
  ghost predicate Recorded(db: Db, step: Step) {
    && step.PublishStep?
    && ValidVersion(step.version).Ok?
    && var version := ValidVersion(step.version).value;
       var prepared := Prepare(step.snapshot, step.candidates, step.relations, version);
       && prepared.Ok?
       && PublishedKey(step) in db.receipts
       && db.receipts[PublishedKey(step)] == NewReceipt(step.snapshot, prepared.value)
       && step.snapshot.storeId in db.messages
       && db.messages[step.snapshot.storeId] == step.snapshot.message
  }

  function Restored(db: Db, step: Step, at: real, reason: string): Db
    requires step.PublishStep?
  {
    Apply(Invalidate(db, step.snapshot.storeId, at, reason), step)
  }

  /** Every receipt of the published version is back; other versions of the source stay invalidated. */
  ghost predicate BackExceptOtherVersions(db: Db, after: Db, key: SourceKey) {
    && after.messages == db.messages && after.assertions == db.assertions && after.relations == db.relations
    && after.receipts.Keys == db.receipts.Keys
    && (forall k :: k in db.receipts && (k.version == key.version || k.storeId != key.storeId) ==>
          after.receipts[k] == db.receipts[k])
    && (forall k :: k in db.receipts && k.version != key.version && k.storeId == key.storeId ==>
          after.receipts[k].invalidated.Some?)
  }

  lemma RepublishingReactivates(db: Db, step: Step, at: real, reason: string)
    requires Inv(db) && Recorded(db, step)
    ensures BackExceptOtherVersions(db, Restored(db, step, at, reason), PublishedKey(step))
  {
    var key := PublishedKey(step);
    var gone := Invalidate(db, step.snapshot.storeId, at, reason);
    NothingActiveAfterInvalidation(db, key, at, reason);
    assert Restored(db, step, at, reason) == gone.(receipts := gone.receipts[key := db.receipts[key]]);
  }

  lemma NothingActiveAfterInvalidation(db: Db, key: SourceKey, at: real, reason: string)
    requires OneActive(db) && IsActive(db, key)
    ensures var gone := Invalidate(db, key.storeId, at, reason);
      && !HasActive(gone, key.storeId, key.version)
      && (forall k :: k in db.receipts && (k.version == key.version || k.storeId != key.storeId) && k != key ==>
            gone.receipts[k] == db.receipts[k])
  {
    var gone := Invalidate(db, key.storeId, at, reason);
    assert forall k :: IsActive(gone, k) ==> k.storeId != key.storeId;
    forall k | k in db.receipts && (k.version == key.version || k.storeId != key.storeId) && k != key
      ensures gone.receipts[k] == db.receipts[k]
    {
      assert IsActive(db, k) && k.version == key.version ==> k.storeId != key.storeId;
    }
  }

  lemma RestoredRow(db: Db, after: Db, key: SourceKey, f: Filter, a: Assertion)
    requires BackExceptOtherVersions(db, after, key) && f.version == key.version
    ensures Selected(after, f, a) <==> Selected(db, f, a)
    ensures Selected(db, f, a) ==> RowOf(after, a) == RowOf(db, a)
  {
  }

  /** Assertion reads of the version return exactly what they returned before the invalidation. */
  lemma RepublishingRestoresAssertions(db: Db, step: Step, at: real, reason: string, f: Filter, rank: Rank)
    requires Inv(db) && Recorded(db, step) && f.version == ValidVersion(step.version).value
    ensures QueryAssertions(Restored(db, step, at, reason), f, rank) == QueryAssertions(db, f, rank)
  {
    var after := Restored(db, step, at, reason);
    RepublishingReactivates(db, step, at, reason);
    forall a ensures Selected(after, f, a) <==> Selected(db, f, a)
             ensures Selected(db, f, a) ==> RowOf(after, a) == RowOf(db, a)
    {
      RestoredRow(db, after, PublishedKey(step), f, a);
    }
    SameSelectionSameRows(db, after, f);
    SameRowsSameAnswer(db, after, f, rank);
  }

  /** The endpoint was asserted by another version of the invalidated source. */
  predicate FromOtherVersion(id: AssertionId, key: SourceKey) {
    id.IdOf? && id.assertion.storeId == key.storeId && id.assertion.version != key.version
  }

  lemma RestoredRelation(db: Db, after: Db, key: SourceKey, f: RelationFilter, r: Relation)
    requires BackExceptOtherVersions(db, after, key) && f.version == key.version
    ensures SelectedRelation(after, f, r) <==>
      SelectedRelation(db, f, r)
      && (f.includeInvalidated || !(FromOtherVersion(r.from, key) || FromOtherVersion(r.to, key)))
    ensures SelectedRelation(db, f, r) ==> RelationRowOf(after, r) == RelationRowOf(db, r)
  {
  }

  /**
   Relation reads of the version come back exactly when no visible relation has an endpoint that
   another version of the same source asserted: invalidation covers every version of a source,
   republication only its own.
   */
  lemma RepublishingRestoresRelationsIff(db: Db, step: Step, at: real, reason: string, f: RelationFilter)
    requires Inv(db) && Recorded(db, step) && f.version == ValidVersion(step.version).value
    ensures VisibleRelations(Restored(db, step, at, reason), f) == VisibleRelations(db, f) <==>
      f.includeInvalidated
      || forall r :: SelectedRelation(db, f, r) ==>
           !FromOtherVersion(r.from, PublishedKey(step)) && !FromOtherVersion(r.to, PublishedKey(step))
  {
    var after, key := Restored(db, step, at, reason), PublishedKey(step);
    RepublishingReactivates(db, step, at, reason);
    forall r ensures SelectedRelation(after, f, r) <==>
      SelectedRelation(db, f, r)
      && (f.includeInvalidated || !(FromOtherVersion(r.from, key) || FromOtherVersion(r.to, key)))
    ensures SelectedRelation(db, f, r) ==> RelationRowOf(after, r) == RelationRowOf(db, r)
    {
      RestoredRelation(db, after, key, f, r);
    }
    if r :| SelectedRelation(db, f, r) && !SelectedRelation(after, f, r) {
      LostRelationShows(db, after, f, r);
    } else {
      assert SameRelationSelection(db, after, f);
      SameSelectionSameRelations(db, after, f);
    }
  }

  lemma LostRelationShows(db: Db, after: Db, f: RelationFilter, r: Relation)
    requires SelectedRelation(db, f, r) && !SelectedRelation(after, f, r)
    ensures VisibleRelations(after, f) != VisibleRelations(db, f)
  {
    assert RelationRowOf(db, r) in VisibleRelations(db, f);
  }

  /** When they come back, they come back in the same order and under the same limit. */
  lemma RepublishingRestoresRelations(db: Db, step: Step, at: real, reason: string, f: RelationFilter, rank: RelationRank)
    requires Inv(db) && Recorded(db, step) && f.version == ValidVersion(step.version).value
    requires forall r :: SelectedRelation(db, f, r) ==>
      !FromOtherVersion(r.from, PublishedKey(step)) && !FromOtherVersion(r.to, PublishedKey(step))
    ensures QueryRelations(Restored(db, step, at, reason), f, rank) == QueryRelations(db, f, rank)
  {
    RepublishingRestoresRelationsIff(db, step, at, reason, f);
    RepublishingReactivates(db, step, at, reason);
    SameRelationsSameAnswer(db, Restored(db, step, at, reason), f, rank);
  }
}
