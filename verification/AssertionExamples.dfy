/** Three short histories in which the store does not keep what it promises. */
module AssertionExamples {
  import opened Wrappers
  import opened Text
  import opened AssertionModel
  import opened AssertionHistory
  import opened AssertionQuery
  import opened AssertionRemoval
  import opened AssertionRestore

  // ---------------------------------------------------------------- three sources, one relation

  function Said(at: real): Message {
    Message("s", "cli", "user", "x", at)
  }

  const CLAIM: Candidate :=
    Candidate(0, 1, "k", "p", "1", "x", "fact", "positive", None, "", None, None, None, Some(1.0), 400)

  function Claimed(storeId: int, version: string): Assertion {
    Assertion(storeId, version, "x", "k", "p", "1", "x", "fact", "positive", None, "", "user", 1.0, None, None, None, 0, 1,
              "x", 1.0)
  }

  const FIRST: Assertion := Claimed(1, "v1")
  const SECOND: Assertion := Claimed(2, "v2")

  function LinkTo(target: Assertion): RelationCandidate {
    RelationCandidate(0, 1, IdOf(FIRST), "supersedes", IdOf(target), Some(1.0), 400)
  }

  function LinkedTo(target: Assertion): Relation {
    Relation(3, "v2", "x", IdOf(FIRST), "supersedes", IdOf(target), 0, 1, "x", 1.0)
  }

  const LINK: RelationCandidate := LinkTo(SECOND)
  const LINKED: Relation := LinkedTo(SECOND)

  const NOTHING: Db :=
    Db(map[1 := Said(1.0), 2 := Said(1.0), 3 := Said(1.0)], map[], map[], map[])

  const PUBLISH_FIRST: Step := PublishStep(Snapshot(1, Said(1.0)), [CLAIM], [], "v1", 2.0)
  const PUBLISH_SECOND: Step := PublishStep(Snapshot(2, Said(1.0)), [CLAIM], [], "v2", 2.0)

  /** The third message, read at `at`, publishes the relation between the first two. */
  function PublishLink(at: real): Step {
    PublishStep(Snapshot(3, Said(at)), [], [LINK], "v2", 2.0)
  }

  function ReceiptFor(at: real, batch: Batch): Receipt {
    Receipt("s", "user", "cli", at, batch, None)
  }

  const FIRST_KEY: SourceKey := SourceKey(1, "v1", "x")
  const SECOND_KEY: SourceKey := SourceKey(2, "v2", "x")
  const LINK_KEY: SourceKey := SourceKey(3, "v2", "x")

  const AFTER_FIRST: Db :=
    NOTHING.(receipts := map[FIRST_KEY := ReceiptFor(1.0, Batch({FIRST}, {}))], assertions := map[FIRST := 2.0])

  const AFTER_SECOND: Db :=
    NOTHING.(receipts := map[FIRST_KEY := ReceiptFor(1.0, Batch({FIRST}, {})),
                             SECOND_KEY := ReceiptFor(1.0, Batch({SECOND}, {}))],
             assertions := map[FIRST := 2.0, SECOND := 2.0])

  const AFTER_LINK: Db :=
    AFTER_SECOND.(receipts := AFTER_SECOND.receipts[LINK_KEY := ReceiptFor(1.0, Batch({}, {LINKED}))],
                  relations := map[LINKED := 2.0])

  // ---------------------------------------------------------------- what the publications prepare

  lemma Versions()
    ensures ValidVersion("v1") == Ok("v1") && ValidVersion("v2") == Ok("v2")
  {
    StripKeeps("v1");
    StripKeeps("v2");
  }

  lemma PreparedClaim(storeId: int, version: string)
    ensures PrepareAssertion(Snapshot(storeId, Said(1.0)), CLAIM, version) == Ok(Claimed(storeId, version))
  {
    StripKeeps("fact");
    LowerKeeps("fact");
    StripKeeps("positive");
    LowerKeeps("positive");
    StripKeeps("k");
    StripKeeps("p");
    StripKeeps("");
    assert "x"[0..1] == "x";
  }

  lemma OneAssertion(s: Snapshot, c: Candidate, version: string, row: Assertion)
    requires PrepareAssertion(s, c, version) == Ok(row)
    ensures PrepareAssertions(s, [c], version) == Ok([row])
    ensures AssertionRowsChars([c]) == c.payloadChars + ASSERTION_ID_CHARS
  {
    assert [c][..0] == [];
    assert PrepareAssertions(s, [], version) == Ok([]);
    assert AssertionRowsChars([]) == 0;
    assert [] + [row] == [row];
  }

  lemma OneRelation(s: Snapshot, c: RelationCandidate, version: string, row: Relation)
    requires PrepareRelation(s, c, version) == Ok(row)
    ensures PrepareRelations(s, [c], version) == Ok([row])
    ensures RelationRowsChars([c]) == c.payloadChars + RELATION_ID_CHARS
  {
    assert [c][..0] == [];
    assert PrepareRelations(s, [], version) == Ok([]);
    assert RelationRowsChars([]) == 0;
    assert [] + [row] == [row];
  }

  lemma AssertionBatch(s: Snapshot, c: Candidate, version: string, row: Assertion)
    requires PrepareAssertion(s, c, version) == Ok(row) && c.payloadChars <= 1000
    ensures Prepare(s, [c], [], version) == Ok(Batch({row}, {}))
  {
    OneAssertion(s, c, version, row);
    assert PrepareRelations(s, [], version) == Ok([]);
    assert ToSet([row]) == {row} && ToSet<Relation>([]) == {};
  }

  lemma RelationBatch(s: Snapshot, c: RelationCandidate, version: string, row: Relation)
    requires PrepareRelation(s, c, version) == Ok(row) && c.payloadChars <= 1000
    ensures Prepare(s, [], [c], version) == Ok(Batch({}, {row}))
  {
    OneRelation(s, c, version, row);
    assert PrepareAssertions(s, [], version) == Ok([]);
    assert ToSet([row]) == {row} && ToSet<Assertion>([]) == {};
  }

  lemma PreparedLink(at: real, target: Assertion)
    requires target != FIRST
    ensures PrepareRelation(Snapshot(3, Said(at)), LinkTo(target), "v2") == Ok(LinkedTo(target))
  {
    StripKeeps("supersedes");
    LowerKeeps("supersedes");
    assert "x"[0..1] == "x";
  }

  // ---------------------------------------------------------------- the common history

  function Stamped<T>(rows: set<T>, now: real): map<T, real> {
    map row | row in rows :: now
  }

  ghost predicate FirstOf(db: Db, s: Snapshot, batch: Batch, version: string) {
    && s.storeId in db.messages && db.messages[s.storeId] == s.message
    && (forall k :: k in db.receipts ==> k.storeId != s.storeId || k.version != version)
    && batch.assertions !! db.assertions.Keys && batch.relations !! db.relations.Keys
    && forall r :: r in batch.relations ==> EndpointActive(db, r.from) && EndpointActive(db, r.to)
  }

  /** A first publication whose endpoints are active inserts its receipt and its rows. */
  lemma FirstPublication(db: Db, s: Snapshot, batch: Batch, version: string, now: real)
    requires FirstOf(db, s, batch, version)
    ensures var key := SourceKey(s.storeId, version, s.message.content);
      Publish(db, s, batch, version, now) ==
        Ok(Published(Db(db.messages, db.receipts[key := NewReceipt(s, batch)],
                        db.assertions + Stamped(batch.assertions, now), db.relations + Stamped(batch.relations, now)),
                     batch, false))
  {
    var key := SourceKey(s.storeId, version, s.message.content);
    var inserted := db.(
      receipts := db.receipts[key := NewReceipt(s, batch)],
      assertions := db.assertions + (map a | a in batch.assertions :: now));
    assert !HasActive(db, s.storeId, version);
    assert forall id :: EndpointActive(db, id) ==> EndpointActive(inserted, id);
  }

  /** Such a publication as a step, for any version that needs no trimming. */
  lemma FirstStep(db: Db, step: Step, batch: Batch, after: Db)
    requires step.PublishStep? && ValidVersion(step.version) == Ok(step.version)
    requires Prepare(step.snapshot, step.candidates, step.relations, step.version) == Ok(batch)
    requires FirstOf(db, step.snapshot, batch, step.version)
    requires after.messages == db.messages
    requires after.receipts ==
      db.receipts[SourceKey(step.snapshot.storeId, step.version, step.snapshot.message.content) := NewReceipt(step.snapshot, batch)]
    requires after.assertions == db.assertions + Stamped(batch.assertions, step.now)
    requires after.relations == db.relations + Stamped(batch.relations, step.now)
    ensures Apply(db, step) == after
  {
    FirstPublication(db, step.snapshot, batch, step.version, step.now);
  }

  lemma StampedOne<T>(row: T, now: real)
    ensures Stamped({row}, now) == map[row := now]
  {
  }

  lemma FirstPublished()
    ensures Apply(NOTHING, PUBLISH_FIRST) == AFTER_FIRST
  {
    Versions();
    PreparedClaim(1, "v1");
    AssertionBatch(Snapshot(1, Said(1.0)), CLAIM, "v1", FIRST);
    StampedOne(FIRST, 2.0);
    FirstStep(NOTHING, PUBLISH_FIRST, Batch({FIRST}, {}), AFTER_FIRST);
  }

  lemma SecondIsFirst()
    ensures FirstOf(AFTER_FIRST, Snapshot(2, Said(1.0)), Batch({SECOND}, {}), "v2")
  {
  }

  lemma SecondRows()
    ensures AFTER_SECOND.assertions == AFTER_FIRST.assertions + Stamped({SECOND}, 2.0)
    ensures AFTER_SECOND.relations == AFTER_FIRST.relations + Stamped({}, 2.0)
  {
    StampedOne(SECOND, 2.0);
  }

  lemma SecondPublished()
    ensures Apply(AFTER_FIRST, PUBLISH_SECOND) == AFTER_SECOND
  {
    Versions();
    PreparedClaim(2, "v2");
    AssertionBatch(Snapshot(2, Said(1.0)), CLAIM, "v2", SECOND);
    SecondIsFirst();
    SecondRows();
    FirstStep(AFTER_FIRST, PUBLISH_SECOND, Batch({SECOND}, {}), AFTER_SECOND);
  }

  lemma EndpointsActive()
    ensures EndpointActive(AFTER_SECOND, IdOf(FIRST)) && EndpointActive(AFTER_SECOND, IdOf(SECOND))
  {
    assert KeyOfAssertion(FIRST) == FIRST_KEY && KeyOfAssertion(SECOND) == SECOND_KEY;
  }

  lemma LinkIsFirst()
    ensures FirstOf(AFTER_SECOND, Snapshot(3, Said(1.0)), Batch({}, {LINKED}), "v2")
  {
    EndpointsActive();
  }

  lemma LinkRows()
    ensures AFTER_LINK.assertions == AFTER_SECOND.assertions + Stamped({}, 2.0)
    ensures AFTER_LINK.relations == AFTER_SECOND.relations + Stamped({LINKED}, 2.0)
  {
    StampedOne(LINKED, 2.0);
  }

  lemma LinkPublished()
    ensures Apply(AFTER_SECOND, PublishLink(1.0)) == AFTER_LINK
  {
    Versions();
    PreparedLink(1.0, SECOND);
    RelationBatch(Snapshot(3, Said(1.0)), LINK, "v2", LINKED);
    LinkIsFirst();
    LinkRows();
    FirstStep(AFTER_SECOND, PublishLink(1.0), Batch({}, {LINKED}), AFTER_LINK);
  }

  lemma RunTwo(db: Db, a: Step, b: Step)
    ensures Run(db, [a, b]) == Apply(Apply(db, a), b)
  {
    assert [a, b][1..] == [b] && [b][1..] == [];
    assert Run(Apply(db, a), [b]) == Run(Apply(Apply(db, a), b), []);
  }

  lemma RunThree(db: Db, a: Step, b: Step, c: Step)
    ensures Run(db, [a, b, c]) == Apply(Apply(Apply(db, a), b), c)
  {
    assert [a, b, c][1..] == [b, c];
    RunTwo(Apply(db, a), b, c);
  }

  lemma NothingIsSound()
    ensures Inv(NOTHING)
  {
  }

  /** The three publications make one history, and everything a run keeps holds after it. */
  lemma LinkHistory()
    ensures Inv(NOTHING) && AFTER_LINK == Run(NOTHING, [PUBLISH_FIRST, PUBLISH_SECOND, PublishLink(1.0)])
  {
    NothingIsSound();
    FirstPublished();
    SecondPublished();
    LinkPublished();
    RunThree(NOTHING, PUBLISH_FIRST, PUBLISH_SECOND, PublishLink(1.0));
  }

  // ---------------------------------------------------------------- a removal takes a relation of another version

  const REMOVED: Db := Apply(AFTER_LINK, RemoveVersionStep("v1"))

  lemma LinkLosesEndpoint()
    ensures LosesEndpoint(AFTER_LINK, "v1", IdOf(FIRST)) && !IsRemoved(AFTER_LINK, "v1", LINK_KEY)
  {
    assert KeyOfAssertion(FIRST) == FIRST_KEY;
  }

  lemma LinkRemoved()
    ensures REMOVED == RemoveVersion(AFTER_LINK, "v1")
    ensures LINKED !in REMOVED.relations && IsActive(REMOVED, LINK_KEY)
    ensures REMOVED.receipts[LINK_KEY].digest == Batch({}, {LINKED}) && REMOVED.messages == AFTER_LINK.messages
  {
    Versions();
    LinkLosesEndpoint();
    assert LINK_KEY in AFTER_LINK.receipts;
  }

  lemma LinkAgain(db: Db)
    requires 3 in db.messages && db.messages[3] == Said(1.0) && IsActive(db, LINK_KEY)
    requires db.receipts[LINK_KEY].digest == Batch({}, {LINKED})
    ensures PublishSource(db, PublishLink(1.0)) == Ok(Published(db, Batch({}, {LINKED}), true))
  {
    Versions();
    PreparedLink(1.0, SECOND);
    RelationBatch(Snapshot(3, Said(1.0)), LINK, "v2", LINKED);
  }

  /**
   Removing "v1" takes the relation that the active receipt of "v2" recorded. Publishing that
   receipt's batch again reports it as current and does not bring the relation back; nor does any
   later history that keeps "v2".
   */
  lemma RemovalLosesRelation(later: seq<Step>)
    requires forall i :: 0 <= i < |later| && later[i].RemoveVersionStep? ==> ValidVersion(later[i].version) != Ok("v2")
    ensures Inv(NOTHING) && AFTER_LINK == Run(NOTHING, [PUBLISH_FIRST, PUBLISH_SECOND, PublishLink(1.0)])
    ensures LINKED in AFTER_LINK.relations
    ensures LINKED !in REMOVED.relations && IsActive(REMOVED, LINK_KEY) && InDigest(REMOVED, LINKED)
    ensures PublishSource(REMOVED, PublishLink(1.0)) == Ok(Published(REMOVED, Batch({}, {LINKED}), true))
    ensures LINKED !in Run(REMOVED, later).relations
  {
    LinkHistory();
    LinkRemoved();
    assert KeyOfRelation(LINKED) == LINK_KEY;
    LinkAgain(REMOVED);
    LostRelationStaysLost(REMOVED, later, LINKED);
  }

  // ---------------------------------------------------------------- a reactivation hides a relation from a past read

  const DOUBTED: Db := Apply(AFTER_LINK, InvalidateStep(3, 3.0, "manual"))
  const MOVED: Db := Apply(DOUBTED, WriteMessageStep(3, Said(9.0), 4.0))
  const REPUBLISHED: Db := Apply(MOVED, PublishLink(9.0))

  const AT_FIVE: RelationFilter := RelationFilter("v2", None, None, Some(5.0), true, 100)

  lemma MovedState()
    ensures MOVED.messages == AFTER_LINK.messages[3 := Said(9.0)]
    ensures MOVED.assertions == AFTER_LINK.assertions && MOVED.relations == AFTER_LINK.relations
    ensures MOVED.receipts.Keys == AFTER_LINK.receipts.Keys
    ensures MOVED.receipts[LINK_KEY] == ReceiptFor(1.0, Batch({}, {LINKED})).(invalidated := Some(Invalidation(3.0, "manual")))
  {
    assert LINK_KEY in AFTER_LINK.receipts;
  }

  lemma NoOtherActive()
    ensures !HasActive(MOVED, 3, "v2")
  {
    MovedState();
  }

  lemma LinkReactivated()
    ensures REPUBLISHED == MOVED.(receipts := MOVED.receipts[LINK_KEY := ReceiptFor(9.0, Batch({}, {LINKED}))])
  {
    Versions();
    MovedState();
    PreparedLink(9.0, SECOND);
    RelationBatch(Snapshot(3, Said(9.0)), LINK, "v2", LINKED);
    NoOtherActive();
  }

  lemma LinkSelected()
    ensures SelectedRelation(MOVED, AT_FIVE, LINKED)
  {
    MovedState();
    assert KeyOfRelation(LINKED) == LINK_KEY;
    assert KeyOfAssertion(FIRST) == FIRST_KEY && KeyOfAssertion(SECOND) == SECOND_KEY;
  }

  lemma LinkShown()
    ensures exists row :: row in VisibleRelations(MOVED, AT_FIVE) && row.relation == LINKED
  {
    LinkSelected();
    assert RelationRowOf(MOVED, LINKED) in VisibleRelations(MOVED, AT_FIVE);
  }

  lemma NothingShown()
    ensures VisibleRelations(REPUBLISHED, AT_FIVE) == {}
  {
    MovedState();
    LinkReactivated();
    forall r ensures !SelectedRelation(REPUBLISHED, AT_FIVE, r) {
      assert r in REPUBLISHED.relations ==> KeyOfRelation(r) == LINK_KEY;
    }
  }

  lemma LinkReactivates()
    ensures Reactivation(MOVED, PublishLink(9.0))
  {
    Versions();
    MovedState();
    NoOtherActive();
    PreparedLink(9.0, SECOND);
    RelationBatch(Snapshot(3, Said(9.0)), LINK, "v2", LINKED);
  }

  lemma LinkIsTouched()
    ensures PublishesAfter(PublishLink(9.0), 5.0) && !Untouched(MOVED, PublishLink(9.0), AT_FIVE)
  {
    Versions();
    LinkSelected();
    LinkReactivates();
    assert PublishesReceiptOf(PublishLink(9.0), LINKED);
  }

  /**
   After the relation is invalidated, its message's time moves and its batch is published again, a
   read of time 5.0 that includes invalidated relations no longer shows it: the reactivated receipt
   takes the time 9.0.
   */
  lemma ReactivationHidesOldRelation()
    ensures Inv(NOTHING) && AFTER_LINK == Run(NOTHING, [PUBLISH_FIRST, PUBLISH_SECOND, PublishLink(1.0)])
    ensures MOVED == Run(AFTER_LINK, [InvalidateStep(3, 3.0, "manual"), WriteMessageStep(3, Said(9.0), 4.0)])
    ensures PublishesAfter(PublishLink(9.0), 5.0) && !Untouched(MOVED, PublishLink(9.0), AT_FIVE)
    ensures exists row :: row in VisibleRelations(MOVED, AT_FIVE) && row.relation == LINKED
    ensures VisibleRelations(Apply(MOVED, PublishLink(9.0)), AT_FIVE) == {}
  {
    LinkHistory();
    RunTwo(AFTER_LINK, InvalidateStep(3, 3.0, "manual"), WriteMessageStep(3, Said(9.0), 4.0));
    LinkShown();
    NothingShown();
    LinkIsTouched();
  }

  // ---------------------------------------------------------------- two versions of one source

  /** The first source again, under "v2", and a relation of the third between the two rows. */
  const OTHER: Assertion := Claimed(1, "v2")
  const BRIDGE: Relation := LinkedTo(OTHER)
  const OTHER_KEY: SourceKey := SourceKey(1, "v2", "x")

  const PUBLISH_OTHER: Step := PublishStep(Snapshot(1, Said(1.0)), [CLAIM], [], "v2", 2.0)
  const PUBLISH_BRIDGE: Step := PublishStep(Snapshot(3, Said(1.0)), [], [LinkTo(OTHER)], "v2", 2.0)

  const BOTH_VERSIONS: Db :=
    NOTHING.(receipts := map[FIRST_KEY := ReceiptFor(1.0, Batch({FIRST}, {})),
                             OTHER_KEY := ReceiptFor(1.0, Batch({OTHER}, {}))],
             assertions := map[FIRST := 2.0, OTHER := 2.0])

  const BRIDGED: Db :=
    BOTH_VERSIONS.(receipts := BOTH_VERSIONS.receipts[LINK_KEY := ReceiptFor(1.0, Batch({}, {BRIDGE}))],
                   relations := map[BRIDGE := 2.0])

  const NOW: RelationFilter := RelationFilter("v2", None, None, None, false, 100)

  lemma OtherIsFirst()
    ensures FirstOf(AFTER_FIRST, Snapshot(1, Said(1.0)), Batch({OTHER}, {}), "v2")
  {
  }

  lemma OtherRows()
    ensures BOTH_VERSIONS.assertions == AFTER_FIRST.assertions + Stamped({OTHER}, 2.0)
    ensures BOTH_VERSIONS.relations == AFTER_FIRST.relations + Stamped({}, 2.0)
  {
    StampedOne(OTHER, 2.0);
  }

  lemma OtherPublished()
    ensures Apply(AFTER_FIRST, PUBLISH_OTHER) == BOTH_VERSIONS
  {
    Versions();
    PreparedClaim(1, "v2");
    AssertionBatch(Snapshot(1, Said(1.0)), CLAIM, "v2", OTHER);
    OtherIsFirst();
    OtherRows();
    FirstStep(AFTER_FIRST, PUBLISH_OTHER, Batch({OTHER}, {}), BOTH_VERSIONS);
  }

  lemma BridgeIsFirst()
    ensures FirstOf(BOTH_VERSIONS, Snapshot(3, Said(1.0)), Batch({}, {BRIDGE}), "v2")
  {
    assert KeyOfAssertion(FIRST) == FIRST_KEY && KeyOfAssertion(OTHER) == OTHER_KEY;
    assert EndpointActive(BOTH_VERSIONS, IdOf(FIRST)) && EndpointActive(BOTH_VERSIONS, IdOf(OTHER));
  }

  lemma BridgeRows()
    ensures BRIDGED.assertions == BOTH_VERSIONS.assertions + Stamped({}, 2.0)
    ensures BRIDGED.relations == BOTH_VERSIONS.relations + Stamped({BRIDGE}, 2.0)
  {
    StampedOne(BRIDGE, 2.0);
  }

  lemma BridgePublished()
    ensures Apply(BOTH_VERSIONS, PUBLISH_BRIDGE) == BRIDGED
  {
    Versions();
    PreparedLink(1.0, OTHER);
    RelationBatch(Snapshot(3, Said(1.0)), LinkTo(OTHER), "v2", BRIDGE);
    BridgeIsFirst();
    BridgeRows();
    FirstStep(BOTH_VERSIONS, PUBLISH_BRIDGE, Batch({}, {BRIDGE}), BRIDGED);
  }

  lemma BridgeHistory()
    ensures Inv(NOTHING) && BRIDGED == Run(NOTHING, [PUBLISH_FIRST, PUBLISH_OTHER, PUBLISH_BRIDGE]) && Inv(BRIDGED)
  {
    NothingIsSound();
    FirstPublished();
    OtherPublished();
    BridgePublished();
    RunThree(NOTHING, PUBLISH_FIRST, PUBLISH_OTHER, PUBLISH_BRIDGE);
    RunKeepsInv(NOTHING, [PUBLISH_FIRST, PUBLISH_OTHER, PUBLISH_BRIDGE]);
  }

  lemma OtherIsRecorded()
    ensures Recorded(BRIDGED, PUBLISH_OTHER) && PublishedKey(PUBLISH_OTHER) == OTHER_KEY
  {
    Versions();
    PreparedClaim(1, "v2");
    AssertionBatch(Snapshot(1, Said(1.0)), CLAIM, "v2", OTHER);
  }

  lemma BridgeSelected()
    ensures SelectedRelation(BRIDGED, NOW, BRIDGE)
  {
    assert KeyOfRelation(BRIDGE) == LINK_KEY;
    assert KeyOfAssertion(FIRST) == FIRST_KEY && KeyOfAssertion(OTHER) == OTHER_KEY;
  }

  /**
   The first source is published under two versions and a relation joins the two rows. Invalidating
   the source and publishing its "v2" batch again, exactly as recorded, does not bring the relation
   back: the endpoint under "v1" stays invalidated.
   */
  lemma RepublishingLosesRelation()
    ensures Inv(NOTHING) && BRIDGED == Run(NOTHING, [PUBLISH_FIRST, PUBLISH_OTHER, PUBLISH_BRIDGE])
    ensures Recorded(BRIDGED, PUBLISH_OTHER)
    ensures VisibleRelations(Restored(BRIDGED, PUBLISH_OTHER, 3.0, "manual"), NOW) != VisibleRelations(BRIDGED, NOW)
  {
    BridgeHistory();
    OtherIsRecorded();
    Versions();
    BridgeSelected();
    assert FromOtherVersion(BRIDGE.from, OTHER_KEY);
    RepublishingRestoresRelationsIff(BRIDGED, PUBLISH_OTHER, 3.0, "manual", NOW);
  }
}
