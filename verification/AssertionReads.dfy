/** What a read returns: which rows, in which order, and what of a publication can be read back. */
module AssertionReads {
  import opened Wrappers
  import opened Text
  import opened Ordering
  import opened AssertionModel
  import opened AssertionHistory
  import opened AssertionQuery
  import opened AssertionState

  // ---------------------------------------------------------------- order and limit

  /** A page of a listing: as many members as fit, none twice, and none left out that precedes one taken. */
  lemma PageIsFirst<T(!new)>(less: (T, T) -> bool, s: set<T>, limit: nat)
    requires StrictOrder(less)
    ensures var page := Take(Listing(less, s), limit);
      && |page| == (if |s| < limit then |s| else limit)
      && (forall i :: 0 <= i < |page| ==> page[i] in s)
      && (forall i, j :: 0 <= i < j < |page| ==> page[i] != page[j] && !less(page[j], page[i]))
      && (forall x, i :: x in s && x !in page && 0 <= i < |page| ==> !less(x, page[i]))
  {
    ListingMembers(less, s);
    var all := Listing(less, s);
    var page := Take(all, limit);
    forall i | 0 <= i < |page| ensures page[i] in s {
      assert page[i] == all[i] && all[i] in all;
    }
    forall x, i | x in s && x !in page && 0 <= i < |page| ensures !less(x, page[i]) {
      assert x in all;
      var j :| 0 <= j < |all| && all[j] == x;
      assert j >= |page|;
    }
  }

  /**
   An assertion read answers with the newest visible rows: as many as the limit allows, none twice,
   observed at never increasing times, rows of one time by id, and no row it leaves out is newer
   than one it holds.
   */
  lemma AnswerIsNewestFirst(db: Db, f: Filter, rank: Rank)
    requires QueryAssertions(db, f, rank).Ok?
    ensures var rows, visible := QueryAssertions(db, f, rank).value, VisibleRows(db, f);
      && f.limit >= 1 && |rows| == (if |visible| < f.limit then |visible| else f.limit)
      && (forall i :: 0 <= i < |rows| ==> rows[i] in visible)
      && (forall i, j :: 0 <= i < j < |rows| ==>
            && rows[i] != rows[j] && rows[i].assertion.observedAt >= rows[j].assertion.observedAt
            && (rows[i].assertion.observedAt == rows[j].assertion.observedAt ==>
                  rank(IdOf(rows[i].assertion)) <= rank(IdOf(rows[j].assertion))))
      && (forall row, i :: row in visible && row !in rows && 0 <= i < |rows| ==>
            row.assertion.observedAt <= rows[i].assertion.observedAt)
  {
    PageIsFirst(RowOrder(rank), VisibleRows(db, f), f.limit);
  }

  /** A relation read answers with the earliest recorded relations, likewise. */
  lemma AnswerIsOldestFirst(db: Db, f: RelationFilter, rank: RelationRank)
    requires QueryRelations(db, f, rank).Ok?
    ensures var rows, visible := QueryRelations(db, f, rank).value, VisibleRelations(db, f);
      && f.limit >= 1 && |rows| == (if |visible| < f.limit then |visible| else f.limit)
      && (forall i :: 0 <= i < |rows| ==> rows[i] in visible)
      && (forall i, j :: 0 <= i < j < |rows| ==>
            && rows[i] != rows[j] && rows[i].created <= rows[j].created
            && (rows[i].created == rows[j].created ==> rank(rows[i].relation) <= rank(rows[j].relation)))
      && (forall row, i :: row in visible && row !in rows && 0 <= i < |rows| ==> row.created >= rows[i].created)
  {
    PageIsFirst(RelationOrder(rank), VisibleRelations(db, f), f.limit);
  }

  // ---------------------------------------------------------------- filters

  ghost predicate Narrows(db: Db, wide: Filter, narrow: Filter, keep: Assertion -> bool) {
    forall row :: row in VisibleRows(db, narrow) <==> row in VisibleRows(db, wide) && keep(row.assertion)
  }

  lemma SelectionNarrows(db: Db, wide: Filter, narrow: Filter, keep: Assertion -> bool)
    requires forall a :: Selected(db, narrow, a) <==> Selected(db, wide, a) && keep(a)
    ensures Narrows(db, wide, narrow, keep)
  {
    forall row ensures row in VisibleRows(db, narrow) <==> row in VisibleRows(db, wide) && keep(row.assertion) {
      if row in VisibleRows(db, narrow) {
        var a :| a in db.assertions && Selected(db, narrow, a) && row == RowOf(db, a);
        assert Selected(db, wide, a);
      }
      if row in VisibleRows(db, wide) && keep(row.assertion) {
        var a :| a in db.assertions && Selected(db, wide, a) && row == RowOf(db, a);
        assert Selected(db, narrow, a);
      }
    }
  }

  /** Each filter of an assertion read keeps exactly the rows whose field it names. */
  lemma FiltersNarrow(db: Db, f: Filter, key: string, kinds: set<string>, storeId: int, id: AssertionId)
    ensures Narrows(db, f.(subject := None), f.(subject := Some(key)), (a: Assertion) => a.subject == key)
    ensures Narrows(db, f.(predicateKey := None), f.(predicateKey := Some(key)), (a: Assertion) => a.predicateKey == key)
    ensures Narrows(db, f.(kinds := None), f.(kinds := Some(kinds)), (a: Assertion) => a.kind in kinds)
    ensures Narrows(db, f.(scope := None), f.(scope := Some(key)), (a: Assertion) => a.scope == key)
    ensures Narrows(db, f.(role := None), f.(role := Some(key)), (a: Assertion) => a.role == key)
    ensures Narrows(db, f.(storeId := None), f.(storeId := Some(storeId)), (a: Assertion) => a.storeId == storeId)
    ensures Narrows(db, f.(id := None), f.(id := Some(id)), (a: Assertion) => IdOf(a) == id)
  {
    SelectionNarrows(db, f.(subject := None), f.(subject := Some(key)), (a: Assertion) => a.subject == key);
    SelectionNarrows(db, f.(predicateKey := None), f.(predicateKey := Some(key)), (a: Assertion) => a.predicateKey == key);
    SelectionNarrows(db, f.(kinds := None), f.(kinds := Some(kinds)), (a: Assertion) => a.kind in kinds);
    SelectionNarrows(db, f.(scope := None), f.(scope := Some(key)), (a: Assertion) => a.scope == key);
    SelectionNarrows(db, f.(role := None), f.(role := Some(key)), (a: Assertion) => a.role == key);
    SelectionNarrows(db, f.(storeId := None), f.(storeId := Some(storeId)), (a: Assertion) => a.storeId == storeId);
    SelectionNarrows(db, f.(id := None), f.(id := Some(id)), (a: Assertion) => IdOf(a) == id);
  }

  /** A read at a time keeps what had been observed by then and was valid: from its start, and before its end. */
  lemma TimeNarrows(db: Db, f: Filter, t: real)
    ensures Narrows(db, f.(asOf := None), f.(asOf := Some(t)), (a: Assertion) =>
      a.observedAt <= t && (a.validFrom.None? || a.validFrom.value <= t) && (a.validTo.None? || t < a.validTo.value))
  {
    SelectionNarrows(db, f.(asOf := None), f.(asOf := Some(t)), (a: Assertion) =>
      a.observedAt <= t && (a.validFrom.None? || a.validFrom.value <= t) && (a.validTo.None? || t < a.validTo.value));
  }

  /** The read of a version without further filters. */
  function AllOf(version: string, includeInvalidated: bool): Filter {
    Filter(version, None, None, None, None, None, None, None, None, includeInvalidated, 1)
  }

  /** It shows exactly the stored assertions of the version, and unless invalidated ones are included the active ones. */
  lemma UnfilteredShowsAll(db: Db, version: string, includeInvalidated: bool, a: Assertion)
    requires Inv(db)
    ensures (exists row :: row in VisibleRows(db, AllOf(version, includeInvalidated)) && row.assertion == a) <==>
      a in db.assertions && a.version == version
      && (includeInvalidated || (KeyOfAssertion(a) in db.receipts && db.receipts[KeyOfAssertion(a)].invalidated == None))
  {
    var f := AllOf(version, includeInvalidated);
    if Selected(db, f, a) {
      assert RowOf(db, a) in VisibleRows(db, f);
    }
    if row :| row in VisibleRows(db, f) && row.assertion == a {
      var b :| b in db.assertions && Selected(db, f, b) && row == RowOf(db, b);
    }
  }

  // ---------------------------------------------------------------- relations

  ghost predicate RelationsNarrow(db: Db, wide: RelationFilter, narrow: RelationFilter, keep: Relation -> bool) {
    forall row :: row in VisibleRelations(db, narrow) <==> row in VisibleRelations(db, wide) && keep(row.relation)
  }

  lemma RelationSelectionNarrows(db: Db, wide: RelationFilter, narrow: RelationFilter, keep: Relation -> bool)
    requires forall r :: SelectedRelation(db, narrow, r) <==> SelectedRelation(db, wide, r) && keep(r)
    ensures RelationsNarrow(db, wide, narrow, keep)
  {
    forall row ensures row in VisibleRelations(db, narrow) <==> row in VisibleRelations(db, wide) && keep(row.relation) {
      if row in VisibleRelations(db, narrow) {
        var r :| r in db.relations && SelectedRelation(db, narrow, r) && row == RelationRowOf(db, r);
        assert SelectedRelation(db, wide, r);
      }
      if row in VisibleRelations(db, wide) && keep(row.relation) {
        var r :| r in db.relations && SelectedRelation(db, wide, r) && row == RelationRowOf(db, r);
        assert SelectedRelation(db, narrow, r);
      }
    }
  }

  /** A relation read keeps the relations with one of the ids at either end, and those of the types. */
  lemma RelationFiltersNarrow(db: Db, f: RelationFilter, ids: set<AssertionId>, types: set<string>)
    ensures RelationsNarrow(db, f.(ids := None), f.(ids := Some(ids)), (r: Relation) => r.from in ids || r.to in ids)
    ensures RelationsNarrow(db, f.(types := None), f.(types := Some(types)), (r: Relation) => r.relationType in types)
  {
    RelationSelectionNarrows(db, f.(ids := None), f.(ids := Some(ids)), (r: Relation) => r.from in ids || r.to in ids);
    RelationSelectionNarrows(db, f.(types := None), f.(types := Some(types)), (r: Relation) => r.relationType in types);
  }

  predicate ValidThen(id: AssertionId, t: real) {
    && id.IdOf? && id.assertion.observedAt <= t
    && (id.assertion.validFrom.None? || id.assertion.validFrom.value <= t)
    && (id.assertion.validTo.None? || t < id.assertion.validTo.value)
  }

  /** A relation read at a time keeps relations recorded by a source of that time or before between rows valid then. */
  lemma RelationTimeNarrows(db: Db, f: RelationFilter, t: real)
    ensures forall row :: row in VisibleRelations(db, f.(asOf := Some(t))) <==>
      row in VisibleRelations(db, f.(asOf := None)) && row.timestamp <= t
      && ValidThen(row.relation.from, t) && ValidThen(row.relation.to, t)
  {
    var wide, narrow := f.(asOf := None), f.(asOf := Some(t));
    forall row ensures row in VisibleRelations(db, narrow) <==>
      row in VisibleRelations(db, wide) && row.timestamp <= t && ValidThen(row.relation.from, t) && ValidThen(row.relation.to, t)
    {
      if row in VisibleRelations(db, narrow) {
        var r :| r in db.relations && SelectedRelation(db, narrow, r) && row == RelationRowOf(db, r);
        assert SelectedRelation(db, wide, r);
      }
      if row in VisibleRelations(db, wide) {
        var r :| r in db.relations && SelectedRelation(db, wide, r) && row == RelationRowOf(db, r);
        assert row.timestamp <= t && ValidThen(r.from, t) && ValidThen(r.to, t) ==> SelectedRelation(db, narrow, r);
      }
    }
  }

  function AllRelationsOf(version: string, includeInvalidated: bool): RelationFilter {
    RelationFilter(version, None, None, None, includeInvalidated, 1)
  }

  predicate IsValidRow(db: Db, id: AssertionId) {
    id.IdOf? && IsActive(db, KeyOfAssertion(id.assertion))
  }

  /**
   Without further filters a relation read shows exactly the stored relations of the version whose
   endpoints are stored, and unless invalidated ones are included those that are active at both ends too.
   */
  lemma UnfilteredShowsAllRelations(db: Db, version: string, includeInvalidated: bool, r: Relation)
    requires Inv(db)
    ensures (exists row :: row in VisibleRelations(db, AllRelationsOf(version, includeInvalidated)) && row.relation == r) <==>
      r in db.relations && r.version == version && Joined(db, r.from) && Joined(db, r.to)
      && (includeInvalidated || (IsActive(db, KeyOfRelation(r)) && IsValidRow(db, r.from) && IsValidRow(db, r.to)))
  {
    var f := AllRelationsOf(version, includeInvalidated);
    assert r in db.relations ==> InDigest(db, r);
    if SelectedRelation(db, f, r) {
      assert RelationRowOf(db, r) in VisibleRelations(db, f);
    }
    if row :| row in VisibleRelations(db, f) && row.relation == r {
      var q :| q in db.relations && SelectedRelation(db, f, q) && row == RelationRowOf(db, q);
    }
  }

  // ---------------------------------------------------------------- what a read accepts and refuses

  /** An assertion read accepts 1 to 500 rows of a version of 1 to 128 characters, and known kinds only. */
  lemma FilterIff(f: Filter)
    ensures ValidFilter(f) <==>
      && Strip(f.version) == f.version && 1 <= |f.version| <= 128 && 1 <= f.limit <= 500
      && (f.id.Some? ==> !f.id.value.NotHex?)
      && (f.kinds.Some? ==>
            f.kinds.value != {}
            && f.kinds.value <= {"fact", "event", "preference", "recommendation", "commitment", "action", "status", "quotation"})
  {
  }

  lemma RelationFilterIff(f: RelationFilter)
    ensures ValidRelationFilter(f) <==>
      && Strip(f.version) == f.version && 1 <= |f.version| <= 128 && 1 <= f.limit <= 500
      && (f.ids.Some? ==> 1 <= |f.ids.value| <= 500 && NotHex !in f.ids.value)
      && (f.types.Some? ==>
            f.types.value != {}
            && f.types.value <= {"confirms", "supersedes", "contradicts", "narrows", "weakens", "reverses", "cancels", "fulfills",
                                 "quotes"})
  {
  }

  /** The message still reads as recorded, and the quote stands in it between some text of the given length and a rest. */
  ghost predicate StillQuotes(db: Db, storeId: int, recorded: string, start: int, end: int, quote: string) {
    && (if storeId in db.messages then db.messages[storeId].content else "") == recorded
    && exists front: string, back: string ::
         recorded == front + quote + back && |front| == start && |front| + |quote| == end
  }

  lemma QuotesIff(db: Db, storeId: int, recorded: string, start: int, end: int, quote: string)
    ensures ProvenanceHolds(ContentOf(db, storeId), recorded, start, end, quote) <==>
      StillQuotes(db, storeId, recorded, start, end, quote)
  {
    if ProvenanceHolds(ContentOf(db, storeId), recorded, start, end, quote) {
      assert recorded == recorded[..start] + quote + recorded[end..];
    }
    if StillQuotes(db, storeId, recorded, start, end, quote) {
      var front: string, back: string :| recorded == front + quote + back && |front| == start && |front| + |quote| == end;
      assert recorded[start..end] == quote;
    }
  }

  /**
   On any database at all, reachable or not, a valid read is refused exactly when one of the rows it
   would answer with is not invalidated and its message or quote has changed.
   */
  lemma RefusesStaleIff(db: Db, f: Filter, rank: Rank)
    requires ValidFilter(f)
    ensures var page := Take(Listing(RowOrder(rank), VisibleRows(db, f)), f.limit);
      && (QueryAssertions(db, f, rank).Err? <==> exists row :: row in page && row.invalidated.None? && !RowQuotes(db, row))
      && (QueryAssertions(db, f, rank).Err? ==> QueryAssertions(db, f, rank).error == SourceStale)
  {
    PageHoldsIff(db, Take(Listing(RowOrder(rank), VisibleRows(db, f)), f.limit));
  }

  lemma PageHoldsIff(db: Db, page: seq<Row>)
    ensures (forall i :: 0 <= i < |page| && page[i].invalidated.None? ==>
               var a := page[i].assertion;
               ProvenanceHolds(ContentOf(db, a.storeId), a.content, a.start, a.end, a.quote))
            <==> !(exists row :: row in page && row.invalidated.None? && !RowQuotes(db, row))
  {
    forall i | 0 <= i < |page| ensures RowQuotes(db, page[i]) <==> RowHolds(db, page[i]) {
      var a := page[i].assertion;
      QuotesIff(db, a.storeId, a.content, a.start, a.end, a.quote);
    }
  }

  ghost predicate RowQuotes(db: Db, row: Row) {
    var a := row.assertion; StillQuotes(db, a.storeId, a.content, a.start, a.end, a.quote)
  }

  predicate RowHolds(db: Db, row: Row) {
    var a := row.assertion; ProvenanceHolds(ContentOf(db, a.storeId), a.content, a.start, a.end, a.quote)
  }

  /** The relation's own message, and those of both its rows, still quote as recorded. */
  ghost predicate RelationQuotes(db: Db, r: Relation) {
    && StillQuotes(db, r.storeId, r.content, r.start, r.end, r.quote)
    && r.from.IdOf? && r.to.IdOf?
    && var a, b := r.from.assertion, r.to.assertion;
       && StillQuotes(db, a.storeId, a.content, a.start, a.end, a.quote)
       && StillQuotes(db, b.storeId, b.content, b.start, b.end, b.quote)
  }

  lemma RelationQuotesIff(db: Db, r: Relation)
    ensures RelationProvenanceHolds(db, r) <==> RelationQuotes(db, r)
  {
    QuotesIff(db, r.storeId, r.content, r.start, r.end, r.quote);
    if r.from.IdOf? && r.to.IdOf? {
      var a, b := r.from.assertion, r.to.assertion;
      QuotesIff(db, a.storeId, a.content, a.start, a.end, a.quote);
      QuotesIff(db, b.storeId, b.content, b.start, b.end, b.quote);
    }
  }

  /** A valid relation read is refused exactly when it asks for valid rows only and one it would answer with fails at any of the three. */
  lemma RefusesStaleRelationIff(db: Db, f: RelationFilter, rank: RelationRank)
    requires ValidRelationFilter(f)
    ensures var page := Take(Listing(RelationOrder(rank), VisibleRelations(db, f)), f.limit);
      QueryRelations(db, f, rank).Err? <==>
        !f.includeInvalidated && exists row :: row in page && !RelationQuotes(db, row.relation)
  {
    var page := Take(Listing(RelationOrder(rank), VisibleRelations(db, f)), f.limit);
    forall i | 0 <= i < |page| ensures RelationProvenanceHolds(db, page[i].relation) <==> RelationQuotes(db, page[i].relation) {
      RelationQuotesIff(db, page[i].relation);
    }
  }

  // ---------------------------------------------------------------- what the writers leave

  /** The receipts of a source that were active are now invalidated at that time for that reason; all else is as before. */
  ghost predicate OnlyInvalidates(before: Db, after: Db, storeId: int, at: real, reason: string) {
    && after.assertions == before.assertions && after.relations == before.relations
    && after.receipts.Keys == before.receipts.Keys
    && forall k :: k in before.receipts ==>
         var r, t := before.receipts[k], after.receipts[k];
         && t.session == r.session && t.role == r.role && t.source == r.source && t.timestamp == r.timestamp
         && t.digest == r.digest
         && t.invalidated ==
              if k.storeId == storeId && r.invalidated == None then Some(Invalidation(at, reason)) else r.invalidated
  }

  lemma InvalidatesOnly(db: Db, storeId: int, at: real, reason: string)
    ensures Invalidate(db, storeId, at, reason).messages == db.messages
    ensures OnlyInvalidates(db, Invalidate(db, storeId, at, reason), storeId, at, reason)
  {
  }

  /** A delete takes the message and invalidates its receipts; without the message it does nothing. */
  lemma DeleteInvalidates(db: Db, storeId: int, at: real)
    ensures var after := DeleteMessage(db, storeId, at);
      && after.messages == db.messages - {storeId}
      && (if storeId in db.messages then OnlyInvalidates(db, after, storeId, at, "source_deleted") else after == db)
  {
    if storeId in db.messages {
      InvalidatesOnly(db.(messages := db.messages - {storeId}), storeId, at, "source_deleted");
    } else {
      assert db.messages - {storeId} == db.messages;
    }
  }

  /** An edit replaces the message, and invalidates its receipts exactly when the text changes. */
  lemma EditInvalidates(db: Db, storeId: int, message: Message, at: real)
    ensures var after := WriteMessage(db, storeId, message, at);
      && after.messages == db.messages[storeId := message]
      && if storeId in db.messages && db.messages[storeId].content != message.content
         then OnlyInvalidates(db, after, storeId, at, "source_updated")
         else after == db.(messages := db.messages[storeId := message])
  {
    InvalidatesOnly(db.(messages := db.messages[storeId := message]), storeId, at, "source_updated");
  }

  // ---------------------------------------------------------------- what a candidate becomes

  /** A prepared assertion carries its candidate's fields, its source's, and the text at its span. */
  lemma PreparedFields(s: Snapshot, c: Candidate, version: string)
    requires PrepareAssertion(s, c, version).Ok?
    ensures var a, m := PrepareAssertion(s, c, version).value, s.message;
      && a.subject == Strip(c.subject) && a.predicateKey == Strip(c.predicateKey) && a.scope == Strip(c.scope)
      && a.kind == Lower(Strip(c.kind)) && a.polarity == Lower(Strip(c.polarity))
      && a.objectJson == c.objectJson && a.valueText == c.valueText && a.strength == c.strength
      && a.eventAt == c.eventAt && a.validFrom == c.validFrom && a.validTo == c.validTo
      && Some(a.confidence) == c.confidence && a.start == c.start && a.end == c.end
      && a.storeId == s.storeId && a.version == version && a.content == m.content && a.role == m.role
      && a.observedAt == m.timestamp && 0 <= a.start < a.end <= |m.content| && a.quote == m.content[a.start..a.end]
  {
  }

  lemma PreparedRelationFields(s: Snapshot, c: RelationCandidate, version: string)
    requires PrepareRelation(s, c, version).Ok?
    ensures var r, m := PrepareRelation(s, c, version).value, s.message;
      && r.from == c.from && r.to == c.to && r.relationType == Lower(Strip(c.relationType)) && Some(r.confidence) == c.confidence
      && r.start == c.start && r.end == c.end
      && r.storeId == s.storeId && r.version == version && r.content == m.content
      && 0 <= r.start < r.end <= |m.content| && r.quote == m.content[r.start..r.end]
  {
  }

  lemma {:induction false} PreparedEach(s: Snapshot, cs: seq<Candidate>, version: string, i: nat)
    requires PrepareAssertions(s, cs, version).Ok? && i < |cs|
    ensures |PrepareAssertions(s, cs, version).value| == |cs|
    ensures PrepareAssertion(s, cs[i], version) == Ok(PrepareAssertions(s, cs, version).value[i])
  {
    if |cs| == 1 {
      assert PrepareAssertions(s, cs[..0], version) == Ok([]);
    } else if i < |cs| - 1 {
      PreparedEach(s, cs[..|cs| - 1], version, i);
    } else {
      PreparedEach(s, cs[..|cs| - 1], version, 0);
    }
  }

  lemma {:induction false} PreparedEachRelation(s: Snapshot, rs: seq<RelationCandidate>, version: string, i: nat)
    requires PrepareRelations(s, rs, version).Ok? && i < |rs|
    ensures |PrepareRelations(s, rs, version).value| == |rs|
    ensures PrepareRelation(s, rs[i], version) == Ok(PrepareRelations(s, rs, version).value[i])
  {
    if |rs| == 1 {
      assert PrepareRelations(s, rs[..0], version) == Ok([]);
    } else if i < |rs| - 1 {
      PreparedEachRelation(s, rs[..|rs| - 1], version, i);
    } else {
      PreparedEachRelation(s, rs[..|rs| - 1], version, 0);
    }
  }

  // ---------------------------------------------------------------- reading a publication back

  /** The row shows the candidate as published from the snapshot. */
  ghost predicate Shows(row: Row, s: Snapshot, c: Candidate, version: string) {
    && PrepareAssertion(s, c, version) == Ok(row.assertion)
    && row.session == s.message.session && row.role == s.message.role && row.source == s.message.source
    && row.timestamp == s.message.timestamp && row.invalidated == None && row.currentSession == Some(s.message.session)
  }

  lemma CommittedBatch(db: Db, step: Step)
    requires Inv(db) && step.PublishStep? && PublishSource(db, step).Ok? && !PublishSource(db, step).value.alreadyCurrent
    ensures var after := PublishSource(db, step).value.db;
      var version := ValidVersion(step.version).value;
      var batch := Prepare(step.snapshot, step.candidates, step.relations, version).value;
      && Inv(after) && PublishSource(db, step).value.batch == batch
      && after.messages == db.messages && step.snapshot.storeId in db.messages
      && db.messages[step.snapshot.storeId] == step.snapshot.message
      && PublishedKey(step) in after.receipts && after.receipts[PublishedKey(step)] == NewReceipt(step.snapshot, batch)
      && (forall a :: a in batch.assertions ==> a in after.assertions && after.assertions[a] == step.now)
      && (forall r :: r in batch.relations ==> r in after.relations && after.relations[r] == step.now)
  {
    StepKeepsInv(db, step);
  }

  /**
   After a first publication every candidate of it can be read back at once: an unfiltered read of the
   version shows a row with the candidate's fields, the message's session, role, source and time, and
   the time of the publication.
   */
  lemma PublishedIsReadBack(db: Db, step: Step, i: nat)
    requires Inv(db) && step.PublishStep? && PublishSource(db, step).Ok? && !PublishSource(db, step).value.alreadyCurrent
    requires i < |step.candidates|
    ensures var version := ValidVersion(step.version).value;
      exists row :: row in VisibleRows(Apply(db, step), AllOf(version, false))
        && Shows(row, step.snapshot, step.candidates[i], version) && row.created == step.now
  {
    var version := ValidVersion(step.version).value;
    var after := Apply(db, step);
    CommittedBatch(db, step);
    PreparedEach(step.snapshot, step.candidates, version, i);
    var prepared := PrepareAssertions(step.snapshot, step.candidates, version).value;
    var a := prepared[i];
    assert a in prepared;
    PreparedFields(step.snapshot, step.candidates[i], version);
    assert Selected(after, AllOf(version, false), a);
    var row := RowOf(after, a);
    assert row in VisibleRows(after, AllOf(version, false));
    assert Shows(row, step.snapshot, step.candidates[i], version);
  }

  ghost predicate ShowsRelation(row: RelationRow, s: Snapshot, c: RelationCandidate, version: string) {
    && PrepareRelation(s, c, version) == Ok(row.relation)
    && row.session == s.message.session && row.timestamp == s.message.timestamp && row.invalidated == None
  }

  lemma BatchEndpoints(db: Db, s: Snapshot, batch: Batch, version: string, now: real, r: Relation)
    requires Publish(db, s, batch, version, now).Ok? && !Publish(db, s, batch, version, now).value.alreadyCurrent
    requires r in batch.relations
    ensures var after := Publish(db, s, batch, version, now).value.db;
      EndpointActive(after, r.from) && EndpointActive(after, r.to)
  {
  }

  /** Every relation of it can be read back too. */
  lemma PublishedRelationIsReadBack(db: Db, step: Step, i: nat)
    requires Inv(db) && step.PublishStep? && PublishSource(db, step).Ok? && !PublishSource(db, step).value.alreadyCurrent
    requires i < |step.relations|
    ensures var version := ValidVersion(step.version).value;
      exists row :: row in VisibleRelations(Apply(db, step), AllRelationsOf(version, false))
        && ShowsRelation(row, step.snapshot, step.relations[i], version) && row.created == step.now
  {
    var version := ValidVersion(step.version).value;
    var after := Apply(db, step);
    CommittedBatch(db, step);
    PreparedEachRelation(step.snapshot, step.relations, version, i);
    var prepared := PrepareRelations(step.snapshot, step.relations, version).value;
    var r := prepared[i];
    assert r in prepared;
    var batch := Prepare(step.snapshot, step.candidates, step.relations, version).value;
    assert r in batch.relations;
    PreparedRelationFields(step.snapshot, step.relations[i], version);
    BatchEndpoints(db, step.snapshot, batch, version, step.now, r);
    assert SelectedRelation(after, AllRelationsOf(version, false), r);
    var row := RelationRowOf(after, r);
    assert row in VisibleRelations(after, AllRelationsOf(version, false));
    assert ShowsRelation(row, step.snapshot, step.relations[i], version);
  }

  // ---------------------------------------------------------------- the state read and the store

  /** A stored relation of the current version that is valid at both ends, then if a time is given. */
  ghost predicate Effective(db: Db, asOf: Option<real>, r: Relation) {
    && r in db.relations && r.version == "assertions-v1"
    && IsActive(db, KeyOfRelation(r)) && Joined(db, r.from) && Joined(db, r.to) && IsValidRow(db, r.from) && IsValidRow(db, r.to)
    && (asOf.Some? ==>
          && db.receipts[KeyOfRelation(r)].timestamp <= asOf.value
          && ValidThen(r.from, asOf.value) && ValidThen(r.to, asOf.value))
  }

  /** A page that is not full holds the whole listing. */
  lemma ShortPageIsAll<T(!new)>(less: (T, T) -> bool, s: set<T>, limit: nat)
    requires StrictOrder(less) && |Take(Listing(less, s), limit)| < limit
    ensures forall x :: x in Take(Listing(less, s), limit) <==> x in s
  {
    ListingMembers(less, s);
  }

  /** The relation read, when it answers with fewer rows than its limit, leaves no visible relation out. */
  lemma ShortReadIsAll(db: Db, f: RelationFilter, rank: RelationRank)
    requires QueryRelations(db, f, rank).Ok? && |QueryRelations(db, f, rank).value| < f.limit
    ensures forall row :: row in QueryRelations(db, f, rank).value <==> row in VisibleRelations(db, f)
  {
    ShortPageIsAll(RelationOrder(rank), VisibleRelations(db, f), f.limit);
  }

  lemma VisibleIsSelected(db: Db, f: RelationFilter, row: RelationRow)
    requires row in VisibleRelations(db, f)
    ensures SelectedRelation(db, f, row.relation)
  {
  }

  lemma SelectedIsVisible(db: Db, f: RelationFilter, r: Relation) returns (row: RelationRow)
    requires SelectedRelation(db, f, r)
    ensures row in VisibleRelations(db, f) && row.relation == r
  {
    row := RelationRowOf(db, r);
  }

  lemma EffectiveIsSelected(db: Db, q: StateQuery, rows: seq<Row>, r: Relation)
    requires Inv(db) && Effective(db, q.asOf, r) && r.to.IdOf? && IdOf(r.to.assertion) in RelationsFor(q, rows).ids.value
    ensures SelectedRelation(db, RelationsFor(q, rows), r)
  {
  }

  lemma SelectedIsEffective(db: Db, q: StateQuery, rows: seq<Row>, r: Relation)
    requires SelectedRelation(db, RelationsFor(q, rows), r)
    ensures Effective(db, q.asOf, r)
  {
  }

  lemma RowIsAskedFor(q: StateQuery, rows: seq<Row>, i: nat)
    requires i < |rows|
    ensures IdOf(rows[i].assertion) in RelationsFor(q, rows).ids.value
  {
    assert rows[i].assertion in Ids(rows);
  }

  /**
   Unless 500 relations cut it short, a state read sees every effective relation of the store that
   points at a row: what `TargetedBy` says of the read holds of the database.
   */
  lemma StateSeesRelations(db: Db, q: StateQuery, rows: seq<Row>, rank: RelationRank, i: nat, types: set<string>)
    requires Inv(db) && i < |rows| && QueryRelations(db, RelationsFor(q, rows), rank).Ok?
    requires |QueryRelations(db, RelationsFor(q, rows), rank).value| < 500
    ensures TargetedBy(QueryRelations(db, RelationsFor(q, rows), rank).value, rows[i].assertion, types) <==>
      exists r :: Effective(db, q.asOf, r) && r.to == IdOf(rows[i].assertion) && r.relationType in types
  {
    var f, a := RelationsFor(q, rows), rows[i].assertion;
    var relations := QueryRelations(db, f, rank).value;
    ShortReadIsAll(db, f, rank);
    if TargetedBy(relations, a, types) {
      SeenIsEffective(db, q, rows, relations, a, types);
    }
    if r :| Effective(db, q.asOf, r) && r.to == IdOf(a) && r.relationType in types {
      RowIsAskedFor(q, rows, i);
      EffectiveIsSelected(db, q, rows, r);
      var row := SelectedIsVisible(db, f, r);
      assert row in relations;
    }
  }

  lemma SeenIsEffective(db: Db, q: StateQuery, rows: seq<Row>, relations: seq<RelationRow>, a: Assertion, types: set<string>)
    requires forall row :: row in relations ==> row in VisibleRelations(db, RelationsFor(q, rows))
    requires TargetedBy(relations, a, types)
    ensures exists r :: Effective(db, q.asOf, r) && r.to == IdOf(a) && r.relationType in types
  {
    var row :| row in relations && row.relation.to == IdOf(a) && row.relation.relationType in types;
    VisibleIsSelected(db, RelationsFor(q, rows), row);
    SelectedIsEffective(db, q, rows, row.relation);
  }

  /** A row of a state read is an assertion of the current version about the subject, active, and meets each filter. */
  ghost predicate CurrentRow(db: Db, q: StateQuery, a: Assertion) {
    && a in db.assertions && a.version == "assertions-v1" && a.subject == Strip(q.subject)
    && KeyOfAssertion(a) in db.receipts && db.receipts[KeyOfAssertion(a)].invalidated == None
    && (q.predicateKey.Some? ==> a.predicateKey == q.predicateKey.value)
    && (q.scope.Some? ==> a.scope == q.scope.value) && (q.role.Some? ==> a.role == q.role.value)
    && (q.kinds.Some? ==> a.kind in q.kinds.value) && (q.asOf.Some? ==> ValidThen(IdOf(a), q.asOf.value))
  }

  lemma VisibleRowIsCurrent(db: Db, q: StateQuery, row: Row)
    requires Inv(db)
    ensures row in VisibleRows(db, AssertionsFor(q)) ==> CurrentRow(db, q, row.assertion)
  {
  }

  lemma CurrentRowIsVisible(db: Db, q: StateQuery, a: Assertion)
    requires Inv(db) && CurrentRow(db, q, a)
    ensures exists row :: row in VisibleRows(db, AssertionsFor(q)) && row.assertion == a
  {
    assert Selected(db, AssertionsFor(q), a);
    assert RowOf(db, a) in VisibleRows(db, AssertionsFor(q));
  }

  /** The rows a state read starts from are current, at most as many as asked for, newest first, and the newest. */
  lemma StateRowsAreCurrent(db: Db, q: StateQuery, rank: Rank)
    requires Inv(db) && QueryAssertions(db, AssertionsFor(q), rank).Ok?
    ensures var rows := QueryAssertions(db, AssertionsFor(q), rank).value;
      && |rows| <= q.limit
      && (forall i :: 0 <= i < |rows| ==> CurrentRow(db, q, rows[i].assertion))
      && (forall a, i :: CurrentRow(db, q, a) && (forall row :: row in rows ==> row.assertion != a) && 0 <= i < |rows| ==>
            a.observedAt <= rows[i].assertion.observedAt)
  {
    var rows := QueryAssertions(db, AssertionsFor(q), rank).value;
    AnswerIsNewestFirst(db, AssertionsFor(q), rank);
    forall i | 0 <= i < |rows| ensures CurrentRow(db, q, rows[i].assertion) {
      VisibleRowIsCurrent(db, q, rows[i]);
    }
    forall a, i | CurrentRow(db, q, a) && (forall row :: row in rows ==> row.assertion != a) && 0 <= i < |rows|
      ensures a.observedAt <= rows[i].assertion.observedAt
    {
      CurrentRowIsVisible(db, q, a);
    }
  }

  /** A state read says of its rows what the relations it read mean; with fewer than 500 of them, what the store's mean. */
  lemma StateReadMeans(db: Db, q: StateQuery, rank: Rank, relationRank: RelationRank)
    requires Inv(db) && StateRead(db, q, rank, relationRank).Ok? && StateRead(db, q, rank, relationRank).value.assertions != []
    ensures QueryAssertions(db, AssertionsFor(q), rank).Ok?
    ensures var rows := QueryAssertions(db, AssertionsFor(q), rank).value;
      && QueryRelations(db, RelationsFor(q, rows), relationRank).Ok?
      && |QueryRelations(db, RelationsFor(q, rows), relationRank).value| <= 500
      && ResultMeans(rows, QueryRelations(db, RelationsFor(q, rows), relationRank).value, StateRead(db, q, rank, relationRank).value)
  {
    var rows := QueryAssertions(db, AssertionsFor(q), rank).value;
    AnswerIsOldestFirst(db, RelationsFor(q, rows), relationRank);
    DeclaredStateMeans(rows, QueryRelations(db, RelationsFor(q, rows), relationRank).value);
  }
  lemma {:induction false} FewIds(rows: seq<Row>)
    ensures |IdSet(rows)| <= |rows|
    ensures rows != [] ==> |IdSet(rows)| >= 1 && IdOf(rows[0].assertion) in IdSet(rows)
  {
    if rows == [] {
      assert IdSet(rows) == {};
    } else {
      var front, last := rows[..|rows| - 1], rows[|rows| - 1];
      FewIds(front);
      forall id ensures id in IdSet(rows) <==> id in IdSet(front) + {IdOf(last.assertion)} {
        IdSetStep(front, last, id);
      }
      assert front + [last] == rows;
      assert IdSet(rows) == IdSet(front) + {IdOf(last.assertion)};
      assert rows[0].assertion in Ids(rows);
    }
  }

  function IdSet(rows: seq<Row>): set<AssertionId> {
    set a | a in Ids(rows) :: IdOf(a)
  }

  lemma IdSetStep(front: seq<Row>, last: Row, id: AssertionId)
    ensures id in IdSet(front + [last]) <==> id in IdSet(front) || id == IdOf(last.assertion)
  {
    var rows := front + [last];
    if id in IdSet(front) {
      var i :| 0 <= i < |front| && IdOf(front[i].assertion) == id;
      assert rows[i].assertion in Ids(rows);
    }
    assert rows[|front|].assertion in Ids(rows);
  }

  lemma RelationsForIsValid(q: StateQuery, rows: seq<Row>)
    requires rows != [] && |rows| <= 500
    ensures ValidRelationFilter(RelationsFor(q, rows))
  {
    FewIds(rows);
    assert RelationsFor(q, rows).ids.value == IdSet(rows);
    StripKeeps("assertions-v1");
  }

  /**
   On every reachable database a state read succeeds exactly with a subject that is not blank, known
   kinds if any, and a limit of 1 to 500; and it is empty exactly when the store holds no current row.
   */
  lemma StateReadOutcome(db: Db, q: StateQuery, rank: Rank, relationRank: RelationRank)
    requires Inv(db)
    ensures StateRead(db, q, rank, relationRank).Ok? <==>
      && Strip(q.subject) != "" && 1 <= q.limit <= 500
      && (q.kinds.Some? ==>
            q.kinds.value != {}
            && q.kinds.value <= {"fact", "event", "preference", "recommendation", "commitment", "action", "status", "quotation"})
    ensures StateRead(db, q, rank, relationRank).Ok? ==>
      (StateRead(db, q, rank, relationRank).value.assertions == [] <==> forall a :: !CurrentRow(db, q, a))
  {
    var f := AssertionsFor(q);
    StripKeeps("assertions-v1");
    AssertionReadsNeverStale(db, f, rank);
    FilterIff(f);
    if ValidFilter(f) {
      var rows := QueryAssertions(db, f, rank).value;
      NoRowsIff(db, q, rank);
      if rows != [] {
        RelationsForIsValid(q, rows);
        RelationReadsNeverStale(db, RelationsFor(q, rows), relationRank);
      }
    }
  }

  lemma NoRowsIff(db: Db, q: StateQuery, rank: Rank)
    requires Inv(db) && QueryAssertions(db, AssertionsFor(q), rank).Ok?
    ensures QueryAssertions(db, AssertionsFor(q), rank).value == [] <==> forall a :: !CurrentRow(db, q, a)
    ensures |QueryAssertions(db, AssertionsFor(q), rank).value| <= 500
  {
    var rows, visible := QueryAssertions(db, AssertionsFor(q), rank).value, VisibleRows(db, AssertionsFor(q));
    AnswerIsNewestFirst(db, AssertionsFor(q), rank);
    if rows != [] {
      VisibleRowIsCurrent(db, q, rows[0]);
      assert CurrentRow(db, q, rows[0].assertion);
    } else {
      assert visible == {};
      forall a ensures !CurrentRow(db, q, a) {
        if CurrentRow(db, q, a) {
          CurrentRowIsVisible(db, q, a);
        }
      }
    }
  }
}
