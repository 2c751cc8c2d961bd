/** The assertion store as the object whose transactions update its tables in place. */
module AssertionStore {
  import opened Wrappers
  import opened AssertionModel
  import opened AssertionHistory

  datatype PublishResult = PublishResult(batch: Batch, alreadyCurrent: bool)

  /** The table after inserting the first `n` of these rows. */
  function Inserted<T>(table: map<T, real>, rows: seq<T>, n: nat, now: real): map<T, real>
    requires n <= |rows|
  {
    table + (map i | i in ToSet(rows[..n]) :: now)
  }

  lemma InsertOne<T>(table: map<T, real>, rows: seq<T>, n: nat, now: real)
    requires n < |rows|
    ensures Inserted(table, rows, n, now)[rows[n] := now] == Inserted(table, rows, n + 1, now)
  {
    assert rows[..n + 1] == rows[..n] + [rows[n]];
  }

  class AssertionDatabase {
    var messages: map<int, Message>
    var receipts: map<SourceKey, Receipt>
    var assertions: map<Assertion, real>
    var relations: map<Relation, real>

    constructor (messages: map<int, Message>)
      ensures Value() == Db(messages, map[], map[], map[]) && Inv(Value())
    {
      this.messages, receipts, assertions, relations := messages, map[], map[], map[];
    }

    function Value(): Db
      reads this
    {
      Db(messages, receipts, assertions, relations)
    }

    /** The active receipt of a source and version, if there is one. */
    method FindActive(storeId: int, version: string) returns (found: Option<SourceKey>)
      ensures found.Some? ==> IsActive(Value(), found.value) && found.value.storeId == storeId && found.value.version == version
      ensures found.Some? <==> HasActive(Value(), storeId, version)
    {
      found := None;
      if k :| k in receipts && k.storeId == storeId && k.version == version && receipts[k].invalidated.None? {
        assert IsActive(Value(), k);
        found := Some(k);
      }
    }

    method InsertAssertions(rows: seq<Assertion>, now: real)
      requires ToSet(rows) !! assertions.Keys && NoDuplicates(rows)
      modifies this`assertions
      ensures assertions == old(assertions) + (map a | a in ToSet(rows) :: now)
    {
      for n := 0 to |rows|
        invariant assertions == Inserted(old(assertions), rows, n, now)
      {
        assert rows[n] in ToSet(rows) && rows[n] !in assertions;
        InsertOne(old(assertions), rows, n, now);
        assertions := assertions[rows[n] := now];
      }
      assert rows[..|rows|] == rows;
    }

    /** Inserts relations one by one; stops at the first whose endpoint is missing or invalidated. */
    method InsertRelations(rows: seq<Relation>, now: real) returns (missing: bool)
      requires ToSet(rows) !! relations.Keys && NoDuplicates(rows)
      modifies this`relations
      ensures missing <==>
        exists r :: r in ToSet(rows) && !(EndpointActive(old(Value()), r.from) && EndpointActive(old(Value()), r.to))
      ensures !missing ==> relations == old(relations) + (map r | r in ToSet(rows) :: now)
    {
      for n := 0 to |rows|
        invariant relations == Inserted(old(relations), rows, n, now)
        invariant forall i :: 0 <= i < n ==>
          EndpointActive(old(Value()), rows[i].from) && EndpointActive(old(Value()), rows[i].to)
      {
        var r := rows[n];
        assert r in ToSet(rows) && r !in relations;
        if !EndpointActive(Value(), r.from) || !EndpointActive(Value(), r.to) {
          return true;
        }
        InsertOne(old(relations), rows, n, now);
        relations := relations[r := now];
      }
      assert rows[..|rows|] == rows;
      return false;
    }

    /** Commits one derived batch, or rolls back and reports why. */
    method PublishSource(s: Snapshot, cs: seq<Candidate>, rs: seq<RelationCandidate>, version: string, now: real)
      returns (result: Result<PublishResult, Error>)
      requires Inv(Value())
      modifies this
      ensures Inv(Value()) && messages == old(messages)
      ensures var step := PublishStep(s, cs, rs, version, now);
        var outcome := AssertionHistory.PublishSource(old(Value()), step);
        && Value() == Apply(old(Value()), step)
        && result == (match outcome
                      case Err(error) => Err(error)
                      case Ok(published) => Ok(PublishResult(published.batch, published.alreadyCurrent)))
    {
      StepKeepsInv(Value(), PublishStep(s, cs, rs, version, now));
      var valid := ValidVersion(version);
      if valid.Err? {
        return Err(valid.error);
      }
      var prepared := Prepare(s, cs, rs, valid.value);
      if prepared.Err? {
        return Err(prepared.error);
      }
      PreparedBatch(s, cs, rs, valid.value);
      var assertionRows := PrepareAssertions(s, cs, valid.value).value;
      var relationRows := PrepareRelations(s, rs, valid.value).value;
      result := Commit(s, assertionRows, relationRows, valid.value, now);
    }

    /** The transaction of `publish_source`. */
    method Commit(s: Snapshot, assertionRows: seq<Assertion>, relationRows: seq<Relation>, version: string, now: real)
      returns (result: Result<PublishResult, Error>)
      requires NoDuplicates(assertionRows) && NoDuplicates(relationRows)
      requires OneActive(Value()) && RowsMatchDigests(Value())
      requires BatchOf(Batch(ToSet(assertionRows), ToSet(relationRows)), SourceKey(s.storeId, version, s.message.content))
      modifies this
      ensures var outcome := Publish(old(Value()), s, Batch(ToSet(assertionRows), ToSet(relationRows)), version, now);
        && Value() == (if outcome.Ok? then outcome.value.db else old(Value()))
        && result == (match outcome
                      case Err(error) => Err(error)
                      case Ok(published) => Ok(PublishResult(published.batch, published.alreadyCurrent)))
    {
      var batch := Batch(ToSet(assertionRows), ToSet(relationRows));
      var key := SourceKey(s.storeId, version, s.message.content);
      if s.storeId !in messages || messages[s.storeId] != s.message {
        return Err(SourceStale);
      }
      var existing := FindActive(s.storeId, version);
      if existing.Some? {
        if existing.value == key && receipts[existing.value].digest == batch {
          return Ok(PublishResult(batch, true));
        }
        OtherContentConflicts(Value(), key, existing.value);
        return Err(PublicationConflict);
      }
      if key in receipts {
        if receipts[key].digest != batch {
          return Err(PublicationConflict);
        }
        receipts := receipts[key := NewReceipt(s, batch)];
        return Ok(PublishResult(batch, true));
      }
      result := InsertFresh(s, assertionRows, relationRows, version, now);
    }

    lemma OtherContentConflicts(db: Db, key: SourceKey, existing: SourceKey)
      requires OneActive(db) && IsActive(db, existing)
      requires existing.storeId == key.storeId && existing.version == key.version
      ensures IsActive(db, key) ==> existing == key
    {
    }

    /** Receipt, assertions and relations of a source seen for the first time. */
    method InsertFresh(s: Snapshot, assertionRows: seq<Assertion>, relationRows: seq<Relation>, version: string, now: real)
      returns (result: Result<PublishResult, Error>)
      requires NoDuplicates(assertionRows) && NoDuplicates(relationRows)
      requires RowsMatchDigests(Value())
      requires BatchOf(Batch(ToSet(assertionRows), ToSet(relationRows)), SourceKey(s.storeId, version, s.message.content))
      requires s.storeId in messages && messages[s.storeId] == s.message
      requires !HasActive(Value(), s.storeId, version) && SourceKey(s.storeId, version, s.message.content) !in receipts
      modifies this
      ensures var outcome := Publish(old(Value()), s, Batch(ToSet(assertionRows), ToSet(relationRows)), version, now);
        && Value() == (if outcome.Ok? then outcome.value.db else old(Value()))
        && result == (match outcome
                      case Err(error) => Err(error)
                      case Ok(published) => Ok(PublishResult(published.batch, published.alreadyCurrent)))
    {
      var savedReceipts, savedAssertions, savedRelations := receipts, assertions, relations;
      var batch := Batch(ToSet(assertionRows), ToSet(relationRows));
      var key := SourceKey(s.storeId, version, s.message.content);
      receipts := receipts[key := NewReceipt(s, batch)];
      InsertAssertions(assertionRows, now);
      var missing := InsertRelations(relationRows, now);
      if missing {
        receipts, assertions, relations := savedReceipts, savedAssertions, savedRelations;
        return Err(EndpointMissing);
      }
      return Ok(PublishResult(batch, false));
    }

    function ActiveOf(storeId: int): set<SourceKey>
      reads this`receipts
    {
      set k | k in receipts && k.storeId == storeId && receipts[k].invalidated.None?
    }

    /** The row updates of one statement. */
    method Stamp(keys: set<SourceKey>, stamp: Invalidation)
      requires keys <= receipts.Keys
      modifies this`receipts
      ensures receipts.Keys == old(receipts).Keys
      ensures forall k :: k in receipts && k in keys ==> receipts[k] == old(receipts)[k].(invalidated := Some(stamp))
      ensures forall k :: k in receipts && k !in keys ==> receipts[k] == old(receipts)[k]
    {
      var todo := keys;
      while todo != {}
        invariant todo <= keys
        invariant receipts.Keys == old(receipts).Keys
        invariant forall k :: k in keys - todo ==> receipts[k] == old(receipts)[k].(invalidated := Some(stamp))
        invariant forall k :: k in receipts && k !in keys - todo ==> receipts[k] == old(receipts)[k]
        decreases |todo|
      {
        var k :| k in todo;
        receipts := receipts[k := receipts[k].(invalidated := Some(stamp))];
        todo := todo - {k};
      }
    }

    /** Invalidates every active receipt of the source and reports how many there were. */
    method InvalidateSource(storeId: int, at: real, reason: string) returns (changed: nat)
      modifies this`receipts
      ensures Value() == Invalidate(old(Value()), storeId, at, reason)
      ensures changed == |old(ActiveOf(storeId))|
    {
      changed := |ActiveOf(storeId)|;
      Stamp(ActiveOf(storeId), Invalidation(at, reason));
      assert receipts == Invalidate(old(Value()), storeId, at, reason).receipts;
    }
  }
}
