/** What a candidate must satisfy to be accepted, and that every stored row satisfies its table's constraints. */
module AssertionChecks {
  import opened Wrappers
  import opened Text
  import opened AssertionModel
  import opened AssertionHistory

  // ---------------------------------------------------------------- stripped text

  /** The text is `s` without the blanks around it. */
  ghost predicate IsTrimmed(s: string, t: string) {
    exists i, j :: CutsAt(s, t, i, j)
  }

  ghost predicate CutsAt(s: string, t: string, i: int, j: int) {
    && 0 <= i <= j <= |s| && t == s[i..j]
    && (forall k :: 0 <= k < i ==> IsBlankChar(s[k])) && (forall k :: j <= k < |s| ==> IsBlankChar(s[k]))
    && (i < j ==> !IsBlankChar(s[i]) && !IsBlankChar(s[j - 1]))
  }

  lemma {:induction false} StripLeftCuts(s: string) returns (i: nat)
    requires s == [] || !IsBlankChar(s[|s| - 1])
    ensures CutsAt(s, StripLeft(s), i, |s|)
  {
    if s != [] && IsBlankChar(s[0]) {
      var k := StripLeftCuts(s[1..]);
      i := k + 1;
      assert s[1..][k..] == s[i..];
      assert forall m :: 0 < m < i ==> s[m] == s[1..][m - 1];
    } else {
      i := 0;
    }
  }

  lemma {:induction false} StripCuts(s: string)
    ensures IsTrimmed(s, Strip(s))
    decreases |s|
  {
    if s != [] && IsBlankChar(s[|s| - 1]) {
      var t := s[..|s| - 1];
      StripCuts(t);
      var i, j :| CutsAt(t, Strip(t), i, j);
      assert t[i..j] == s[i..j];
      assert CutsAt(s, Strip(s), i, j);
    } else {
      var i := StripLeftCuts(s);
      assert CutsAt(s, Strip(s), i, |s|);
    }
  }

  // ---------------------------------------------------------------- acceptance

  /** An extraction version is 1 to 128 characters once stripped. */
  lemma VersionIff(version: string)
    ensures ValidVersion(version).Ok? <==> 1 <= |Strip(version)| <= 128
    ensures ValidVersion(version).Ok? ==> ValidVersion(version).value == Strip(version)
  {
  }

  ghost predicate NamesOneOf(name: string, names: set<string>) {
    Lower(Strip(name)) in names
  }

  /** What the store asks of an assertion candidate for a message. */
  ghost predicate Acceptable(c: Candidate, content: string) {
    && 0 <= c.start < c.end <= |content|
    && 1 <= |Strip(c.subject)| <= 512 && 1 <= |Strip(c.predicateKey)| <= 512 && |Strip(c.scope)| <= 512
    && NamesOneOf(c.kind, {"fact", "event", "preference", "recommendation", "commitment", "action", "status", "quotation"})
    && NamesOneOf(c.polarity, {"positive", "negative", "unknown"})
    && |c.valueText| <= 16384 && |c.objectJson| <= 32768 && c.payloadChars <= 32768
    && (c.strength.None? || 0.0 <= c.strength.value <= 1.0)
    && c.confidence.Some? && 0.0 <= c.confidence.value <= 1.0
    && (c.validFrom.None? || c.validTo.None? || c.validFrom.value < c.validTo.value)
  }

  lemma AcceptedIff(s: Snapshot, c: Candidate, version: string)
    ensures PrepareAssertion(s, c, version).Ok? <==> Acceptable(c, s.message.content)
  {
  }

  ghost predicate RelationAcceptable(c: RelationCandidate, content: string) {
    && 0 <= c.start < c.end <= |content|
    && NamesOneOf(c.relationType, {"confirms", "supersedes", "contradicts", "narrows", "weakens", "reverses", "cancels",
                                   "fulfills", "quotes"})
    && !c.from.NotHex? && !c.to.NotHex? && c.from != c.to
    && c.confidence.Some? && 0.0 <= c.confidence.value <= 1.0 && c.payloadChars <= 32768
  }

  lemma RelationAcceptedIff(s: Snapshot, c: RelationCandidate, version: string)
    ensures PrepareRelation(s, c, version).Ok? <==> RelationAcceptable(c, s.message.content)
  {
  }

  lemma LastAccepted(s: Snapshot, cs: seq<Candidate>, version: string)
    requires cs != []
    ensures PrepareAssertions(s, cs, version).Ok? <==>
      PrepareAssertions(s, cs[..|cs| - 1], version).Ok? && Acceptable(cs[|cs| - 1], s.message.content)
  {
    AcceptedIff(s, cs[|cs| - 1], version);
  }

  /** A list of candidates is accepted whole or not at all. */
  lemma {:induction false} AllAccepted(s: Snapshot, cs: seq<Candidate>, version: string)
    ensures PrepareAssertions(s, cs, version).Ok? <==> forall c :: c in cs ==> Acceptable(c, s.message.content)
  {
    if cs != [] {
      LastAccepted(s, cs, version);
      AllAccepted(s, cs[..|cs| - 1], version);
      assert forall c :: c in cs <==> c in cs[..|cs| - 1] || c == cs[|cs| - 1];
    }
  }

  lemma LastRelationAccepted(s: Snapshot, rs: seq<RelationCandidate>, version: string)
    requires rs != []
    ensures PrepareRelations(s, rs, version).Ok? <==>
      PrepareRelations(s, rs[..|rs| - 1], version).Ok? && RelationAcceptable(rs[|rs| - 1], s.message.content)
  {
    RelationAcceptedIff(s, rs[|rs| - 1], version);
  }

  lemma {:induction false} AllRelationsAccepted(s: Snapshot, rs: seq<RelationCandidate>, version: string)
    ensures PrepareRelations(s, rs, version).Ok? <==> forall r :: r in rs ==> RelationAcceptable(r, s.message.content)
  {
    if rs != [] {
      LastRelationAccepted(s, rs, version);
      AllRelationsAccepted(s, rs[..|rs| - 1], version);
      assert forall r :: r in rs <==> r in rs[..|rs| - 1] || r == rs[|rs| - 1];
    }
  }

  ghost predicate Unrepeated<T(!new)>(s: seq<T>) {
    forall i, j :: 0 <= i < j < |s| ==> s[i] != s[j]
  }

  /**
   A publication is prepared exactly when it has at most 500 candidates and 500 relations, each of them
   is acceptable, no two become the same row, and the rows together stay within the size limit.
   */
  lemma PreparedIff(s: Snapshot, cs: seq<Candidate>, rs: seq<RelationCandidate>, version: string)
    ensures Prepare(s, cs, rs, version).Ok? <==>
      && |cs| <= 500 && |rs| <= 500 && BatchChars(cs, rs) <= 32768
      && (forall c :: c in cs ==> Acceptable(c, s.message.content))
      && (forall r :: r in rs ==> RelationAcceptable(r, s.message.content))
      && (PrepareAssertions(s, cs, version).Ok? ==> Unrepeated(PrepareAssertions(s, cs, version).value))
      && (PrepareRelations(s, rs, version).Ok? ==> Unrepeated(PrepareRelations(s, rs, version).value))
  {
    AllAccepted(s, cs, version);
    AllRelationsAccepted(s, rs, version);
  }

  /** The size of a batch is that of its empty JSON, and of each payload with its id and a comma. */
  lemma {:induction false} SizeIsSum(cs: seq<Candidate>, c: Candidate, rs: seq<RelationCandidate>, r: RelationCandidate)
    ensures BatchChars([], []) == |"{`assertions`:[],`relations`:[]}"|
    ensures BatchChars(cs + [c], rs) == BatchChars(cs, rs) + c.payloadChars + |"`assertion_id`:``,"| + 64 + if cs == [] then 0 else 1
    ensures BatchChars(cs, rs + [r]) == BatchChars(cs, rs) + r.payloadChars + |"`relation_id`:``,"| + 64 + if rs == [] then 0 else 1
  {
    assert (cs + [c])[..|cs|] == cs;
    assert (rs + [r])[..|rs|] == rs;
  }

  // ---------------------------------------------------------------- the tables' own constraints

  /** `length(trim(x)) > 0`: SQLite trims spaces. */
  predicate NotOnlySpaces(s: string) {
    exists i :: 0 <= i < |s| && s[i] != ' '
  }

  ghost predicate SpanChecks(content: string, start: int, end: int, quote: string) {
    0 <= start < end <= |content| && content[start..end] == quote
  }

  ghost predicate RowChecks(a: Assertion) {
    && NotOnlySpaces(a.subject) && NotOnlySpaces(a.predicateKey)
    && a.kind in {"fact", "event", "preference", "recommendation", "commitment", "action", "status", "quotation"}
    && a.polarity in {"positive", "negative", "unknown"}
    && (a.strength.None? || 0.0 <= a.strength.value <= 1.0) && 0.0 <= a.confidence <= 1.0
    && (a.validFrom.None? || a.validTo.None? || a.validTo.value > a.validFrom.value)
    && SpanChecks(a.content, a.start, a.end, a.quote)
  }

  ghost predicate RelationChecks(r: Relation) {
    && r.relationType in {"confirms", "supersedes", "contradicts", "narrows", "weakens", "reverses", "cancels", "fulfills", "quotes"}
    && 0.0 <= r.confidence <= 1.0 && r.from != r.to
    && SpanChecks(r.content, r.start, r.end, r.quote)
  }

  ghost predicate BatchChecks(batch: Batch) {
    (forall a :: a in batch.assertions ==> RowChecks(a)) && (forall r :: r in batch.relations ==> RelationChecks(r))
  }

  ghost predicate TableChecks(db: Db) {
    (forall a :: a in db.assertions ==> RowChecks(a)) && (forall r :: r in db.relations ==> RelationChecks(r))
  }

  lemma StrippedChecks(s: string)
    requires Strip(s) != ""
    ensures NotOnlySpaces(Strip(s))
  {
    StripCuts(s);
    assert !IsBlankChar(Strip(s)[0]);
  }

  lemma PreparedMeetsChecks(s: Snapshot, c: Candidate, version: string)
    requires PrepareAssertion(s, c, version).Ok?
    ensures RowChecks(PrepareAssertion(s, c, version).value)
  {
    StrippedChecks(c.subject);
    StrippedChecks(c.predicateKey);
  }

  lemma {:induction false} AllMeetChecks(s: Snapshot, cs: seq<Candidate>, version: string)
    requires PrepareAssertions(s, cs, version).Ok?
    ensures forall a :: a in PrepareAssertions(s, cs, version).value ==> RowChecks(a)
  {
    if cs != [] {
      AllMeetChecks(s, cs[..|cs| - 1], version);
      PreparedMeetsChecks(s, cs[|cs| - 1], version);
    }
  }

  lemma {:induction false} AllRelationsMeetChecks(s: Snapshot, rs: seq<RelationCandidate>, version: string)
    requires PrepareRelations(s, rs, version).Ok?
    ensures forall r :: r in PrepareRelations(s, rs, version).value ==> RelationChecks(r)
  {
    if rs != [] {
      AllRelationsMeetChecks(s, rs[..|rs| - 1], version);
    }
  }

  lemma PreparedBatchChecks(s: Snapshot, cs: seq<Candidate>, rs: seq<RelationCandidate>, version: string)
    requires Prepare(s, cs, rs, version).Ok?
    ensures BatchChecks(Prepare(s, cs, rs, version).value)
  {
    AllMeetChecks(s, cs, version);
    AllRelationsMeetChecks(s, rs, version);
  }

  lemma StepKeepsChecks(db: Db, step: Step)
    requires TableChecks(db)
    ensures TableChecks(Apply(db, step))
  {
    if step.PublishStep? && PublishSource(db, step).Ok? {
      var version := ValidVersion(step.version).value;
      var batch := Prepare(step.snapshot, step.candidates, step.relations, version).value;
      PreparedBatchChecks(step.snapshot, step.candidates, step.relations, version);
      PublishShape(db, step.snapshot, batch, version, step.now);
    }
  }

  /**
   The checks made before the transaction are enough for the tables': over every sequence of steps no
   row is stored that a CHECK constraint or an insert guard would refuse.
   */
  lemma {:induction false} RunKeepsChecks(db: Db, steps: seq<Step>)
    requires TableChecks(db)
    ensures TableChecks(Run(db, steps))
    decreases |steps|
  {
    if steps != [] {
      StepKeepsChecks(db, steps[0]);
      RunKeepsChecks(Apply(db, steps[0]), steps[1..]);
    }
  }
}
