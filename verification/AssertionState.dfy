/** Lifecycle state and conflicts over assertion reads, without recency deciding between them. */
module AssertionState {
  import opened Wrappers
  import opened Text
  import opened AssertionModel
  import opened AssertionHistory
  import opened AssertionQuery

  /** In the alphabetical order of their names. */
  datatype Status = Cancelled | Fulfilled | Reversed | Superseded

  datatype Disposition = Accepted | Declined

  datatype SemanticState =
    | ConflictingDisposition | Disposed(disposition: Disposition) | Lifecycle(status: Status)
    | Unanswered | Pending | Current | Unknown

  // ---------------------------------------------------------------- what one relation says

  function StatusOf(relationType: string): Option<Status> {
    if relationType == "cancels" then Some(Cancelled)
    else if relationType == "fulfills" then Some(Fulfilled)
    else if relationType == "reverses" then Some(Reversed)
    else if relationType == "supersedes" then Some(Superseded)
    else None
  }

  predicate Accepts(relationType: string) {
    relationType == "confirms"
  }

  predicate Declines(relationType: string) {
    relationType in {"cancels", "contradicts", "reverses"}
  }

  datatype Group = Group(subject: string, predicateKey: string, scope: string, kind: string)

  datatype Identity = Identity(objectJson: string, polarity: string, valueText: string)

  function GroupOf(a: Assertion): Group {
    Group(a.subject, a.predicateKey, a.scope, a.kind)
  }

  function IdentityOf(a: Assertion): Identity {
    Identity(a.objectJson, a.polarity, a.valueText)
  }

  // ---------------------------------------------------------------- declarative definitions

  predicate GivesStatus(r: Relation, a: Assertion, status: Status) {
    r.to == IdOf(a) && StatusOf(r.relationType) == Some(status)
  }

  predicate GivesDisposition(r: Relation, a: Assertion, d: Disposition) {
    r.to == IdOf(a) && if d == Accepted then Accepts(r.relationType) else Declines(r.relationType)
  }

  predicate Contradicts(r: Relation, a: Assertion) {
    r.relationType == "contradicts" && (r.from == IdOf(a) || r.to == IdOf(a))
  }

  predicate HasStatus(relations: seq<RelationRow>, a: Assertion, status: Status) {
    exists i :: 0 <= i < |relations| && GivesStatus(relations[i].relation, a, status)
  }

  predicate HasDisposition(relations: seq<RelationRow>, a: Assertion, d: Disposition) {
    exists i :: 0 <= i < |relations| && GivesDisposition(relations[i].relation, a, d)
  }

  predicate Contradicted(relations: seq<RelationRow>, a: Assertion) {
    exists i :: 0 <= i < |relations| && Contradicts(relations[i].relation, a)
  }

  /** Some relation that cancels, fulfils, reverses or supersedes points at the assertion. */
  predicate Inactivated(relations: seq<RelationRow>, a: Assertion) {
    exists i :: 0 <= i < |relations| && relations[i].relation.to == IdOf(a)
                && StatusOf(relations[i].relation.relationType).Some?
  }

  predicate IsActiveRow(rows: seq<Row>, relations: seq<RelationRow>, a: Assertion) {
    (exists i :: 0 <= i < |rows| && rows[i].assertion == a) && !Inactivated(relations, a)
  }

  /** Two active rows about the same thing that say something different. */
  predicate Rivals(rows: seq<Row>, relations: seq<RelationRow>, a: Assertion, b: Assertion) {
    && IsActiveRow(rows, relations, a) && IsActiveRow(rows, relations, b)
    && GroupOf(a) == GroupOf(b) && IdentityOf(a) != IdentityOf(b)
  }

  predicate InConflict(rows: seq<Row>, relations: seq<RelationRow>, a: Assertion) {
    && IsActiveRow(rows, relations, a)
    && (Contradicted(relations, a)
        || exists i :: 0 <= i < |rows| && Rivals(rows, relations, a, rows[i].assertion))
  }

  function FirstStatus(statuses: set<Status>): Status
    requires statuses != {}
  {
    if Cancelled in statuses then Cancelled
    else if Fulfilled in statuses then Fulfilled
    else if Reversed in statuses then Reversed
    else Superseded
  }

  function Semantic(kind: string, statuses: set<Status>, dispositions: set<Disposition>): SemanticState {
    if kind == "recommendation" then
      if Accepted in dispositions && Declined in dispositions then ConflictingDisposition
      else if Accepted in dispositions then Disposed(Accepted)
      else if Declined in dispositions then Disposed(Declined)
      else if statuses != {} then Lifecycle(FirstStatus(statuses))
      else Unanswered
    else if kind == "commitment" then
      if Fulfilled in statuses then Lifecycle(Fulfilled)
      else if Cancelled in statuses then Lifecycle(Cancelled)
      else if statuses != {} then Lifecycle(FirstStatus(statuses))
      else Pending
    else if statuses != {} then Lifecycle(FirstStatus(statuses))
    else Current
  }

  /** The place of a status in the alphabetical order of names. */
  function Alphabetical(s: Status): nat {
    match s
    case Cancelled => 0
    case Fulfilled => 1
    case Reversed => 2
    case Superseded => 3
  }

  /**
   What a semantic state means: a lifecycle status shown is one the row has, and the first by name
   unless a commitment was fulfilled; a disposition shown is the only one; and the neutral states
   stand exactly for rows without any.
   */
  lemma SemanticIsWitnessed(kind: string, statuses: set<Status>, dispositions: set<Disposition>)
    ensures var state := Semantic(kind, statuses, dispositions);
      && (state.Lifecycle? ==>
            && state.status in statuses
            && (kind == "recommendation" ==> dispositions == {})
            && if kind == "commitment" && Fulfilled in statuses then state.status == Fulfilled
               else forall s :: s in statuses ==> Alphabetical(state.status) <= Alphabetical(s))
      && (state == Disposed(Accepted) <==> kind == "recommendation" && dispositions == {Accepted})
      && (state == Disposed(Declined) <==> kind == "recommendation" && dispositions == {Declined})
      && (state.ConflictingDisposition? <==> kind == "recommendation" && dispositions == {Accepted, Declined})
      && (state.Unanswered? <==> kind == "recommendation" && dispositions == {} && statuses == {})
      && (state.Pending? <==> kind == "commitment" && statuses == {})
      && (state.Current? <==> kind != "recommendation" && kind != "commitment" && statuses == {})
      && !state.Unknown?
  {
    forall d | d in dispositions ensures d == Accepted || d == Declined {
      match d
      case Accepted =>
      case Declined =>
    }
    forall s | s in statuses ensures s == Cancelled || s == Fulfilled || s == Reversed || s == Superseded {
      match s
      case Cancelled =>
      case Fulfilled =>
      case Reversed =>
      case Superseded =>
    }
    assert dispositions == (if Accepted in dispositions then {Accepted} else {})
                           + (if Declined in dispositions then {Declined} else {});
    if s :| s in statuses {
      assert Cancelled in statuses || Fulfilled in statuses || Reversed in statuses || Superseded in statuses;
    }
  }

  // ---------------------------------------------------------------- the grouping passes

  function Ids(rows: seq<Row>): set<Assertion> {
    set i | 0 <= i < |rows| :: rows[i].assertion
  }

  ghost predicate LifecycleFrom(lifecycle: map<Assertion, set<Status>>, ids: set<Assertion>, relations: seq<RelationRow>) {
    && lifecycle.Keys == ids
    && forall a, s :: a in ids ==> (s in lifecycle[a] <==> HasStatus(relations, a, s))
  }

  ghost predicate DispositionsFrom(dispositions: map<Assertion, set<Disposition>>, ids: set<Assertion>,
                                   relations: seq<RelationRow>) {
    && dispositions.Keys == Recommendations(ids)
    && forall a, d :: a in dispositions ==> (d in dispositions[a] <==> HasDisposition(relations, a, d))
  }

  ghost predicate ExplicitFrom(explicit: set<Assertion>, ids: set<Assertion>, relations: seq<RelationRow>) {
    forall a :: a in explicit <==> a in ids && Contradicted(relations, a)
  }

  function Recommendations(ids: set<Assertion>): set<Assertion> {
    set a | a in ids && a.kind == "recommendation"
  }

  /** First pass: each relation adds to its target's lifecycle, dispositions and explicit conflicts. */
  method CollectRelations(ids: set<Assertion>, relations: seq<RelationRow>)
    returns (lifecycle: map<Assertion, set<Status>>, dispositions: map<Assertion, set<Disposition>>,
             explicit: set<Assertion>)
    ensures LifecycleFrom(lifecycle, ids, relations)
    ensures DispositionsFrom(dispositions, ids, relations)
    ensures ExplicitFrom(explicit, ids, relations)
  {
    lifecycle := map a | a in ids :: {};
    dispositions := map a | a in Recommendations(ids) :: {};
    explicit := {};
    assert relations[..|relations|] == relations;
    for n := 0 to |relations|
      invariant LifecycleFrom(lifecycle, ids, relations[..n])
      invariant DispositionsFrom(dispositions, ids, relations[..n])
      invariant ExplicitFrom(explicit, ids, relations[..n])
    {
      var r := relations[n].relation;
      StatusAdded(lifecycle, ids, relations, n);
      DispositionAdded(dispositions, ids, relations, n);
      ConflictAdded(explicit, ids, relations, n);
      var status := StatusOf(r.relationType);
      if status.Some? && r.to.IdOf? && r.to.assertion in lifecycle {
        lifecycle := lifecycle[r.to.assertion := lifecycle[r.to.assertion] + {status.value}];
      }
      if r.relationType == "contradicts" {
        explicit := explicit + Endpoints(ids, r);
      }
      dispositions := AddDispositions(dispositions, r);
    }
  }

  method AddDispositions(before: map<Assertion, set<Disposition>>, r: Relation)
    returns (dispositions: map<Assertion, set<Disposition>>)
    ensures dispositions == WithDispositions(before, r)
  {
    dispositions := before;
    if r.to.IdOf? && r.to.assertion in dispositions {
      var found := dispositions[r.to.assertion];
      if Accepts(r.relationType) {
        found := found + {Accepted};
      }
      if Declines(r.relationType) {
        found := found + {Declined};
      }
      assert found == before[r.to.assertion] + (if Accepts(r.relationType) then {Accepted} else {})
                      + (if Declines(r.relationType) then {Declined} else {});
      dispositions := dispositions[r.to.assertion := found];
    }
  }

  function Endpoints(ids: set<Assertion>, r: Relation): set<Assertion> {
    set a | a in ids && (IdOf(a) == r.from || IdOf(a) == r.to)
  }

  lemma OneMoreStatus(relations: seq<RelationRow>, n: nat, a: Assertion, s: Status)
    requires n < |relations|
    ensures HasStatus(relations[..n + 1], a, s) <==>
      HasStatus(relations[..n], a, s) || GivesStatus(relations[n].relation, a, s)
  {
    if GivesStatus(relations[n].relation, a, s) {
      assert relations[..n + 1][n] == relations[n];
    }
    if i :| 0 <= i < n && GivesStatus(relations[..n][i].relation, a, s) {
      assert relations[..n + 1][i] == relations[..n][i];
    }
  }

  lemma OneMoreDisposition(relations: seq<RelationRow>, n: nat, a: Assertion, d: Disposition)
    requires n < |relations|
    ensures HasDisposition(relations[..n + 1], a, d) <==>
      HasDisposition(relations[..n], a, d) || GivesDisposition(relations[n].relation, a, d)
  {
    if GivesDisposition(relations[n].relation, a, d) {
      assert relations[..n + 1][n] == relations[n];
    }
    if i :| 0 <= i < n && GivesDisposition(relations[..n][i].relation, a, d) {
      assert relations[..n + 1][i] == relations[..n][i];
    }
  }

  lemma OneMoreContradiction(relations: seq<RelationRow>, n: nat, a: Assertion)
    requires n < |relations|
    ensures Contradicted(relations[..n + 1], a) <==>
      Contradicted(relations[..n], a) || Contradicts(relations[n].relation, a)
  {
    if Contradicts(relations[n].relation, a) {
      assert relations[..n + 1][n] == relations[n];
    }
    if i :| 0 <= i < n && Contradicts(relations[..n][i].relation, a) {
      assert relations[..n + 1][i] == relations[..n][i];
    }
  }

  lemma StatusAdded(lifecycle: map<Assertion, set<Status>>, ids: set<Assertion>, relations: seq<RelationRow>, n: nat)
    requires n < |relations| && LifecycleFrom(lifecycle, ids, relations[..n])
    ensures var r := relations[n].relation;
      var status := StatusOf(r.relationType);
      LifecycleFrom(
        if status.Some? && r.to.IdOf? && r.to.assertion in lifecycle
        then lifecycle[r.to.assertion := lifecycle[r.to.assertion] + {status.value}] else lifecycle,
        ids, relations[..n + 1])
  {
    forall a, s ensures HasStatus(relations[..n + 1], a, s) <==>
                        HasStatus(relations[..n], a, s) || GivesStatus(relations[n].relation, a, s) {
      OneMoreStatus(relations, n, a, s);
    }
  }

  function WithDispositions(dispositions: map<Assertion, set<Disposition>>, r: Relation): map<Assertion, set<Disposition>> {
    if r.to.IdOf? && r.to.assertion in dispositions then
      dispositions[r.to.assertion := dispositions[r.to.assertion]
                   + (if Accepts(r.relationType) then {Accepted} else {})
                   + (if Declines(r.relationType) then {Declined} else {})]
    else dispositions
  }

  lemma DispositionAdded(dispositions: map<Assertion, set<Disposition>>, ids: set<Assertion>,
                         relations: seq<RelationRow>, n: nat)
    requires n < |relations| && DispositionsFrom(dispositions, ids, relations[..n])
    ensures DispositionsFrom(WithDispositions(dispositions, relations[n].relation), ids, relations[..n + 1])
  {
    forall a, d ensures HasDisposition(relations[..n + 1], a, d) <==>
                        HasDisposition(relations[..n], a, d) || GivesDisposition(relations[n].relation, a, d) {
      OneMoreDisposition(relations, n, a, d);
    }
  }

  lemma ConflictAdded(explicit: set<Assertion>, ids: set<Assertion>, relations: seq<RelationRow>, n: nat)
    requires n < |relations| && ExplicitFrom(explicit, ids, relations[..n])
    ensures var r := relations[n].relation;
      ExplicitFrom(if r.relationType == "contradicts" then explicit + Endpoints(ids, r) else explicit,
                   ids, relations[..n + 1])
  {
    forall a ensures Contradicted(relations[..n + 1], a) <==>
                     Contradicted(relations[..n], a) || Contradicts(relations[n].relation, a) {
      OneMoreContradiction(relations, n, a);
    }
  }

  type Groups = map<Group, map<Identity, set<Assertion>>>

  predicate InGroups(groups: Groups, g: Group, v: Identity, a: Assertion) {
    g in groups && v in groups[g] && a in groups[g][v]
  }

  /** The groups hold exactly these assertions, each once, under its own key and value. */
  ghost predicate Grouped(groups: Groups, members: set<Assertion>) {
    && (forall g, v, a :: InGroups(groups, g, v, a) <==> a in members && GroupOf(a) == g && IdentityOf(a) == v)
    && (forall g, v :: g in groups && v in groups[g] ==> groups[g][v] != {})
  }

  function WithMember(groups: Groups, a: Assertion): Groups {
    var g, v := GroupOf(a), IdentityOf(a);
    var variants := if g in groups then groups[g] else map[];
    groups[g := variants[v := (if v in variants then variants[v] else {}) + {a}]]
  }

  lemma MemberGrouped(groups: Groups, members: set<Assertion>, a: Assertion)
    requires Grouped(groups, members)
    ensures Grouped(WithMember(groups, a), members + {a})
  {
    forall g, v, x
      ensures InGroups(WithMember(groups, a), g, v, x) <==>
        (InGroups(groups, g, v, x) || (x == a && GroupOf(a) == g && IdentityOf(a) == v))
    {
    }
  }

  /** Second pass: active rows grouped by key and value. */
  method GroupActive(rows: seq<Row>, active: set<Assertion>) returns (groups: Groups)
    requires active <= Ids(rows)
    ensures Grouped(groups, active)
  {
    groups := map[];
    for n := 0 to |rows|
      invariant Grouped(groups, Ids(rows[..n]) * active)
    {
      var a := rows[n].assertion;
      IdsOfPrefix(rows, n);
      if a in active {
        MemberGrouped(groups, Ids(rows[..n]) * active, a);
        var g, v := GroupOf(a), IdentityOf(a);
        var variants := if g in groups then groups[g] else map[];
        var members := if v in variants then variants[v] else {};
        groups := groups[g := variants[v := members + {a}]];
        assert Ids(rows[..n + 1]) * active == Ids(rows[..n]) * active + {a};
      } else {
        assert Ids(rows[..n + 1]) * active == Ids(rows[..n]) * active;
      }
    }
    assert rows[..|rows|] == rows;
    assert Ids(rows) * active == active;
  }

  lemma IdsOfPrefix(rows: seq<Row>, n: nat)
    requires n < |rows|
    ensures Ids(rows[..n + 1]) == Ids(rows[..n]) + {rows[n].assertion}
  {
    assert forall i :: 0 <= i < n ==> rows[..n + 1][i] == rows[..n][i] == rows[i];
    assert rows[..n + 1][n] == rows[n];
    forall a | a in Ids(rows[..n]) ensures a in Ids(rows[..n + 1]) {
      var i :| 0 <= i < n && rows[..n][i].assertion == a;
      assert rows[..n + 1][i].assertion == a;
    }
  }

  predicate InSplitGroup(groups: Groups, g: Group, a: Assertion) {
    g in groups && |groups[g]| > 1 && exists v :: v in groups[g] && a in groups[g][v]
  }

  /** Third pass: every variant of a group with more than one variant is unresolved. */
  method CollectConflicts(groups: Groups, explicit: set<Assertion>) returns (conflicts: set<Assertion>)
    ensures forall a :: a in conflicts <==> a in explicit || exists g :: InSplitGroup(groups, g, a)
  {
    conflicts := explicit;
    var todo := groups.Keys;
    while todo != {}
      invariant todo <= groups.Keys
      invariant forall a :: a in conflicts <==>
        a in explicit || exists g :: g !in todo && InSplitGroup(groups, g, a)
      decreases |todo|
    {
      var g :| g in todo;
      if |groups[g]| > 1 {
        var added := set v, a | v in groups[g] && a in groups[g][v] :: a;
        assert forall a :: a in added <==> InSplitGroup(groups, g, a);
        conflicts := conflicts + added;
      }
      todo := todo - {g};
    }
  }

  datatype Annotated = Annotated(row: Row, active: Option<bool>, statuses: Option<set<Status>>,
                                 unresolvedConflict: bool, state: SemanticState)

  datatype StateResult = StateResult(assertions: seq<Annotated>, active: Option<seq<Assertion>>,
                                     conflicts: seq<Assertion>, relationsTruncated: bool)

  const RELATION_LIMIT: nat := 500

  function StatusesOf(relations: seq<RelationRow>, a: Assertion): set<Status> {
    set s | s in {Cancelled, Fulfilled, Reversed, Superseded} && HasStatus(relations, a, s)
  }

  function DispositionsOf(relations: seq<RelationRow>, a: Assertion): set<Disposition> {
    if a.kind == "recommendation" then set d | d in {Accepted, Declined} && HasDisposition(relations, a, d) else {}
  }

  function Annotate(rows: seq<Row>, relations: seq<RelationRow>, row: Row): Annotated {
    var a := row.assertion;
    var cut := |relations| == RELATION_LIMIT;
    Annotated(row,
              if cut then None else Some(IsActiveRow(rows, relations, a)),
              if cut then None else Some(StatusesOf(relations, a)),
              InConflict(rows, relations, a),
              if cut then Unknown else Semantic(a.kind, StatusesOf(relations, a), DispositionsOf(relations, a)))
  }

  function Keep(rows: seq<Row>, chosen: set<Assertion>): seq<Assertion> {
    if rows == [] then []
    else
      Keep(rows[..|rows| - 1], chosen)
      + if rows[|rows| - 1].assertion in chosen then [rows[|rows| - 1].assertion] else []
  }

  /** The state read declared pairwise: what the three passes are proved to compute. */
  function DeclaredState(rows: seq<Row>, relations: seq<RelationRow>): StateResult {
    var cut := |relations| == RELATION_LIMIT;
    StateResult(
      seq(|rows|, i requires 0 <= i < |rows| => Annotate(rows, relations, rows[i])),
      if cut then None else Some(Keep(rows, ActiveRows(rows, relations))),
      Keep(rows, set a | a in Ids(rows) && InConflict(rows, relations, a)),
      cut)
  }

  // ---------------------------------------------------------------- what the state says

  /** Some relation of one of the types points at the assertion. */
  predicate TargetedBy(relations: seq<RelationRow>, a: Assertion, types: set<string>) {
    exists i :: 0 <= i < |relations| && relations[i].relation.to == IdOf(a) && relations[i].relation.relationType in types
  }

  /** Some relation that contradicts has the assertion at either end. */
  predicate Disputed(relations: seq<RelationRow>, a: Assertion) {
    exists i :: 0 <= i < |relations| && relations[i].relation.relationType == "contradicts"
                && (relations[i].relation.from == IdOf(a) || relations[i].relation.to == IdOf(a))
  }

  predicate StandsIn(relations: seq<RelationRow>, a: Assertion) {
    !TargetedBy(relations, a, {"cancels", "fulfills", "reverses", "supersedes"})
  }

  predicate SaysOtherwise(a: Assertion, b: Assertion) {
    && a.subject == b.subject && a.predicateKey == b.predicateKey && a.scope == b.scope && a.kind == b.kind
    && (a.objectJson != b.objectJson || a.polarity != b.polarity || a.valueText != b.valueText)
  }

  /** Still standing, and disputed or at odds with another standing row about the same thing. */
  predicate Unresolved(rows: seq<Row>, relations: seq<RelationRow>, a: Assertion) {
    && StandsIn(relations, a)
    && (Disputed(relations, a)
        || exists j :: 0 <= j < |rows| && StandsIn(relations, rows[j].assertion) && SaysOtherwise(a, rows[j].assertion))
  }

  predicate StatusesMean(relations: seq<RelationRow>, a: Assertion, statuses: set<Status>) {
    && (Cancelled in statuses <==> TargetedBy(relations, a, {"cancels"}))
    && (Fulfilled in statuses <==> TargetedBy(relations, a, {"fulfills"}))
    && (Reversed in statuses <==> TargetedBy(relations, a, {"reverses"}))
    && (Superseded in statuses <==> TargetedBy(relations, a, {"supersedes"}))
  }

  /** What is shown for a recommendation, for a commitment, and for anything else. */
  predicate StateMeans(relations: seq<RelationRow>, a: Assertion, state: SemanticState) {
    var accepted, declined := TargetedBy(relations, a, {"confirms"}), TargetedBy(relations, a, {"cancels", "contradicts", "reverses"});
    var cancelled, fulfilled := TargetedBy(relations, a, {"cancels"}), TargetedBy(relations, a, {"fulfills"});
    var reversed, superseded := TargetedBy(relations, a, {"reverses"}), TargetedBy(relations, a, {"supersedes"});
    if a.kind == "recommendation" && (accepted || declined) then
      state == if accepted && declined then ConflictingDisposition else if accepted then Disposed(Accepted) else Disposed(Declined)
    else if a.kind == "commitment" && fulfilled then state == Lifecycle(Fulfilled)
    else if cancelled then state == Lifecycle(Cancelled)
    else if fulfilled then state == Lifecycle(Fulfilled)
    else if reversed then state == Lifecycle(Reversed)
    else if superseded then state == Lifecycle(Superseded)
    else state == if a.kind == "recommendation" then Unanswered else if a.kind == "commitment" then Pending else Current
  }

  /** One annotated row, in terms of relation types and fields. */
  predicate RowMeans(rows: seq<Row>, relations: seq<RelationRow>, row: Row, shown: Annotated) {
    && shown.row == row
    && (shown.unresolvedConflict <==> Unresolved(rows, relations, row.assertion))
    && if |relations| == 500 then shown.active == None && shown.statuses == None && shown.state == Unknown
       else
         && shown.active == Some(StandsIn(relations, row.assertion))
         && shown.statuses.Some? && StatusesMean(relations, row.assertion, shown.statuses.value)
         && StateMeans(relations, row.assertion, shown.state)
  }

  /** The list holds the chosen rows' assertions, in the order of the rows. */
  ghost predicate ListsInOrder(rows: seq<Row>, listed: seq<Assertion>, chosen: Assertion -> bool) {
    && (forall a :: a in listed <==> chosen(a) && a in Ids(rows))
    && exists places :: StandAt(rows, listed, places)
  }

  /** The listed assertions stand at these places of the rows, from left to right. */
  ghost predicate StandAt(rows: seq<Row>, listed: seq<Assertion>, places: seq<nat>) {
    && |places| == |listed| && (forall k, l :: 0 <= k < l < |places| ==> places[k] < places[l])
    && forall k :: 0 <= k < |places| ==> places[k] < |rows| && rows[places[k]].assertion == listed[k]
  }

  ghost predicate ResultMeans(rows: seq<Row>, relations: seq<RelationRow>, result: StateResult) {
    && |result.assertions| == |rows| && (forall i :: 0 <= i < |rows| ==> RowMeans(rows, relations, rows[i], result.assertions[i]))
    && (result.relationsTruncated <==> |relations| == 500)
    && (result.active.Some? <==> |relations| != 500)
    && (result.active.Some? ==> ListsInOrder(rows, result.active.value, (a: Assertion) => StandsIn(relations, a)))
    && ListsInOrder(rows, result.conflicts, (a: Assertion) => Unresolved(rows, relations, a))
  }

  lemma StatusMeaning(relations: seq<RelationRow>, a: Assertion)
    ensures HasStatus(relations, a, Cancelled) <==> TargetedBy(relations, a, {"cancels"})
    ensures HasStatus(relations, a, Fulfilled) <==> TargetedBy(relations, a, {"fulfills"})
    ensures HasStatus(relations, a, Reversed) <==> TargetedBy(relations, a, {"reverses"})
    ensures HasStatus(relations, a, Superseded) <==> TargetedBy(relations, a, {"supersedes"})
    ensures Inactivated(relations, a) <==> !StandsIn(relations, a)
    ensures Contradicted(relations, a) <==> Disputed(relations, a)
  {
  }

  lemma DispositionMeaning(relations: seq<RelationRow>, a: Assertion)
    ensures HasDisposition(relations, a, Accepted) <==> TargetedBy(relations, a, {"confirms"})
    ensures HasDisposition(relations, a, Declined) <==> TargetedBy(relations, a, {"cancels", "contradicts", "reverses"})
  {
  }

  lemma SemanticMeaning(relations: seq<RelationRow>, a: Assertion)
    ensures StateMeans(relations, a, Semantic(a.kind, StatusesOf(relations, a), DispositionsOf(relations, a)))
  {
    StatusMeaning(relations, a);
    DispositionMeaning(relations, a);
    var statuses := StatusesOf(relations, a);
    assert statuses != {} <==> Cancelled in statuses || Fulfilled in statuses || Reversed in statuses || Superseded in statuses;
  }

  lemma RivalMeaning(rows: seq<Row>, relations: seq<RelationRow>, i: nat)
    requires i < |rows|
    ensures InConflict(rows, relations, rows[i].assertion) <==> Unresolved(rows, relations, rows[i].assertion)
  {
    var a := rows[i].assertion;
    forall j | 0 <= j < |rows|
      ensures IsActiveRow(rows, relations, rows[j].assertion) <==> StandsIn(relations, rows[j].assertion)
      ensures Rivals(rows, relations, a, rows[j].assertion) <==>
        StandsIn(relations, a) && StandsIn(relations, rows[j].assertion) && SaysOtherwise(a, rows[j].assertion)
    {
      StatusMeaning(relations, a);
      StatusMeaning(relations, rows[j].assertion);
    }
    StatusMeaning(relations, a);
  }

  lemma {:induction false} KeepMembers(rows: seq<Row>, chosen: set<Assertion>, a: Assertion)
    ensures a in Keep(rows, chosen) <==> a in chosen && a in Ids(rows)
  {
    if rows != [] {
      KeepMembers(rows[..|rows| - 1], chosen, a);
      IdsOfPrefix(rows, |rows| - 1);
      assert rows[..|rows|] == rows;
    }
  }

  lemma {:induction false} KeepPlaces(rows: seq<Row>, chosen: set<Assertion>) returns (places: seq<nat>)
    ensures StandAt(rows, Keep(rows, chosen), places)
  {
    places := [];
    if rows != [] {
      var last := |rows| - 1;
      var front := KeepPlaces(rows[..last], chosen);
      places := if rows[last].assertion in chosen then front + [last] else front;
    }
  }

  lemma KeepLists(rows: seq<Row>, chosen: set<Assertion>)
    ensures ListsInOrder(rows, Keep(rows, chosen), (a: Assertion) => a in chosen)
  {
    forall a ensures a in Keep(rows, chosen) <==> a in chosen && a in Ids(rows) {
      KeepMembers(rows, chosen, a);
    }
    var places := KeepPlaces(rows, chosen);
  }

  lemma ListsAlike(rows: seq<Row>, listed: seq<Assertion>, p: Assertion -> bool, q: Assertion -> bool)
    requires ListsInOrder(rows, listed, p) && forall i :: 0 <= i < |rows| ==> (p(rows[i].assertion) <==> q(rows[i].assertion))
    ensures ListsInOrder(rows, listed, q)
  {
  }

  /** The declared state means what the relation types and the fields of the rows say. */
  lemma DeclaredStateMeans(rows: seq<Row>, relations: seq<RelationRow>)
    ensures ResultMeans(rows, relations, DeclaredState(rows, relations))
  {
    var result := DeclaredState(rows, relations);
    forall i | 0 <= i < |rows|
      ensures RowMeans(rows, relations, rows[i], result.assertions[i])
      ensures rows[i].assertion in ActiveRows(rows, relations) <==> StandsIn(relations, rows[i].assertion)
      ensures rows[i].assertion in (set a | a in Ids(rows) && InConflict(rows, relations, a)) <==>
        Unresolved(rows, relations, rows[i].assertion)
    {
      RowMeaning(rows, relations, i);
    }
    var active, conflicts := ActiveRows(rows, relations), set a | a in Ids(rows) && InConflict(rows, relations, a);
    KeepLists(rows, active);
    ListsAlike(rows, Keep(rows, active), (a: Assertion) => a in active, (a: Assertion) => StandsIn(relations, a));
    KeepLists(rows, conflicts);
    ListsAlike(rows, Keep(rows, conflicts), (a: Assertion) => a in conflicts, (a: Assertion) => Unresolved(rows, relations, a));
  }

  lemma RowMeaning(rows: seq<Row>, relations: seq<RelationRow>, i: nat)
    requires i < |rows|
    ensures RowMeans(rows, relations, rows[i], Annotate(rows, relations, rows[i]))
    ensures rows[i].assertion in ActiveRows(rows, relations) <==> StandsIn(relations, rows[i].assertion)
    ensures rows[i].assertion in (set a | a in Ids(rows) && InConflict(rows, relations, a)) <==>
      Unresolved(rows, relations, rows[i].assertion)
  {
    StatusMeaning(relations, rows[i].assertion);
    SemanticMeaning(relations, rows[i].assertion);
    RivalMeaning(rows, relations, i);
  }

  lemma ActiveIffNoStatus(rows: seq<Row>, relations: seq<RelationRow>, a: Assertion)
    requires a in Ids(rows)
    ensures IsActiveRow(rows, relations, a) <==> StatusesOf(relations, a) == {}
  {
    if Inactivated(relations, a) {
      var i :| 0 <= i < |relations| && relations[i].relation.to == IdOf(a)
               && StatusOf(relations[i].relation.relationType).Some?;
      var s := StatusOf(relations[i].relation.relationType).value;
      assert HasStatus(relations, a, s);
      assert s in StatusesOf(relations, a);
    } else {
      assert forall s :: !HasStatus(relations, a, s);
    }
  }

  lemma TwoVariants<K, V>(m: map<K, V>, x: K, y: K)
    requires x in m && y in m && x != y
    ensures |m| > 1
  {
    assert {x, y} <= m.Keys;
    assert |m.Keys - {x, y}| == |m.Keys| - |{x, y}|;
  }

  lemma OtherVariant<K, V>(m: map<K, V>, x: K) returns (y: K)
    requires x in m && |m| > 1
    ensures y in m && y != x
  {
    assert |m.Keys - {x}| == |m.Keys| - 1;
    y :| y in m.Keys - {x};
  }

  function ActiveRows(rows: seq<Row>, relations: seq<RelationRow>): set<Assertion> {
    set a | a in Ids(rows) && IsActiveRow(rows, relations, a)
  }

  /** The conflicts found by grouping are exactly the declared ones. */
  lemma GroupingFindsConflicts(rows: seq<Row>, relations: seq<RelationRow>, groups: Groups, a: Assertion)
    requires Grouped(groups, ActiveRows(rows, relations))
    ensures InConflict(rows, relations, a) <==>
      (a in ActiveRows(rows, relations) && Contradicted(relations, a)) || exists g :: InSplitGroup(groups, g, a)
  {
    if g :| InSplitGroup(groups, g, a) {
      SplitGroupHasRival(rows, relations, groups, g, a);
    }
    if i :| 0 <= i < |rows| && Rivals(rows, relations, a, rows[i].assertion) {
      RivalsSplitGroup(rows, relations, groups, a, rows[i].assertion);
    }
    assert IsActiveRow(rows, relations, a) <==> a in ActiveRows(rows, relations);
  }

  lemma SplitGroupHasRival(rows: seq<Row>, relations: seq<RelationRow>, groups: Groups, g: Group, a: Assertion)
    requires Grouped(groups, ActiveRows(rows, relations)) && InSplitGroup(groups, g, a)
    ensures exists i :: 0 <= i < |rows| && Rivals(rows, relations, a, rows[i].assertion)
    ensures IsActiveRow(rows, relations, a)
  {
    var v :| v in groups[g] && a in groups[g][v];
    var w := OtherVariant(groups[g], v);
    var b :| b in groups[g][w];
    assert InGroups(groups, g, v, a) && InGroups(groups, g, w, b);
    assert b in Ids(rows);
    var i :| 0 <= i < |rows| && rows[i].assertion == b;
    assert Rivals(rows, relations, a, rows[i].assertion);
  }

  lemma RivalsSplitGroup(rows: seq<Row>, relations: seq<RelationRow>, groups: Groups, a: Assertion, b: Assertion)
    requires Grouped(groups, ActiveRows(rows, relations)) && Rivals(rows, relations, a, b)
    ensures InSplitGroup(groups, GroupOf(a), a)
  {
    assert InGroups(groups, GroupOf(a), IdentityOf(a), a);
    assert InGroups(groups, GroupOf(b), IdentityOf(b), b);
    TwoVariants(groups[GroupOf(a)], IdentityOf(a), IdentityOf(b));
  }

  lemma FoundStatuses(rows: seq<Row>, relations: seq<RelationRow>, lifecycle: map<Assertion, set<Status>>)
    requires LifecycleFrom(lifecycle, Ids(rows), relations)
    ensures forall a :: a in Ids(rows) ==> lifecycle[a] == StatusesOf(relations, a)
    ensures (set a | a in lifecycle && lifecycle[a] == {}) == ActiveRows(rows, relations)
  {
    forall a | a in Ids(rows)
      ensures lifecycle[a] == StatusesOf(relations, a)
      ensures IsActiveRow(rows, relations, a) <==> lifecycle[a] == {}
    {
      ActiveIffNoStatus(rows, relations, a);
    }
  }

  lemma FoundDispositions(ids: set<Assertion>, relations: seq<RelationRow>, dispositions: map<Assertion, set<Disposition>>)
    requires DispositionsFrom(dispositions, ids, relations)
    ensures forall a :: a in ids ==>
      (if a in dispositions then dispositions[a] else {}) == DispositionsOf(relations, a)
  {
  }

  /** The row by row annotation at the end of `query_assertion_state`. */
  method AnnotateRows(rows: seq<Row>, relations: seq<RelationRow>, lifecycle: map<Assertion, set<Status>>,
                      dispositions: map<Assertion, set<Disposition>>, active: set<Assertion>,
                      conflicts: set<Assertion>) returns (annotated: seq<Annotated>)
    requires lifecycle.Keys == Ids(rows)
    requires forall a :: a in Ids(rows) ==> lifecycle[a] == StatusesOf(relations, a)
    requires forall a :: a in Ids(rows) ==>
      (if a in dispositions then dispositions[a] else {}) == DispositionsOf(relations, a)
    requires active == ActiveRows(rows, relations)
    requires conflicts == set a | a in Ids(rows) && InConflict(rows, relations, a)
    ensures annotated == DeclaredState(rows, relations).assertions
  {
    var truncated := |relations| == RELATION_LIMIT;
    annotated := [];
    for n := 0 to |rows|
      invariant |annotated| == n
      invariant forall i :: 0 <= i < n ==> annotated[i] == Annotate(rows, relations, rows[i])
    {
      var a := rows[n].assertion;
      assert a in Ids(rows);
      annotated := annotated + [Annotated(
        rows[n],
        if truncated then None else Some(a in active),
        if truncated then None else Some(lifecycle[a]),
        a in conflicts,
        if truncated then Unknown
        else Semantic(a.kind, lifecycle[a], if a in dispositions then dispositions[a] else {}))];
    }
  }

  /** `query_assertion_state` after its two reads: three passes compute the pairwise declaration. */
  method ComputeState(rows: seq<Row>, relations: seq<RelationRow>) returns (result: StateResult)
    ensures result == DeclaredState(rows, relations)
    ensures ResultMeans(rows, relations, result)
  {
    DeclaredStateMeans(rows, relations);
    var truncated := |relations| == RELATION_LIMIT;
    var lifecycle, dispositions, explicit := CollectRelations(Ids(rows), relations);
    var active := set a | a in lifecycle && lifecycle[a] == {};
    FoundStatuses(rows, relations, lifecycle);
    FoundDispositions(Ids(rows), relations, dispositions);
    var groups := GroupActive(rows, active);
    var conflicts := CollectConflicts(groups, explicit * active);
    forall a ensures a in conflicts <==> InConflict(rows, relations, a) {
      GroupingFindsConflicts(rows, relations, groups, a);
    }
    assert conflicts == set a | a in Ids(rows) && InConflict(rows, relations, a);
    var annotated := AnnotateRows(rows, relations, lifecycle, dispositions, active, conflicts);
    result := StateResult(annotated, if truncated then None else Some(Keep(rows, active)), Keep(rows, conflicts), truncated);
  }

  // ---------------------------------------------------------------- order and time

  ghost predicate SameElements<T(!new)>(s: seq<T>, t: seq<T>) {
    forall x :: x in s <==> x in t
  }

  lemma SameStatuses(relations: seq<RelationRow>, permuted: seq<RelationRow>, a: Assertion)
    requires SameElements(relations, permuted)
    ensures forall s :: HasStatus(relations, a, s) ==> HasStatus(permuted, a, s)
    ensures forall d :: HasDisposition(relations, a, d) ==> HasDisposition(permuted, a, d)
    ensures Contradicted(relations, a) ==> Contradicted(permuted, a)
    ensures Inactivated(relations, a) ==> Inactivated(permuted, a)
  {
    forall i | 0 <= i < |relations| ensures exists j :: 0 <= j < |permuted| && permuted[j] == relations[i] {
      assert relations[i] in permuted;
    }
  }

  /** Neither the order of the relations nor the order of the rows has a say in activity or conflict. */
  lemma OrderHasNoSay(rows: seq<Row>, relations: seq<RelationRow>, otherRows: seq<Row>, otherRelations: seq<RelationRow>,
                      a: Assertion)
    requires SameElements(rows, otherRows) && SameElements(relations, otherRelations)
    ensures StatusesOf(relations, a) == StatusesOf(otherRelations, a)
    ensures DispositionsOf(relations, a) == DispositionsOf(otherRelations, a)
    ensures IsActiveRow(rows, relations, a) <==> IsActiveRow(otherRows, otherRelations, a)
    ensures InConflict(rows, relations, a) <==> InConflict(otherRows, otherRelations, a)
  {
    SameStatuses(relations, otherRelations, a);
    SameStatuses(otherRelations, relations, a);
    forall x ensures IsActiveRow(rows, relations, x) <==> IsActiveRow(otherRows, otherRelations, x) {
      SameActivity(rows, relations, otherRows, otherRelations, x);
      SameActivity(otherRows, otherRelations, rows, relations, x);
    }
    SameRivals(rows, relations, otherRows, otherRelations, a);
    SameRivals(otherRows, otherRelations, rows, relations, a);
  }

  lemma SameActivity(rows: seq<Row>, relations: seq<RelationRow>, otherRows: seq<Row>, otherRelations: seq<RelationRow>,
                     a: Assertion)
    requires SameElements(rows, otherRows) && SameElements(relations, otherRelations)
    ensures IsActiveRow(rows, relations, a) ==> IsActiveRow(otherRows, otherRelations, a)
  {
    if i :| 0 <= i < |rows| && rows[i].assertion == a {
      assert rows[i] in otherRows;
      SameStatuses(otherRelations, relations, a);
    }
  }

  lemma SameRivals(rows: seq<Row>, relations: seq<RelationRow>, otherRows: seq<Row>, otherRelations: seq<RelationRow>,
                   a: Assertion)
    requires SameElements(rows, otherRows) && SameElements(relations, otherRelations)
    requires forall x :: IsActiveRow(rows, relations, x) <==> IsActiveRow(otherRows, otherRelations, x)
    ensures (exists i :: 0 <= i < |rows| && Rivals(rows, relations, a, rows[i].assertion)) ==>
      exists i :: 0 <= i < |otherRows| && Rivals(otherRows, otherRelations, a, otherRows[i].assertion)
  {
    if i :| 0 <= i < |rows| && Rivals(rows, relations, a, rows[i].assertion) {
      assert rows[i] in otherRows;
      var j :| 0 <= j < |otherRows| && otherRows[j] == rows[i];
      assert Rivals(otherRows, otherRelations, a, otherRows[j].assertion);
    }
  }

  const CURRENT_VERSION: string := "assertions-v1"

  datatype StateQuery = StateQuery(subject: string, predicateKey: Option<string>, kinds: Option<set<string>>,
                                   scope: Option<string>, role: Option<string>, asOf: Option<real>, limit: int)

  function AssertionsFor(q: StateQuery): Filter {
    Filter(CURRENT_VERSION, Some(Strip(q.subject)), q.predicateKey, q.kinds, q.scope, q.role, None, None, q.asOf, false,
           q.limit)
  }

  function RelationsFor(q: StateQuery, rows: seq<Row>): RelationFilter {
    RelationFilter(CURRENT_VERSION, Some(set a | a in Ids(rows) :: IdOf(a)), None, q.asOf, false, RELATION_LIMIT)
  }

  ghost function StateRead(db: Db, q: StateQuery, rank: Rank, relationRank: RelationRank): Result<StateResult, Error> {
    if Strip(q.subject) == "" then Err(Invalid("subject_key"))
    else
      match QueryAssertions(db, AssertionsFor(q), rank)
      case Err(error) => Err(error)
      case Ok(rows) =>
        if rows == [] then Ok(DeclaredState([], []))
        else
          match QueryRelations(db, RelationsFor(q, rows), relationRank)
          case Err(error) => Err(error)
          case Ok(relations) => Ok(DeclaredState(rows, relations))
  }

  /** A state read at `t` gives the same answer after any history of publications observed after `t`. */
  lemma StateReadIsStable(db: Db, steps: seq<Step>, q: StateQuery, rank: Rank, relationRank: RelationRank)
    requires Inv(db) && q.asOf.Some?
    requires forall i :: 0 <= i < |steps| ==> PublishesAfter(steps[i], q.asOf.value)
    ensures StateRead(Run(db, steps), q, rank, relationRank) == StateRead(db, q, rank, relationRank)
  {
    var t := q.asOf.value;
    var answer := QueryAssertions(db, AssertionsFor(q), rank);
    var rows := if answer.Ok? then answer.value else [];
    PastIsStable(db, steps, AssertionsFor(q), RelationsFor(q, rows), t, rank, relationRank);
  }
}
