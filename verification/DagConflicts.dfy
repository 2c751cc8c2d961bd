/**
 When a publication prepared before another commit still commits after it: the exact condition, and
 the two ways in which one set of sources is summarised twice.
 */
module DagConflicts {
  import opened Wrappers
  import opened Ordering
  import opened DagModel
  import opened DagPublication

  // ---------------------------------------------------------------- the conditions of a commit

  /** The captured rows and the captured binding are still in the database. */
  ghost predicate Standing(dag: Dag, s: Snapshot) {
    && (forall id :: id in s.rows ==> RowOf(dag, s.sourceType, id) == Some(s.rows[id]))
    && BindingOf(dag, s.conversation) == s.lifecycle
  }

  /** The checks that do not look at the database. */
  ghost predicate Sound(step: Step) {
    && step.PublishStep? && step.startValid && step.endValid
    && var s := step.snapshot;
       && step.node.sourceType == s.sourceType
       && (forall i :: 0 <= i < |step.node.sources| ==> step.node.sources[i] in s.rows)
       && InOneSession(s, step.node.session)
       && (s.conversation != "" ==>
             && s.lifecycle.Some? && s.lifecycle.value.session == Some(step.node.session)
             && (step.frontier.Some? ==> step.frontier.value == 0 || step.frontier.value in s.rows))
  }

  ghost predicate InOneSession(s: Snapshot, session: string) {
    forall id :: id in s.rows ==> s.rows[id].Session() == session
  }

  /** The live nodes of the session that cite a captured source are exactly the captured parents. */
  ghost predicate SameParents(dag: Dag, s: Snapshot, session: string)
    requires s.rows.Keys == s.parents.Keys
  {
    forall source, id :: source in s.rows ==>
      (id in s.parents[source] <==> IsParent(dag, s.sourceType, session, source, id))
  }

  ghost predicate CapturedAt(dag: Dag, s: Snapshot) {
    Capture(dag, s.ids, s.sourceType, s.conversation) == Ok(s)
  }

  lemma CommitsIffCaptured(dag: Dag, step: Step)
    requires step.PublishStep?
    ensures Commits(dag, step) <==> CapturedAt(dag, step.snapshot) && Sound(step)
  {
  }

  // ---------------------------------------------------------------- equal parents

  lemma NoMentions(sources: seq<int>, source: int, parent: int)
    ensures source !in sources ==> Mentions(sources, source, parent) == []
  {
    MentionsCited(sources, source, parent);
    EmptyHasNoMember(Mentions(sources, source, parent));
  }

  /** Below the bound the same nodes of the session cite the source, with the same source lists. */
  ghost predicate ParentsAgree(a: Dag, b: Dag, sourceType: SourceType, session: string, source: int, bound: int) {
    forall id :: 0 <= id < bound ==>
      && (IsParent(a, sourceType, session, source, id) <==> IsParent(b, sourceType, session, source, id))
      && (IsParent(a, sourceType, session, source, id) ==> a.nodes[id].sources == b.nodes[id].sources)
  }

  lemma {:induction false} EqualParentsBelow(a: Dag, b: Dag, sourceType: SourceType, session: string, source: int, bound: int)
    requires ParentsAgree(a, b, sourceType, session, source, bound)
    ensures ParentsBelow(a, sourceType, session, source, bound) == ParentsBelow(b, sourceType, session, source, bound)
    decreases bound
  {
    if bound > 0 {
      EqualParentsBelow(a, b, sourceType, session, source, bound - 1);
      if IsCandidate(a, sourceType, session, bound - 1) {
        NoMentions(a.nodes[bound - 1].sources, source, bound - 1);
      }
      if IsCandidate(b, sourceType, session, bound - 1) {
        NoMentions(b.nodes[bound - 1].sources, source, bound - 1);
      }
    }
  }

  lemma {:induction false} NoParentsBeyond(dag: Dag, sourceType: SourceType, session: string, source: int, bound: int)
    requires WellNumbered(dag) && bound >= dag.nextId
    ensures ParentsBelow(dag, sourceType, session, source, bound) == ParentsBelow(dag, sourceType, session, source, dag.nextId)
    decreases bound
  {
    if bound > dag.nextId {
      NoParentsBeyond(dag, sourceType, session, source, bound - 1);
    }
  }

  /** Nodes captured before the run keep their source lists; what came later has a larger id. */
  ghost predicate Follows(captured: Dag, dag: Dag) {
    && WellNumbered(captured) && WellNumbered(dag) && captured.nextId <= dag.nextId
    && forall id :: id in dag.nodes && id < captured.nextId ==>
         id in captured.nodes && dag.nodes[id].sources == captured.nodes[id].sources
  }

  lemma {:induction false} EqualParentsIn(captured: Dag, dag: Dag, sourceType: SourceType, sessions: seq<string>,
                                          session: string, source: int)
    requires Follows(captured, dag)
    requires forall i :: 0 <= i < |sessions| ==> sessions[i] == session
    requires forall id :: IsParent(captured, sourceType, session, source, id) <==> IsParent(dag, sourceType, session, source, id)
    ensures ParentsIn(captured, sourceType, sessions, source) == ParentsIn(dag, sourceType, sessions, source)
  {
    if sessions != [] {
      EqualParentsIn(captured, dag, sourceType, sessions[..|sessions| - 1], session, source);
      EqualParentsBelow(captured, dag, sourceType, session, source, dag.nextId);
      NoParentsBeyond(captured, sourceType, session, source, dag.nextId);
    }
  }

  lemma OneSession(dag: Dag, sourceType: SourceType, ids: seq<int>, session: string)
    requires AllPresent(dag, sourceType, ids)
    requires forall i :: 0 <= i < |ids| ==> RowOf(dag, sourceType, ids[i]).value.Session() == session
    ensures var sessions := SessionsOf(dag, sourceType, ids);
      forall i :: 0 <= i < |sessions| ==> sessions[i] == session
  {
    var sessions := SessionsOf(dag, sourceType, ids);
    forall i | 0 <= i < |sessions| ensures sessions[i] == session {
      SortUniqueMembers(StringLess, SessionList(dag, sourceType, ids), sessions[i]);
    }
  }

  // ---------------------------------------------------------------- the capture repeated

  lemma ParentsOfCapture(dag: Dag, s: Snapshot, session: string)
    requires WellNumbered(dag) && CapturedAt(dag, s) && InOneSession(s, session)
    ensures s.rows.Keys == s.parents.Keys && SameParents(dag, s, session)
  {
    CapturedIds(dag, s.ids, s.sourceType, s.conversation);
    forall source, id | source in s.rows
      ensures id in s.parents[source] <==> IsParent(dag, s.sourceType, session, source, id)
    {
      CaptureListsLiveParents(dag, s.ids, s.sourceType, s.conversation, source, id);
      assert s.rows[source].Session() == session;
    }
  }

  lemma RowsOfCapture(dag: Dag, s: Snapshot)
    requires CapturedAt(dag, s)
    ensures Standing(dag, s)
  {
    CapturedIds(dag, s.ids, s.sourceType, s.conversation);
  }

  lemma StandingRows(captured: Dag, dag: Dag, s: Snapshot)
    requires CapturedAt(captured, s) && Standing(dag, s)
    ensures AllPresent(captured, s.sourceType, s.ids) && AllPresent(dag, s.sourceType, s.ids)
    ensures SessionsOf(captured, s.sourceType, s.ids) == SessionsOf(dag, s.sourceType, s.ids)
    ensures CapturedRows(dag, s.sourceType, s.ids) == s.rows
  {
    CapturedIds(captured, s.ids, s.sourceType, s.conversation);
    forall i | 0 <= i < |s.ids| ensures RowOf(dag, s.sourceType, s.ids[i]) == RowOf(captured, s.sourceType, s.ids[i]) {
      assert s.ids[i] in s.rows;
    }
    assert SessionList(captured, s.sourceType, s.ids) == SessionList(dag, s.sourceType, s.ids);
  }

  lemma StandingParents(captured: Dag, dag: Dag, s: Snapshot, session: string)
    requires Follows(captured, dag) && CapturedAt(captured, s) && InOneSession(s, session)
    requires Standing(dag, s) && s.rows.Keys == s.parents.Keys && SameParents(dag, s, session)
    requires AllPresent(dag, s.sourceType, s.ids)
    ensures CapturedParents(dag, s.sourceType, SessionsOf(dag, s.sourceType, s.ids), s.ids) == s.parents
  {
    StandingRows(captured, dag, s);
    ParentsOfCapture(captured, s, session);
    CapturedIds(captured, s.ids, s.sourceType, s.conversation);
    forall i | 0 <= i < |s.ids| ensures RowOf(dag, s.sourceType, s.ids[i]).value.Session() == session {
      assert s.ids[i] in s.rows;
    }
    OneSession(dag, s.sourceType, s.ids, session);
    var sessions := SessionsOf(dag, s.sourceType, s.ids);
    forall source | source in s.ids ensures ParentsIn(dag, s.sourceType, sessions, source) == s.parents[source] {
      assert source in s.rows;
      forall id ensures IsParent(captured, s.sourceType, session, source, id) <==> IsParent(dag, s.sourceType, session, source, id) {
        assert id in s.parents[source] <==> IsParent(captured, s.sourceType, session, source, id);
        assert id in s.parents[source] <==> IsParent(dag, s.sourceType, session, source, id);
      }
      EqualParentsIn(captured, dag, s.sourceType, sessions, session, source);
    }
  }

  lemma CapturedAgainIff(captured: Dag, dag: Dag, s: Snapshot, session: string)
    requires Follows(captured, dag) && CapturedAt(captured, s) && InOneSession(s, session)
    ensures s.rows.Keys == s.parents.Keys
    ensures CapturedAt(dag, s) <==> Standing(dag, s) && SameParents(dag, s, session)
  {
    CapturedIds(captured, s.ids, s.sourceType, s.conversation);
    if CapturedAt(dag, s) {
      RowsOfCapture(dag, s);
      ParentsOfCapture(dag, s, session);
    }
    if Standing(dag, s) && SameParents(dag, s, session) {
      StandingRows(captured, dag, s);
      StandingParents(captured, dag, s, session);
    }
  }

  // ---------------------------------------------------------------- commits after a run

  lemma RunFollows(captured: Dag, steps: seq<Step>)
    requires WellNumbered(captured)
    ensures Follows(captured, Run(captured, steps))
  {
    RunKeepsNumbering(captured, steps);
    var dag := Run(captured, steps);
    forall id | id in dag.nodes && id < captured.nextId
      ensures id in captured.nodes && dag.nodes[id].sources == captured.nodes[id].sources
    {
      RunKeepsSources(captured, steps, id);
    }
  }

  /**
   After any run since its capture a publication commits exactly when its static checks pass, its
   captured rows and binding stand, and the live nodes of its session that cite a captured source
   are the captured parents.
   */
  lemma CommitsAfterRunIff(captured: Dag, steps: seq<Step>, step: Step)
    requires WellNumbered(captured) && step.PublishStep? && CapturedAt(captured, step.snapshot)
    ensures step.snapshot.rows.Keys == step.snapshot.parents.Keys
    ensures Commits(Run(captured, steps), step) <==>
      Sound(step) && Standing(Run(captured, steps), step.snapshot)
      && SameParents(Run(captured, steps), step.snapshot, step.node.session)
  {
    CapturedIds(captured, step.snapshot.ids, step.snapshot.sourceType, step.snapshot.conversation);
    CommitsIffCaptured(Run(captured, steps), step);
    if Sound(step) {
      RunFollows(captured, steps);
      CapturedAgainIff(captured, Run(captured, steps), step.snapshot, step.node.session);
    }
  }

  lemma {:induction false} RunAppend(dag: Dag, a: seq<Step>, b: seq<Step>)
    ensures Run(dag, a + b) == Run(Run(dag, a), b)
    decreases |a|
  {
    if a == [] {
      assert a + b == b;
    } else {
      assert (a + b)[0] == a[0] && (a + b)[1..] == a[1..] + b;
      RunAppend(Apply(dag, a[0]), a[1..], b);
    }
  }

  /**
   Two publications captured before either committed that cite a common source: once the first has
   committed, the second commits exactly when it is sound, its rows and binding stand, and its
   session's live parents are again the captured ones; the first node then is no live node of the
   session. Interleaved steps may be any publications, deletions, moves or rebindings.
   */
  lemma OverlappingPublicationConflicts(captured: Dag, before: seq<Step>, first: Step, between: seq<Step>,
                                        second: Step, source: int)
    requires WellNumbered(captured)
    requires first.PublishStep? && second.PublishStep? && CapturedAt(captured, second.snapshot)
    requires Commits(Run(captured, before), first)
    requires source in first.node.sources && source in second.node.sources
    requires first.node.sourceType == second.node.sourceType
    ensures second.snapshot.rows.Keys == second.snapshot.parents.Keys
    ensures var d1 := Run(captured, before);
      var d2 := Run(Apply(d1, first), between);
      && (Commits(d2, second) <==>
            Sound(second) && Standing(d2, second.snapshot) && SameParents(d2, second.snapshot, second.node.session))
      && (Commits(d2, second) ==> d1.nextId !in d2.nodes || d2.nodes[d1.nextId].session != second.node.session)
  {
    var d1 := Run(captured, before);
    var d2 := Run(Apply(d1, first), between);
    RunAppend(captured, before, [first] + between);
    assert ([first] + between)[1..] == between;
    CommitsAfterRunIff(captured, before + ([first] + between), second);
    if Commits(d2, second) && d1.nextId in d2.nodes && d2.nodes[d1.nextId].session == second.node.session {
      FirstNodeIsNewParent(captured, before, first, between, second, source);
    }
  }

  lemma FirstNodeIsNewParent(captured: Dag, before: seq<Step>, first: Step, between: seq<Step>, second: Step, source: int)
    requires WellNumbered(captured)
    requires first.PublishStep? && second.PublishStep? && CapturedAt(captured, second.snapshot) && Sound(second)
    requires Commits(Run(captured, before), first)
    requires source in first.node.sources && source in second.node.sources
    requires first.node.sourceType == second.node.sourceType
    requires var id := Run(captured, before).nextId;
      var d2 := Run(Apply(Run(captured, before), first), between);
      id in d2.nodes && d2.nodes[id].session == second.node.session
    ensures second.snapshot.rows.Keys == second.snapshot.parents.Keys
    ensures !SameParents(Run(Apply(Run(captured, before), first), between), second.snapshot, second.node.session)
  {
    var d1 := Run(captured, before);
    var d2 := Run(Apply(d1, first), between);
    RunKeepsNumbering(captured, before);
    CommitSeesCapturedState(d1, first);
    StepKeepsNumbering(d1, first);
    RunKeepsSources(Apply(d1, first), between, d1.nextId);
    var s := second.snapshot;
    ParentsOfCapture(captured, s, second.node.session);
    assert source in s.rows;
    assert IsParent(d2, s.sourceType, second.node.session, source, d1.nextId);
    assert !IsParent(captured, s.sourceType, second.node.session, source, d1.nextId);
  }

  // ---------------------------------------------------------------- the same publication twice

  /** The commit moves the frontier of its conversation, which every later capture would notice. */
  predicate RaisesFrontier(step: Step)
    requires step.PublishStep?
  {
    && step.snapshot.conversation != "" && step.frontier.Some?
    && step.snapshot.lifecycle.Some? && step.frontier.value > step.snapshot.lifecycle.value.frontier
  }

  lemma BindingAfterCommit(dag: Dag, first: Step)
    requires Commits(dag, first)
    ensures BindingOf(Apply(dag, first), first.snapshot.conversation) == first.snapshot.lifecycle <==> !RaisesFrontier(first)
  {
    CommitsIffCaptured(dag, first);
  }

  lemma RunTwo(dag: Dag, first: Step, later: Step)
    ensures Run(dag, [first, later]) == Apply(Apply(dag, first), later)
  {
    assert [first, later][1..] == [later] && [later][1..] == [];
    assert Run(Apply(dag, first), [later]) == Run(Apply(Apply(dag, first), later), []);
  }

  lemma AgainIff(dag: Dag, first: Step, later: Step)
    requires WellNumbered(dag) && Commits(dag, first)
    ensures CapturedAt(dag, first.snapshot) && first.snapshot.rows.Keys == first.snapshot.parents.Keys
    ensures var after := Apply(Apply(dag, first), later);
      Commits(after, first) <==>
        Standing(after, first.snapshot) && SameParents(after, first.snapshot, first.node.session)
  {
    CommitsIffCaptured(dag, first);
    RunTwo(dag, first, later);
    CommitsAfterRunIff(dag, [first, later], first);
  }

  lemma NoParentsLeft(dag: Dag, s: Snapshot, session: string)
    requires s.rows.Keys == s.parents.Keys
    requires forall id :: id in dag.nodes ==> dag.nodes[id].session != session
    ensures SameParents(dag, s, session) <==> forall id :: id in s.rows ==> s.parents[id] == []
  {
    forall source | source in s.rows && s.parents[source] != [] ensures !SameParents(dag, s, session) {
      assert s.parents[source][0] in s.parents[source];
      assert !IsParent(dag, s.sourceType, session, source, s.parents[source][0]);
    }
  }

  lemma MovedStandsIff(dag: Dag, first: Step, newSession: string)
    requires WellNumbered(dag) && Commits(dag, first) && newSession != first.node.session
    ensures var after := Apply(Apply(dag, first), ReassignStep(first.node.session, newSession));
      Standing(after, first.snapshot) <==>
        !RaisesFrontier(first) && (first.snapshot.sourceType == Messages || first.snapshot.rows == map[])
  {
    var s := first.snapshot;
    var after := Apply(Apply(dag, first), ReassignStep(first.node.session, newSession));
    CommitsIffCaptured(dag, first);
    RowsOfCapture(dag, s);
    BindingAfterCommit(dag, first);
    if s.sourceType == Nodes {
      forall id | id in s.rows ensures RowOf(after, Nodes, id) != Some(s.rows[id]) {
        assert RowOf(dag, Nodes, id) == Some(s.rows[id]);
      }
      assert s.rows != map[] ==> exists id :: id in s.rows;
    }
  }

  /**
   Parents are looked up in the session of the source rows. Once the session's nodes have moved
   away, the very same publication commits a second time exactly when its sources are messages that
   had no parents at the capture and the first commit did not raise the frontier.
   */
  lemma MovedNodeAllowsSecondCommit(dag: Dag, first: Step, newSession: string)
    requires WellNumbered(dag) && Commits(dag, first) && newSession != first.node.session
    ensures first.snapshot.rows.Keys == first.snapshot.parents.Keys
    ensures var after := Apply(Apply(dag, first), ReassignStep(first.node.session, newSession));
      Commits(after, first) <==>
        && !RaisesFrontier(first) && (first.snapshot.sourceType == Messages || first.snapshot.rows == map[])
        && forall id :: id in first.snapshot.rows ==> first.snapshot.parents[id] == []
  {
    var after := Apply(Apply(dag, first), ReassignStep(first.node.session, newSession));
    AgainIff(dag, first, ReassignStep(first.node.session, newSession));
    MovedStandsIff(dag, first, newSession);
    NoParentsLeft(after, first.snapshot, first.node.session);
  }

  lemma DeletedDag(dag: Dag, first: Step)
    requires WellNumbered(dag) && Commits(dag, first)
    ensures var after := Apply(Apply(dag, first), DeleteStep({dag.nextId}));
      after.nodes == dag.nodes && after.messages == dag.messages && after.lifecycle == Apply(dag, first).lifecycle
  {
    CommitSeesCapturedState(dag, first);
  }

  lemma DeletedParents(dag: Dag, after: Dag, s: Snapshot, session: string)
    requires s.rows.Keys == s.parents.Keys && SameParents(dag, s, session) && after.nodes == dag.nodes
    ensures SameParents(after, s, session)
  {
    forall source, id | source in s.rows
      ensures id in s.parents[source] <==> IsParent(after, s.sourceType, session, source, id)
    {
      assert IsParent(after, s.sourceType, session, source, id) <==> IsParent(dag, s.sourceType, session, source, id);
    }
  }

  lemma DeletedStands(dag: Dag, after: Dag, s: Snapshot)
    requires Standing(dag, s) && after.nodes == dag.nodes && after.messages == dag.messages
    ensures Standing(after, s) <==> BindingOf(after, s.conversation) == s.lifecycle
  {
    forall id | id in s.rows ensures RowOf(after, s.sourceType, id) == Some(s.rows[id]) {
      assert RowOf(dag, s.sourceType, id) == Some(s.rows[id]);
    }
  }

  /** Once its node is deleted a publication commits a second time exactly when the first commit did not raise the frontier. */
  lemma DeletedNodeAllowsSecondCommit(dag: Dag, first: Step)
    requires WellNumbered(dag) && Commits(dag, first)
    ensures var after := Apply(Apply(dag, first), DeleteStep({dag.nextId}));
      Commits(after, first) <==> !RaisesFrontier(first)
  {
    var s := first.snapshot;
    var after := Apply(Apply(dag, first), DeleteStep({dag.nextId}));
    AgainIff(dag, first, DeleteStep({dag.nextId}));
    DeletedDag(dag, first);
    BindingAfterCommit(dag, first);
    CommitsIffCaptured(dag, first);
    RowsOfCapture(dag, s);
    ParentsOfCapture(dag, s, first.node.session);
    DeletedParents(dag, after, s, first.node.session);
    DeletedStands(dag, after, s);
  }

  // ---------------------------------------------------------------- one message summarised twice

  const SAID: Message := Message("s", None, "x")
  const EMPTY: Dag := Dag(map[], map[], 1, map[])
  const ONE: Dag := Dag(map[1 := SAID], map[], 1, map[])
  const CAPTURED: Snapshot := Snapshot(Messages, "", [1], map[1 := MessageRow(SAID)], map[1 := []], None)

  /** Two workers summarise message 1 from the same capture, each in its own words. */
  function Summarise(summary: string): Step {
    PublishStep(Node("s", 0, summary, Messages, [1], 2.0), CAPTURED, None, 2.0, true, true)
  }

  lemma OneIsCaptured()
    ensures ONE == Apply(EMPTY, MessageStep(1, SAID)) && WellNumbered(ONE) && CapturedAt(ONE, CAPTURED)
  {
    assert [1][..0] == [] && SortUnique(IntLess, [1]) == [1];
    assert AllPresent(ONE, Messages, [1]);
    var sessions := SessionsOf(ONE, Messages, [1]);
    NoParentsBeyondEmpty(sessions);
    assert CapturedRows(ONE, Messages, [1]) == map[1 := MessageRow(SAID)];
    assert CapturedParents(ONE, Messages, sessions, [1]) == map[1 := []];
  }

  lemma {:induction false} NoParentsBeyondEmpty(sessions: seq<string>)
    ensures ParentsIn(ONE, Messages, sessions, 1) == []
  {
    if sessions != [] {
      NoParentsBeyondEmpty(sessions[..|sessions| - 1]);
      assert ParentsBelow(ONE, Messages, sessions[|sessions| - 1], 1, 0) == [];
    }
  }

  lemma OneCommits(summary: string)
    ensures Commits(ONE, Summarise(summary)) && Sound(Summarise(summary))
  {
    OneIsCaptured();
    CommitsIffCaptured(ONE, Summarise(summary));
  }

  /** A node that cites message 1 is live. */
  predicate Cites(dag: Dag, id: int) {
    id in dag.nodes && dag.nodes[id].sourceType == Messages && dag.nodes[id].sources == [1]
  }

  lemma AfterFirstSummary(later: Step)
    requires later == ReassignStep("s", "t") || later == DeleteStep({1})
    ensures var after := Apply(Apply(ONE, Summarise("a")), later);
      && after.messages == ONE.messages && after.lifecycle == map[]
      && forall id :: id in after.nodes ==> after.nodes[id].session != "s"
  {
    OneIsCaptured();
    OneCommits("a");
    CommitSeesCapturedState(ONE, Summarise("a"));
  }

  lemma SecondSummary(later: Step)
    requires later == ReassignStep("s", "t") || later == DeleteStep({1})
    ensures Commits(Apply(Apply(ONE, Summarise("a")), later), Summarise("b"))
  {
    OneIsCaptured();
    OneCommits("b");
    AfterFirstSummary(later);
    var after := Apply(Apply(ONE, Summarise("a")), later);
    RunTwo(ONE, Summarise("a"), later);
    CommitsAfterRunIff(ONE, [Summarise("a"), later], Summarise("b"));
    NoParentsLeft(after, CAPTURED, "s");
  }

  /** After a move both summaries of message 1 commit and both stay live. */
  lemma MoveLeavesTwoSummaries()
    ensures var moved := Apply(Apply(ONE, Summarise("a")), ReassignStep("s", "t"));
      && Commits(ONE, Summarise("a")) && Commits(moved, Summarise("b"))
      && Cites(Apply(moved, Summarise("b")), 1) && Cites(Apply(moved, Summarise("b")), 2)
  {
    OneIsCaptured();
    OneCommits("a");
    SecondSummary(ReassignStep("s", "t"));
    CommitSeesCapturedState(ONE, Summarise("a"));
    var moved := Apply(Apply(ONE, Summarise("a")), ReassignStep("s", "t"));
    StepKeepsNumbering(ONE, Summarise("a"));
    CommitSeesCapturedState(moved, Summarise("b"));
  }

  /** After its node is deleted the first summary gives way to the second, though both committed. */
  lemma DeletionAllowsBothSummaries()
    ensures var deleted := Apply(Apply(ONE, Summarise("a")), DeleteStep({1}));
      && Commits(ONE, Summarise("a")) && Commits(deleted, Summarise("b"))
      && !Cites(Apply(deleted, Summarise("b")), 1) && Cites(Apply(deleted, Summarise("b")), 2)
  {
    OneIsCaptured();
    OneCommits("a");
    SecondSummary(DeleteStep({1}));
    CommitSeesCapturedState(ONE, Summarise("a"));
    var deleted := Apply(Apply(ONE, Summarise("a")), DeleteStep({1}));
    StepKeepsNumbering(ONE, Summarise("a"));
    CommitSeesCapturedState(deleted, Summarise("b"));
  }
}
