/**
 Optimistic publication of summary nodes: what one commit guarantees, and what any interleaving of
 publications, deletions, session moves and rebindings keeps.
 */
module DagPublication {
  import opened Wrappers
  import opened Ordering
  import opened DagModel

  datatype Step =
    | PublishStep(node: Node, snapshot: Snapshot, frontier: Option<int>, now: real, startValid: bool, endValid: bool)
    | DeleteStep(ids: set<int>)
    | ReassignStep(oldSession: string, newSession: string)
    | BindStep(conversation: string, binding: Binding)
    | MessageStep(id: int, message: Message)

  function Apply(dag: Dag, step: Step): Dag {
    match step
    case PublishStep(node, snapshot, frontier, now, startValid, endValid) =>
      (match Publish(dag, node, snapshot, frontier, now, startValid, endValid)
       case Ok((after, _)) => after
       case Err(_) => dag)
    case DeleteStep(ids) => dag.(nodes := dag.nodes - ids)
    case ReassignStep(oldSession, newSession) =>
      dag.(nodes := map id | id in dag.nodes ::
        if dag.nodes[id].session == oldSession then dag.nodes[id].(session := newSession) else dag.nodes[id])
    case BindStep(conversation, binding) => dag.(lifecycle := dag.lifecycle[conversation := binding])
    case MessageStep(id, message) => dag.(messages := dag.messages[id := message])
  }

  ghost function Run(dag: Dag, steps: seq<Step>): Dag
    decreases |steps|
  {
    if steps == [] then dag else Run(Apply(dag, steps[0]), steps[1..])
  }

  predicate Commits(dag: Dag, step: Step) {
    step.PublishStep?
    && Publish(dag, step.node, step.snapshot, step.frontier, step.now, step.startValid, step.endValid).Ok?
  }

  // ---------------------------------------------------------------- one commit

  /**
   At the instant of a commit the graph still is what was captured before model work: the same
   rows, the same live parents of every captured source, the same binding. The node cites only
   captured rows of its own session and the commit changes nothing but that node and the frontier.
   */
  lemma CommitSeesCapturedState(dag: Dag, step: Step)
    requires WellNumbered(dag) && Commits(dag, step)
    ensures Capture(dag, step.snapshot.ids, step.snapshot.sourceType, step.snapshot.conversation) == Ok(step.snapshot)
    ensures forall i :: 0 <= i < |step.node.sources| ==>
      var row := RowOf(dag, step.node.sourceType, step.node.sources[i]);
      && row.Some?
      && step.node.sources[i] in step.snapshot.rows && step.snapshot.rows[step.node.sources[i]] == row.value
      && row.value.Session() == step.node.session
    ensures var after := Apply(dag, step);
      && dag.nextId !in dag.nodes
      && after.nodes == dag.nodes[dag.nextId := Stamped(step.node, step.now)]
      && after.nextId == dag.nextId + 1
      && after.messages == dag.messages
  {
  }

  /**
   A commit stores the published node under the next id, every field as given except that a missing
   creation time is the time of the commit, and answers with that id. Every other node stays.
   */
  lemma CommitStoresNode(dag: Dag, step: Step)
    requires WellNumbered(dag) && Commits(dag, step)
    ensures var after := Apply(dag, step);
      var id := Publish(dag, step.node, step.snapshot, step.frontier, step.now, step.startValid, step.endValid).value.1;
      && id == dag.nextId && id !in dag.nodes && after.nextId == id + 1
      && after.nodes.Keys == dag.nodes.Keys + {id}
      && (forall other :: other in dag.nodes ==> after.nodes[other] == dag.nodes[other])
      && var stored := after.nodes[id];
         && stored.session == step.node.session && stored.depth == step.node.depth && stored.summary == step.node.summary
         && stored.sourceType == step.node.sourceType && stored.sources == step.node.sources
         && (step.node.createdAt != 0.0 ==> stored.createdAt == step.node.createdAt)
         && (step.node.createdAt == 0.0 ==> stored.createdAt == step.now)
  {
  }

  /** The frontier only rises, only to 0 or a captured id, and only for the bound session; a greater one given is reached. */
  lemma CommitRaisesFrontier(dag: Dag, step: Step, conversation: string)
    requires Commits(dag, step)
    ensures Apply(dag, step).lifecycle.Keys == dag.lifecycle.Keys
    ensures conversation in dag.lifecycle && Apply(dag, step).lifecycle[conversation] != dag.lifecycle[conversation] ==>
      var before, after := dag.lifecycle[conversation], Apply(dag, step).lifecycle[conversation];
      && conversation == step.snapshot.conversation
      && before.session == Some(step.node.session)
      && step.frontier.Some?
      && after == before.(frontier := step.frontier.value)
      && after.frontier > before.frontier
      && (after.frontier == 0 || after.frontier in step.snapshot.rows)
    ensures step.snapshot.conversation != "" && step.frontier.Some? ==>
      && step.snapshot.conversation in Apply(dag, step).lifecycle
      && Apply(dag, step).lifecycle[step.snapshot.conversation].frontier >= step.frontier.value
  {
  }

  // ---------------------------------------------------------------- runs

  lemma {:induction false} RunKeepsNumbering(dag: Dag, steps: seq<Step>)
    requires WellNumbered(dag)
    ensures WellNumbered(Run(dag, steps)) && Run(dag, steps).nextId >= dag.nextId
    decreases |steps|
  {
    if steps != [] {
      StepKeepsNumbering(dag, steps[0]);
      RunKeepsNumbering(Apply(dag, steps[0]), steps[1..]);
    }
  }

  /** The two nodes differ at most in the session they belong to. */
  predicate SameButSession(a: Node, b: Node) {
    && a.depth == b.depth && a.summary == b.summary && a.sourceType == b.sourceType && a.sources == b.sources
    && a.createdAt == b.createdAt
  }

  lemma StepKeepsSources(dag: Dag, step: Step, id: int)
    requires WellNumbered(dag) && id < dag.nextId && id in Apply(dag, step).nodes
    ensures id in dag.nodes && SameButSession(Apply(dag, step).nodes[id], dag.nodes[id])
  {
  }

  /** A move takes exactly the nodes of the old session to the new one and changes nothing else. */
  lemma MoveIsExact(dag: Dag, oldSession: string, newSession: string, id: int)
    ensures var after := Apply(dag, ReassignStep(oldSession, newSession));
      && (id in after.nodes <==> id in dag.nodes)
      && (id in dag.nodes ==>
            && SameButSession(after.nodes[id], dag.nodes[id])
            && after.nodes[id].session == (if dag.nodes[id].session == oldSession then newSession else dag.nodes[id].session))
      && after.messages == dag.messages && after.lifecycle == dag.lifecycle && after.nextId == dag.nextId
  {
  }

  /** A deletion takes exactly the named nodes and frees no id. */
  lemma DeletionIsExact(dag: Dag, ids: set<int>, id: int)
    ensures var after := Apply(dag, DeleteStep(ids));
      && (id in after.nodes <==> id in dag.nodes && id !in ids)
      && (id in after.nodes ==> after.nodes[id] == dag.nodes[id])
      && after.messages == dag.messages && after.lifecycle == dag.lifecycle && after.nextId == dag.nextId
  {
  }

  lemma StepKeepsNumbering(dag: Dag, step: Step)
    requires WellNumbered(dag)
    ensures WellNumbered(Apply(dag, step)) && Apply(dag, step).nextId >= dag.nextId
  {
  }

  /** Nothing rewrites a node, apart from the session it belongs to, and no id is used twice. */
  lemma {:induction false} RunKeepsSources(dag: Dag, steps: seq<Step>, id: int)
    requires WellNumbered(dag) && id < dag.nextId && id in Run(dag, steps).nodes
    ensures id in dag.nodes && SameButSession(Run(dag, steps).nodes[id], dag.nodes[id])
    decreases |steps|
  {
    if steps != [] {
      StepKeepsNumbering(dag, steps[0]);
      RunKeepsSources(Apply(dag, steps[0]), steps[1..], id);
      StepKeepsSources(dag, steps[0], id);
    }
  }

  /** Unless a conversation is rebound, its frontier never falls. */
  lemma {:induction false} FrontierNeverFalls(dag: Dag, steps: seq<Step>, conversation: string)
    requires conversation in dag.lifecycle
    requires forall i :: 0 <= i < |steps| && steps[i].BindStep? ==> steps[i].conversation != conversation
    ensures conversation in Run(dag, steps).lifecycle
    ensures Run(dag, steps).lifecycle[conversation].frontier >= dag.lifecycle[conversation].frontier
    ensures Run(dag, steps).lifecycle[conversation].session == dag.lifecycle[conversation].session
    decreases |steps|
  {
    if steps != [] {
      assert forall i :: 0 <= i < |steps[1..]| ==> steps[1..][i] == steps[i + 1];
      FrontierNeverFalls(Apply(dag, steps[0]), steps[1..], conversation);
    }
  }

  // ---------------------------------------------------------------- parents

  /** A live node of the session that cites the source. */
  predicate IsParent(dag: Dag, sourceType: SourceType, session: string, source: int, id: int) {
    && id in dag.nodes && dag.nodes[id].sourceType == sourceType && dag.nodes[id].session == session
    && source in dag.nodes[id].sources
  }

  lemma {:induction false} MentionsCited(sources: seq<int>, source: int, parent: int)
    ensures source in sources <==> parent in Mentions(sources, source, parent)
    ensures forall p :: p in Mentions(sources, source, parent) ==> p == parent
  {
    if sources != [] {
      assert sources == sources[..|sources| - 1] + [sources[|sources| - 1]];
      MentionsCited(sources[..|sources| - 1], source, parent);
    }
  }

  lemma {:induction false} ParentsBelowMember(dag: Dag, sourceType: SourceType, session: string, source: int,
                                              bound: int, id: int)
    ensures id in ParentsBelow(dag, sourceType, session, source, bound)
            <==> 0 <= id < bound && IsParent(dag, sourceType, session, source, id)
    decreases bound
  {
    if bound > 0 {
      ParentsBelowMember(dag, sourceType, session, source, bound - 1, id);
      if IsCandidate(dag, sourceType, session, bound - 1) {
        MentionsCited(dag.nodes[bound - 1].sources, source, bound - 1);
      }
    }
  }

  lemma {:induction false} ParentsInMember(dag: Dag, sourceType: SourceType, sessions: seq<string>, source: int, id: int)
    requires WellNumbered(dag)
    ensures id in ParentsIn(dag, sourceType, sessions, source)
            <==> id in dag.nodes && dag.nodes[id].session in sessions
                 && IsParent(dag, sourceType, dag.nodes[id].session, source, id)
  {
    if sessions != [] {
      var front, last := sessions[..|sessions| - 1], sessions[|sessions| - 1];
      assert sessions == front + [last];
      ParentsInMember(dag, sourceType, front, source, id);
      ParentsBelowMember(dag, sourceType, last, source, dag.nextId, id);
    }
  }

  lemma CapturedSessionIsScanned(dag: Dag, sourceType: SourceType, ids: seq<int>, i: nat)
    requires AllPresent(dag, sourceType, ids) && i < |ids|
    ensures RowOf(dag, sourceType, ids[i]).value.Session() in SessionsOf(dag, sourceType, ids)
  {
    var sessions := SessionList(dag, sourceType, ids);
    assert sessions[i] in sessions;
    SortUniqueMembers(StringLess, sessions, sessions[i]);
  }

  /** The sessions scanned for parents are those of the captured rows. */
  lemma ScannedSessions(dag: Dag, sourceType: SourceType, ids: seq<int>, session: string)
    requires AllPresent(dag, sourceType, ids)
    ensures session in SessionsOf(dag, sourceType, ids)
            <==> exists i :: 0 <= i < |ids| && RowOf(dag, sourceType, ids[i]).value.Session() == session
  {
    SortUniqueMembers(StringLess, SessionList(dag, sourceType, ids), session);
    if i :| 0 <= i < |ids| && RowOf(dag, sourceType, ids[i]).value.Session() == session {
      CapturedSessionIsScanned(dag, sourceType, ids, i);
    }
  }

  lemma CapturedIds(dag: Dag, sourceIds: seq<int>, sourceType: SourceType, conversation: string)
    requires Capture(dag, sourceIds, sourceType, conversation).Ok?
    ensures var s := Capture(dag, sourceIds, sourceType, conversation).value;
      && s.sourceType == sourceType && s.conversation == conversation && s.ids == SortUnique(IntLess, sourceIds)
      && s.parents.Keys == s.rows.Keys
      && (forall id :: id in s.ids <==> id in s.rows) && (forall id :: id in s.rows <==> id in sourceIds)
  {
    forall id ensures id in SortUnique(IntLess, sourceIds) <==> id in sourceIds {
      SortUniqueMembers(IntLess, sourceIds, id);
    }
  }

  predicate IsStored(dag: Dag, sourceType: SourceType, id: int) {
    if sourceType == Messages then id in dag.messages else id in dag.nodes
  }

  /** The session a conversation is bound to, if it has a name and a binding. */
  function BoundSession(dag: Dag, conversation: string): Option<string> {
    if conversation == "" || conversation !in dag.lifecycle then None else dag.lifecycle[conversation].session
  }

  /** A capture succeeds exactly when every source is stored, and holds each of them as stored and the binding as it is. */
  lemma CaptureReads(dag: Dag, sourceIds: seq<int>, sourceType: SourceType, conversation: string, id: int)
    ensures var c := Capture(dag, sourceIds, sourceType, conversation);
      && (c.Ok? <==> forall source :: source in sourceIds ==> IsStored(dag, sourceType, source))
      && (c.Err? ==> c.error == SourceMissing)
      && (c.Ok? ==>
            && (id in c.value.rows <==> id in sourceIds) && (id in c.value.parents <==> id in sourceIds)
            && (id in sourceIds && sourceType == Messages ==>
                  id in dag.messages && c.value.rows[id] == MessageRow(dag.messages[id]))
            && (id in sourceIds && sourceType == Nodes ==> id in dag.nodes && c.value.rows[id] == NodeRow(dag.nodes[id]))
            && (c.value.lifecycle.Some? <==> conversation != "" && conversation in dag.lifecycle)
            && (c.value.lifecycle.Some? ==> c.value.lifecycle.value == dag.lifecycle[conversation]))
  {
    var ids := SortUnique(IntLess, sourceIds);
    forall source ensures source in ids <==> source in sourceIds {
      SortUniqueMembers(IntLess, sourceIds, source);
    }
    if AllPresent(dag, sourceType, ids) {
      forall source | source in sourceIds ensures IsStored(dag, sourceType, source) {
        var i :| 0 <= i < |ids| && ids[i] == source;
        assert RowOf(dag, sourceType, ids[i]).Some?;
      }
    } else {
      var i :| 0 <= i < |ids| && RowOf(dag, sourceType, ids[i]).None?;
      assert ids[i] in sourceIds && !IsStored(dag, sourceType, ids[i]);
    }
  }

  /**
   Why a publication is refused at its recheck: a source is gone, the conversation is bound to another
   session than captured, or else anything that was captured reads differently now.
   */
  lemma RecheckRefuses(dag: Dag, step: Step)
    requires step.PublishStep? && step.startValid
    ensures var s := step.snapshot;
      var outcome := Publish(dag, step.node, s, step.frontier, step.now, step.startValid, step.endValid);
      var stored := forall id :: id in s.ids ==> IsStored(dag, s.sourceType, id);
      var bound := BoundSession(dag, s.conversation) == SessionField(s.lifecycle);
      && (outcome == Err(SourceMissing) <==> !stored)
      && (outcome == Err(BindingChanged) <==> stored && !bound)
      && (outcome == Err(SourceChanged) <==> stored && bound && Capture(dag, s.ids, s.sourceType, s.conversation) != Ok(s))
  {
    var s := step.snapshot;
    CaptureReads(dag, s.ids, s.sourceType, s.conversation, 0);
  }

  /** Captured parents are exactly the live nodes of the captured rows' sessions that cite the source. */
  lemma CaptureListsLiveParents(dag: Dag, sourceIds: seq<int>, sourceType: SourceType, conversation: string,
                                source: int, id: int)
    requires WellNumbered(dag)
    requires Capture(dag, sourceIds, sourceType, conversation).Ok?
    ensures var s := Capture(dag, sourceIds, sourceType, conversation).value;
      source in s.rows && source in s.parents ==>
        (id in s.parents[source] <==>
           && id in dag.nodes && (exists other :: other in s.rows && s.rows[other].Session() == dag.nodes[id].session)
           && IsParent(dag, sourceType, dag.nodes[id].session, source, id))
  {
    var s := Capture(dag, sourceIds, sourceType, conversation).value;
    CapturedIds(dag, sourceIds, sourceType, conversation);
    ParentsInMember(dag, sourceType, SessionsOf(dag, sourceType, s.ids), source, id);
    if id in dag.nodes {
      ScannedSessions(dag, sourceType, s.ids, dag.nodes[id].session);
      if other :| other in s.rows && s.rows[other].Session() == dag.nodes[id].session {
        var i :| 0 <= i < |s.ids| && s.ids[i] == other;
        assert RowOf(dag, sourceType, s.ids[i]).value.Session() == dag.nodes[id].session;
      }
      if i :| 0 <= i < |s.ids| && RowOf(dag, sourceType, s.ids[i]).value.Session() == dag.nodes[id].session {
        assert s.ids[i] in s.rows;
      }
    }
  }
}
