/** The SQLite-backed graph: publication as the statements of one transaction, with rollback. */
module DagStore {
  import opened Wrappers
  import opened Ordering
  import opened DagModel

  class SummaryDag {
    var messages: map<int, Message>
    var nodes: map<int, Node>
    var nextId: int
    var lifecycle: map<string, Binding>

    function Contents(): (dag: Dag)
      reads this
    {
      Dag(messages, nodes, nextId, lifecycle)
    }

    ghost predicate Valid()
      reads this
    {
      WellNumbered(Contents())
    }

    constructor (messages: map<int, Message>, lifecycle: map<string, Binding>)
      ensures Valid() && Contents() == Dag(messages, map[], 1, lifecycle)
    {
      this.messages, nodes, nextId, this.lifecycle := messages, map[], 1, lifecycle;
    }

    /** Stages the insert; the caller owns the commit. */
    method InsertNode(node: Node, now: real) returns (id: int)
      requires Valid()
      modifies this`nodes, this`nextId
      ensures Valid()
      ensures id == old(nextId) && id !in old(nodes) && nextId == old(nextId) + 1
      ensures nodes == old(nodes)[id := Stamped(node, now)]
    {
      id := nextId;
      nodes := nodes[id := Stamped(node, now)];
      nextId := nextId + 1;
    }

    /** The captured rows by id; Err when a source has disappeared. */
    method LoadRows(ids: seq<int>, sourceType: SourceType) returns (rows: Result<map<int, Row>, Error>)
      ensures rows.Ok? <==> AllPresent(Contents(), sourceType, ids)
      ensures rows.Err? ==> rows.error == SourceMissing
      ensures rows.Ok? ==> rows.value == CapturedRows(Contents(), sourceType, ids)
    {
      var found: map<int, Row> := map[];
      for i := 0 to |ids|
        invariant forall id :: id in found <==> id in ids[..i]
        invariant forall id :: id in found ==> RowOf(Contents(), sourceType, id) == Some(found[id])
      {
        var row := RowOf(Contents(), sourceType, ids[i]);
        if row.None? {
          return Err(SourceMissing);
        }
        assert ids[..i + 1] == ids[..i] + [ids[i]];
        found := found[ids[i] := row.value];
      }
      assert ids[..|ids|] == ids;
      assert AllPresent(Contents(), sourceType, ids);
      ghost var captured := CapturedRows(Contents(), sourceType, ids);
      assert forall id :: id in found <==> id in captured;
      assert forall id :: id in found ==> RowOf(Contents(), sourceType, id).value == found[id] == captured[id];
      return Ok(found);
    }

    /** The covering parents of every captured id, session by session. */
    method LoadParents(ids: seq<int>, sourceType: SourceType, sessions: seq<string>)
      returns (parents: map<int, seq<int>>)
      requires Valid()
      ensures parents == CapturedParents(Contents(), sourceType, sessions, ids)
    {
      parents := map id | id in ids :: [];
      for k := 0 to |sessions|
        invariant parents == CapturedParents(Contents(), sourceType, sessions[..k], ids)
      {
        parents := ScanSession(sourceType, sessions[k], parents);
        assert sessions[..k + 1][..k] == sessions[..k];
      }
      assert sessions[..|sessions|] == sessions;
    }

    /** Captures the exact rows, their covering parents and the current lifecycle binding. */
    method PublicationSnapshot(sourceIds: seq<int>, sourceType: SourceType, conversation: string)
      returns (outcome: Result<Snapshot, Error>)
      requires Valid()
      ensures outcome == Capture(Contents(), sourceIds, sourceType, conversation)
    {
      var ids := SortUnique(IntLess, sourceIds);
      var rows := LoadRows(ids, sourceType);
      if rows.Err? {
        return Err(rows.error);
      }
      var parents := LoadParents(ids, sourceType, SessionsOf(Contents(), sourceType, ids));
      var binding := if conversation != "" && conversation in lifecycle then Some(lifecycle[conversation]) else None;
      return Ok(Snapshot(sourceType, conversation, ids, rows.value, parents, binding));
    }

    /** One `SELECT ... ORDER BY node_id` and the loop over its rows. */
    method ScanSession(sourceType: SourceType, session: string, found: map<int, seq<int>>)
      returns (parents: map<int, seq<int>>)
      requires Valid()
      ensures parents.Keys == found.Keys
      ensures forall id :: id in found ==>
        parents[id] == found[id] + ParentsBelow(Contents(), sourceType, session, id, nextId)
    {
      parents := found;
      for id := 0 to nextId
        invariant parents.Keys == found.Keys
        invariant forall x :: x in found ==>
          parents[x] == found[x] + ParentsBelow(Contents(), sourceType, session, x, id)
      {
        if id in nodes && nodes[id].sourceType == sourceType && nodes[id].session == session {
          ghost var entry := parents;
          var sources := nodes[id].sources;
          for j := 0 to |sources|
            invariant parents.Keys == found.Keys
            invariant forall x :: x in found ==> parents[x] == entry[x] + Mentions(sources[..j], x, id)
          {
            assert sources[..j + 1][..j] == sources[..j];
            if sources[j] in parents {
              parents := parents[sources[j] := parents[sources[j]] + [id]];
            }
          }
          assert sources[..|sources|] == sources;
        }
      }
    }

    /** The checks before the insert: sources, binding, session and conversation ownership. */
    method Recheck(node: Node, snapshot: Snapshot, startValid: bool) returns (refusal: Option<Error>)
      requires Valid()
      ensures refusal == Refusal(Contents(), node, snapshot, startValid)
    {
      if !startValid {
        return Some(RuntimeInvalid);
      }
      var captured := PublicationSnapshot(snapshot.ids, snapshot.sourceType, snapshot.conversation);
      if captured.Err? {
        return Some(captured.error);
      }
      var current := captured.value;
      if SessionField(current.lifecycle) != SessionField(snapshot.lifecycle) {
        return Some(BindingChanged);
      }
      if current != snapshot {
        return Some(SourceChanged);
      }
      var rows := snapshot.rows;
      if node.sourceType != snapshot.sourceType || exists i :: 0 <= i < |node.sources| && node.sources[i] !in rows {
        return Some(UncapturedSource);
      }
      if exists id :: id in rows && rows[id].Session() != node.session {
        return Some(SessionLost);
      }
      if snapshot.conversation != ""
         && (snapshot.lifecycle.None? || snapshot.lifecycle.value.session != Some(node.session)) {
        return Some(ConversationLost);
      }
      return None;
    }

    /** Rechecks the sources, inserts the node and advances its frontier in one commit. */
    method PublishNode(node: Node, snapshot: Snapshot, frontier: Option<int>, now: real,
                       startValid: bool, endValid: bool) returns (outcome: Result<int, Error>)
      requires Valid()
      modifies this
      ensures Valid()
      ensures match Publish(old(Contents()), node, snapshot, frontier, now, startValid, endValid)
        case Err(error) => outcome == Err(error) && Contents() == old(Contents())
        case Ok((after, id)) => outcome == Ok(id) && Contents() == after
      ensures outcome.Ok? ==>
        && outcome.value == old(nextId) && nodes.Keys == old(nodes.Keys) + {outcome.value}
        && (forall id :: id in old(nodes) ==> nodes[id] == old(nodes)[id])
        && nodes[outcome.value] == node.(createdAt := if node.createdAt != 0.0 then node.createdAt else now)
    {
      var refusal := Recheck(node, snapshot, startValid);
      if refusal.Some? {
        return Err(refusal.value);
      }
      var savedNodes, savedNextId, savedLifecycle := nodes, nextId, lifecycle;
      var nodeId := InsertNode(node, now);
      if snapshot.conversation != "" && frontier.Some? {
        if frontier.value != 0 && frontier.value !in snapshot.rows {
          nodes, nextId, lifecycle := savedNodes, savedNextId, savedLifecycle;
          return Err(UncapturedFrontier);
        }
        var binding := lifecycle[snapshot.conversation];
        var raised := if frontier.value > binding.frontier then frontier.value else binding.frontier;
        lifecycle := lifecycle[snapshot.conversation := binding.(frontier := raised)];
        assert RaiseFrontier(old(Contents()), snapshot.conversation, frontier.value).lifecycle == lifecycle;
      }
      if !endValid {
        nodes, nextId, lifecycle := savedNodes, savedNextId, savedLifecycle;
        return Err(RuntimeInvalid);
      }
      return Ok(nodeId);
    }
  }
}
