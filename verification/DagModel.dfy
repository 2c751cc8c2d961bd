/**
 The summary graph as a value: durable messages, summary nodes with their source lists, the
 AUTOINCREMENT counter and the lifecycle binding of each conversation; and the two functions of
 optimistic publication, the snapshot taken before model work and the commit that rechecks it.
 */
module DagModel {
  import opened Wrappers
  import opened Ordering

  datatype SourceType = Messages | Nodes

  datatype Message = Message(session: string, source: Option<string>, content: string)

  datatype Node = Node(session: string, depth: int, summary: string, sourceType: SourceType,
                       sources: seq<int>, createdAt: real)

  datatype Row = MessageRow(message: Message) | NodeRow(node: Node) {
    function Session(): string {
      match this
      case MessageRow(m) => m.session
      case NodeRow(n) => n.session
    }
  }

  datatype Binding = Binding(session: Option<string>, frontier: int, boundAt: Option<real>)

  datatype Dag = Dag(messages: map<int, Message>, nodes: map<int, Node>, nextId: int,
                     lifecycle: map<string, Binding>)

  datatype Snapshot = Snapshot(sourceType: SourceType, conversation: string, ids: seq<int>,
                               rows: map<int, Row>, parents: map<int, seq<int>>, lifecycle: Option<Binding>)

  datatype Error =
    | SourceMissing | RuntimeInvalid | BindingChanged | SourceChanged | UncapturedSource
    | SessionLost | ConversationLost | UncapturedFrontier

  /** Node ids are handed out once, in increasing order. */
  ghost predicate WellNumbered(dag: Dag) {
    1 <= dag.nextId && forall id :: id in dag.nodes ==> 1 <= id < dag.nextId
  }

  // ---------------------------------------------------------------- snapshot

  function RowOf(dag: Dag, sourceType: SourceType, id: int): Option<Row> {
    match sourceType
    case Messages => if id in dag.messages then Some(MessageRow(dag.messages[id])) else None
    case Nodes => if id in dag.nodes then Some(NodeRow(dag.nodes[id])) else None
  }

  /** One copy of the parent per occurrence of the source in its list. */
  function Mentions(sources: seq<int>, source: int, parent: int): seq<int> {
    if sources == [] then []
    else Mentions(sources[..|sources| - 1], source, parent) + if sources[|sources| - 1] == source then [parent] else []
  }

  predicate IsCandidate(dag: Dag, sourceType: SourceType, session: string, id: int) {
    id in dag.nodes && dag.nodes[id].sourceType == sourceType && dag.nodes[id].session == session
  }

  /** The parents of a source among the nodes of one session with ids below the bound, in id order. */
  function ParentsBelow(dag: Dag, sourceType: SourceType, session: string, source: int, bound: int): seq<int>
    decreases bound
  {
    if bound <= 0 then []
    else
      ParentsBelow(dag, sourceType, session, source, bound - 1)
      + if IsCandidate(dag, sourceType, session, bound - 1)
        then Mentions(dag.nodes[bound - 1].sources, source, bound - 1) else []
  }

  function ParentsIn(dag: Dag, sourceType: SourceType, sessions: seq<string>, source: int): seq<int> {
    if sessions == [] then []
    else
      ParentsIn(dag, sourceType, sessions[..|sessions| - 1], source)
      + ParentsBelow(dag, sourceType, sessions[|sessions| - 1], source, dag.nextId)
  }

  predicate AllPresent(dag: Dag, sourceType: SourceType, ids: seq<int>) {
    forall i :: 0 <= i < |ids| ==> RowOf(dag, sourceType, ids[i]).Some?
  }

  function SessionList(dag: Dag, sourceType: SourceType, ids: seq<int>): seq<string>
    requires AllPresent(dag, sourceType, ids)
  {
    seq(|ids|, i requires 0 <= i < |ids| => RowOf(dag, sourceType, ids[i]).value.Session())
  }

  function SessionsOf(dag: Dag, sourceType: SourceType, ids: seq<int>): seq<string>
    requires AllPresent(dag, sourceType, ids)
  {
    SortUnique(StringLess, SessionList(dag, sourceType, ids))
  }

  function BindingOf(dag: Dag, conversation: string): Option<Binding> {
    if conversation != "" && conversation in dag.lifecycle then Some(dag.lifecycle[conversation]) else None
  }

  function CapturedRows(dag: Dag, sourceType: SourceType, ids: seq<int>): map<int, Row>
    requires AllPresent(dag, sourceType, ids)
  {
    map id | id in ids :: RowOf(dag, sourceType, id).value
  }

  function CapturedParents(dag: Dag, sourceType: SourceType, sessions: seq<string>, ids: seq<int>): map<int, seq<int>> {
    map id | id in ids :: ParentsIn(dag, sourceType, sessions, id)
  }

  function Capture(dag: Dag, sourceIds: seq<int>, sourceType: SourceType, conversation: string)
    : Result<Snapshot, Error>
  {
    var ids := SortUnique(IntLess, sourceIds);
    if !AllPresent(dag, sourceType, ids) then Err(SourceMissing)
    else
      var sessions := SessionsOf(dag, sourceType, ids);
      Ok(Snapshot(sourceType, conversation, ids,
                  CapturedRows(dag, sourceType, ids), CapturedParents(dag, sourceType, sessions, ids),
                  BindingOf(dag, conversation)))
  }

  // ---------------------------------------------------------------- publication

  function SessionField(binding: Option<Binding>): Option<string> {
    if binding.None? then None else binding.value.session
  }

  function Stamped(node: Node, now: real): Node {
    if node.createdAt == 0.0 then node.(createdAt := now) else node
  }

  /** The checks of `publish_node` before the insert, in the order they are made. */
  function Refusal(dag: Dag, node: Node, snapshot: Snapshot, startValid: bool): Option<Error> {
    if !startValid then Some(RuntimeInvalid)
    else
      match Capture(dag, snapshot.ids, snapshot.sourceType, snapshot.conversation)
      case Err(error) => Some(error)
      case Ok(current) =>
        if SessionField(current.lifecycle) != SessionField(snapshot.lifecycle) then Some(BindingChanged)
        else if current != snapshot then Some(SourceChanged)
        else if node.sourceType != snapshot.sourceType
                || (exists i :: 0 <= i < |node.sources| && node.sources[i] !in snapshot.rows) then Some(UncapturedSource)
        else if exists id :: id in snapshot.rows && snapshot.rows[id].Session() != node.session then Some(SessionLost)
        else if snapshot.conversation != ""
                && (snapshot.lifecycle.None? || snapshot.lifecycle.value.session != Some(node.session))
        then Some(ConversationLost)
        else None
  }

  function RaiseFrontier(dag: Dag, conversation: string, frontier: int): Dag
    requires conversation in dag.lifecycle
  {
    var binding := dag.lifecycle[conversation];
    if frontier <= binding.frontier then dag
    else dag.(lifecycle := dag.lifecycle[conversation := binding.(frontier := frontier)])
  }

  /** The committed graph and the new node's id, or the error that rolls everything back. */
  function Publish(dag: Dag, node: Node, snapshot: Snapshot, frontier: Option<int>, now: real,
                   startValid: bool, endValid: bool): Result<(Dag, int), Error>
  {
    match Refusal(dag, node, snapshot, startValid)
    case Some(error) => Err(error)
    case None =>
      var inserted := dag.(nodes := dag.nodes[dag.nextId := Stamped(node, now)], nextId := dag.nextId + 1);
      if snapshot.conversation != "" && frontier.Some? then
        if frontier.value != 0 && frontier.value !in snapshot.rows then Err(UncapturedFrontier)
        else if !endValid then Err(RuntimeInvalid)
        else Ok((RaiseFrontier(inserted, snapshot.conversation, frontier.value), dag.nextId))
      else if !endValid then Err(RuntimeInvalid)
      else Ok((inserted, dag.nextId))
  }
}
