/**
 The two recursive walks over the summary graph. Both follow source lists from a node down to raw
 messages; one removes duplicate rows (`UNION`), the other does not (`UNION ALL`) and therefore
 ends only because every edge points to a smaller id.
 */
module DagWalk {
  import opened Wrappers
  import opened Ordering
  import opened DagModel
  import DagPublication
  import opened Text

  /** A row of the recursive query. */
  datatype Item = Item(sourceType: SourceType, id: int)

  // ---------------------------------------------------------------- edges descend

  ghost predicate EdgesDescend(dag: Dag) {
    && WellNumbered(dag)
    && forall id, s :: id in dag.nodes && dag.nodes[id].sourceType == Nodes && s in dag.nodes[id].sources ==> s < id
  }

  lemma StepKeepsEdges(dag: Dag, step: DagPublication.Step)
    requires EdgesDescend(dag)
    ensures EdgesDescend(DagPublication.Apply(dag, step))
  {
    DagPublication.StepKeepsNumbering(dag, step);
    if DagPublication.Commits(dag, step) {
      DagPublication.CommitSeesCapturedState(dag, step);
    }
  }

  /** In every run of publications, deletions, moves and rebindings each edge points to a smaller id. */
  lemma {:induction false} RunKeepsEdges(dag: Dag, steps: seq<DagPublication.Step>)
    requires EdgesDescend(dag)
    ensures EdgesDescend(DagPublication.Run(dag, steps))
    decreases |steps|
  {
    if steps != [] {
      StepKeepsEdges(dag, steps[0]);
      RunKeepsEdges(DagPublication.Apply(dag, steps[0]), steps[1..]);
    }
  }

  // ---------------------------------------------------------------- what the walks should find

  /** The path is a chain of live nodes from the root to one whose source list holds the item. */
  ghost predicate ReachesBy(dag: Dag, root: int, item: Item, path: seq<int>)
    decreases |path|
  {
    && path != []
    && var last := path[|path| - 1];
       && last in dag.nodes
       && dag.nodes[last].sourceType == item.sourceType
       && item.id in dag.nodes[last].sources
       && (if |path| == 1 then last == root else ReachesBy(dag, root, Item(Nodes, last), path[..|path| - 1]))
  }

  ghost predicate Reaches(dag: Dag, root: int, item: Item) {
    exists path :: ReachesBy(dag, root, item, path)
  }

  /** The message is stored and lies under the node. */
  ghost predicate IsUnder(dag: Dag, root: int, storeId: int) {
    storeId in dag.messages && Reaches(dag, root, Item(Messages, storeId))
  }

  function ItemsOf(node: Node): (items: seq<Item>)
    ensures |items| == |node.sources|
  {
    seq(|node.sources|, i requires 0 <= i < |node.sources| => Item(node.sourceType, node.sources[i]))
  }

  function ChildrenOf(dag: Dag, item: Item): seq<Item> {
    if item.sourceType == Nodes && item.id in dag.nodes then ItemsOf(dag.nodes[item.id]) else []
  }

  function RootItems(dag: Dag, root: int): seq<Item> {
    if root in dag.nodes then ItemsOf(dag.nodes[root]) else []
  }

  lemma ItemOfNode(node: Node, item: Item)
    ensures item in ItemsOf(node) <==> item.sourceType == node.sourceType && item.id in node.sources
  {
    if item.sourceType == node.sourceType && item.id in node.sources {
      var i :| 0 <= i < |node.sources| && node.sources[i] == item.id;
      assert ItemsOf(node)[i] == item;
    }
  }

  lemma RootItemsReached(dag: Dag, root: int)
    ensures forall item :: item in RootItems(dag, root) ==> Reaches(dag, root, item)
  {
    forall item | item in RootItems(dag, root) ensures Reaches(dag, root, item) {
      ItemOfNode(dag.nodes[root], item);
      assert ReachesBy(dag, root, item, [root]);
    }
  }

  lemma ChildrenReached(dag: Dag, root: int, item: Item)
    requires Reaches(dag, root, item)
    ensures forall child :: child in ChildrenOf(dag, item) ==> Reaches(dag, root, child)
  {
    var path :| ReachesBy(dag, root, item, path);
    forall child | child in ChildrenOf(dag, item) ensures Reaches(dag, root, child) {
      ItemOfNode(dag.nodes[item.id], child);
      assert (path + [item.id])[..|path|] == path;
      assert ReachesBy(dag, root, child, path + [item.id]);
    }
  }

  /**
   The state of a walk: its rows are all reached from the root, it starts from the root's items,
   and the children of the rows before `next` are among its rows.
   */
  ghost predicate Explored(dag: Dag, root: int, walk: seq<Item>, next: nat) {
    && next <= |walk|
    && (forall i :: i in walk ==> Reaches(dag, root, i))
    && (forall i :: i in RootItems(dag, root) ==> i in walk)
    && (forall i, child :: i in walk[..next] && child in ChildrenOf(dag, i) ==> child in walk)
  }

  lemma ExploreNext(dag: Dag, root: int, walk: seq<Item>, next: nat, added: seq<Item>)
    requires Explored(dag, root, walk, next) && next < |walk|
    requires forall i :: i in added ==> i in ChildrenOf(dag, walk[next])
    requires forall i :: i in ChildrenOf(dag, walk[next]) ==> i in walk || i in added
    ensures Explored(dag, root, walk + added, next + 1)
  {
    assert walk[next] in walk;
    ChildrenReached(dag, root, walk[next]);
    assert (walk + added)[..next + 1] == walk[..next] + [walk[next]];
  }

  /** A finished walk holds exactly the reached rows. */
  lemma ExploredAll(dag: Dag, root: int, walk: seq<Item>)
    requires Explored(dag, root, walk, |walk|)
    ensures forall item :: item in walk <==> Reaches(dag, root, item)
  {
    assert walk[..|walk|] == walk;
    forall item | Reaches(dag, root, item) ensures item in walk {
      var path :| ReachesBy(dag, root, item, path);
      ClosedHoldsReached(dag, root, walk, item, path);
    }
  }

  lemma {:induction false} ClosedHoldsReached(dag: Dag, root: int, walk: seq<Item>, item: Item, path: seq<int>)
    requires forall i :: i in RootItems(dag, root) ==> i in walk
    requires forall i, child :: i in walk && child in ChildrenOf(dag, i) ==> child in walk
    requires ReachesBy(dag, root, item, path)
    ensures item in walk
    decreases |path|
  {
    var last := path[|path| - 1];
    ItemOfNode(dag.nodes[last], item);
    if |path| > 1 {
      ClosedHoldsReached(dag, root, walk, Item(Nodes, last), path[..|path| - 1]);
      assert item in ChildrenOf(dag, Item(Nodes, last));
    }
  }

  // ---------------------------------------------------------------- size of the walk without deduplication

  ghost predicate Below(dag: Dag, items: seq<Item>, bound: int) {
    forall i :: i in items && i.sourceType == Nodes && i.id in dag.nodes ==> i.id < bound
  }

  /** The number of rows `UNION ALL` produces from these rows. */
  ghost function WalkSize(dag: Dag, items: seq<Item>, bound: int): nat
    requires EdgesDescend(dag)
    requires Below(dag, items, bound)
    decreases bound, |items|
  {
    if items == [] then 0
    else
      var last := items[|items| - 1];
      WalkSize(dag, items[..|items| - 1], bound) + 1
      + if last.sourceType == Nodes && last.id in dag.nodes
        then (ItemsDescend(dag, last.id); WalkSize(dag, ItemsOf(dag.nodes[last.id]), last.id)) else 0
  }

  lemma ItemsDescend(dag: Dag, id: int)
    requires EdgesDescend(dag) && id in dag.nodes
    ensures Below(dag, ItemsOf(dag.nodes[id]), id)
  {
    forall i | i in ItemsOf(dag.nodes[id]) && i.sourceType == Nodes && i.id in dag.nodes ensures i.id < id {
      ItemOfNode(dag.nodes[id], i);
    }
  }

  lemma {:induction false} WalkSizeBound(dag: Dag, items: seq<Item>, bound: int, wider: int)
    requires EdgesDescend(dag) && bound <= wider
    requires Below(dag, items, bound)
    ensures WalkSize(dag, items, bound) == WalkSize(dag, items, wider)
    decreases |items|
  {
    if items != [] {
      WalkSizeBound(dag, items[..|items| - 1], bound, wider);
    }
  }

  lemma {:induction false} WalkSizeConcat(dag: Dag, a: seq<Item>, b: seq<Item>, bound: int)
    requires EdgesDescend(dag)
    requires Below(dag, a + b, bound)
    ensures (forall i :: i in a ==> i in a + b) && (forall i :: i in b ==> i in a + b)
    ensures WalkSize(dag, a + b, bound) == WalkSize(dag, a, bound) + WalkSize(dag, b, bound)
    decreases |b|
  {
    if b == [] {
      assert a + b == a;
    } else {
      assert (a + b)[..|a + b| - 1] == a + b[..|b| - 1];
      WalkSizeConcat(dag, a, b[..|b| - 1], bound);
    }
  }

  // ---------------------------------------------------------------- source filter

  const UNKNOWN_SOURCE := "unknown"

  function NormalizeSource(source: string): string {
    if Strip(source) == "" then UNKNOWN_SOURCE else Strip(source)
  }

  /** What `TRIM` with the six ASCII blanks leaves empty. */
  predicate IsBlankColumn(source: string) {
    forall i :: 0 <= i < |source| ==> '\t' <= source[i] <= '\r' || source[i] == ' '
  }

  /** The message's source column matches; an absent or blank one counts as unknown. */
  predicate Carries(message: Message, normalized: string) {
    || message.source == Some(normalized)
    || (normalized == UNKNOWN_SOURCE && (message.source.None? || IsBlankColumn(message.source.value)))
  }

  ghost predicate MatchesSource(dag: Dag, root: int, source: string) {
    source == "" || exists id :: IsUnder(dag, root, id) && Carries(dag.messages[id], NormalizeSource(source))
  }

  /** Asking for a blank source, or for "unknown", also finds messages without one; any other is matched as it is, stripped. */
  lemma SourceRule(dag: Dag, root: int, source: string)
    ensures MatchesSource(dag, root, source) <==>
      || source == ""
      || (exists id :: IsUnder(dag, root, id) && dag.messages[id].source == Some(Strip(source)) && Strip(source) != "")
      || (Strip(source) in {"", "unknown"}
          && exists id :: IsUnder(dag, root, id)
               && match dag.messages[id].source
                  case None => true
                  case Some(column) => column == "unknown" || forall c :: c in column ==> c in "\t\n\U{0B}\U{0C}\r ")
  {
    forall column: string ensures IsBlankColumn(column) <==> forall c :: c in column ==> c in "\t\n\U{0B}\U{0C}\r " {
      BlankColumn(column);
    }
  }

  lemma BlankColumn(column: string)
    ensures IsBlankColumn(column) <==> forall c :: c in column ==> c in "\t\n\U{0B}\U{0C}\r "
  {
    forall c ensures c in "\t\n\U{0B}\U{0C}\r " <==> '\t' <= c <= '\r' || c == ' ' {
      BlankColumnChar(c);
    }
    if IsBlankColumn(column) {
      forall c | c in column ensures '\t' <= c <= '\r' || c == ' ' {
        var i :| 0 <= i < |column| && column[i] == c;
        assert '\t' <= column[i] <= '\r' || column[i] == ' ';
      }
    }
    if forall c :: c in column ==> c in "\t\n\U{0B}\U{0C}\r " {
      forall i | 0 <= i < |column| ensures '\t' <= column[i] <= '\r' || column[i] == ' ' {
        assert column[i] in column;
      }
    }
  }

  lemma BlankColumnChar(c: char)
    ensures c in "\t\n\U{0B}\U{0C}\r " <==> '\t' <= c <= '\r' || c == ' '
  {
    var blanks := "\t\n\U{0B}\U{0C}\r ";
    if '\t' <= c <= '\r' {
      assert blanks[(c - '\t') as int] == c;
    } else if c == ' ' {
      assert blanks[5] == c;
    }
  }

  // ---------------------------------------------------------------- the walks

  ghost function AllItems(dag: Dag): set<Item> {
    set id, i | id in dag.nodes && 0 <= i < |dag.nodes[id].sources| :: ItemsOf(dag.nodes[id])[i]
  }

  ghost function Unlisted(dag: Dag, walk: seq<Item>): set<Item> {
    set i | i in AllItems(dag) && i !in walk
  }

  function Fresh(items: seq<Item>, walk: seq<Item>): seq<Item> {
    if items == [] then []
    else
      var front := Fresh(items[..|items| - 1], walk);
      var last := items[|items| - 1];
      if last in walk || last in front then front else front + [last]
  }

  lemma {:induction false} FreshMembers(items: seq<Item>, walk: seq<Item>)
    ensures forall i :: i in Fresh(items, walk) <==> i in items && i !in walk
  {
    if items != [] {
      FreshMembers(items[..|items| - 1], walk);
      assert items == items[..|items| - 1] + [items[|items| - 1]];
    }
  }

  function MessageIds(dag: Dag, walk: seq<Item>): seq<int> {
    if walk == [] then []
    else
      var last := walk[|walk| - 1];
      MessageIds(dag, walk[..|walk| - 1])
      + if last.sourceType == Messages && last.id in dag.messages then [last.id] else []
  }

  lemma {:induction false} MessageIdsMembers(dag: Dag, walk: seq<Item>, id: int)
    ensures id in MessageIds(dag, walk) <==> id in dag.messages && Item(Messages, id) in walk
  {
    if walk != [] {
      MessageIdsMembers(dag, walk[..|walk| - 1], id);
      assert walk == walk[..|walk| - 1] + [walk[|walk| - 1]];
    }
  }

  /** `seq[:limit]` */
  function Take<T>(s: seq<T>, limit: int): seq<T> {
    if limit <= 0 then [] else if |s| <= limit then s else s[..limit]
  }

  /**
   Resolves a node to the stored messages underneath it: the ascending list of all of them, cut
   at the limit.
   */
  method SourceMessageIds(dag: Dag, root: int, limit: int) returns (ids: seq<int>)
    ensures ids == Take(UnderAscending(dag, root), limit)
  {
    if limit <= 0 {
      return [];
    }
    var walk := Fresh(RootItems(dag, root), []);
    var next := 0;
    RootItemsReached(dag, root);
    FreshMembers(RootItems(dag, root), []);
    while next < |walk|
      invariant Explored(dag, root, walk, next)
      decreases Unlisted(dag, walk), |walk| - next
    {
      var added := Fresh(ChildrenOf(dag, walk[next]), walk);
      FreshMembers(ChildrenOf(dag, walk[next]), walk);
      ExploreNext(dag, root, walk, next, added);
      if added != [] {
        assert added[0] in added && added[0] in walk + added;
        ReachedIsListed(dag, root, added[0]);
        assert added[0] in Unlisted(dag, walk) && added[0] !in Unlisted(dag, walk + added);
      }
      walk := walk + added;
      next := next + 1;
    }
    ExploredAll(dag, root, walk);
    var found := SortUnique(IntLess, MessageIds(dag, walk));
    SortUniqueAscending(IntLess, MessageIds(dag, walk));
    ghost var all := UnderAscending(dag, root);
    forall id ensures id in found <==> id in all {
      SortUniqueMembers(IntLess, MessageIds(dag, walk), id);
      MessageIdsMembers(dag, walk, id);
    }
    AscendingUnique(IntLess, found, all);
    return Take(found, limit);
  }

  lemma ReachedIsListed(dag: Dag, root: int, item: Item)
    requires Reaches(dag, root, item)
    ensures item in AllItems(dag)
  {
    var path :| ReachesBy(dag, root, item, path);
    var last := path[|path| - 1];
    ItemOfNode(dag.nodes[last], item);
    var i :| 0 <= i < |dag.nodes[last].sources| && ItemsOf(dag.nodes[last])[i] == item;
  }

  /** The stored messages under the node, ascending. */
  ghost function UnderAscending(dag: Dag, root: int): (all: seq<int>)
    ensures Ascending(IntLess, all)
    ensures forall id :: id in all <==> IsUnder(dag, root, id)
  {
    ListUnder(dag, root, dag.messages.Keys);
    var all :| Ascending(IntLess, all)
      && forall id :: id in all <==> id in dag.messages.Keys && IsUnder(dag, root, id);
    all
  }

  lemma {:induction false} ListUnder(dag: Dag, root: int, ids: set<int>)
    ensures exists all :: Ascending(IntLess, all) && forall id :: id in all <==> id in ids && IsUnder(dag, root, id)
  {
    if x :| x in ids {
      ListUnder(dag, root, ids - {x});
      var rest :| Ascending(IntLess, rest) && forall id :: id in rest <==> id in ids - {x} && IsUnder(dag, root, id);
      if IsUnder(dag, root, x) {
        InsertUniqueAscending(IntLess, rest, x);
        forall id ensures id in InsertUnique(IntLess, rest, x) <==> id in rest || id == x {
          InsertUniqueMembers(IntLess, rest, x, id);
        }
      }
    } else {
      assert Ascending(IntLess, []);
    }
  }

  /**
   Whether some stored message under the node carries the source. The walk keeps duplicate rows,
   stops at the first match, and ends because edges descend. Cached answers are reused.
   */
  method NodeMatchesSource(dag: Dag, root: int, source: string, cache: map<int, bool>)
    returns (matched: bool, cache': map<int, bool>)
    requires EdgesDescend(dag)
    requires forall id :: id in cache ==> cache[id] == MatchesSource(dag, id, source)
    ensures matched == MatchesSource(dag, root, source)
    ensures forall id :: id in cache' ==> cache'[id] == MatchesSource(dag, id, source)
  {
    if source == "" {
      return true, cache;
    }
    if root in cache {
      return cache[root], cache;
    }
    var normalized := NormalizeSource(source);
    var walk := RootItems(dag, root);
    var next := 0;
    RootItemsReached(dag, root);
    if root in dag.nodes {
      ItemsDescend(dag, root);
    }
    while next < |walk|
      invariant Explored(dag, root, walk, next)
      invariant forall i :: i in walk[..next] ==> !IsMatch(dag, i, normalized)
      invariant Below(dag, walk[next..], root)
      decreases WalkSize(dag, walk[next..], root)
    {
      if IsMatch(dag, walk[next], normalized) {
        assert IsUnder(dag, root, walk[next].id);
        return true, cache[root := true];
      }
      var children := ChildrenOf(dag, walk[next]);
      ExploreNext(dag, root, walk, next, children);
      PoppingShrinksWalk(dag, walk[next..], root);
      assert (walk + children)[next + 1..] == walk[next..][1..] + children;
      assert (walk + children)[..next + 1] == walk[..next] + [walk[next]];
      walk := walk + children;
      next := next + 1;
    }
    ExploredAll(dag, root, walk);
    assert walk[..next] == walk;
    forall id | id in dag.messages && Carries(dag.messages[id], normalized) ensures !IsUnder(dag, root, id) {
      assert IsMatch(dag, Item(Messages, id), normalized);
    }
    return false, cache[root := false];
  }

  predicate IsMatch(dag: Dag, item: Item, normalized: string) {
    item.sourceType == Messages && item.id in dag.messages && Carries(dag.messages[item.id], normalized)
  }

  lemma PoppingShrinksWalk(dag: Dag, pending: seq<Item>, bound: int)
    requires EdgesDescend(dag) && pending != []
    requires Below(dag, pending, bound)
    ensures var after := pending[1..] + ChildrenOf(dag, pending[0]);
      && Below(dag, after, bound)
      && WalkSize(dag, after, bound) < WalkSize(dag, pending, bound)
  {
    var head, rest := pending[0], pending[1..];
    var children := ChildrenOf(dag, head);
    assert pending == [head] + rest;
    if head.sourceType == Nodes && head.id in dag.nodes {
      ItemsDescend(dag, head.id);
      WalkSizeBound(dag, children, head.id, bound);
    }
    WalkSizeConcat(dag, [head], rest, bound);
    WalkSizeConcat(dag, rest, children, bound);
    assert [head][..0] == [];
  }
}
