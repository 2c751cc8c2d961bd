/** Exactly when a hidden leaf is returned, and which rows it then holds. */
module HiddenLeafOutcome {
  import opened Wrappers
  import opened Leaf = HiddenLeaf

  // ---------------------------------------------------------------- where a selection stops

  /** The rows read before position `n` that are not summarised yet. */
  function Fresh(window: seq<Row>, n: nat, covered: set<int>): seq<Row>
    requires n <= |window|
  {
    Uncovered(window[..n], covered)
  }

  /** A row that makes the loader give up when it is reached. */
  ghost predicate Blocks(window: seq<Row>, i: nat, covered: set<int>)
    requires i < |window|
  {
    var row := window[i];
    && row.storeId !in covered
    && (|| row.role == "system" || row.missingSidecar
        || (row.role == "tool" && Fresh(window, i, covered) == [] && !SomeCovered(window[..i], covered))
        || Chars(Fresh(window, i, covered) + [row]) > 4000000)
  }

  /** With row `n - 1` just selected, the selection has reached the target and left no call open. */
  ghost predicate Fulfilled(window: seq<Row>, n: nat, covered: set<int>, target: nat)
    requires 0 < n <= |window|
  {
    window[n - 1].storeId !in covered && Complete(Fresh(window, n, covered), target)
  }

  ghost predicate Unblocked(window: seq<Row>, n: nat, covered: set<int>)
    requires n <= |window|
  {
    forall i :: 0 <= i < n ==> !Blocks(window, i, covered)
  }

  ghost predicate Unfulfilled(window: seq<Row>, n: nat, covered: set<int>, target: nat)
    requires n <= |window|
  {
    forall m :: 0 < m <= n ==> !Fulfilled(window, m, covered, target)
  }

  /** The selection of a whole window, if it says anything and leaves no call open. */
  ghost predicate Leftover(window: seq<Row>, covered: set<int>) {
    var left := Fresh(window, |window|, covered);
    left != [] && Tokens(left) > 0 && forall c :: !Unanswered(left, c)
  }

  /** The loader stops after `n` rows: at the first fulfilled selection, or at the end of the window. */
  ghost predicate StopsAt(window: seq<Row>, n: nat, covered: set<int>, target: nat) {
    && n <= |window| && Unblocked(window, n, covered)
    && (|| (n > 0 && Fulfilled(window, n, covered, target) && Unfulfilled(window, n - 1, covered, target))
        || (n == |window| && Unfulfilled(window, n, covered, target) && Leftover(window, covered)))
  }

  // ---------------------------------------------------------------- the scan decides as declared

  lemma CompleteIffDescribed(scan: Scan, read: seq<Row>, covered: set<int>, target: nat)
    requires Describes(scan, read, covered)
    ensures Complete(scan.selected, target) <==> scan.tokens >= target && scan.pending == {}
  {
    if scan.pending != {} {
      var c :| c in scan.pending;
      assert Unanswered(scan.selected, c);
    }
  }

  lemma FeedDecides(window: seq<Row>, n: nat, scan: Scan, covered: set<int>, target: nat)
    requires n < |window| && Describes(scan, window[..n], covered)
    ensures var verdict := Feed(scan, window[n], covered, target);
      && (verdict.Refuse? <==> Blocks(window, n, covered))
      && (!verdict.Refuse? ==> verdict.scan.selected == Fresh(window, n + 1, covered))
      && (verdict.Finish? <==> !Blocks(window, n, covered) && Fulfilled(window, n + 1, covered, target))
  {
    var row, verdict := window[n], Feed(scan, window[n], covered, target);
    assert window[..n] + [row] == window[..n + 1];
    assert (scan.selected + [row])[..|scan.selected|] == scan.selected;
    assert Chars(scan.selected + [row]) == scan.chars + row.chars;
    if !verdict.Refuse? {
      FeedDescribes(scan, window[..n], row, covered, target);
      CompleteIffDescribed(verdict.scan, window[..n + 1], covered, target);
    }
  }

  /** A scan continues exactly while no row has blocked it and no selection has been fulfilled. */
  lemma {:induction false} ContinuesIff(window: seq<Row>, n: nat, covered: set<int>, target: nat)
    requires n <= |window|
    ensures ScanTo(window, n, covered, target).Continue? <==>
      Unblocked(window, n, covered) && Unfulfilled(window, n, covered, target)
  {
    if n > 0 {
      ContinuesIff(window, n - 1, covered, target);
      if ScanTo(window, n - 1, covered, target).Continue? {
        ScanDescribes(window, n - 1, covered, target);
        FeedDecides(window, n - 1, ScanTo(window, n - 1, covered, target).scan, covered, target);
      }
    }
  }

  lemma ContinuesWith(window: seq<Row>, n: nat, covered: set<int>, target: nat)
    requires n <= |window| && ScanTo(window, n, covered, target).Continue?
    ensures Describes(ScanTo(window, n, covered, target).scan, window[..n], covered)
  {
    ScanDescribes(window, n, covered, target);
  }

  lemma FinishesAt(window: seq<Row>, n: nat, covered: set<int>, target: nat)
    requires 0 < n <= |window|
    requires Unblocked(window, n, covered) && Fulfilled(window, n, covered, target) && Unfulfilled(window, n - 1, covered, target)
    ensures ScanTo(window, |window|, covered, target).Finish?
    ensures ScanTo(window, |window|, covered, target).scan.selected == Fresh(window, n, covered)
  {
    ContinuesIff(window, n - 1, covered, target);
    ContinuesWith(window, n - 1, covered, target);
    FeedDecides(window, n - 1, ScanTo(window, n - 1, covered, target).scan, covered, target);
    StaysDecided(window, n, |window|, covered, target);
  }

  lemma {:induction false} FinishedAt(window: seq<Row>, n: nat, covered: set<int>, target: nat) returns (k: nat)
    requires n <= |window| && ScanTo(window, n, covered, target).Finish?
    ensures 0 < k <= n && Unblocked(window, k, covered)
    ensures Fulfilled(window, k, covered, target) && Unfulfilled(window, k - 1, covered, target)
  {
    if ScanTo(window, n - 1, covered, target).Finish? {
      k := FinishedAt(window, n - 1, covered, target);
    } else {
      ContinuesIff(window, n - 1, covered, target);
      ContinuesWith(window, n - 1, covered, target);
      FeedDecides(window, n - 1, ScanTo(window, n - 1, covered, target).scan, covered, target);
      k := n;
    }
  }

  lemma WholeWindow(window: seq<Row>, covered: set<int>, target: nat)
    requires ScanTo(window, |window|, covered, target).Continue?
    ensures Conclude(ScanTo(window, |window|, covered, target)) ==
      if Leftover(window, covered) then Some(Fresh(window, |window|, covered)) else None
  {
    ContinuesWith(window, |window|, covered, target);
    var scan := ScanTo(window, |window|, covered, target).scan;
    CompleteIffDescribed(scan, window[..|window|], covered, scan.tokens);
  }

  lemma StoppedChunk(window: seq<Row>, n: nat, covered: set<int>, target: nat)
    requires StopsAt(window, n, covered, target)
    ensures Conclude(ScanTo(window, |window|, covered, target)) == Some(Fresh(window, n, covered))
  {
    if n > 0 && Fulfilled(window, n, covered, target) && Unfulfilled(window, n - 1, covered, target) {
      FinishesAt(window, n, covered, target);
    } else {
      ContinuesIff(window, n, covered, target);
      WholeWindow(window, covered, target);
    }
  }

  lemma ChunkStopped(window: seq<Row>, covered: set<int>, target: nat) returns (n: nat)
    requires Conclude(ScanTo(window, |window|, covered, target)).Some?
    ensures StopsAt(window, n, covered, target)
  {
    if ScanTo(window, |window|, covered, target).Finish? {
      n := FinishedAt(window, |window|, covered, target);
    } else {
      n := |window|;
      ContinuesIff(window, n, covered, target);
      WholeWindow(window, covered, target);
    }
  }

  /**
   The loader returns a chunk exactly when its window has a stopping point, and then the uncovered
   rows up to it: before the first row that blocks, at the first fulfilled selection or else at the end.
   */
  lemma ChunkIff(rows: seq<Row>, covered: set<int>, frontier: int, before: int, target: nat, chunk: seq<Row>)
    ensures HiddenChunk(rows, covered, frontier, before, target) == Some(chunk) <==>
      exists n :: StopsAt(Window(rows, frontier, before), n, covered, target)
        && chunk == Fresh(Window(rows, frontier, before), n, covered)
  {
    var window := Window(rows, frontier, before);
    if HiddenChunk(rows, covered, frontier, before, target) == Some(chunk) {
      var n := ChunkStopped(window, covered, target);
      StoppedChunk(window, n, covered, target);
    }
    if n :| StopsAt(window, n, covered, target) && chunk == Fresh(window, n, covered) {
      StoppedChunk(window, n, covered, target);
    }
  }

  // ---------------------------------------------------------------- bounds

  /** The first row above the lifecycle frontier repeats the start of the window's system message. */
  ghost predicate IsAnchor(rows: seq<Row>, frontier: int, anchor: Option<string>, row: Row) {
    && row in rows && row.storeId > frontier && (forall r :: r in rows && r.storeId > frontier ==> row.storeId <= r.storeId)
    && row.role == "system" && anchor.Some? && row.content != "" && row.content <= anchor.value
  }

  lemma {:induction false} FirstAfterFound(rows: seq<Row>, lo: int, row: Row)
    requires Ascending(rows) && row in rows && row.storeId > lo
    ensures FirstAfter(rows, lo).Some?
  {
    if rows[0].storeId <= lo {
      FirstAfterFound(rows[1..], lo, row);
    }
  }

  lemma {:induction false} NoneAfter(rows: seq<Row>, lo: int)
    requires FirstAfter(rows, lo).Some?
    ensures exists r :: r in rows && r.storeId > lo
  {
    if rows[0].storeId <= lo {
      NoneAfter(rows[1..], lo);
      var r :| r in rows[1..] && r.storeId > lo;
      assert r in rows;
    } else {
      assert rows[0] in rows;
    }
  }

  /** Selection starts behind the anchor row if there is one, and at the lifecycle frontier otherwise. */
  lemma FrontierIff(rows: seq<Row>, lifecycle: int, anchor: Option<string>, frontier: int)
    requires Ascending(rows)
    ensures SelectionFrontier(rows, lifecycle, anchor) == frontier <==>
      || (exists row :: IsAnchor(rows, lifecycle, anchor, row) && frontier == row.storeId)
      || ((forall row :: !IsAnchor(rows, lifecycle, anchor, row)) && frontier == lifecycle)
  {
    var first := FirstAfter(rows, lifecycle);
    if first.Some? {
      FirstAfterIsFirst(rows, lifecycle);
      forall row | IsAnchor(rows, lifecycle, anchor, row) ensures row == first.value {
      }
      if first.value.role == "system" && anchor.Some? && first.value.content != "" && first.value.content <= anchor.value {
        assert IsAnchor(rows, lifecycle, anchor, first.value);
      }
    } else if row :| IsAnchor(rows, lifecycle, anchor, row) {
      FirstAfterFound(rows, lifecycle, row);
    }
  }

  /**
   `before` bounds the hidden rows: the fresh tail's first row or the lowest visible row above the
   frontier, whichever is lower, with some row strictly between.
   */
  ghost predicate IsBound(rows: seq<Row>, visible: seq<int>, freshTail: Option<int>, frontier: int, before: int) {
    && freshTail.Some? && before <= freshTail.value
    && (exists id :: id in visible && id > frontier)
    && (forall id :: id in visible && id > frontier ==> before <= id)
    && (before == freshTail.value || before in visible)
    && (exists row :: row in rows && frontier < row.storeId < before)
  }

  lemma HiddenRowExists(rows: seq<Row>, frontier: int, before: int)
    requires Ascending(rows)
    ensures Between(rows, frontier, before) != [] <==> exists row :: row in rows && frontier < row.storeId < before
  {
    BetweenHolds(rows, frontier, before);
    if Between(rows, frontier, before) != [] {
      assert Between(rows, frontier, before)[0] in Between(rows, frontier, before);
    }
    if row :| row in rows && frontier < row.storeId < before {
      assert Inside(row, frontier, before);
    }
  }

  lemma {:induction false} LowestIsMember(ids: seq<int>, lo: int)
    requires LowestAbove(ids, lo).Some?
    ensures LowestAbove(ids, lo).value in ids
  {
    if LowestAbove(ids[1..], lo).Some? {
      LowestIsMember(ids[1..], lo);
    }
  }

  lemma BoundHolds(rows: seq<Row>, visible: seq<int>, freshTail: Option<int>, frontier: int)
    requires Ascending(rows) && UpperBound(rows, visible, freshTail, frontier).Some?
    ensures IsBound(rows, visible, freshTail, frontier, UpperBound(rows, visible, freshTail, frontier).value)
  {
    LowestAboveIsLowest(visible, frontier);
    LowestIsMember(visible, frontier);
    HiddenRowExists(rows, frontier, UpperBound(rows, visible, freshTail, frontier).value);
  }

  lemma BoundFound(rows: seq<Row>, visible: seq<int>, freshTail: Option<int>, frontier: int, before: int)
    requires Ascending(rows) && IsBound(rows, visible, freshTail, frontier, before)
    ensures UpperBound(rows, visible, freshTail, frontier) == Some(before)
  {
    LowestAboveIsLowest(visible, frontier);
    LowestIsMember(visible, frontier);
    HiddenRowExists(rows, frontier, before);
    var row :| row in rows && frontier < row.storeId < before;
    FirstAfterFound(rows, frontier, row);
  }

  lemma BoundIff(rows: seq<Row>, visible: seq<int>, freshTail: Option<int>, frontier: int, before: int)
    requires Ascending(rows)
    ensures UpperBound(rows, visible, freshTail, frontier) == Some(before) <==> IsBound(rows, visible, freshTail, frontier, before)
  {
    if UpperBound(rows, visible, freshTail, frontier).Some? {
      BoundHolds(rows, visible, freshTail, frontier);
    }
    if IsBound(rows, visible, freshTail, frontier, before) {
      BoundFound(rows, visible, freshTail, frontier, before);
    }
  }

  // ---------------------------------------------------------------- the target

  function EstimateOf(row: Row): nat {
    if row.estimate.Some? then row.estimate.value else 0
  }

  /** A pass is due at the threshold, or for rows without an estimate, or to pay off raw debt. */
  ghost predicate Due(hidden: seq<Row>, threshold: nat -> nat, debt: bool) {
    Estimated(hidden) >= threshold(Estimated(hidden)) || debt || exists row :: row in hidden && EstimateOf(row) == 0
  }

  /** The goal is the threshold; debt lowers it to what is there, if anything is known to be. */
  ghost predicate IsGoal(hidden: seq<Row>, threshold: nat -> nat, debt: bool, target: nat) {
    var sum := Estimated(hidden);
    && (target == threshold(sum) || (debt && target == sum)) && target <= threshold(sum)
    && (debt && sum > 0 ==> target <= sum) && (sum == 0 ==> target == threshold(sum))
  }

  lemma TargetIff(hidden: seq<Row>, threshold: nat -> nat, debt: bool, target: nat)
    ensures Target(hidden, threshold, debt) == Some(target) <==>
      Due(hidden, threshold, debt) && IsGoal(hidden, threshold, debt, target)
  {
    if SomeUnestimated(hidden) {
      var i :| 0 <= i < |hidden| && (hidden[i].estimate.None? || hidden[i].estimate.value == 0);
      assert hidden[i] in hidden && EstimateOf(hidden[i]) == 0;
    }
    if row :| row in hidden && EstimateOf(row) == 0 {
      var i :| 0 <= i < |hidden| && hidden[i] == row;
    }
  }

  /** No hidden estimate is left out of the sum. */
  lemma {:induction false} EstimateIsSum(a: seq<Row>, b: seq<Row>)
    ensures Estimated(a + b) == Estimated(a) + Estimated(b)
    ensures |a| == 1 ==> Estimated(a) == EstimateOf(a[0])
  {
    if a == [] {
      assert a + b == b;
    } else {
      EstimateIsSum(a[1..], b);
      assert (a + b)[1..] == a[1..] + b;
    }
  }

  // ---------------------------------------------------------------- the leaf

  /** When `before` bounds the hidden rows and a pass is due, the leaf is the chunk up to the stopping point. */
  ghost predicate LeafStops(rows: seq<Row>, covered: set<int>, frontier: int, visible: seq<int>, freshTail: Option<int>,
                            threshold: nat -> nat, debt: bool, before: int, target: nat, n: nat) {
    var hidden := Between(rows, frontier, before);
    && IsBound(rows, visible, freshTail, frontier, before)
    && Due(hidden, threshold, debt) && IsGoal(hidden, threshold, debt, target)
    && StopsAt(Window(rows, frontier, before), n, covered, target)
  }

  /** A leaf is returned exactly when there is such a bound, goal and stopping point, and with the rows up to it. */
  lemma LeafIff(rows: seq<Row>, covered: set<int>, lifecycle: int, anchor: Option<string>, visible: seq<int>,
                freshTail: Option<int>, threshold: nat -> nat, debt: bool, chunk: seq<Row>)
    requires Ascending(rows)
    ensures var frontier := SelectionFrontier(rows, lifecycle, anchor);
      Leaf.HiddenLeaf(rows, covered, lifecycle, anchor, visible, freshTail, threshold, debt) == Some(chunk) <==>
      exists before, target, n :: LeafStops(rows, covered, frontier, visible, freshTail, threshold, debt, before, target, n)
        && chunk == Fresh(Window(rows, frontier, before), n, covered)
  {
    var frontier := SelectionFrontier(rows, lifecycle, anchor);
    if Leaf.HiddenLeaf(rows, covered, lifecycle, anchor, visible, freshTail, threshold, debt) == Some(chunk) {
      var before := UpperBound(rows, visible, freshTail, frontier).value;
      var target := Target(Between(rows, frontier, before), threshold, debt).value;
      BoundIff(rows, visible, freshTail, frontier, before);
      TargetIff(Between(rows, frontier, before), threshold, debt, target);
      ChunkIff(rows, covered, frontier, before, target, chunk);
      var n :| StopsAt(Window(rows, frontier, before), n, covered, target)
        && chunk == Fresh(Window(rows, frontier, before), n, covered);
      assert LeafStops(rows, covered, frontier, visible, freshTail, threshold, debt, before, target, n);
    }
    if before, target, n :|
      && LeafStops(rows, covered, frontier, visible, freshTail, threshold, debt, before, target, n)
      && chunk == Fresh(Window(rows, frontier, before), n, covered)
    {
      BoundIff(rows, visible, freshTail, frontier, before);
      TargetIff(Between(rows, frontier, before), threshold, debt, target);
      ChunkIff(rows, covered, frontier, before, target, chunk);
    }
  }

  // ---------------------------------------------------------------- plain rows always yield a leaf

  /** A row that neither blocks nor opens a call. */
  predicate Plain(row: Row) {
    row.role != "system" && row.role != "tool" && !row.missingSidecar && row.calls == []
  }

  lemma PlainOpensNothing(selected: seq<Row>, call: string)
    requires forall r :: r in selected ==> Plain(r)
    ensures !Unanswered(selected, call)
  {
    forall i | 0 <= i < |selected| ensures !OpenFrom(selected, i, call) {
      assert Plain(selected[i]);
    }
  }

  lemma {:induction false} CharsGrow(window: seq<Row>, i: nat, n: nat, covered: set<int>)
    requires i <= n <= |window|
    ensures Chars(Fresh(window, i, covered)) <= Chars(Fresh(window, n, covered))
  {
    if i < n {
      CharsGrow(window, i, n - 1, covered);
      assert window[..n - 1] + [window[n - 1]] == window[..n];
      UncoveredStep(window[..n - 1], window[n - 1], covered);
      var was := Fresh(window, n - 1, covered);
      if window[n - 1].storeId !in covered {
        assert (was + [window[n - 1]])[..|was|] == was;
      } else {
        assert was + [] == was;
      }
    }
  }

  lemma PlainNeverBlocks(window: seq<Row>, i: nat, covered: set<int>)
    requires i < |window| && Plain(window[i]) && Chars(Uncovered(window, covered)) <= 4000000
    ensures !Blocks(window, i, covered)
  {
    CharsGrow(window, i + 1, |window|, covered);
    assert window[..|window|] == window;
    assert window[..i] + [window[i]] == window[..i + 1];
    UncoveredStep(window[..i], window[i], covered);
  }

  lemma {:induction false} FirstFulfilled(window: seq<Row>, m: nat, covered: set<int>, target: nat) returns (n: nat)
    requires 0 < m <= |window| && Fulfilled(window, m, covered, target)
    ensures 0 < n <= m && Fulfilled(window, n, covered, target) && Unfulfilled(window, n - 1, covered, target)
  {
    if Unfulfilled(window, m - 1, covered, target) {
      n := m;
    } else {
      var k :| 0 < k <= m - 1 && Fulfilled(window, k, covered, target);
      n := FirstFulfilled(window, k, covered, target);
    }
  }

  lemma UnblockedStops(window: seq<Row>, covered: set<int>, target: nat) returns (n: nat)
    requires Unblocked(window, |window|, covered) && Leftover(window, covered)
    ensures StopsAt(window, n, covered, target)
  {
    if Unfulfilled(window, |window|, covered, target) {
      n := |window|;
    } else {
      var m :| 0 < m <= |window| && Fulfilled(window, m, covered, target);
      n := FirstFulfilled(window, m, covered, target);
    }
  }

  lemma PlainLeftover(window: seq<Row>, covered: set<int>)
    requires (forall r :: r in window ==> Plain(r)) && Tokens(Uncovered(window, covered)) > 0
    requires Ascending(window)
    ensures Leftover(window, covered)
  {
    assert window[..|window|] == window;
    UncoveredHolds(window, covered);
    forall c ensures !Unanswered(Fresh(window, |window|, covered), c) {
      PlainOpensNothing(Fresh(window, |window|, covered), c);
    }
  }

  lemma PlainStops(hidden: seq<Row>, covered: set<int>, target: nat) returns (n: nat)
    requires Ascending(hidden) && (forall r :: r in hidden ==> Plain(r))
    requires Chars(Uncovered(hidden, covered)) <= 4000000 && Tokens(Uncovered(hidden, covered)) > 0
    ensures StopsAt(hidden, n, covered, target)
  {
    forall i | 0 <= i < |hidden| ensures !Blocks(hidden, i, covered) {
      PlainNeverBlocks(hidden, i, covered);
    }
    PlainLeftover(hidden, covered);
    n := UnblockedStops(hidden, covered, target);
  }

  lemma DueHasTarget(hidden: seq<Row>, threshold: nat -> nat, debt: bool)
    requires Due(hidden, threshold, debt)
    ensures Target(hidden, threshold, debt).Some?
  {
    if row :| row in hidden && EstimateOf(row) == 0 {
      var i :| 0 <= i < |hidden| && hidden[i] == row;
    }
  }

  /** The rows hidden from the window count for something, and none of them can stop the loader. */
  ghost predicate PlainlyHidden(hidden: seq<Row>, covered: set<int>) {
    && |hidden| <= 16384 && (forall r :: r in hidden ==> Plain(r))
    && Chars(Uncovered(hidden, covered)) <= 4000000 && Tokens(Uncovered(hidden, covered)) > 0
  }

  lemma PlainChunk(rows: seq<Row>, covered: set<int>, frontier: int, before: int, target: nat)
    requires Ascending(rows) && PlainlyHidden(Between(rows, frontier, before), covered)
    ensures HiddenChunk(rows, covered, frontier, before, target).Some?
  {
    var hidden := Between(rows, frontier, before);
    BetweenHolds(rows, frontier, before);
    var n := PlainStops(hidden, covered, target);
    StoppedChunk(hidden, n, covered, target);
  }

  /**
   Plain hidden rows are never left behind: whenever the interval has a bound, a pass is due, and the
   rows fit the row and character limits and count for something, a leaf is returned.
   */
  lemma PlainRowsYieldLeaf(rows: seq<Row>, covered: set<int>, lifecycle: int, anchor: Option<string>, visible: seq<int>,
                           freshTail: Option<int>, threshold: nat -> nat, debt: bool, before: int)
    requires Ascending(rows)
    requires IsBound(rows, visible, freshTail, SelectionFrontier(rows, lifecycle, anchor), before)
    requires Due(Between(rows, SelectionFrontier(rows, lifecycle, anchor), before), threshold, debt)
    requires PlainlyHidden(Between(rows, SelectionFrontier(rows, lifecycle, anchor), before), covered)
    ensures Leaf.HiddenLeaf(rows, covered, lifecycle, anchor, visible, freshTail, threshold, debt).Some?
  {
    var frontier := SelectionFrontier(rows, lifecycle, anchor);
    var hidden := Between(rows, frontier, before);
    BoundFound(rows, visible, freshTail, frontier, before);
    DueHasTarget(hidden, threshold, debt);
    PlainChunk(rows, covered, frontier, before, Target(hidden, threshold, debt).value);
  }
}
