/** Selection of the durable rows that a store-backed leaf summarises before they ever enter the window. */
module HiddenLeaf {
  import opened Wrappers
  import Ordering

  const MAX_ROWS: nat := 16384
  const PAGE_ROWS: nat := 512
  const MAX_CHARS: nat := 4000000

  /**
   A stored row as the loader sees it: its message with sidecar content restored, whether that
   content is missing, whether an ignore pattern matches it, and its size in tokens and characters.
   */
  datatype Row = Row(storeId: int, role: string, calls: seq<string>, callId: string, chars: nat, tokens: nat,
                     missingSidecar: bool, ignored: bool, estimate: Option<nat>, content: string)

  predicate Ascending(rows: seq<Row>) {
    forall i, j :: 0 <= i < j < |rows| ==> rows[i].storeId < rows[j].storeId
  }

  // ---------------------------------------------------------------- pages of an open interval

  predicate Inside(row: Row, lo: int, hi: int) {
    lo < row.storeId < hi
  }

  /** The rows strictly between two cursors, in store order. */
  function Between(rows: seq<Row>, lo: int, hi: int): seq<Row> {
    if rows == [] then []
    else (if Inside(rows[0], lo, hi) then [rows[0]] else []) + Between(rows[1..], lo, hi)
  }

  function Take(rows: seq<Row>, n: nat): seq<Row> {
    if |rows| <= n then rows else rows[..n]
  }

  lemma {:induction false} BetweenHolds(rows: seq<Row>, lo: int, hi: int)
    requires Ascending(rows)
    ensures Ascending(Between(rows, lo, hi))
    ensures forall i :: 0 <= i < |Between(rows, lo, hi)| ==> Inside(Between(rows, lo, hi)[i], lo, hi)
    ensures forall r :: r in Between(rows, lo, hi) <==> r in rows && Inside(r, lo, hi)
  {
    if rows != [] {
      BetweenHolds(rows[1..], lo, hi);
      forall i | 0 <= i < |Between(rows[1..], lo, hi)|
        ensures rows[0].storeId < Between(rows[1..], lo, hi)[i].storeId
      {
        assert Between(rows[1..], lo, hi)[i] in rows[1..];
      }
    }
  }

  /** Ascending rows are determined by which rows they are. */
  lemma {:induction false} SameMembers(s: seq<Row>, t: seq<Row>)
    requires Ascending(s) && Ascending(t)
    requires forall r :: r in s <==> r in t
    ensures s == t
  {
    Ordering.EmptyHasNoMember(s);
    Ordering.EmptyHasNoMember(t);
    if s != [] {
      assert s[0] in t && t[0] in s;
      assert s[0] == t[0];
      forall r ensures r in s[1..] <==> r in t[1..] {
        assert r in s[1..] <==> r in s && r != s[0];
        assert r in t[1..] <==> r in t && r != t[0];
      }
      SameMembers(s[1..], t[1..]);
    }
  }

  /** Reading on from the last row already read gives the remaining rows. */
  lemma BetweenResumes(rows: seq<Row>, lo: int, hi: int, n: nat)
    requires Ascending(rows) && 0 < n <= |Between(rows, lo, hi)|
    ensures Between(rows, Between(rows, lo, hi)[n - 1].storeId, hi) == Between(rows, lo, hi)[n..]
  {
    var whole := Between(rows, lo, hi);
    var cut := whole[n - 1].storeId;
    BetweenHolds(rows, lo, hi);
    BetweenHolds(rows, cut, hi);
    forall r ensures r in Between(rows, cut, hi) <==> r in whole[n..] {
      if r in Between(rows, cut, hi) {
        var i :| 0 <= i < |whole| && whole[i] == r;
        assert i >= n && whole[n..][i - n] == r;
      }
    }
    SameMembers(Between(rows, cut, hi), whole[n..]);
  }

  // ---------------------------------------------------------------- one row at a time

  datatype Scan = Scan(selected: seq<Row>, tokens: nat, chars: nat, pending: set<string>, seenCovered: bool)

  datatype Verdict = Continue(scan: Scan) | Refuse | Finish(scan: Scan)

  const START: Scan := Scan([], 0, 0, {}, false)

  predicate Opens(row: Row, call: string) {
    row.role == "assistant" && call != "" && call in row.calls
  }

  predicate Answers(row: Row, call: string) {
    row.role == "tool" && row.callId == call
  }

  function PendingAfter(pending: set<string>, row: Row): set<string> {
    if row.role == "assistant" then pending + (set c | c in row.calls && c != "")
    else if row.role == "tool" then pending - {row.callId}
    else pending
  }

  function Feed(scan: Scan, row: Row, covered: set<int>, target: nat): Verdict {
    if row.storeId in covered then Continue(scan.(seenCovered := true))
    else if row.role == "system" || (scan.selected == [] && row.role == "tool" && !scan.seenCovered) then Refuse
    else if row.missingSidecar || scan.chars + row.chars > MAX_CHARS then Refuse
    else
      var next := Scan(scan.selected + [row], scan.tokens + (if row.ignored then 0 else row.tokens),
                       scan.chars + row.chars, PendingAfter(scan.pending, row), scan.seenCovered);
      if next.tokens >= target && next.pending == {} then Finish(next) else Continue(next)
  }

  function ScanTo(rows: seq<Row>, n: nat, covered: set<int>, target: nat): Verdict
    requires n <= |rows|
  {
    if n == 0 then Continue(START)
    else
      match ScanTo(rows, n - 1, covered, target)
      case Continue(scan) => Feed(scan, rows[n - 1], covered, target)
      case Refuse => Refuse
      case Finish(scan) => Finish(scan)
  }

  function Conclude(verdict: Verdict): Option<seq<Row>> {
    match verdict
    case Refuse => None
    case Finish(scan) => Some(scan.selected)
    case Continue(scan) =>
      if scan.selected != [] && scan.tokens > 0 && scan.pending == {} then Some(scan.selected) else None
  }

  /** One pass over the whole interval, as if it were a single page. */
  function HiddenChunk(rows: seq<Row>, covered: set<int>, frontier: int, before: int, target: nat): Option<seq<Row>> {
    var window := Take(Between(rows, frontier, before), MAX_ROWS);
    Conclude(ScanTo(window, |window|, covered, target))
  }

  lemma {:induction false} StaysDecided(rows: seq<Row>, n: nat, m: nat, covered: set<int>, target: nat)
    requires n <= m <= |rows| && !ScanTo(rows, n, covered, target).Continue?
    ensures ScanTo(rows, m, covered, target) == ScanTo(rows, n, covered, target)
  {
    if n < m {
      StaysDecided(rows, n, m - 1, covered, target);
    }
  }

  // ---------------------------------------------------------------- what a scan has selected

  function Uncovered(rows: seq<Row>, covered: set<int>): seq<Row> {
    if rows == [] then []
    else
      var last := rows[|rows| - 1];
      Uncovered(rows[..|rows| - 1], covered) + if last.storeId in covered then [] else [last]
  }

  /** The call was opened by a selected row and no later selected row answers it. */
  ghost predicate Unanswered(selected: seq<Row>, call: string) {
    exists i :: 0 <= i < |selected| && OpenFrom(selected, i, call)
  }

  ghost predicate OpenFrom(selected: seq<Row>, i: nat, call: string)
    requires i < |selected|
  {
    Opens(selected[i], call) && forall j :: i < j < |selected| ==> !Answers(selected[j], call)
  }

  function Chars(rows: seq<Row>): nat {
    if rows == [] then 0 else Chars(rows[..|rows| - 1]) + rows[|rows| - 1].chars
  }

  function Tokens(rows: seq<Row>): nat {
    if rows == [] then 0
    else Tokens(rows[..|rows| - 1]) + if rows[|rows| - 1].ignored then 0 else rows[|rows| - 1].tokens
  }

  ghost predicate Describes(scan: Scan, read: seq<Row>, covered: set<int>) {
    && scan.selected == Uncovered(read, covered)
    && Sized(scan) && CallsTracked(scan) && Eligible(scan.selected)
    && (scan.seenCovered <==> SomeCovered(read, covered))
    && LeadingToolFollowsCovered(scan.selected, read, covered)
  }

  ghost predicate Sized(scan: Scan) {
    scan.tokens == Tokens(scan.selected) && scan.chars == Chars(scan.selected) <= MAX_CHARS
  }

  ghost predicate CallsTracked(scan: Scan) {
    forall c :: c in scan.pending <==> Unanswered(scan.selected, c)
  }

  ghost predicate Eligible(selected: seq<Row>) {
    forall i :: 0 <= i < |selected| ==> selected[i].role != "system" && !selected[i].missingSidecar
  }

  ghost predicate SomeCovered(read: seq<Row>, covered: set<int>) {
    exists i :: 0 <= i < |read| && read[i].storeId in covered
  }

  ghost predicate LeadingToolFollowsCovered(selected: seq<Row>, read: seq<Row>, covered: set<int>) {
    selected != [] && selected[0].role == "tool" ==> CoveredBefore(read, covered, selected[0])
  }

  ghost predicate CoveredBefore(read: seq<Row>, covered: set<int>, row: Row) {
    exists i, j :: 0 <= i < j < |read| && read[i].storeId in covered && read[j] == row
  }

  lemma UnansweredStep(selected: seq<Row>, row: Row, call: string)
    ensures Unanswered(selected + [row], call) <==>
      Opens(row, call) || (Unanswered(selected, call) && !Answers(row, call))
  {
    var grown := selected + [row];
    if Opens(row, call) {
      assert OpenFrom(grown, |selected|, call);
    }
    if i :| 0 <= i < |selected| && OpenFrom(selected, i, call) && !Answers(row, call) {
      assert OpenFrom(grown, i, call);
    }
    if i :| 0 <= i < |grown| && OpenFrom(grown, i, call) {
      if i < |selected| {
        assert grown[|selected|] == row && forall j :: i < j < |selected| ==> grown[j] == selected[j];
        assert OpenFrom(selected, i, call);
      }
    }
  }

  lemma StillCoveredBefore(read: seq<Row>, row: Row, covered: set<int>, first: Row)
    requires CoveredBefore(read, covered, first)
    ensures CoveredBefore(read + [row], covered, first)
  {
    var i, j :| 0 <= i < j < |read| && read[i].storeId in covered && read[j] == first;
    assert (read + [row])[i] == read[i] && (read + [row])[j] == read[j];
  }

  lemma SomeCoveredStep(read: seq<Row>, row: Row, covered: set<int>)
    ensures SomeCovered(read + [row], covered) <==> SomeCovered(read, covered) || row.storeId in covered
  {
    if i :| 0 <= i < |read| && read[i].storeId in covered {
      assert (read + [row])[i].storeId in covered;
    }
    if row.storeId in covered {
      assert (read + [row])[|read|].storeId in covered;
    }
  }

  lemma FeedCovered(scan: Scan, read: seq<Row>, row: Row, covered: set<int>)
    requires Describes(scan, read, covered) && row.storeId in covered
    ensures Describes(scan.(seenCovered := true), read + [row], covered)
  {
    assert (read + [row])[..|read|] == read;
    SomeCoveredStep(read, row, covered);
    if scan.selected != [] && scan.selected[0].role == "tool" {
      StillCoveredBefore(read, row, covered, scan.selected[0]);
    }
  }

  lemma SizedStep(scan: Scan, row: Row, next: Scan)
    requires Sized(scan) && scan.chars + row.chars <= MAX_CHARS
    requires next.selected == scan.selected + [row] && next.chars == scan.chars + row.chars
    requires next.tokens == scan.tokens + if row.ignored then 0 else row.tokens
    ensures Sized(next)
  {
    assert next.selected[..|scan.selected|] == scan.selected;
  }

  lemma CallsStep(scan: Scan, row: Row, next: Scan)
    requires CallsTracked(scan)
    requires next.selected == scan.selected + [row] && next.pending == PendingAfter(scan.pending, row)
    ensures CallsTracked(next)
  {
    forall c ensures c in next.pending <==> Unanswered(next.selected, c) {
      UnansweredStep(scan.selected, row, c);
    }
  }

  lemma LeadingToolStep(scan: Scan, read: seq<Row>, row: Row, covered: set<int>)
    requires LeadingToolFollowsCovered(scan.selected, read, covered)
    requires scan.selected == [] && row.role == "tool" ==> SomeCovered(read, covered)
    ensures LeadingToolFollowsCovered(scan.selected + [row], read + [row], covered)
  {
    if scan.selected != [] {
      if scan.selected[0].role == "tool" {
        StillCoveredBefore(read, row, covered, scan.selected[0]);
      }
    } else if row.role == "tool" {
      var i :| 0 <= i < |read| && read[i].storeId in covered;
      assert (read + [row])[i] == read[i] && (read + [row])[|read|] == row;
    }
  }

  lemma EligibleStep(selected: seq<Row>, row: Row)
    requires Eligible(selected) && row.role != "system" && !row.missingSidecar
    ensures Eligible(selected + [row])
  {
  }

  lemma UncoveredStep(read: seq<Row>, row: Row, covered: set<int>)
    ensures Uncovered(read + [row], covered) == Uncovered(read, covered) + if row.storeId in covered then [] else [row]
  {
    assert (read + [row])[..|read|] == read;
  }

  lemma FeedSelected(scan: Scan, read: seq<Row>, row: Row, covered: set<int>, next: Scan)
    requires Describes(scan, read, covered) && row.storeId !in covered
    requires row.role != "system" && !row.missingSidecar && scan.chars + row.chars <= MAX_CHARS
    requires scan.selected == [] && row.role == "tool" ==> scan.seenCovered
    requires next == Scan(scan.selected + [row], scan.tokens + (if row.ignored then 0 else row.tokens),
                          scan.chars + row.chars, PendingAfter(scan.pending, row), scan.seenCovered)
    ensures Describes(next, read + [row], covered)
  {
    UncoveredStep(read, row, covered);
    SizedStep(scan, row, next);
    CallsStep(scan, row, next);
    EligibleStep(scan.selected, row);
    SomeCoveredStep(read, row, covered);
    LeadingToolStep(scan, read, row, covered);
  }

  lemma FeedDescribes(scan: Scan, read: seq<Row>, row: Row, covered: set<int>, target: nat)
    requires Describes(scan, read, covered) && !Feed(scan, row, covered, target).Refuse?
    ensures Describes(Feed(scan, row, covered, target).scan, read + [row], covered)
  {
    if row.storeId in covered {
      FeedCovered(scan, read, row, covered);
    } else {
      FeedSelected(scan, read, row, covered, Feed(scan, row, covered, target).scan);
    }
  }

  /** How many rows a scan of the first `n` read before it stopped. */
  function ReadCount(rows: seq<Row>, n: nat, covered: set<int>, target: nat): (k: nat)
    requires n <= |rows|
    ensures k <= n && (ScanTo(rows, n, covered, target).Continue? ==> k == n)
  {
    if n > 0 && !ScanTo(rows, n - 1, covered, target).Continue? then ReadCount(rows, n - 1, covered, target) else n
  }

  lemma {:induction false} ScanDescribes(rows: seq<Row>, n: nat, covered: set<int>, target: nat)
    requires n <= |rows| && !ScanTo(rows, n, covered, target).Refuse?
    ensures Describes(ScanTo(rows, n, covered, target).scan, rows[..ReadCount(rows, n, covered, target)], covered)
  {
    if n > 0 {
      ScanDescribes(rows, n - 1, covered, target);
      if ScanTo(rows, n - 1, covered, target).Continue? {
        assert rows[..n - 1] + [rows[n - 1]] == rows[..n];
        FeedDescribes(ScanTo(rows, n - 1, covered, target).scan, rows[..n - 1], rows[n - 1], covered, target);
      }
    }
  }

  // ---------------------------------------------------------------- the chunk has no gap

  lemma {:induction false} UncoveredHolds(read: seq<Row>, covered: set<int>)
    requires Ascending(read)
    ensures Ascending(Uncovered(read, covered))
    ensures forall r :: r in Uncovered(read, covered) <==> r in read && r.storeId !in covered
  {
    if read != [] {
      var before := read[..|read| - 1];
      UncoveredHolds(before, covered);
      forall i | 0 <= i < |Uncovered(before, covered)|
        ensures Uncovered(before, covered)[i].storeId < read[|read| - 1].storeId
      {
        assert Uncovered(before, covered)[i] in before;
      }
      forall r ensures r in read <==> r in before || r == read[|read| - 1] {
        assert read == before + [read[|read| - 1]];
      }
    }
  }

  lemma {:induction false} FinishedScan(rows: seq<Row>, n: nat, covered: set<int>, target: nat)
    requires n <= |rows| && ScanTo(rows, n, covered, target).Finish?
    ensures var scan := ScanTo(rows, n, covered, target).scan;
      scan.selected != [] && scan.tokens >= target && scan.pending == {}
  {
    if ScanTo(rows, n - 1, covered, target).Finish? {
      FinishedScan(rows, n - 1, covered, target);
    }
  }

  /** Every row after `frontier` and up to the end of the chunk is in the chunk or already summarised. */
  ghost predicate GapFree(chunk: seq<Row>, rows: seq<Row>, covered: set<int>, frontier: int)
    requires chunk != []
  {
    forall r :: r in rows && frontier < r.storeId <= chunk[|chunk| - 1].storeId ==> r in chunk || r.storeId in covered
  }

  ghost predicate Uncovers(chunk: seq<Row>, rows: seq<Row>, covered: set<int>, frontier: int, before: int) {
    forall r :: r in chunk ==> r in rows && r.storeId !in covered && Inside(r, frontier, before)
  }

  lemma ChunkOfWindow(rows: seq<Row>, covered: set<int>, frontier: int, before: int, k: nat, chunk: seq<Row>)
    requires Ascending(rows) && k <= |Between(rows, frontier, before)|
    requires chunk == Uncovered(Between(rows, frontier, before)[..k], covered)
    ensures Ascending(chunk) && Uncovers(chunk, rows, covered, frontier, before)
    ensures chunk != [] ==> GapFree(chunk, rows, covered, frontier)
  {
    var whole := Between(rows, frontier, before);
    BetweenHolds(rows, frontier, before);
    UncoveredHolds(whole[..k], covered);
    if chunk != [] {
      assert chunk[|chunk| - 1] in whole[..k];
      forall r | r in rows && frontier < r.storeId <= chunk[|chunk| - 1].storeId ensures r in whole[..k] {
        InPrefix(whole, k, r, chunk[|chunk| - 1]);
      }
    }
  }

  lemma InPrefix(whole: seq<Row>, k: nat, row: Row, last: Row)
    requires Ascending(whole) && k <= |whole| && last in whole[..k] && row in whole && row.storeId <= last.storeId
    ensures row in whole[..k]
  {
    var j :| 0 <= j < k && whole[j] == last;
    var i :| 0 <= i < |whole| && whole[i] == row;
    assert i <= j && whole[..k][i] == row;
  }

  ghost function Window(rows: seq<Row>, frontier: int, before: int): seq<Row> {
    Take(Between(rows, frontier, before), MAX_ROWS)
  }

  /** The scan behind a chunk, and the rows it had read when it stopped. */
  lemma ChunkScan(rows: seq<Row>, covered: set<int>, frontier: int, before: int, target: nat)
    returns (scan: Scan, k: nat)
    requires HiddenChunk(rows, covered, frontier, before, target).Some?
    ensures k <= |Window(rows, frontier, before)|
    ensures Describes(scan, Window(rows, frontier, before)[..k], covered)
    ensures scan.selected == HiddenChunk(rows, covered, frontier, before, target).value
    ensures scan.selected != [] && scan.pending == {} && (scan.tokens > 0 || scan.tokens >= target)
  {
    var window := Window(rows, frontier, before);
    var verdict := ScanTo(window, |window|, covered, target);
    ScanDescribes(window, |window|, covered, target);
    if verdict.Finish? {
      FinishedScan(window, |window|, covered, target);
    }
    scan, k := verdict.scan, ReadCount(window, |window|, covered, target);
  }

  /**
   A returned chunk lies strictly between frontier and bound, in store order, and leaves no gap:
   every row up to its end is in it or already summarised. It opens no tool call that it does not
   also answer, holds no system row, and starts with a tool result only after summarised rows.
   */
  lemma ChunkIsGapFree(rows: seq<Row>, covered: set<int>, frontier: int, before: int, target: nat)
    requires Ascending(rows) && HiddenChunk(rows, covered, frontier, before, target).Some?
    ensures var chunk := HiddenChunk(rows, covered, frontier, before, target).value;
      && chunk != [] && Ascending(chunk) && Eligible(chunk) && Chars(chunk) <= MAX_CHARS
      && Uncovers(chunk, rows, covered, frontier, before)
      && GapFree(chunk, rows, covered, frontier)
      && (forall c :: !Unanswered(chunk, c))
      && LeadingToolFollowsCovered(chunk, Window(rows, frontier, before), covered)
      && (Tokens(chunk) > 0 || Tokens(chunk) >= target)
  {
    var scan, k := ChunkScan(rows, covered, frontier, before, target);
    var window := Window(rows, frontier, before);
    assert window[..k] == Between(rows, frontier, before)[..k];
    ChunkOfWindow(rows, covered, frontier, before, k, scan.selected);
    ReadIsEnough(scan.selected, window, k, covered);
  }

  lemma ReadIsEnough(chunk: seq<Row>, window: seq<Row>, k: nat, covered: set<int>)
    requires k <= |window| && LeadingToolFollowsCovered(chunk, window[..k], covered)
    ensures LeadingToolFollowsCovered(chunk, window, covered)
  {
    if chunk != [] && chunk[0].role == "tool" {
      var i, j :| 0 <= i < j < k && window[..k][i].storeId in covered && window[..k][j] == chunk[0];
      assert window[i].storeId in covered && window[j] == chunk[0];
    }
  }

  // ---------------------------------------------------------------- the chunk is the shortest

  ghost predicate Complete(selected: seq<Row>, target: nat) {
    Tokens(selected) >= target && forall c :: !Unanswered(selected, c)
  }

  ghost predicate NoneComplete(selected: seq<Row>, upTo: nat, target: nat)
    requires upTo <= |selected| + 1
  {
    forall m :: 0 < m < upTo ==> !Complete(selected[..m], target)
  }

  lemma NoneCompleteStep(was: seq<Row>, row: Row, target: nat)
    requires NoneComplete(was, |was| + 1, target)
    ensures NoneComplete(was + [row], |was| + 1, target)
    ensures !Complete(was + [row], target) ==> NoneComplete(was + [row], |was| + 2, target)
  {
    var now := was + [row];
    forall m | 0 < m < |was| + 1 ensures !Complete(now[..m], target) {
      assert now[..m] == was[..m];
    }
    assert now[..|now|] == now;
  }

  lemma ContinuingIsIncomplete(scan: Scan, read: seq<Row>, covered: set<int>, target: nat)
    requires Describes(scan, read, covered) && !(scan.tokens >= target && scan.pending == {})
    ensures !Complete(scan.selected, target)
  {
    if scan.pending != {} {
      var c :| c in scan.pending;
      assert Unanswered(scan.selected, c);
    }
  }

  /** While a scan continues, no prefix of its selection has reached the target with every call answered. */
  lemma {:induction false} ContinuingScan(rows: seq<Row>, n: nat, covered: set<int>, target: nat)
    requires n <= |rows| && !ScanTo(rows, n, covered, target).Refuse?
    ensures var verdict := ScanTo(rows, n, covered, target);
      NoneComplete(verdict.scan.selected, |verdict.scan.selected| + (if verdict.Continue? then 1 else 0), target)
  {
    if n > 0 {
      ContinuingScan(rows, n - 1, covered, target);
      var before, verdict := ScanTo(rows, n - 1, covered, target), ScanTo(rows, n, covered, target);
      if before.Continue? && rows[n - 1].storeId !in covered {
        NoneCompleteStep(before.scan.selected, rows[n - 1], target);
        if verdict.Continue? {
          ScanDescribes(rows, n, covered, target);
          ContinuingIsIncomplete(verdict.scan, rows[..ReadCount(rows, n, covered, target)], covered, target);
        }
      }
    }
  }

  /** No shorter selection would have done: each proper prefix misses the target or leaves a call open. */
  lemma ChunkIsShortest(rows: seq<Row>, covered: set<int>, frontier: int, before: int, target: nat)
    requires HiddenChunk(rows, covered, frontier, before, target).Some?
    ensures var chunk := HiddenChunk(rows, covered, frontier, before, target).value;
      NoneComplete(chunk, |chunk|, target)
  {
    var window := Window(rows, frontier, before);
    ContinuingScan(window, |window|, covered, target);
  }

  // ---------------------------------------------------------------- the paged loader

  function Least(a: nat, b: nat): nat {
    if a < b then a else b
  }

  /** `get_covered_message_ids` for one page. */
  function CoveredBetween(covered: set<int>, after: int, before: int): set<int> {
    set id | id in covered && after < id < before
  }

  lemma RowsAfterCursor(rows: seq<Row>, frontier: int, before: int, scanned: nat, after: int)
    requires Ascending(rows) && scanned <= |Window(rows, frontier, before)|
    requires after == if scanned == 0 then frontier else Window(rows, frontier, before)[scanned - 1].storeId
    ensures Between(rows, after, before) == Between(rows, frontier, before)[scanned..]
  {
    if scanned > 0 {
      assert Between(rows, frontier, before)[scanned - 1] == Window(rows, frontier, before)[scanned - 1];
      BetweenResumes(rows, frontier, before, scanned);
    }
  }

  function PageSize(scanned: nat): nat
    requires scanned <= MAX_ROWS
  {
    Least(PAGE_ROWS, MAX_ROWS - scanned)
  }

  lemma PageSlice(whole: seq<Row>, scanned: nat)
    requires scanned <= |whole| && scanned <= MAX_ROWS
    ensures var n := |Take(whole[scanned..], PageSize(scanned))|;
      && scanned + n <= |Take(whole, MAX_ROWS)|
      && Take(whole[scanned..], PageSize(scanned)) == Take(whole, MAX_ROWS)[scanned..scanned + n]
      && (n == 0 && scanned < MAX_ROWS ==> scanned == |whole|)
  {
    var rest, size := whole[scanned..], PageSize(scanned);
    if |rest| <= size {
      assert Take(whole, MAX_ROWS) == whole;
      assert whole[scanned..|whole|] == rest;
    } else {
      assert rest[..size] == whole[scanned..scanned + size];
      assert Take(whole, MAX_ROWS)[scanned..scanned + size] == whole[scanned..scanned + size];
    }
  }

  lemma PageIsWindowSlice(rows: seq<Row>, frontier: int, before: int, scanned: nat, after: int)
    requires Ascending(rows) && scanned <= |Window(rows, frontier, before)|
    requires after == if scanned == 0 then frontier else Window(rows, frontier, before)[scanned - 1].storeId
    ensures var page := Take(Between(rows, after, before), PageSize(scanned));
      && scanned + |page| <= |Window(rows, frontier, before)|
      && page == Window(rows, frontier, before)[scanned..scanned + |page|]
      && (page == [] && scanned < MAX_ROWS ==> scanned == |Window(rows, frontier, before)|)
  {
    RowsAfterCursor(rows, frontier, before, scanned, after);
    PageSlice(Between(rows, frontier, before), scanned);
  }

  /** The coverage fetched for a page is the coverage of its rows. */
  lemma PageCoverage(rows: seq<Row>, after: int, before: int, size: nat, covered: set<int>)
    requires Ascending(rows) && Take(Between(rows, after, before), size) != []
    ensures var page := Take(Between(rows, after, before), size);
      var pageCovered := CoveredBetween(covered, after, page[|page| - 1].storeId + 1);
      forall i :: 0 <= i < |page| ==> (page[i].storeId in pageCovered <==> page[i].storeId in covered)
  {
    BetweenHolds(rows, after, before);
  }

  lemma NextIsAbove(rows: seq<Row>, n: nat)
    requires Ascending(rows) && 0 < n < |rows|
    ensures rows[n - 1].storeId < rows[n].storeId
  {
  }

  /** A page that ends just below the bound is the last one. */
  lemma LastPage(rows: seq<Row>, frontier: int, before: int, n: nat)
    requires Ascending(rows) && 0 < n <= |Window(rows, frontier, before)|
    requires Window(rows, frontier, before)[n - 1].storeId >= before - 1
    ensures n == |Window(rows, frontier, before)|
  {
    var whole := Between(rows, frontier, before);
    BetweenHolds(rows, frontier, before);
    assert Window(rows, frontier, before)[n - 1] == whole[n - 1];
    if n < |whole| {
      NextIsAbove(whole, n);
    }
  }

  /** The inner loop: the rows of one page, with the coverage of that page. */
  method ScanPage(page: seq<Row>, pageCovered: set<int>, start: Scan, target: nat,
                  ghost window: seq<Row>, ghost n: nat, ghost covered: set<int>) returns (verdict: Verdict)
    requires n + |page| <= |window| && page == window[n..n + |page|]
    requires forall i :: 0 <= i < |page| ==> (page[i].storeId in pageCovered <==> page[i].storeId in covered)
    requires ScanTo(window, n, covered, target) == Continue(start)
    ensures verdict == ScanTo(window, n + |page|, covered, target)
  {
    var scan := start;
    var k := 0;
    while k < |page|
      invariant 0 <= k <= |page|
      invariant ScanTo(window, n + k, covered, target) == Continue(scan)
    {
      var row := page[k];
      assert row == window[n + k];
      verdict := ScanRow(scan, row, pageCovered, target, covered);
      k := k + 1;
      if !verdict.Continue? {
        StaysDecided(window, n + k, n + |page|, covered, target);
        return verdict;
      }
      scan := verdict.scan;
    }
    return Continue(scan);
  }

  /** The body of the inner loop. */
  method ScanRow(scan: Scan, row: Row, pageCovered: set<int>, target: nat, ghost covered: set<int>) returns (verdict: Verdict)
    requires row.storeId in pageCovered <==> row.storeId in covered
    ensures verdict == Feed(scan, row, covered, target)
  {
    if row.storeId in pageCovered {
      return Continue(scan.(seenCovered := true));
    }
    if row.role == "system" || (scan.selected == [] && row.role == "tool" && !scan.seenCovered) {
      return Refuse;
    }
    if row.missingSidecar {
      return Refuse;
    }
    var chars := scan.chars + row.chars;
    if chars > MAX_CHARS {
      return Refuse;
    }
    var selected := scan.selected + [row];
    var tokens := scan.tokens;
    if !row.ignored {
      tokens := tokens + row.tokens;
    }
    var pending := scan.pending;
    if row.role == "assistant" {
      for i := 0 to |row.calls|
        invariant pending == scan.pending + set c | c in row.calls[..i] && c != ""
      {
        if row.calls[i] != "" {
          pending := pending + {row.calls[i]};
        }
        assert row.calls[..i + 1] == row.calls[..i] + [row.calls[i]];
      }
      assert row.calls[..|row.calls|] == row.calls;
    } else if row.role == "tool" {
      pending := pending - {row.callId};
    }
    var next := Scan(selected, tokens, chars, pending, scan.seenCovered);
    return if tokens >= target && pending == {} then Finish(next) else Continue(next);
  }

  /** The paged loader selects what one pass over the whole interval would select. */
  method LoadHiddenStoreLeafChunk(rows: seq<Row>, covered: set<int>, frontier: int, before: int, target: nat)
    returns (chunk: Option<seq<Row>>)
    requires Ascending(rows)
    ensures chunk == HiddenChunk(rows, covered, frontier, before, target)
  {
    ghost var window := Window(rows, frontier, before);
    var scan := START;
    var after := frontier;
    var scanned := 0;
    while scanned < MAX_ROWS
      invariant scanned <= MAX_ROWS && scanned <= |window|
      invariant after == if scanned == 0 then frontier else window[scanned - 1].storeId
      invariant ScanTo(window, scanned, covered, target) == Continue(scan)
      invariant scanned == MAX_ROWS ==> scanned == |window|
      decreases MAX_ROWS - scanned
    {
      var page := Take(Between(rows, after, before), PageSize(scanned));
      PageIsWindowSlice(rows, frontier, before, scanned, after);
      if page == [] {
        break;
      }
      var pageCovered := CoveredBetween(covered, after, page[|page| - 1].storeId + 1);
      PageCoverage(rows, after, before, PageSize(scanned), covered);
      var verdict := ScanPage(page, pageCovered, scan, target, window, scanned, covered);
      scanned := scanned + |page|;
      if !verdict.Continue? {
        StaysDecided(window, scanned, |window|, covered, target);
        return Conclude(verdict);
      }
      scan := verdict.scan;
      after := page[|page| - 1].storeId;
      if after >= before - 1 {
        LastPage(rows, frontier, before, scanned);
        break;
      }
    }
    return Conclude(Continue(scan));
  }

  // ---------------------------------------------------------------- bounds and target

  function FirstAfter(rows: seq<Row>, lo: int): Option<Row> {
    if rows == [] then None else if rows[0].storeId > lo then Some(rows[0]) else FirstAfter(rows[1..], lo)
  }

  /** A leading system anchor stored right after the frontier is stepped over, not summarised. */
  function SelectionFrontier(rows: seq<Row>, frontier: int, anchor: Option<string>): int {
    var next := FirstAfter(rows, frontier);
    if anchor.Some? && next.Some? && next.value.role == "system" && next.value.content != ""
       && next.value.content <= anchor.value
    then next.value.storeId else frontier
  }

  function LowestAbove(ids: seq<int>, lo: int): Option<int> {
    if ids == [] then None
    else
      match LowestAbove(ids[1..], lo)
      case None => if ids[0] > lo then Some(ids[0]) else None
      case Some(id) => if lo < ids[0] < id then Some(ids[0]) else Some(id)
  }

  /** The exclusive bound of the hidden prefix: below the visible window and below the fresh tail. */
  function UpperBound(rows: seq<Row>, visible: seq<int>, freshTail: Option<int>, frontier: int): Option<int> {
    var lowest := LowestAbove(visible, frontier);
    if FirstAfter(rows, frontier).None? || lowest.None? || freshTail.None? then None
    else
      var before := if lowest.value < freshTail.value then lowest.value else freshTail.value;
      if before <= frontier || Between(rows, frontier, before) == [] then None else Some(before)
  }

  function Estimated(rows: seq<Row>): nat {
    if rows == [] then 0 else (if rows[0].estimate.Some? then rows[0].estimate.value else 0) + Estimated(rows[1..])
  }

  predicate SomeUnestimated(rows: seq<Row>) {
    exists i :: 0 <= i < |rows| && (rows[i].estimate.None? || rows[i].estimate.value == 0)
  }

  function Target(hidden: seq<Row>, threshold: nat -> nat, debt: bool): Option<nat> {
    var estimated := Estimated(hidden);
    if estimated < threshold(estimated) && !SomeUnestimated(hidden) && !debt then None
    else if debt && estimated > 0 then Some(Least(threshold(estimated), estimated))
    else Some(threshold(estimated))
  }

  /** `_load_hidden_store_leaf_chunk` with its bounds: the rows one leaf pass will summarise. */
  function HiddenLeaf(rows: seq<Row>, covered: set<int>, lifecycleFrontier: int, anchor: Option<string>,
                      visible: seq<int>, freshTail: Option<int>, threshold: nat -> nat, debt: bool): Option<seq<Row>>
  {
    var frontier := SelectionFrontier(rows, lifecycleFrontier, anchor);
    match UpperBound(rows, visible, freshTail, frontier)
    case None => None
    case Some(before) =>
      match Target(Between(rows, frontier, before), threshold, debt)
      case None => None
      case Some(target) => HiddenChunk(rows, covered, frontier, before, target)
  }

  lemma {:induction false} LowestAboveIsLowest(ids: seq<int>, lo: int)
    ensures LowestAbove(ids, lo).None? <==> forall i :: 0 <= i < |ids| ==> ids[i] <= lo
    ensures LowestAbove(ids, lo).Some? ==>
      LowestAbove(ids, lo).value > lo && forall i :: 0 <= i < |ids| && ids[i] > lo ==> LowestAbove(ids, lo).value <= ids[i]
  {
    if ids != [] {
      LowestAboveIsLowest(ids[1..], lo);
      assert forall i :: 0 < i < |ids| ==> ids[i] == ids[1..][i - 1];
    }
  }

  lemma {:induction false} FirstAfterIsFirst(rows: seq<Row>, lo: int)
    requires Ascending(rows) && FirstAfter(rows, lo).Some?
    ensures FirstAfter(rows, lo).value in rows && FirstAfter(rows, lo).value.storeId > lo
    ensures forall r :: r in rows && lo < r.storeId ==> FirstAfter(rows, lo).value.storeId <= r.storeId
    ensures forall r :: r in rows && r.storeId == FirstAfter(rows, lo).value.storeId ==> r == FirstAfter(rows, lo).value
  {
    if rows[0].storeId <= lo {
      FirstAfterIsFirst(rows[1..], lo);
    }
  }

  /** Nothing of the leaf is visible in the window, in the fresh tail, or behind the frontier. */
  lemma LeafStaysHidden(rows: seq<Row>, covered: set<int>, lifecycleFrontier: int, anchor: Option<string>,
                        visible: seq<int>, freshTail: Option<int>, threshold: nat -> nat, debt: bool, row: Row)
    requires Ascending(rows)
    requires var leaf := HiddenLeaf(rows, covered, lifecycleFrontier, anchor, visible, freshTail, threshold, debt);
      leaf.Some? && row in leaf.value
    ensures row in rows && row.storeId > lifecycleFrontier && row.storeId !in covered
    ensures row.storeId !in visible
    ensures freshTail.Some? && row.storeId < freshTail.value
  {
    var frontier := SelectionFrontier(rows, lifecycleFrontier, anchor);
    if frontier != lifecycleFrontier {
      FirstAfterIsFirst(rows, lifecycleFrontier);
    }
    LowestAboveIsLowest(visible, frontier);
    var before := UpperBound(rows, visible, freshTail, frontier).value;
    var target := Target(Between(rows, frontier, before), threshold, debt).value;
    ChunkIsGapFree(rows, covered, frontier, before, target);
    assert Inside(row, frontier, before);
  }

  /**
   Above the lifecycle frontier and up to the end of the leaf, every row is in the leaf, already
   summarised, or the one leading system anchor that the selection steps over.
   */
  lemma LeafIsGapFree(rows: seq<Row>, covered: set<int>, lifecycleFrontier: int, anchor: Option<string>,
                      visible: seq<int>, freshTail: Option<int>, threshold: nat -> nat, debt: bool, row: Row)
    requires Ascending(rows)
    requires HiddenLeaf(rows, covered, lifecycleFrontier, anchor, visible, freshTail, threshold, debt).Some?
    requires row in rows && lifecycleFrontier < row.storeId
    ensures var leaf := HiddenLeaf(rows, covered, lifecycleFrontier, anchor, visible, freshTail, threshold, debt).value;
      leaf != []
      && (row.storeId <= leaf[|leaf| - 1].storeId ==>
            || row in leaf || row.storeId in covered
            || (anchor.Some? && row.role == "system" && row.content != "" && row.content <= anchor.value
                && forall r :: r in rows && lifecycleFrontier < r.storeId ==> row.storeId <= r.storeId))
  {
    var frontier := SelectionFrontier(rows, lifecycleFrontier, anchor);
    var before := UpperBound(rows, visible, freshTail, frontier).value;
    var target := Target(Between(rows, frontier, before), threshold, debt).value;
    ChunkIsGapFree(rows, covered, frontier, before, target);
    if frontier != lifecycleFrontier {
      FirstAfterIsFirst(rows, lifecycleFrontier);
    }
  }
}
