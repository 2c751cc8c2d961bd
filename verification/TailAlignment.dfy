/** Backward alignment of the active window against the newest durable rows of its session. */
module TailAlignment {

  const MAX_ACTIVE_MESSAGES: nat := 5000
  const MAX_TAIL_ROWS: nat := 16384
  const MIN_TAIL_ROWS: nat := 128

  /** A message's replay identity without its shape tag, and the identity it has after active cleanup. */
  datatype Identity = Identity(exact: string, cleanup: Cleaned)

  datatype Cleaned = Cleaned(identity: string) | Dropped

  datatype StoredRow = StoredRow(storeId: int, identity: Identity)

  predicate Matches(active: Identity, stored: Identity) {
    stored.exact == active.exact || (active.cleanup.Cleaned? && stored.cleanup == active.cleanup)
  }

  predicate Ascending(rows: seq<StoredRow>) {
    forall i, j :: 0 <= i < j < |rows| ==> rows[i].storeId < rows[j].storeId
  }

  function TailSize(active: nat): nat {
    var wanted := if active * 3 > MIN_TAIL_ROWS then active * 3 else MIN_TAIL_ROWS;
    if wanted < MAX_TAIL_ROWS then wanted else MAX_TAIL_ROWS
  }

  /** `get_session_tail`: the newest rows of the session, in store order. */
  function SessionTail(rows: seq<StoredRow>, size: nat): seq<StoredRow> {
    if |rows| <= size then rows else rows[|rows| - size..]
  }

  /** Identities match when they are equal, or when cleanup leaves both with the same text. */
  lemma MatchesIff(active: Identity, stored: Identity)
    ensures Matches(active, stored) <==>
      stored.exact == active.exact || exists text :: active.cleanup == Cleaned(text) && stored.cleanup == Cleaned(text)
  {
    if Matches(active, stored) && stored.exact != active.exact {
      assert active.cleanup == Cleaned(active.cleanup.identity);
    }
  }

  /** For every window the alignment accepts, the tail has room for three rows a message and at least 128. */
  lemma TailCoversWindow(active: nat)
    ensures 128 <= TailSize(active) <= 16384
    ensures active <= 5000 ==> TailSize(active) >= 3 * active
    ensures TailSize(active) <= 3 * active || TailSize(active) == 128
  {
  }

  /** The tail is the newest rows: as many as asked for, and every row left out is older than all of them. */
  lemma TailIsNewest(rows: seq<StoredRow>, size: nat)
    requires Ascending(rows)
    ensures var tail := SessionTail(rows, size);
      && |tail| == (if |rows| < size then |rows| else size) && tail == rows[|rows| - |tail|..]
      && (forall r, t :: r in rows && r !in tail && t in tail ==> r.storeId < t.storeId)
  {
    var tail := SessionTail(rows, size);
    forall k | |rows| - |tail| <= k < |rows| ensures rows[k] in tail {
      assert rows[k] == tail[k - (|rows| - |tail|)];
    }
    forall r, t | r in rows && r !in tail && t in tail ensures r.storeId < t.storeId {
      var i :| 0 <= i < |rows| && rows[i] == r;
      var j :| 0 <= j < |tail| && tail[j] == t;
      assert rows[|rows| - |tail| + j] == t;
    }
  }

  // ---------------------------------------------------------------- what an alignment is

  /** Position -1 stands for a message left unmatched. */
  type Alignment = seq<int>

  ghost predicate IsMatch(active: seq<Identity>, tail: seq<StoredRow>, i: nat, p: int)
    requires i < |active|
  {
    0 <= p < |tail| && Matches(active[i], tail[p].identity)
  }

  /** Every message has a row of its own, in the order of the messages. */
  ghost predicate Embedding(active: seq<Identity>, tail: seq<StoredRow>, at: Alignment) {
    && |at| == |active|
    && (forall i :: 0 <= i < |at| ==> IsMatch(active, tail, i, at[i]))
    && (forall i, j :: 0 <= i < j < |at| ==> at[i] < at[j])
  }

  /** The matched messages have rows of their own, in the order of the messages. */
  ghost predicate OrderPreserving(active: seq<Identity>, tail: seq<StoredRow>, at: Alignment) {
    && |at| == |active|
    && (forall i :: 0 <= i < |at| ==> at[i] == -1 || IsMatch(active, tail, i, at[i]))
    && (forall i, j :: 0 <= i < j < |at| && at[i] >= 0 && at[j] >= 0 ==> at[i] < at[j])
  }

  /** Where the search for message `i` starts: below every match of a later message. */
  function Cursor(at: Alignment, i: nat, bound: nat): int
    requires i <= |at|
    decreases |at| - i
  {
    if i == |at| then bound else if at[i] >= 0 then at[i] else Cursor(at, i + 1, bound)
  }

  /** Each message takes the newest matching row below its cursor, and stays unmatched only without one. */
  ghost predicate TakesNewest(active: seq<Identity>, tail: seq<StoredRow>, at: Alignment, bound: nat)
    requires |at| == |active|
  {
    forall i, p :: 0 <= i < |at| && at[i] < p < Cursor(at, i + 1, bound) ==> !IsMatch(active, tail, i, p)
  }

  // ---------------------------------------------------------------- the backward greedy alignment

  function LastMatch(wanted: Identity, tail: seq<StoredRow>, bound: nat): (p: int)
    requires bound <= |tail|
    ensures -1 <= p < bound
    ensures p >= 0 ==> Matches(wanted, tail[p].identity)
    ensures forall q :: p < q < bound ==> !Matches(wanted, tail[q].identity)
  {
    if bound == 0 then -1
    else if Matches(wanted, tail[bound - 1].identity) then bound - 1
    else LastMatch(wanted, tail, bound - 1)
  }

  function Align(active: seq<Identity>, tail: seq<StoredRow>, bound: nat): (at: Alignment)
    requires bound <= |tail|
    ensures |at| == |active|
  {
    if active == [] then []
    else
      var last := |active| - 1;
      var p := LastMatch(active[last], tail, bound);
      Align(active[..last], tail, if p < 0 then bound else p) + [p]
  }

  /** The store ids of the matched messages, newest first. */
  function MatchedIds(at: Alignment, tail: seq<StoredRow>): seq<int> {
    if at == [] then []
    else
      var last := at[|at| - 1];
      (if 0 <= last < |tail| then [tail[last].storeId] else []) + MatchedIds(at[..|at| - 1], tail)
  }

  lemma {:induction false} AlignIsOrderPreserving(active: seq<Identity>, tail: seq<StoredRow>, bound: nat)
    requires bound <= |tail|
    ensures OrderPreserving(active, tail, Align(active, tail, bound))
    ensures forall i :: 0 <= i < |active| ==> -1 <= Align(active, tail, bound)[i] < bound
  {
    if active != [] {
      var last := |active| - 1;
      var p := LastMatch(active[last], tail, bound);
      var rest := if p < 0 then bound else p;
      var before := Align(active[..last], tail, rest);
      AlignIsOrderPreserving(active[..last], tail, rest);
      forall i | 0 <= i <= last ensures (before + [p])[i] == -1 || IsMatch(active, tail, i, (before + [p])[i]) {
        assert i < last ==> before[i] == -1 || IsMatch(active[..last], tail, i, before[i]);
      }
    }
  }

  lemma {:induction false} CursorExtends(at: Alignment, p: int, i: nat, bound: nat)
    requires i <= |at|
    ensures Cursor(at + [p], i, bound) == Cursor(at, i, if p < 0 then bound else p)
    decreases |at| - i
  {
    if i < |at| {
      CursorExtends(at, p, i + 1, bound);
    } else {
      assert p < 0 ==> Cursor(at + [p], i + 1, bound) == bound;
    }
  }

  lemma {:induction false} AlignTakesNewest(active: seq<Identity>, tail: seq<StoredRow>, bound: nat)
    requires bound <= |tail|
    ensures TakesNewest(active, tail, Align(active, tail, bound), bound)
  {
    if active != [] {
      var last := |active| - 1;
      var p := LastMatch(active[last], tail, bound);
      var rest := if p < 0 then bound else p;
      var before := Align(active[..last], tail, rest);
      AlignTakesNewest(active[..last], tail, rest);
      forall i, q | 0 <= i <= last && (before + [p])[i] < q < Cursor(before + [p], i + 1, bound)
        ensures !IsMatch(active, tail, i, q)
      {
        if i < last {
          CursorExtends(before, p, i + 1, bound);
          assert !IsMatch(active[..last], tail, i, q);
        } else {
          assert Cursor(before + [p], last + 1, bound) == bound;
        }
      }
    }
  }

  /**
   Whenever the window embeds in order at all, every message is matched, and at the latest row it
   can have in any embedding.
   */
  lemma {:induction false} AlignIsLatest(active: seq<Identity>, tail: seq<StoredRow>, bound: nat, other: Alignment)
    requires bound <= |tail| && Embedding(active, tail, other)
    requires forall i :: 0 <= i < |other| ==> other[i] < bound
    ensures forall i :: 0 <= i < |active| ==> other[i] <= Align(active, tail, bound)[i]
  {
    if active != [] {
      var last := |active| - 1;
      var p := LastMatch(active[last], tail, bound);
      assert IsMatch(active, tail, last, other[last]) && other[last] <= p;
      forall i | 0 <= i < last ensures IsMatch(active[..last], tail, i, other[..last][i]) {
        assert IsMatch(active, tail, i, other[i]);
      }
      AlignIsLatest(active[..last], tail, p, other[..last]);
      forall i | 0 <= i < |active| ensures other[i] <= Align(active, tail, bound)[i] {
        if i < last {
          assert Align(active, tail, bound)[i] == Align(active[..last], tail, p)[i];
          assert other[..last][i] == other[i];
        }
      }
    }
  }

  /** The window embeds exactly when the backward alignment leaves no message unmatched. */
  lemma EmbedsIffAllMatched(active: seq<Identity>, tail: seq<StoredRow>)
    ensures (exists other :: Embedding(active, tail, other)) <==>
      forall i :: 0 <= i < |active| ==> Align(active, tail, |tail|)[i] >= 0
  {
    var at := Align(active, tail, |tail|);
    AlignIsOrderPreserving(active, tail, |tail|);
    if other :| Embedding(active, tail, other) {
      assert forall i :: 0 <= i < |other| ==> IsMatch(active, tail, i, other[i]);
      AlignIsLatest(active, tail, |tail|, other);
    }
    if forall i :: 0 <= i < |active| ==> at[i] >= 0 {
      assert Embedding(active, tail, at);
    }
  }

  lemma SuffixStep(active: seq<Identity>, i: nat)
    requires i < |active|
    ensures active[i..][..|active| - 1 - i] == active[..|active| - 1][i..]
    ensures active[i..][|active| - 1 - i] == active[|active| - 1]
  {
  }

  /** What a suffix of the window is matched to does not depend on the messages before it. */
  lemma {:induction false} SuffixAlignsAlone(active: seq<Identity>, tail: seq<StoredRow>, bound: nat, i: nat)
    requires bound <= |tail| && i <= |active|
    ensures forall j :: i <= j < |active| ==> Align(active, tail, bound)[j] == Align(active[i..], tail, bound)[j - i]
  {
    if i < |active| {
      var last := |active| - 1;
      var p := LastMatch(active[last], tail, bound);
      var rest := if p < 0 then bound else p;
      SuffixStep(active, i);
      SuffixAlignsAlone(active[..last], tail, rest, i);
      assert forall j :: i <= j < last ==> Align(active, tail, bound)[j] == Align(active[..last], tail, rest)[j];
    }
  }

  /** The id is that of a row some message was matched to. */
  predicate Names(at: Alignment, tail: seq<StoredRow>, id: int) {
    exists i :: 0 <= i < |at| && 0 <= at[i] < |tail| && tail[at[i]].storeId == id
  }

  lemma {:induction false} MatchedIdsDescend(active: seq<Identity>, tail: seq<StoredRow>, at: Alignment)
    requires Ascending(tail) && OrderPreserving(active, tail, at)
    requires forall i :: 0 <= i < |at| ==> at[i] < |tail|
    ensures forall k :: 0 <= k < |MatchedIds(at, tail)| ==> Names(at, tail, MatchedIds(at, tail)[k])
    ensures forall k, l :: 0 <= k < l < |MatchedIds(at, tail)| ==> MatchedIds(at, tail)[k] > MatchedIds(at, tail)[l]
  {
    if at != [] {
      var last := |at| - 1;
      var before := MatchedIds(at[..last], tail);
      forall i | 0 <= i < last && at[i] >= 0 ensures IsMatch(active[..last], tail, i, at[..last][i]) {
        assert IsMatch(active, tail, i, at[i]);
      }
      MatchedIdsDescend(active[..last], tail, at[..last]);
      forall k | 0 <= k < |before|
        ensures Names(at, tail, before[k])
        ensures at[last] >= 0 ==> before[k] < tail[at[last]].storeId
      {
        var i :| 0 <= i < last && at[..last][i] >= 0 && before[k] == tail[at[..last][i]].storeId;
        assert at[i] == at[..last][i];
      }
      if at[last] >= 0 {
        assert Names(at, tail, tail[at[last]].storeId);
      }
    }
  }

  // ---------------------------------------------------------------- the method

  function VisibleIds(active: seq<Identity>, rows: seq<StoredRow>): seq<int> {
    var tail := SessionTail(rows, TailSize(|active|));
    if active == [] || |active| > MAX_ACTIVE_MESSAGES || tail == [] then []
    else
      var at := Align(active, tail, |tail|);
      if at[|active| - 1] < 0 then [] else MatchedIds(at, tail)
  }

  lemma NamesStep(front: Alignment, p: int, tail: seq<StoredRow>, id: int)
    ensures Names(front + [p], tail, id) <==> Names(front, tail, id) || (0 <= p < |tail| && tail[p].storeId == id)
  {
    var at := front + [p];
    if i :| 0 <= i < |front| && 0 <= front[i] < |tail| && tail[front[i]].storeId == id {
      assert at[i] == front[i];
    }
    if 0 <= p < |tail| && tail[p].storeId == id {
      assert at[|front|] == p;
    }
  }

  lemma {:induction false} MatchedIdsIff(at: Alignment, tail: seq<StoredRow>, id: int)
    ensures id in MatchedIds(at, tail) <==> Names(at, tail, id)
  {
    if at != [] {
      var front, last := at[..|at| - 1], at[|at| - 1];
      MatchedIdsIff(front, tail, id);
      NamesStep(front, last, tail, id);
      assert front + [last] == at;
    }
  }

  lemma LastMatchIff(wanted: Identity, tail: seq<StoredRow>)
    ensures LastMatch(wanted, tail, |tail|) >= 0 <==> exists row :: row in tail && Matches(wanted, row.identity)
  {
    var p := LastMatch(wanted, tail, |tail|);
    if p >= 0 {
      assert tail[p] in tail;
    }
  }

  lemma NewestMatched(active: seq<Identity>, tail: seq<StoredRow>)
    requires active != []
    ensures var at := Align(active, tail, |tail|);
      at[|active| - 1] == LastMatch(active[|active| - 1], tail, |tail|) && (at[|active| - 1] >= 0 ==> MatchedIds(at, tail) != [])
  {
  }

  /**
   The window is answered for exactly when it has 1 to 5000 messages and its newest one matches some
   row of the tail; then the answer holds the ids of the rows its messages are aligned to, and no other.
   */
  lemma VisibleOutcome(active: seq<Identity>, rows: seq<StoredRow>, id: int)
    ensures var tail := SessionTail(rows, TailSize(|active|));
      && (VisibleIds(active, rows) != [] <==>
            1 <= |active| <= 5000 && exists row :: row in tail && Matches(active[|active| - 1], row.identity))
      && (VisibleIds(active, rows) != [] ==>
            var at := Align(active, tail, |tail|);
            && (forall i :: 0 <= i < |at| ==> at[i] < |tail|)
            && (id in VisibleIds(active, rows) <==> exists i :: 0 <= i < |at| && at[i] >= 0 && tail[at[i]].storeId == id))
  {
    if active != [] {
      var tail := SessionTail(rows, TailSize(|active|));
      NewestMatched(active, tail);
      LastMatchIff(active[|active| - 1], tail);
      MatchedIdsIff(Align(active, tail, |tail|), tail, id);
      AlignIsOrderPreserving(active, tail, |tail|);
    }
  }

  /** The inner search, from the cursor down. */
  method FindMatch(message: Identity, tail: seq<StoredRow>, cursor: int) returns (matchIndex: int)
    requires -1 <= cursor < |tail|
    ensures matchIndex == LastMatch(message, tail, cursor + 1)
  {
    matchIndex := cursor;
    while matchIndex >= 0
      invariant -1 <= matchIndex <= cursor
      invariant LastMatch(message, tail, matchIndex + 1) == LastMatch(message, tail, cursor + 1)
      decreases matchIndex
    {
      if Matches(message, tail[matchIndex].identity) {
        break;
      }
      matchIndex := matchIndex - 1;
    }
  }

  /** The ids still to come once the last `offset` messages have been handled. */
  ghost function Pending(active: seq<Identity>, tail: seq<StoredRow>, offset: nat, cursor: int): seq<int>
    requires offset <= |active| && -1 <= cursor < |tail|
  {
    MatchedIds(Align(active[..|active| - offset], tail, cursor + 1), tail)
  }

  lemma PendingStep(active: seq<Identity>, tail: seq<StoredRow>, offset: nat, cursor: int)
    requires offset < |active| && -1 <= cursor < |tail|
    ensures var p := LastMatch(active[|active| - 1 - offset], tail, cursor + 1);
      Pending(active, tail, offset, cursor)
      == if p < 0 then Pending(active, tail, offset + 1, cursor)
         else [tail[p].storeId] + Pending(active, tail, offset + 1, p - 1)
  {
    var rest := active[..|active| - offset];
    assert rest[..|rest| - 1] == active[..|active| - offset - 1];
    UnrollIds(rest, tail, cursor + 1, LastMatch(active[|active| - 1 - offset], tail, cursor + 1));
  }

  /** What has been collected, followed by what is still to come, is the whole answer. */
  ghost predicate Collected(active: seq<Identity>, tail: seq<StoredRow>, offset: nat, cursor: int, matched: seq<int>) {
    && offset <= |active| && -1 <= cursor < |tail|
    && MatchedIds(Align(active, tail, |tail|), tail) == matched + Pending(active, tail, offset, cursor)
  }

  lemma NothingCollected(active: seq<Identity>, tail: seq<StoredRow>)
    ensures Collected(active, tail, 0, |tail| - 1, [])
  {
    assert active[..|active| - 0] == active;
  }

  lemma AllCollected(active: seq<Identity>, tail: seq<StoredRow>, cursor: int, matched: seq<int>)
    requires Collected(active, tail, |active|, cursor, matched)
    ensures matched == MatchedIds(Align(active, tail, |tail|), tail)
  {
    assert Pending(active, tail, |active|, cursor) == [];
  }

  lemma CollectOne(active: seq<Identity>, tail: seq<StoredRow>, offset: nat, cursor: int, matched: seq<int>)
    requires offset < |active| && Collected(active, tail, offset, cursor, matched)
    ensures var p := LastMatch(active[|active| - 1 - offset], tail, cursor + 1);
      if p < 0 then Collected(active, tail, offset + 1, cursor, matched)
      else Collected(active, tail, offset + 1, p - 1, matched + [tail[p].storeId])
  {
    PendingStep(active, tail, offset, cursor);
    var p := LastMatch(active[|active| - 1 - offset], tail, cursor + 1);
    if p >= 0 {
      SplitOne(matched, tail[p].storeId, Pending(active, tail, offset + 1, p - 1));
    }
  }

  lemma SplitOne(front: seq<int>, id: int, back: seq<int>)
    ensures front + ([id] + back) == front + [id] + back
  {
  }

  /** The loop over the reversed window. */
  method CollectMatches(active: seq<Identity>, tail: seq<StoredRow>) returns (matched: seq<int>)
    requires active != [] && tail != []
    ensures matched == if LastMatch(active[|active| - 1], tail, |tail|) < 0 then []
                       else MatchedIds(Align(active, tail, |tail|), tail)
  {
    var cursor := |tail| - 1;
    matched := [];
    NothingCollected(active, tail);
    var offset := 0;
    while offset < |active|
      invariant 0 <= offset <= |active| && -1 <= cursor < |tail|
      invariant if offset == 0 then cursor == |tail| - 1 else LastMatch(active[|active| - 1], tail, |tail|) >= 0
      invariant Collected(active, tail, offset, cursor, matched)
    {
      var matchIndex := FindMatch(active[|active| - 1 - offset], tail, cursor);
      CollectOne(active, tail, offset, cursor, matched);
      if matchIndex < 0 {
        if offset == 0 {
          return [];
        }
      } else {
        matched := matched + [tail[matchIndex].storeId];
        cursor := matchIndex - 1;
      }
      offset := offset + 1;
    }
    AllCollected(active, tail, cursor, matched);
  }

  method VisibleStoreIdsFromTail(active: seq<Identity>, rows: seq<StoredRow>) returns (matched: seq<int>)
    ensures matched == VisibleIds(active, rows)
  {
    if active == [] || |active| > MAX_ACTIVE_MESSAGES {
      return [];
    }
    var tail := SessionTail(rows, TailSize(|active|));
    if tail == [] {
      return [];
    }
    matched := CollectMatches(active, tail);
  }

  /** The visible ids of an ascending session strictly descend. */
  lemma IdsDescend(active: seq<Identity>, rows: seq<StoredRow>)
    ensures var ids := VisibleIds(active, rows);
      Ascending(rows) ==> forall k, l :: 0 <= k < l < |ids| ==> ids[k] > ids[l]
  {
    var tail := SessionTail(rows, TailSize(|active|));
    if Ascending(rows) {
      AlignIsOrderPreserving(active, tail, |tail|);
      MatchedIdsDescend(active, tail, Align(active, tail, |tail|));
    }
  }

  lemma UnrollIds(active: seq<Identity>, tail: seq<StoredRow>, bound: nat, p: int)
    requires active != [] && bound <= |tail| && p == LastMatch(active[|active| - 1], tail, bound)
    ensures MatchedIds(Align(active, tail, bound), tail)
      == (if p >= 0 then [tail[p].storeId] else [])
         + MatchedIds(Align(active[..|active| - 1], tail, if p < 0 then bound else p), tail)
  {
    var before := Align(active[..|active| - 1], tail, if p < 0 then bound else p);
    assert Align(active, tail, bound)[..|active| - 1] == before;
  }
}
