/**
 Full-text search over summary nodes: pages of rows in SQL order, a directness bonus added after
 fetching, and a score bound that stops the paging early. Scores and times are reals and the clock
 is fixed for one search.
 */
module DagSearch {

  datatype Sort = Recency | Relevance | Hybrid

  /** A matching row: its raw rank (smaller is better), its recency and the directness of its text. */
  datatype Hit = Hit(id: int, rank: real, recency: real, directness: real)

  /** `precise` queries get the directness bonus, whose score never exceeds `bound`. */
  datatype Query = Query(sort: Sort, precise: bool, now: real, bound: real)

  const BONUS: real := 0.0000002
  const AGE_DECAY_RATE: real := 0.001

  function Max(x: int, y: int): int {
    if x > y then x else y
  }

  function Min(x: int, y: int): int {
    if x < y then x else y
  }

  // ---------------------------------------------------------------- keys

  function Adjusted(q: Query, h: Hit): real {
    if q.precise then h.rank - (if h.directness > 0.0 then h.directness else 0.0) * BONUS else h.rank
  }

  function Decay(q: Query, h: Hit): (d: real)
    ensures d >= 1.0
  {
    var hours := (q.now - h.recency) / 3600.0;
    1.0 + (if hours > 0.0 then hours else 0.0) * AGE_DECAY_RATE
  }

  function Primary(q: Query, h: Hit): real {
    if q.sort == Hybrid then -((-Adjusted(q, h)) / Decay(q, h)) else Adjusted(q, h)
  }

  datatype Key = Key(first: real, second: real, third: real)

  function SortKey(q: Query, h: Hit): Key {
    match q.sort
    case Relevance => Key(Adjusted(q, h), -h.directness, -h.recency)
    case Hybrid => Key(Primary(q, h), -h.directness, -h.recency)
    case Recency => Key(-h.recency, Adjusted(q, h), 0.0)
  }

  predicate Before(a: Key, b: Key) {
    || a.first < b.first
    || (a.first == b.first && a.second < b.second)
    || (a.first == b.first && a.second == b.second && a.third < b.third)
  }

  predicate Precedes(q: Query, a: Hit, b: Hit) {
    Before(SortKey(q, a), SortKey(q, b))
  }

  /** What ORDER BY promises about a row and any later row. */
  predicate SqlOrdered(q: Query, a: Hit, b: Hit) {
    match q.sort
    case Relevance => a.rank < b.rank || (a.rank == b.rank && a.recency >= b.recency)
    case Hybrid =>
      || a.rank / Decay(q, a) < b.rank / Decay(q, b)
      || (a.rank / Decay(q, a) == b.rank / Decay(q, b) && a.recency >= b.recency)
    case Recency => a.recency >= b.recency
  }

  ghost predicate QueryRows(q: Query, rows: seq<Hit>) {
    && (forall i, j :: 0 <= i < j < |rows| ==> SqlOrdered(q, rows[i], rows[j]))
    && (forall i :: 0 <= i < |rows| ==> rows[i].directness <= q.bound)
    && q.bound >= 0.0
  }

  // ---------------------------------------------------------------- stable sorting and the top of a list

  function Insert(q: Query, s: seq<Hit>, h: Hit): (r: seq<Hit>)
    ensures |r| == |s| + 1
  {
    if s == [] || !Precedes(q, h, s[|s| - 1]) then s + [h]
    else Insert(q, s[..|s| - 1], h) + [s[|s| - 1]]
  }

  /** Python's stable `list.sort` with the search key. */
  function Sorted(q: Query, hits: seq<Hit>): (r: seq<Hit>)
    ensures |r| == |hits|
  {
    if hits == [] then [] else Insert(q, Sorted(q, hits[..|hits| - 1]), hits[|hits| - 1])
  }

  function Take<T>(s: seq<T>, n: nat): seq<T> {
    if |s| <= n then s else s[..n]
  }

  function Top(q: Query, hits: seq<Hit>, limit: nat): seq<Hit> {
    Take(Sorted(q, hits), limit)
  }

  ghost predicate InOrder(q: Query, s: seq<Hit>) {
    forall i, j :: 0 <= i < j < |s| ==> !Precedes(q, s[j], s[i])
  }

  lemma {:induction false} InsertMultiset(q: Query, s: seq<Hit>, h: Hit)
    ensures multiset(Insert(q, s, h)) == multiset(s) + multiset{h}
  {
    if s != [] && Precedes(q, h, s[|s| - 1]) {
      InsertMultiset(q, s[..|s| - 1], h);
      assert s == s[..|s| - 1] + [s[|s| - 1]];
    }
  }

  lemma {:induction false} InsertKeepsOrder(q: Query, s: seq<Hit>, h: Hit)
    requires InOrder(q, s)
    ensures InOrder(q, Insert(q, s, h))
  {
    if s != [] && Precedes(q, h, s[|s| - 1]) {
      var front, last := s[..|s| - 1], s[|s| - 1];
      var r := Insert(q, front, h);
      InsertKeepsOrder(q, front, h);
      InsertMultiset(q, front, h);
      forall i | 0 <= i < |r| ensures !Precedes(q, last, r[i]) {
        assert r[i] in multiset(r);
      }
    }
  }

  lemma {:induction false} SortedOrder(q: Query, hits: seq<Hit>)
    ensures InOrder(q, Sorted(q, hits))
    ensures multiset(Sorted(q, hits)) == multiset(hits)
  {
    if hits != [] {
      SortedOrder(q, hits[..|hits| - 1]);
      InsertKeepsOrder(q, Sorted(q, hits[..|hits| - 1]), hits[|hits| - 1]);
      InsertMultiset(q, Sorted(q, hits[..|hits| - 1]), hits[|hits| - 1]);
      assert hits == hits[..|hits| - 1] + [hits[|hits| - 1]];
    }
  }

  /** Sorting the sorted results together with a new page sorts everything read so far. */
  lemma {:induction false} SortedAppend(q: Query, read: seq<Hit>, page: seq<Hit>)
    ensures Sorted(q, Sorted(q, read) + page) == Sorted(q, read + page)
    decreases |page|
  {
    var s := Sorted(q, read);
    if page == [] {
      SortedOrder(q, read);
      SortingSortedIsNoop(q, s);
      assert s + page == s && read + page == read;
    } else {
      var front, last := page[..|page| - 1], page[|page| - 1];
      SortedAppend(q, read, front);
      SortedSnoc(q, s, front, page, last);
      SortedSnoc(q, read, front, page, last);
    }
  }

  lemma SortedSnoc(q: Query, a: seq<Hit>, front: seq<Hit>, page: seq<Hit>, last: Hit)
    requires page == front + [last]
    ensures Sorted(q, a + page) == Insert(q, Sorted(q, a + front), last)
  {
    assert (a + page)[..|a + page| - 1] == a + front;
  }

  lemma {:induction false} SortingSortedIsNoop(q: Query, s: seq<Hit>)
    requires InOrder(q, s)
    ensures Sorted(q, s) == s
  {
    if s != [] {
      SortingSortedIsNoop(q, s[..|s| - 1]);
      assert s == s[..|s| - 1] + [s[|s| - 1]];
    }
  }

  lemma {:induction false} InsertLeavesTop(q: Query, s: seq<Hit>, h: Hit, limit: nat)
    requires 1 <= limit <= |s| && InOrder(q, s) && !Precedes(q, h, s[limit - 1])
    ensures Insert(q, s, h)[..limit] == s[..limit]
  {
    if Precedes(q, h, s[|s| - 1]) {
      InsertLeavesTop(q, s[..|s| - 1], h, limit);
      assert s[..|s| - 1][..limit] == s[..limit];
    }
  }

  lemma {:induction false} UnreadLeavesTop(q: Query, read: seq<Hit>, unread: seq<Hit>, limit: nat)
    requires 1 <= limit <= |read|
    requires forall k :: 0 <= k < |unread| ==> !Precedes(q, unread[k], Sorted(q, read)[limit - 1])
    ensures Sorted(q, read + unread)[..limit] == Sorted(q, read)[..limit]
    decreases |unread|
  {
    if unread == [] {
      assert read + unread == read;
    } else {
      var front, last := unread[..|unread| - 1], unread[|unread| - 1];
      UnreadLeavesTop(q, read, front, limit);
      var s := Sorted(q, read + front);
      SortedSnoc(q, read, front, unread, last);
      SortedOrder(q, read + front);
      SamePlace(s, Sorted(q, read), limit);
      InsertLeavesTop(q, s, last, limit);
    }
  }

  lemma SamePlace<T>(s: seq<T>, t: seq<T>, n: nat)
    requires n <= |s| && n <= |t| && s[..n] == t[..n]
    ensures forall k :: 0 <= k < n ==> s[k] == t[k]
  {
    forall k | 0 <= k < n ensures s[k] == t[k] {
      assert s[..n][k] == t[..n][k];
    }
  }

  lemma SortedFromHits(q: Query, hits: seq<Hit>, k: nat)
    requires k < |hits|
    ensures Sorted(q, hits)[k] in hits
  {
    SortedOrder(q, hits);
    assert Sorted(q, hits)[k] in multiset(Sorted(q, hits));
  }

  /** Stopping after `read` gives the true top exactly when no unread row precedes the last visible one. */
  lemma StopIsExactIff(q: Query, read: seq<Hit>, unread: seq<Hit>, limit: nat)
    requires 1 <= limit <= |read|
    requires forall k :: 0 <= k < |unread| ==> unread[k] !in read
    ensures Top(q, read, limit) == Top(q, read + unread, limit) <==>
      forall k :: 0 <= k < |unread| ==> !Precedes(q, unread[k], Sorted(q, read)[limit - 1])
  {
    var all := Sorted(q, read + unread);
    if Top(q, read, limit) == Top(q, read + unread, limit) {
      SamePlace(all, Sorted(q, read), limit);
      SortedOrder(q, read + unread);
      forall k | 0 <= k < |unread| ensures !Precedes(q, unread[k], Sorted(q, read)[limit - 1]) {
        assert (read + unread)[|read| + k] in multiset(all);
        var j :| 0 <= j < |all| && all[j] == unread[k];
        forall i | 0 <= i < limit ensures all[i] in read {
          SortedFromHits(q, read, i);
        }
        assert j >= limit;
      }
    } else if forall k :: 0 <= k < |unread| ==> !Precedes(q, unread[k], Sorted(q, read)[limit - 1]) {
      UnreadLeavesTop(q, read, unread, limit);
    }
  }

  // ---------------------------------------------------------------- the score bound

  lemma BonusBound(q: Query, h: Hit)
    requires h.directness <= q.bound && q.bound >= 0.0
    ensures h.rank - q.bound * BONUS <= Adjusted(q, h) <= h.rank
  {
  }

  lemma QuotientBound(x: real, y: real, d: real)
    requires d >= 1.0 && y >= 0.0
    ensures (x - y) / d >= x / d - y
    ensures (x - y) / d <= x / d
  {
    assert (x - y) / d == x / d - y / d;
    assert y <= y * d;
    assert y / d <= (y * d) / d == y;
  }

  /** The bonus moves a primary value down by at most the bound, for relevance and hybrid order alike. */
  lemma PrimaryBound(q: Query, h: Hit)
    requires q.sort != Recency && h.directness <= q.bound && q.bound >= 0.0
    ensures var raw := if q.sort == Hybrid then h.rank / Decay(q, h) else h.rank;
      raw - q.bound * BONUS <= Primary(q, h) <= raw
  {
    BonusBound(q, h);
    if q.sort == Hybrid {
      var y := h.rank - Adjusted(q, h);
      QuotientBound(h.rank, y, Decay(q, h));
      assert -((-Adjusted(q, h)) / Decay(q, h)) == Adjusted(q, h) / Decay(q, h);
    }
  }

  /**
   The stopping test is sound: when the last fetched value minus the greatest bonus is above the
   worst visible value, no later row precedes the worst visible row.
   */
  lemma BoundTestIsSound(q: Query, rows: seq<Hit>, last: nat, visible: Hit, u: nat)
    requires QueryRows(q, rows) && q.sort != Recency && last < u < |rows|
    requires Primary(q, rows[last]) - q.bound * BONUS > Primary(q, visible)
    ensures !Precedes(q, rows[u], visible)
  {
    PrimaryBound(q, rows[last]);
    PrimaryBound(q, rows[u]);
    assert SqlOrdered(q, rows[last], rows[u]);
  }

  // ---------------------------------------------------------------- the search loop

  function FetchLimit(limit: int, precise: bool): int {
    var base := Max(limit * 5, Max(limit, 20));
    if precise then Max(base, Max(limit * 10, 50)) else base
  }

  function CandidateCap(limit: int): int {
    Min(Max(limit * 20, Max(limit, 500)), 5000)
  }

  /** The scan goes on for at least 500 rows, and for twenty rows per answer row up to 5000, never beyond. */
  lemma CapSize(limit: int)
    requires limit >= 1
    ensures 500 <= CandidateCap(limit) <= 5000
    ensures CandidateCap(limit) >= 20 * limit || CandidateCap(limit) == 5000
    ensures CandidateCap(limit) <= 20 * limit || CandidateCap(limit) == 500
  {
  }

  /** A page holds at least twenty rows and five per answer row, for precise queries at least fifty and ten. */
  lemma FetchSize(limit: int, precise: bool)
    requires limit >= 1
    ensures FetchLimit(limit, precise) >= 20 && FetchLimit(limit, precise) >= 5 * limit
    ensures precise ==> FetchLimit(limit, precise) >= 50 && FetchLimit(limit, precise) >= 10 * limit
    ensures FetchLimit(limit, false) <= 20 || FetchLimit(limit, false) <= 5 * limit
    ensures FetchLimit(limit, true) <= 50 || FetchLimit(limit, true) <= 10 * limit
  {
  }

  function Kept(rows: seq<Hit>, filtered: bool, keep: set<int>): seq<Hit> {
    if rows == [] then []
    else
      Kept(rows[..|rows| - 1], filtered, keep)
      + if filtered && rows[|rows| - 1].id !in keep then [] else [rows[|rows| - 1]]
  }

  /** A source filter keeps exactly the rows of its nodes; without one every row is kept. */
  lemma {:induction false} KeptMembers(rows: seq<Hit>, filtered: bool, keep: set<int>, h: Hit)
    ensures h in Kept(rows, filtered, keep) <==> h in rows && (filtered ==> h.id in keep)
  {
    if rows != [] {
      KeptMembers(rows[..|rows| - 1], filtered, keep, h);
      assert rows == rows[..|rows| - 1] + [rows[|rows| - 1]];
    }
  }

  lemma {:induction false} KeptConcat(a: seq<Hit>, b: seq<Hit>, filtered: bool, keep: set<int>)
    ensures Kept(a + b, filtered, keep) == Kept(a, filtered, keep) + Kept(b, filtered, keep)
    decreases |b|
  {
    if b == [] {
      assert a + b == a;
    } else {
      KeptConcat(a, b[..|b| - 1], filtered, keep);
      assert (a + b)[..|a + b| - 1] == a + b[..|b| - 1];
    }
  }

  lemma {:induction false} KeptAll(rows: seq<Hit>, keep: set<int>)
    ensures Kept(rows, false, keep) == rows
  {
    if rows != [] {
      KeptAll(rows[..|rows| - 1], keep);
    }
  }

  /** No row repeats, and every unread one is outside what has been read. */
  ghost predicate DistinctRows(rows: seq<Hit>) {
    forall i, j :: 0 <= i < j < |rows| ==> rows[i].id != rows[j].id
  }

  /** Recency order gives no bound on ranks: a later row of the same age may still rank better. */
  ghost predicate TiesBetter(q: Query, h: Hit, visible: Hit) {
    h.recency == visible.recency && Adjusted(q, h) < Adjusted(q, visible)
  }

  lemma UnreadIsNew(rows: seq<Hit>, n: nat)
    requires DistinctRows(rows) && n <= |rows|
    ensures rows[..n] + rows[n..] == rows
    ensures forall k :: 0 <= k < |rows[n..]| ==> rows[n..][k] !in rows[..n]
  {
  }

  lemma BoundStopIsExact(q: Query, rows: seq<Hit>, n: nat, limit: nat)
    requires QueryRows(q, rows) && DistinctRows(rows) && 1 <= limit <= n <= |rows| && q.sort != Recency
    requires Primary(q, rows[n - 1]) - q.bound * BONUS > Primary(q, Sorted(q, rows[..n])[limit - 1])
    ensures Top(q, rows[..n], limit) == Top(q, rows, limit)
  {
    UnreadIsNew(rows, n);
    var visible := Sorted(q, rows[..n])[limit - 1];
    forall k | 0 <= k < |rows[n..]| ensures !Precedes(q, rows[n..][k], visible) {
      BoundTestIsSound(q, rows, n - 1, visible, n + k);
    }
    StopIsExactIff(q, rows[..n], rows[n..], limit);
  }

  lemma RecencyStopIsExactIff(q: Query, rows: seq<Hit>, n: nat, limit: nat)
    requires QueryRows(q, rows) && DistinctRows(rows) && 1 <= limit <= n <= |rows| && q.sort == Recency
    ensures Top(q, rows[..n], limit) == Top(q, rows, limit) <==>
      forall u :: n <= u < |rows| ==> !TiesBetter(q, rows[u], Sorted(q, rows[..n])[limit - 1])
  {
    UnreadIsNew(rows, n);
    var visible := Sorted(q, rows[..n])[limit - 1];
    SortedFromHits(q, rows[..n], limit - 1);
    var i :| 0 <= i < n && rows[i] == visible;
    forall u | n <= u < |rows| ensures Precedes(q, rows[u], visible) <==> TiesBetter(q, rows[u], visible) {
      assert SqlOrdered(q, rows[i], rows[u]);
    }
    StopIsExactIff(q, rows[..n], rows[n..], limit);
    assert forall u :: n <= u < |rows| ==> rows[u] == rows[n..][u - n];
  }

  /** SQL order ranks rows of equal score by time alone: a later row of the same score may be more direct. */
  ghost predicate TiesMoreDirect(q: Query, h: Hit, visible: Hit) {
    Primary(q, h) == Primary(q, visible) && h.directness > visible.directness
  }

  lemma RawPrimary(q: Query, h: Hit)
    requires !q.precise && q.sort != Recency
    ensures Primary(q, h) == if q.sort == Hybrid then h.rank / Decay(q, h) else h.rank
  {
    if q.sort == Hybrid {
      assert -((-h.rank) / Decay(q, h)) == h.rank / Decay(q, h);
    }
  }

  lemma LaterRowPrecedesIff(q: Query, rows: seq<Hit>, i: nat, u: nat)
    requires QueryRows(q, rows) && i < u < |rows| && !q.precise && q.sort != Recency
    ensures Precedes(q, rows[u], rows[i]) <==> TiesMoreDirect(q, rows[u], rows[i])
  {
    RawPrimary(q, rows[i]);
    RawPrimary(q, rows[u]);
    assert SqlOrdered(q, rows[i], rows[u]);
  }

  /**
   Other queries stop after their first page: in relevance and in hybrid order the answer is exact
   exactly when no unread row has the score of the last visible one and is more direct.
   */
  lemma PageStopIsExactIff(q: Query, rows: seq<Hit>, n: nat, limit: nat)
    requires QueryRows(q, rows) && DistinctRows(rows) && 1 <= limit <= n <= |rows| && !q.precise && q.sort != Recency
    ensures Top(q, rows[..n], limit) == Top(q, rows, limit) <==>
      forall u :: n <= u < |rows| ==> !TiesMoreDirect(q, rows[u], Sorted(q, rows[..n])[limit - 1])
  {
    UnreadIsNew(rows, n);
    var visible := Sorted(q, rows[..n])[limit - 1];
    SortedFromHits(q, rows[..n], limit - 1);
    var i :| 0 <= i < n && rows[i] == visible;
    forall u | n <= u < |rows| ensures Precedes(q, rows[u], visible) <==> TiesMoreDirect(q, rows[u], visible) {
      LaterRowPrecedesIff(q, rows, i, u);
    }
    StopIsExactIff(q, rows[..n], rows[n..], limit);
    assert forall u :: n <= u < |rows| ==> rows[u] == rows[n..][u - n];
  }

  /** What the search promises about an answer computed from the first `n` rows. */
  ghost predicate Answer(q: Query, rows: seq<Hit>, limit: nat, filtered: bool, keep: set<int>,
                         n: nat, results: seq<Hit>)
    requires n <= |rows| && limit >= 1
  {
    && results == Top(q, Kept(rows[..n], filtered, keep), limit)
    && (n < CandidateCap(limit) && (filtered || (q.precise && q.sort != Recency)) ==>
          results == Top(q, Kept(rows, filtered, keep), limit))
    && (n < CandidateCap(limit) && !filtered && q.sort == Recency ==>
          (results == Top(q, rows, limit) <==>
           forall u :: n <= u < |rows| ==> |results| == limit && !TiesBetter(q, rows[u], results[limit - 1])))
    && (n < CandidateCap(limit) && !filtered && !q.precise && q.sort != Recency ==>
          (results == Top(q, rows, limit) <==>
           forall u :: n <= u < |rows| ==> |results| == limit && !TiesMoreDirect(q, rows[u], results[limit - 1])))
  }

  lemma ScannedAll(q: Query, rows: seq<Hit>, limit: nat, filtered: bool, keep: set<int>, results: seq<Hit>)
    requires limit >= 1 && results == Top(q, Kept(rows, filtered, keep), limit)
    ensures Answer(q, rows, limit, filtered, keep, |rows|, results)
  {
    assert rows[..|rows|] == rows;
    KeptAll(rows, keep);
  }

  /** A scan that ends with the rows, or at the candidate cap. */
  lemma Exhausted(q: Query, rows: seq<Hit>, limit: nat, filtered: bool, keep: set<int>, end: nat)
    requires limit >= 1 && end <= |rows| && (end == |rows| || end >= CandidateCap(limit))
    ensures Answer(q, rows, limit, filtered, keep, end, Take(Sorted(q, Kept(rows[..end], filtered, keep)), limit))
  {
    if end == |rows| {
      assert rows[..end] == rows;
      ScannedAll(q, rows, limit, filtered, keep, Top(q, Kept(rows, filtered, keep), limit));
    }
  }

  lemma StoppedEarly(q: Query, rows: seq<Hit>, limit: nat, keep: set<int>, n: nat)
    requires QueryRows(q, rows) && DistinctRows(rows) && 1 <= limit <= n <= |rows|
    requires !q.precise || q.sort == Recency
      || Primary(q, rows[n - 1]) - q.bound * BONUS > Primary(q, Sorted(q, rows[..n])[limit - 1])
    ensures Answer(q, rows, limit, false, keep, n, Top(q, rows[..n], limit))
  {
    KeptAll(rows, keep);
    KeptAll(rows[..n], keep);
    if q.sort == Recency {
      RecencyStopIsExactIff(q, rows, n, limit);
    } else if q.precise {
      BoundStopIsExact(q, rows, n, limit);
    } else {
      PageStopIsExactIff(q, rows, n, limit);
    }
  }

  lemma PageSorted(q: Query, rows: seq<Hit>, offset: nat, end: nat, filtered: bool, keep: set<int>)
    requires offset <= end <= |rows|
    ensures Sorted(q, Sorted(q, Kept(rows[..offset], filtered, keep)) + Kept(rows[offset..end], filtered, keep))
         == Sorted(q, Kept(rows[..end], filtered, keep))
  {
    SortedAppend(q, Kept(rows[..offset], filtered, keep), Kept(rows[offset..end], filtered, keep));
    KeptConcat(rows[..offset], rows[offset..end], filtered, keep);
    assert rows[..offset] + rows[offset..end] == rows[..end];
  }

  /** The bound test on the results and the page just read. */
  predicate BoundMet(q: Query, results: seq<Hit>, page: seq<Hit>, limit: int)
    requires results != [] && page != [] && limit >= 1
  {
    var worst := Primary(q, results[Min(limit, |results|) - 1]);
    var last := Primary(q, page[|page| - 1]);
    last - q.bound * BONUS > worst
  }

  lemma BoundMetStops(q: Query, rows: seq<Hit>, limit: nat, keep: set<int>, offset: nat, end: nat, results: seq<Hit>)
    requires QueryRows(q, rows) && DistinctRows(rows) && 1 <= limit <= end <= |rows| && offset < end
    requires results == Sorted(q, Kept(rows[..end], false, keep))
    requires !q.precise || (|results| > 0 && BoundMet(q, results, rows[offset..end], limit))
    ensures Answer(q, rows, limit, false, keep, end, Take(results, limit))
  {
    KeptAll(rows[..end], keep);
    assert rows[offset..end][end - offset - 1] == rows[end - 1];
    StoppedEarly(q, rows, limit, keep, end);
  }

  /** Fewer than 500 rows are never cut short by the cap, and a first page that holds all rows is exact. */
  ghost predicate ExactWhenFew(q: Query, rows: seq<Hit>, limit: int, filtered: bool, keep: set<int>, results: seq<Hit>)
    requires limit >= 1
  {
    && (|rows| < 500 && (filtered || (q.precise && q.sort != Recency)) ==> results == Top(q, Kept(rows, filtered, keep), limit))
    && (|rows| < 20 || |rows| < 5 * limit || (q.precise && (|rows| < 50 || |rows| < 10 * limit)) ==>
          results == Top(q, Kept(rows, filtered, keep), limit))
  }

  lemma AnswerIsExactWhenFew(q: Query, rows: seq<Hit>, limit: nat, filtered: bool, keep: set<int>, n: nat, results: seq<Hit>)
    requires limit >= 1 && n <= |rows| && Answer(q, rows, limit, filtered, keep, n, results)
    requires n == |rows| || |rows| >= FetchLimit(limit, q.precise)
    ensures ExactWhenFew(q, rows, limit, filtered, keep, results)
  {
    CapSize(limit);
    FetchSize(limit, q.precise);
    if n == |rows| {
      assert rows[..n] == rows;
    }
  }

  /**
   Searches the pages of a query. The answer is always the sorted top of what was scanned. Unless
   the candidate cap cut the scan short, it is the top of all matching rows when a source filter
   is active, and for precise queries in relevance or hybrid order. In recency order it is the top
   of all rows exactly when no unread row ties with the last visible one and ranks better; for other
   queries in relevance or hybrid order, exactly when none ties with it and is more direct.
   */
  method Search(q: Query, rows: seq<Hit>, limit: int, filtered: bool, keep: set<int>)
    returns (results: seq<Hit>)
    requires QueryRows(q, rows) && DistinctRows(rows) && limit >= 1
    ensures exists scanned: nat :: scanned <= |rows| && Answer(q, rows, limit, filtered, keep, scanned, results)
    ensures ExactWhenFew(q, rows, limit, filtered, keep, results)
  {
    var fetch, cap := FetchLimit(limit, q.precise), CandidateCap(limit);
    var offset := 0;
    results := [];
    assert rows[..0] == [];
    while true
      invariant 0 <= offset <= |rows| && offset < cap
      invariant fetch >= 1 && (if offset == 0 then fetch > limit else offset > limit)
      invariant if offset == 0 then fetch == FetchLimit(limit, q.precise) else |rows| >= FetchLimit(limit, q.precise)
      invariant results == Sorted(q, Kept(rows[..offset], filtered, keep))
      decreases cap - offset
    {
      var end := Min(offset + fetch, |rows|);
      var page := rows[offset..end];
      PageSorted(q, rows, offset, end, filtered, keep);
      results := Sorted(q, results + Kept(page, filtered, keep));
      if |page| < fetch || end >= cap {
        Exhausted(q, rows, limit, filtered, keep, end);
        AnswerIsExactWhenFew(q, rows, limit, filtered, keep, end, Take(results, limit));
        return Take(results, limit);
      }
      if !filtered {
        KeptAll(rows[..end], keep);
        if !q.precise || |results| <= limit || BoundMet(q, results, page, limit) {
          BoundMetStops(q, rows, limit, keep, offset, end, results);
          AnswerIsExactWhenFew(q, rows, limit, filtered, keep, end, Take(results, limit));
          return Take(results, limit);
        }
      }
      offset := end;
      fetch := Min(fetch * 2, cap - offset);
    }
  }

  // ---------------------------------------------------------------- what the order prefers

  /** The top is sorted, is as long as it can be, and what it leaves out precedes nothing in it. */
  lemma TopIsBest(q: Query, hits: seq<Hit>, limit: nat)
    ensures var top, rest := Top(q, hits, limit), Sorted(q, hits)[|Top(q, hits, limit)|..];
      && |top| == (if |hits| < limit then |hits| else limit)
      && multiset(top) + multiset(rest) == multiset(hits) && InOrder(q, top)
      && (forall i, j :: 0 <= i < |top| && 0 <= j < |rest| ==> !Precedes(q, rest[j], top[i]))
  {
    SortedOrder(q, hits);
    var s, top := Sorted(q, hits), Top(q, hits, limit);
    var rest := s[|top|..];
    assert s == top + rest;
    forall i, j | 0 <= i < |top| && 0 <= j < |rest| ensures !Precedes(q, rest[j], top[i]) {
      assert s[|top| + j] == rest[j] && s[i] == top[i];
    }
  }

  /** In recency order a newer row always comes first. */
  lemma NewerFirst(q: Query, a: Hit, b: Hit)
    requires q.sort == Recency && a.recency > b.recency
    ensures Precedes(q, a, b) && !Precedes(q, b, a)
  {
  }

  /**
   In relevance order two tenths of a millionth of rank outweigh one point of directness in a precise
   query and nothing does in any other; then directness decides, then time.
   */
  lemma RelevancePrefers(q: Query, a: Hit, b: Hit)
    requires q.sort == Relevance
    ensures !q.precise && a.rank < b.rank ==> Precedes(q, a, b)
    ensures q.precise && 0.0 <= a.directness && 0.0 <= b.directness ==>
      && (10000000.0 * (a.rank - b.rank) < 2.0 * (a.directness - b.directness) ==> Precedes(q, a, b))
      && (10000000.0 * (a.rank - b.rank) > 2.0 * (a.directness - b.directness) ==> Precedes(q, b, a))
    ensures a.rank == b.rank && a.directness > b.directness ==> Precedes(q, a, b)
    ensures a.rank == b.rank && a.directness == b.directness && a.recency > b.recency ==> Precedes(q, a, b)
  {
  }

  /** A thousand hours of age halve the strength of a row in hybrid order; nothing ages before its time. */
  lemma AgeHalves(q: Query, h: Hit)
    ensures h.recency == q.now - 3600000.0 ==> Decay(q, h) == 2.0
    ensures h.recency >= q.now ==> Decay(q, h) == 1.0
    ensures forall g: Hit :: g.recency < h.recency <= q.now ==> Decay(q, g) > Decay(q, h)
  {
  }

  lemma SmallerShare(x: real, d: real, e: real)
    requires x > 0.0 && 1.0 <= d < e
    ensures x / e < x / d
  {
  }

  /** In hybrid order the newer of two rows of equal strength comes first, and the stronger of two of equal age. */
  lemma HybridPrefers(q: Query, a: Hit, b: Hit)
    requires q.sort == Hybrid && !q.precise && a.rank < 0.0 && b.rank < 0.0
    ensures a.rank == b.rank && b.recency < a.recency <= q.now ==> Precedes(q, a, b)
    ensures a.rank < b.rank && a.recency == b.recency ==> Precedes(q, a, b)
  {
    if a.rank == b.rank && b.recency < a.recency <= q.now {
      AgeHalves(q, a);
      SmallerShare(-a.rank, Decay(q, a), Decay(q, b));
    } else if a.rank < b.rank && a.recency == b.recency {
      var d := Decay(q, a);
      assert (-a.rank) / d - (-b.rank) / d == (b.rank - a.rank) / d > 0.0;
    }
  }

  // ---------------------------------------------------------------- recency order

  lemma LeastComesFirst(q: Query, hits: seq<Hit>)
    requires hits != []
    requires forall k :: 0 < k < |hits| ==> Precedes(q, hits[0], hits[k])
    ensures Sorted(q, hits)[0] == hits[0]
  {
    SortedOrder(q, hits);
    assert hits[0] in multiset(Sorted(q, hits));
    var j :| 0 <= j < |hits| && Sorted(q, hits)[j] == hits[0];
    SortedFromHits(q, hits, 0);
    var k :| 0 <= k < |hits| && hits[k] == Sorted(q, hits)[0];
    assert !Precedes(q, Sorted(q, hits)[j], Sorted(q, hits)[0]) || j == 0;
  }

  /** FTS5 gives a matching row a negative rank. */
  ghost predicate Ranked(rows: seq<Hit>) {
    forall i :: 0 <= i < |rows| ==> rows[i].rank < 0.0
  }

  /** A query in recency order whose first page meets the bound although the next row belongs on top. */
  lemma RecencyStopCanBeWrong() returns (q: Query, rows: seq<Hit>)
    ensures q.sort == Recency && q.precise && QueryRows(q, rows) && DistinctRows(rows)
    ensures Ranked(rows) && |rows| == 51 && FetchLimit(1, true) == 50
    ensures BoundMet(q, Sorted(q, rows[..50]), rows[0..50], 1)
    ensures Top(q, rows[..50], 1) != Top(q, rows, 1)
  {
    q := Query(Recency, true, 2000.0, 5.0);
    rows := seq(51, i => Hit(i, if i == 0 then -1.0 else if i == 50 then -10.0 else -0.5, 1000.0, 0.0));
    LeastComesFirst(q, rows[..50]);
    RecencyStopIsExactIff(q, rows, 50, 1);
    assert TiesBetter(q, rows[50], Sorted(q, rows[..50])[0]);
  }

  /** A query of several terms in relevance order: its first page hides a row as good as any and more direct. */
  lemma PageStopCanBeWrong() returns (q: Query, rows: seq<Hit>)
    ensures q.sort == Relevance && !q.precise && QueryRows(q, rows) && DistinctRows(rows)
    ensures Ranked(rows) && |rows| == 21 && FetchLimit(1, false) == 20
    ensures Top(q, rows[..20], 1) != Top(q, rows, 1)
  {
    q := Query(Relevance, false, 2000.0, 10.0);
    rows := seq(21, i => Hit(i, -1.0, 1000.0, if i == 20 then 10.0 else 5.0));
    SortedFromHits(q, rows[..20], 0);
    PageStopIsExactIff(q, rows, 20, 1);
    assert TiesMoreDirect(q, rows[20], Sorted(q, rows[..20])[0]);
  }
}
