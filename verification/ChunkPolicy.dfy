/** Which windows of a message each content policy embeds, and how a chunk is found again by its id. */
module ChunkPolicy {
  import opened Wrappers
  import opened Text
  import opened Chunking
  import Ordering

  const MIN_CONVERSATIONAL_TOKENS: nat := 40
  const FULL_PER_MESSAGE_TOKEN_CAP: nat := 32000
  const MAX_ERROR_CHUNKS: nat := 3

  datatype Policy = Conversational | Heads | Full

  /** Whether the error-signature pattern occurs in a text. */
  type Signature = string -> bool

  datatype Chunk = Chunk(storeId: nat, index: nat, start: nat, end: nat, text: string, tokens: nat)

  function NormalizePolicy(value: string): Policy {
    var normalized := Lower(Strip(value));
    if normalized == "heads" then Heads else if normalized == "full" then Full else Conversational
  }

  function TextAt(text: string, w: Span): string {
    if w.start <= w.end <= |text| then text[w.start..w.end] else ""
  }

  function MakeChunk(storeId: nat, index: nat, text: string, w: Span, count: Counter): Chunk {
    Chunk(storeId, index, w.start, w.end, TextAt(text, w), count(TextAt(text, w)))
  }

  function ChunksAt(storeId: nat, text: string, ws: seq<Span>, indices: seq<nat>, count: Counter): seq<Chunk>
    requires forall k :: 0 <= k < |indices| ==> indices[k] < |ws|
  {
    seq(|indices|, k requires 0 <= k < |indices| => MakeChunk(storeId, indices[k], text, ws[indices[k]], count))
  }

  function FullChunks(storeId: nat, text: string, count: Counter): seq<Chunk> {
    var ws := Windows(text, count);
    ChunksAt(storeId, text, ws, seq(|ws|, k requires 0 <= k < |ws| => k), count)
  }

  /** How many of the windows `1..k` show an error. */
  function ErrorsBefore(text: string, ws: seq<Span>, signature: Signature, k: nat): nat
    requires k <= |ws|
  {
    if k <= 1 then 0 else ErrorsBefore(text, ws, signature, k - 1) + if signature(TextAt(text, ws[k - 1])) then 1 else 0
  }

  /** The head window, and the first three later windows that show an error. */
  predicate HeadOrError(text: string, ws: seq<Span>, signature: Signature, k: nat)
    requires k < |ws|
  {
    k == 0 || (signature(TextAt(text, ws[k])) && ErrorsBefore(text, ws, signature, k) < MAX_ERROR_CHUNKS)
  }

  function HeadAndErrorIndices(text: string, ws: seq<Span>, signature: Signature, k: nat): (indices: seq<nat>)
    requires k <= |ws|
    ensures forall i :: 0 <= i < |indices| ==> indices[i] < k
    ensures forall i, j :: 0 <= i < j < |indices| ==> indices[i] < indices[j]
  {
    if k == 0 then []
    else HeadAndErrorIndices(text, ws, signature, k - 1) + if HeadOrError(text, ws, signature, k - 1) then [k - 1] else []
  }

  /** The loop that keeps the head and stops after the third error window. */
  method SelectHeadAndErrors(text: string, ws: seq<Span>, signature: Signature) returns (indices: seq<nat>)
    ensures indices == HeadAndErrorIndices(text, ws, signature, |ws|)
  {
    if ws == [] {
      return [];
    }
    indices := [0];
    var errors := 0;
    var k := 1;
    while k < |ws|
      invariant 1 <= k <= |ws|
      invariant indices == HeadAndErrorIndices(text, ws, signature, k)
      invariant errors == ErrorsBefore(text, ws, signature, k) < MAX_ERROR_CHUNKS
    {
      if signature(TextAt(text, ws[k])) {
        indices := indices + [k];
        errors := errors + 1;
        if errors >= MAX_ERROR_CHUNKS {
          NothingAfterThird(text, ws, signature, k + 1, |ws|);
          break;
        }
      }
      k := k + 1;
    }
  }

  lemma {:induction false} NothingAfterThird(text: string, ws: seq<Span>, signature: Signature, k: nat, m: nat)
    requires 1 <= k <= m <= |ws| && ErrorsBefore(text, ws, signature, k) >= MAX_ERROR_CHUNKS
    ensures ErrorsBefore(text, ws, signature, m) >= MAX_ERROR_CHUNKS
    ensures HeadAndErrorIndices(text, ws, signature, m) == HeadAndErrorIndices(text, ws, signature, k)
  {
    if k < m {
      NothingAfterThird(text, ws, signature, k, m - 1);
    }
  }

  function HeadAndErrorChunks(storeId: nat, text: string, count: Counter, signature: Signature): seq<Chunk> {
    var ws := Windows(text, count);
    ChunksAt(storeId, text, ws, HeadAndErrorIndices(text, ws, signature, |ws|), count)
  }

  function ChunkMessage(storeId: nat, role: string, text: string, policy: string, count: Counter, signature: Signature): seq<Chunk>
  {
    var normalized := Lower(Strip(role));
    var conversational := normalized == "user" || normalized == "assistant";
    if Strip(text) == "" then []
    else
      match NormalizePolicy(policy)
      case Conversational =>
        if !conversational || count(text) < MIN_CONVERSATIONAL_TOKENS then [] else FullChunks(storeId, text, count)
      case Heads =>
        if conversational then
          if count(text) < MIN_CONVERSATIONAL_TOKENS then [] else FullChunks(storeId, text, count)
        else if normalized == "tool" then HeadAndErrorChunks(storeId, text, count, signature)
        else []
      case Full =>
        if count(text) > FULL_PER_MESSAGE_TOKEN_CAP then HeadAndErrorChunks(storeId, text, count, signature)
        else FullChunks(storeId, text, count)
  }

  // ---------------------------------------------------------------- indices are window positions

  ghost predicate AtWindow(c: Chunk, storeId: nat, text: string, count: Counter) {
    c.index < |Windows(text, count)| && c == MakeChunk(storeId, c.index, text, Windows(text, count)[c.index], count)
  }

  /** Under every policy a chunk is the window at its index, and indices strictly increase. */
  lemma ChunksAreWindows(storeId: nat, role: string, text: string, policy: string, count: Counter, signature: Signature)
    ensures var chunks := ChunkMessage(storeId, role, text, policy, count, signature);
      && (forall k :: 0 <= k < |chunks| ==> AtWindow(chunks[k], storeId, text, count))
      && (forall k, l :: 0 <= k < l < |chunks| ==> chunks[k].index < chunks[l].index)
  {
  }

  /** A chunk carries the verbatim, non-empty text of its span. */
  lemma ChunksAreVerbatim(storeId: nat, role: string, text: string, policy: string, count: Counter, signature: Signature,
                          c: Chunk)
    requires c in ChunkMessage(storeId, role, text, policy, count, signature)
    ensures c.start < c.end <= |text| && c.text == text[c.start..c.end] && c.storeId == storeId && c.tokens == count(c.text)
  {
    ChunksAreWindows(storeId, role, text, policy, count, signature);
    assert AtWindow(c, storeId, text, count);
    if text != "" {
      WindowsCoverText(text, count);
    }
  }

  /** Any two policies agree on every chunk id both emit for a message. */
  lemma PoliciesAgree(storeId: nat, role: string, text: string, p: string, q: string, count: Counter, signature: Signature,
                      c: Chunk, d: Chunk)
    requires c in ChunkMessage(storeId, role, text, p, count, signature)
    requires d in ChunkMessage(storeId, role, text, q, count, signature)
    requires ChunkId(c.storeId, c.index) == ChunkId(d.storeId, d.index)
    ensures c == d
  {
    ChunksAreWindows(storeId, role, text, p, count, signature);
    ChunksAreWindows(storeId, role, text, q, count, signature);
    ChunkIdParses(c.storeId, c.index);
    ChunkIdParses(d.storeId, d.index);
  }

  // ---------------------------------------------------------------- ids

  function Digit(d: nat): char
    requires d < 10
  {
    '0' + d as char
  }

  function Decimal(n: nat): string {
    if n < 10 then [Digit(n)] else Decimal(n / 10) + [Digit(n % 10)]
  }

  predicate IsDigit(c: char) {
    '0' <= c <= '9'
  }

  /** `int` on canonical numerals. */
  function ParseNat(s: string): Option<nat> {
    if s == "" || !IsDigit(s[|s| - 1]) then None
    else
      var last := (s[|s| - 1] - '0') as nat;
      if |s| == 1 then Some(last)
      else
        match ParseNat(s[..|s| - 1])
        case None => None
        case Some(front) => Some(10 * front + last)
  }

  function ChunkId(storeId: nat, index: nat): string {
    Decimal(storeId) + ":" + Decimal(index)
  }

  function FirstColon(s: string): nat {
    if s == "" || s[0] == ':' then 0 else 1 + FirstColon(s[1..])
  }

  function ParseChunkId(id: string): Option<(nat, nat)> {
    var colon := FirstColon(id);
    if colon >= |id| then None
    else
      match (ParseNat(id[..colon]), ParseNat(id[colon + 1..]))
      case (Some(storeId), Some(index)) => Some((storeId, index))
      case _ => None
  }

  lemma {:induction false} DecimalParses(n: nat)
    ensures Decimal(n) != "" && ParseNat(Decimal(n)) == Some(n)
    ensures forall i :: 0 <= i < |Decimal(n)| ==> IsDigit(Decimal(n)[i])
  {
    if n >= 10 {
      DecimalParses(n / 10);
      assert Decimal(n)[..|Decimal(n)| - 1] == Decimal(n / 10);
    }
  }

  lemma {:induction false} ColonAfterDigits(front: string, rest: string)
    requires forall i :: 0 <= i < |front| ==> IsDigit(front[i])
    ensures FirstColon(front + ":" + rest) == |front|
  {
    var s := front + ":" + rest;
    if front != "" {
      assert s[1..] == front[1..] + ":" + rest;
      ColonAfterDigits(front[1..], rest);
    }
  }

  lemma ChunkIdParses(storeId: nat, index: nat)
    ensures ParseChunkId(ChunkId(storeId, index)) == Some((storeId, index))
  {
    DecimalParses(storeId);
    DecimalParses(index);
    ColonAfterDigits(Decimal(storeId), Decimal(index));
    var id := ChunkId(storeId, index);
    assert id[..|Decimal(storeId)|] == Decimal(storeId);
    assert id[|Decimal(storeId)| + 1..] == Decimal(index);
  }

  // ---------------------------------------------------------------- rebuilding a chunk

  datatype Stored = Stored(role: string, content: string)

  datatype Rebuilt = Rebuilt(text: string, tokens: nat, start: nat, end: nat)

  function FindIndex(chunks: seq<Chunk>, index: nat): Option<Rebuilt> {
    if chunks == [] then None
    else if chunks[0].index == index then Some(Rebuilt(chunks[0].text, chunks[0].tokens, chunks[0].start, chunks[0].end))
    else FindIndex(chunks[1..], index)
  }

  function Rebuild(messages: map<nat, Stored>, id: string, policy: string, count: Counter, signature: Signature): Option<Rebuilt>
  {
    match ParseChunkId(id)
    case None => None
    case Some(key) =>
      if key.0 !in messages then None
      else
        var m := messages[key.0];
        FindIndex(ChunkMessage(key.0, m.role, m.content, policy, count, signature), key.1)
  }

  method RebuildChunkDocument(messages: map<nat, Stored>, id: string, policy: string, count: Counter, signature: Signature)
    returns (rebuilt: Option<Rebuilt>)
    ensures rebuilt == Rebuild(messages, id, policy, count, signature)
  {
    var key := ParseChunkId(id);
    if key.None? {
      return None;
    }
    var (storeId, index) := key.value;
    if storeId !in messages {
      return None;
    }
    var chunks := ChunkMessage(storeId, messages[storeId].role, messages[storeId].content, policy, count, signature);
    for k := 0 to |chunks|
      invariant FindIndex(chunks, index) == FindIndex(chunks[k..], index)
    {
      if chunks[k].index == index {
        return Some(Rebuilt(chunks[k].text, chunks[k].tokens, chunks[k].start, chunks[k].end));
      }
      assert chunks[k..][1..] == chunks[k + 1..];
    }
    return None;
  }

  lemma {:induction false} FindsItsIndex(chunks: seq<Chunk>, k: nat)
    requires k < |chunks| && forall i, j :: 0 <= i < j < |chunks| ==> chunks[i].index != chunks[j].index
    ensures FindIndex(chunks, chunks[k].index) == Some(Rebuilt(chunks[k].text, chunks[k].tokens, chunks[k].start, chunks[k].end))
  {
    if k > 0 {
      FindsItsIndex(chunks[1..], k - 1);
    }
  }

  /** Under the policy that emitted it, a chunk of an unchanged message is rebuilt from its id as it was. */
  lemma RebuildRoundTrip(messages: map<nat, Stored>, storeId: nat, policy: string, count: Counter, signature: Signature, k: nat)
    requires storeId in messages
    requires k < |ChunkMessage(storeId, messages[storeId].role, messages[storeId].content, policy, count, signature)|
    ensures var c := ChunkMessage(storeId, messages[storeId].role, messages[storeId].content, policy, count, signature)[k];
      Rebuild(messages, ChunkId(c.storeId, c.index), policy, count, signature) == Some(Rebuilt(c.text, c.tokens, c.start, c.end))
  {
    var m := messages[storeId];
    ChunksAreWindows(storeId, m.role, m.content, policy, count, signature);
    var chunks := ChunkMessage(storeId, m.role, m.content, policy, count, signature);
    ChunkIdParses(storeId, chunks[k].index);
    FindsItsIndex(chunks, k);
  }

  // ---------------------------------------------------------------- grouping by message

  function Groups(ids: seq<nat>): seq<seq<nat>> {
    if ids == [] then []
    else
      var p := |ids| - 1;
      var before := Groups(ids[..p]);
      if before != [] && p > 0 && ids[p] == ids[p - 1] then before[..|before| - 1] + [before[|before| - 1] + [p]]
      else before + [[p]]
  }

  method GroupByStoreId(ids: seq<nat>) returns (groups: seq<seq<nat>>)
    ensures groups == Groups(ids)
  {
    groups := [];
    var last := 0;
    for position := 0 to |ids|
      invariant groups == Groups(ids[..position])
      invariant (groups != [] <==> position > 0) && (position > 0 ==> last == ids[position - 1])
    {
      assert ids[..position + 1][..position] == ids[..position];
      if groups != [] && ids[position] == last {
        groups := groups[..|groups| - 1] + [groups[|groups| - 1] + [position]];
      } else {
        groups := groups + [[position]];
        last := ids[position];
      }
    }
    assert ids[..|ids|] == ids;
  }

  function Flatten(groups: seq<seq<nat>>): seq<nat> {
    if groups == [] then [] else Flatten(groups[..|groups| - 1]) + groups[|groups| - 1]
  }

  function Positions(n: nat): seq<nat> {
    if n == 0 then [] else Positions(n - 1) + [n - 1]
  }

  lemma FlattenOneMore(groups: seq<seq<nat>>, group: seq<nat>)
    ensures Flatten(groups + [group]) == Flatten(groups) + group
  {
    assert (groups + [group])[..|groups|] == groups;
  }

  lemma FlattenLonger(groups: seq<seq<nat>>, p: nat)
    requires groups != []
    ensures Flatten(groups[..|groups| - 1] + [groups[|groups| - 1] + [p]]) == Flatten(groups) + [p]
  {
    var front, last := groups[..|groups| - 1], groups[|groups| - 1];
    FlattenOneMore(front, last + [p]);
    assert Flatten(front) + (last + [p]) == Flatten(front) + last + [p];
  }

  /** Groups list every position once, in order. */
  lemma {:induction false} GroupsPartition(ids: seq<nat>)
    ensures Flatten(Groups(ids)) == Positions(|ids|)
  {
    if ids != [] {
      var p := |ids| - 1;
      var before := Groups(ids[..p]);
      GroupsPartition(ids[..p]);
      if before != [] {
        FlattenLonger(before, p);
      }
      FlattenOneMore(before, [p]);
    }
  }

  /** The positions of one message only. */
  ghost predicate IsRun(ids: seq<nat>, group: seq<nat>) {
    && group != [] && group[0] < |ids|
    && forall i :: 0 <= i < |group| ==> group[i] < |ids| && ids[group[i]] == ids[group[0]]
  }

  ghost predicate AreRuns(ids: seq<nat>, groups: seq<seq<nat>>) {
    forall g :: 0 <= g < |groups| ==> IsRun(ids, groups[g])
  }

  lemma RunGrows(ids: seq<nat>, group: seq<nat>)
    requires |ids| > 0 && IsRun(ids[..|ids| - 1], group)
    ensures IsRun(ids, group) && ids[group[0]] == ids[..|ids| - 1][group[0]]
    ensures ids[|ids| - 1] == ids[group[0]] ==> IsRun(ids, group + [|ids| - 1])
  {
  }

  /** Every group holds positions of one message, and the last group that of the last position. */
  lemma {:induction false} GroupsAreRuns(ids: seq<nat>)
    ensures AreRuns(ids, Groups(ids))
    ensures ids != [] ==> Groups(ids) != [] && ids[Groups(ids)[|Groups(ids)| - 1][0]] == ids[|ids| - 1]
  {
    if ids != [] {
      var p := |ids| - 1;
      var before := Groups(ids[..p]);
      GroupsAreRuns(ids[..p]);
      forall g | 0 <= g < |before| ensures IsRun(ids, before[g]) {
        RunGrows(ids, before[g]);
      }
      if before != [] && p > 0 && ids[p] == ids[p - 1] {
        RunGrows(ids, before[|before| - 1]);
      }
    }
  }

  ghost predicate NonDecreasing(ids: seq<nat>) {
    forall i, j :: 0 <= i < j < |ids| ==> ids[i] <= ids[j]
  }

  /** The message of each group, in order. */
  function Messages(ids: seq<nat>): seq<nat> {
    if ids == [] then []
    else
      var p := |ids| - 1;
      if p > 0 && ids[p] == ids[p - 1] then Messages(ids[..p]) else Messages(ids[..p]) + [ids[p]]
  }

  lemma {:induction false} GroupsAreNamed(ids: seq<nat>, g: nat)
    requires g < |Groups(ids)|
    ensures |Messages(ids)| == |Groups(ids)| && IsRun(ids, Groups(ids)[g])
    ensures ids[Groups(ids)[g][0]] == Messages(ids)[g]
  {
    var p := |ids| - 1;
    var before := Groups(ids[..p]);
    GroupsAreRuns(ids);
    if before != [] {
      var h := if g < |before| then g else |before| - 1;
      GroupsAreNamed(ids[..p], h);
      RunGrows(ids, before[h]);
      assert g < |before| ==> Groups(ids)[g][0] == before[g][0];
    }
  }

  lemma {:induction false} MessagesAscend(ids: seq<nat>)
    requires NonDecreasing(ids)
    ensures ids != [] ==> Messages(ids) != [] && Messages(ids)[|Messages(ids)| - 1] == ids[|ids| - 1]
    ensures forall g, h :: 0 <= g < h < |Messages(ids)| ==> Messages(ids)[g] < Messages(ids)[h]
  {
    if ids != [] {
      MessagesAscend(ids[..|ids| - 1]);
    }
  }

  /** Once positions are in store order, different groups belong to different messages. */
  lemma OneGroupPerMessage(ids: seq<nat>, g: nat, h: nat)
    requires NonDecreasing(ids) && g < h < |Groups(ids)|
    ensures IsRun(ids, Groups(ids)[g]) && IsRun(ids, Groups(ids)[h])
    ensures ids[Groups(ids)[g][0]] < ids[Groups(ids)[h][0]]
  {
    GroupsAreNamed(ids, g);
    GroupsAreNamed(ids, h);
    MessagesAscend(ids);
  }

  // ---------------------------------------------------------------- the order of retried chunks

  datatype Key = Key(storeId: nat, index: nat)

  const KeyLess := (x: Key, y: Key) => x.storeId < y.storeId || (x.storeId == y.storeId && x.index < y.index)

  lemma KeyLessIsTotal()
    ensures Ordering.StrictTotal(KeyLess)
  {
    forall x: Key, y: Key | x != y ensures KeyLess(x, y) || KeyLess(y, x) {
      assert x.storeId != y.storeId || x.index != y.index;
    }
  }

  /** The retry path sorts the selected chunks by message and window before grouping. */
  function RetryOrder(keys: seq<Key>): seq<Key> {
    Ordering.SortUnique(KeyLess, keys)
  }

  function StoreIds(keys: seq<Key>): seq<nat> {
    seq(|keys|, k requires 0 <= k < |keys| => keys[k].storeId)
  }

  /** After the retry sort no message is split over two groups, whatever order the chunks were selected in. */
  lemma RetryGroupsPerMessage(keys: seq<Key>, g: nat, h: nat)
    requires g < h < |Groups(StoreIds(RetryOrder(keys)))|
    ensures forall k :: k in RetryOrder(keys) <==> k in keys
    ensures var ids := StoreIds(RetryOrder(keys));
      && Flatten(Groups(ids)) == Positions(|ids|)
      && IsRun(ids, Groups(ids)[g]) && IsRun(ids, Groups(ids)[h])
      && ids[Groups(ids)[g][0]] < ids[Groups(ids)[h][0]]
  {
    forall k ensures k in RetryOrder(keys) <==> k in keys {
      Ordering.SortUniqueMembers(KeyLess, keys, k);
    }
    KeyLessIsTotal();
    Ordering.SortUniqueAscending(KeyLess, keys);
    var ids := StoreIds(RetryOrder(keys));
    OneGroupPerMessage(ids, g, h);
    GroupsPartition(ids);
  }
}
