/** Which windows of which messages each content policy emits. */
module ChunkEmission {
  import opened Wrappers
  import opened Text
  import opened Chunking
  import opened ChunkPolicy

  // ---------------------------------------------------------------- where sentences end

  /** One of ".!?" stands before `e` with nothing but white space between. */
  ghost predicate FollowsTerminator(text: string, e: nat)
    requires e <= |text|
  {
    exists k :: 0 <= k < e && text[k] in ".!?" && forall m :: k < m < e ==> IsBlankChar(text[m])
  }

  lemma Terminators(c: char)
    ensures c in ".!?" <==> IsTerminator(c)
  {
    assert ".!?"[0] == '.' && ".!?"[1] == '!' && ".!?"[2] == '?';
  }

  lemma {:induction false} TerminatedIff(text: string, e: nat)
    requires e <= |text|
    ensures Terminated(text, e) <==> FollowsTerminator(text, e)
  {
    if e > 0 {
      TerminatedIff(text, e - 1);
      Terminators(text[e - 1]);
      if FollowsTerminator(text, e - 1) && IsBlankChar(text[e - 1]) {
        var k :| 0 <= k < e - 1 && text[k] in ".!?" && forall m :: k < m < e - 1 ==> IsBlankChar(text[m]);
        assert FollowsTerminator(text, e);
      }
      if FollowsTerminator(text, e) && !IsTerminator(text[e - 1]) {
        var k :| 0 <= k < e && text[k] in ".!?" && forall m :: k < m < e ==> IsBlankChar(text[m]);
        assert FollowsTerminator(text, e - 1);
      }
    }
  }

  lemma {:induction false} EndsIff(text: string, n: nat, e: nat)
    requires n <= |text|
    ensures e in EndsUpTo(text, n) <==> 0 < e <= n && SentenceEnd(text, e)
  {
    if n > 0 {
      EndsIff(text, n - 1, e);
    }
  }

  /**
   Inside a text a sentence ends at a position exactly when that is where the white space after one of
   ".!?" stops, or where a run of newlines that follows no such terminator does.
   */
  lemma SentenceRule(text: string, e: nat)
    requires 0 < e < |text|
    ensures (exists k :: 0 <= k < |Sentences(text)| && Sentences(text)[k].end == e) <==>
      || (FollowsTerminator(text, e) && IsBlankChar(text[e - 1]) && !IsBlankChar(text[e]))
      || (!FollowsTerminator(text, e) && text[e - 1] == '\n' && text[e] != '\n')
  {
    TerminatedIff(text, e);
    EndsIff(text, |text|, e);
    var ends := EndsUpTo(text, |text|);
    if e in ends {
      var k :| 0 <= k < |ends| && ends[k] == e;
      assert Sentences(text)[k].end == e;
    }
  }

  // ---------------------------------------------------------------- the head and its errors

  /** The windows after the head and before `k` that show an error. */
  function Errors(text: string, ws: seq<Span>, signature: Signature, k: nat): set<nat>
    requires k <= |ws|
  {
    set j: nat | 1 <= j < k && signature(TextAt(text, ws[j]))
  }

  lemma {:induction false} ErrorsCounted(text: string, ws: seq<Span>, signature: Signature, k: nat)
    requires k <= |ws|
    ensures ErrorsBefore(text, ws, signature, k) == |Errors(text, ws, signature, k)|
  {
    if k <= 1 {
      assert Errors(text, ws, signature, k) == {};
    } else {
      ErrorsCounted(text, ws, signature, k - 1);
      var before := Errors(text, ws, signature, k - 1);
      assert Errors(text, ws, signature, k) == if signature(TextAt(text, ws[k - 1])) then before + {k - 1} else before;
    }
  }

  /** The head, or a later window that shows an error with fewer than three such before it. */
  ghost predicate IsHeadOrError(text: string, ws: seq<Span>, signature: Signature, k: nat)
    requires k < |ws|
  {
    k == 0 || (signature(TextAt(text, ws[k])) && |Errors(text, ws, signature, k)| < 3)
  }

  lemma {:induction false} SelectedIff(text: string, ws: seq<Span>, signature: Signature, n: nat, k: nat)
    requires n <= |ws|
    ensures k in HeadAndErrorIndices(text, ws, signature, n) <==> k < n && IsHeadOrError(text, ws, signature, k)
  {
    if n > 0 {
      SelectedIff(text, ws, signature, n - 1, k);
      ErrorsCounted(text, ws, signature, n - 1);
    }
  }

  // ---------------------------------------------------------------- what each policy emits

  /** A conversational turn that says enough, or any message within the cap under the full policy. */
  predicate Whole(role: string, tokens: nat, policy: Policy) {
    match policy
    case Conversational => role in {"user", "assistant"} && tokens >= 40
    case Heads => role in {"user", "assistant"} && tokens >= 40
    case Full => tokens <= 32000
  }

  /** A tool result under the heads policy, or a giant message under the full one. */
  predicate HeadOnly(role: string, tokens: nat, policy: Policy) {
    match policy
    case Conversational => false
    case Heads => role == "tool"
    case Full => tokens > 32000
  }

  ghost predicate Emits(storeId: nat, role: string, text: string, policy: string, count: Counter, signature: Signature, k: nat) {
    exists c :: c in ChunkMessage(storeId, role, text, policy, count, signature) && c.index == k
  }

  lemma EmitsAt(storeId: nat, text: string, ws: seq<Span>, indices: seq<nat>, count: Counter, k: nat)
    requires forall i :: 0 <= i < |indices| ==> indices[i] < |ws|
    ensures (exists c :: c in ChunksAt(storeId, text, ws, indices, count) && c.index == k) <==> k in indices
  {
    var chunks := ChunksAt(storeId, text, ws, indices, count);
    if k in indices {
      var i :| 0 <= i < |indices| && indices[i] == k;
      assert chunks[i] in chunks && chunks[i].index == k;
    }
    if c :| c in chunks && c.index == k {
      var i :| 0 <= i < |chunks| && chunks[i] == c;
      assert indices[i] == k;
    }
  }

  lemma FullEmits(storeId: nat, text: string, count: Counter, k: nat)
    ensures (exists c :: c in FullChunks(storeId, text, count) && c.index == k) <==> k < |Windows(text, count)|
  {
    var ws := Windows(text, count);
    var all: seq<nat> := seq(|ws|, i requires 0 <= i < |ws| => i);
    EmitsAt(storeId, text, ws, all, count, k);
    if k < |ws| {
      assert all[k] == k;
    }
  }

  lemma HeadsEmit(storeId: nat, text: string, count: Counter, signature: Signature, k: nat)
    ensures (exists c :: c in HeadAndErrorChunks(storeId, text, count, signature) && c.index == k) <==>
      k < |Windows(text, count)| && IsHeadOrError(text, Windows(text, count), signature, k)
  {
    var ws := Windows(text, count);
    EmitsAt(storeId, text, ws, HeadAndErrorIndices(text, ws, signature, |ws|), count, k);
    SelectedIff(text, ws, signature, |ws|, k);
  }

  lemma MessageChunks(storeId: nat, role: string, text: string, policy: string, count: Counter, signature: Signature)
    ensures var who, p := Lower(Strip(role)), NormalizePolicy(policy);
      ChunkMessage(storeId, role, text, policy, count, signature) ==
        if Strip(text) == "" then []
        else if Whole(who, count(text), p) then FullChunks(storeId, text, count)
        else if HeadOnly(who, count(text), p) then HeadAndErrorChunks(storeId, text, count, signature)
        else []
  {
  }

  /**
   A policy emits a window of a message that is not blank exactly when it takes the message whole, or
   takes its head and errors and the window is one of them.
   */
  lemma EmitsIff(storeId: nat, role: string, text: string, policy: string, count: Counter, signature: Signature, k: nat)
    ensures var ws, who, p := Windows(text, count), Lower(Strip(role)), NormalizePolicy(policy);
      Emits(storeId, role, text, policy, count, signature, k) <==>
        && Strip(text) != "" && k < |ws|
        && (Whole(who, count(text), p) || (HeadOnly(who, count(text), p) && IsHeadOrError(text, ws, signature, k)))
  {
    MessageChunks(storeId, role, text, policy, count, signature);
    if Strip(text) != "" {
      if Whole(Lower(Strip(role)), count(text), NormalizePolicy(policy)) {
        FullEmits(storeId, text, count, k);
      } else if HeadOnly(Lower(Strip(role)), count(text), NormalizePolicy(policy)) {
        HeadsEmit(storeId, text, count, signature, k);
      }
    }
  }

  /** Only the names "heads" and "full" mean those policies; anything else is the default. */
  lemma PolicyNames(value: string)
    ensures NormalizePolicy(value) == Heads <==> Lower(Strip(value)) == "heads"
    ensures NormalizePolicy(value) == Full <==> Lower(Strip(value)) == "full"
  {
  }

  // ---------------------------------------------------------------- policies nest

  lemma ChunksWithin(storeId: nat, role: string, text: string, p: string, q: string, count: Counter, signature: Signature, c: Chunk)
    requires c in ChunkMessage(storeId, role, text, p, count, signature)
    requires Emits(storeId, role, text, q, count, signature, c.index)
    ensures c in ChunkMessage(storeId, role, text, q, count, signature)
  {
    var d :| d in ChunkMessage(storeId, role, text, q, count, signature) && d.index == c.index;
    ChunksAreVerbatim(storeId, role, text, p, count, signature, c);
    ChunksAreVerbatim(storeId, role, text, q, count, signature, d);
    PoliciesAgree(storeId, role, text, p, q, count, signature, c, d);
  }

  /**
   Raising the policy never loses a chunk: heads emits what conversational emits, and full what heads
   does, except that a conversational turn over the cap keeps only its head and errors.
   */
  lemma PoliciesNest(storeId: nat, role: string, text: string, p: string, q: string, count: Counter, signature: Signature, c: Chunk)
    requires NormalizePolicy(p).Conversational? || (NormalizePolicy(p).Heads? && !NormalizePolicy(q).Conversational?)
    requires c in ChunkMessage(storeId, role, text, p, count, signature)
    ensures c in ChunkMessage(storeId, role, text, q, count, signature) <==>
      || count(text) <= 32000 || !NormalizePolicy(q).Full?
      || IsHeadOrErrorChunk(text, count, signature, c.index)
  {
    EmitsIff(storeId, role, text, p, count, signature, c.index);
    EmitsIff(storeId, role, text, q, count, signature, c.index);
    if Emits(storeId, role, text, q, count, signature, c.index) {
      ChunksWithin(storeId, role, text, p, q, count, signature, c);
    }
  }

  ghost predicate IsHeadOrErrorChunk(text: string, count: Counter, signature: Signature, k: nat) {
    k < |Windows(text, count)| && IsHeadOrError(text, Windows(text, count), signature, k)
  }

  lemma {:induction false} FewSelected(text: string, ws: seq<Span>, signature: Signature, n: nat)
    requires n <= |ws|
    ensures var errors := ErrorsBefore(text, ws, signature, n);
      |HeadAndErrorIndices(text, ws, signature, n)| == (if n == 0 then 0 else 1) + if errors < 3 then errors else 3
  {
    if n > 0 {
      FewSelected(text, ws, signature, n - 1);
    }
  }

  /** A message of which only the head is taken makes at most four chunks, however long it is. */
  lemma HeadOnlyIsBounded(storeId: nat, role: string, text: string, policy: string, count: Counter, signature: Signature)
    requires HeadOnly(Lower(Strip(role)), count(text), NormalizePolicy(policy))
    ensures |ChunkMessage(storeId, role, text, policy, count, signature)| <= 4
  {
    FewSelected(text, Windows(text, count), signature, |Windows(text, count)|);
  }

  // ---------------------------------------------------------------- groups do not split runs

  lemma {:induction false} MessagesEnd(ids: seq<nat>)
    requires ids != []
    ensures Messages(ids) != [] && Messages(ids)[|Messages(ids)| - 1] == ids[|ids| - 1]
  {
    if |ids| > 1 {
      MessagesEnd(ids[..|ids| - 1]);
    }
  }

  lemma {:induction false} MessagesAlternate(ids: seq<nat>)
    ensures forall g :: 0 <= g < |Messages(ids)| - 1 ==> Messages(ids)[g] != Messages(ids)[g + 1]
  {
    if ids != [] {
      var before := ids[..|ids| - 1];
      MessagesAlternate(before);
      if before != [] {
        MessagesEnd(before);
      }
    }
  }

  /** Neighbouring groups belong to different messages, in whatever order the positions come. */
  lemma NeighboursDiffer(ids: seq<nat>, g: nat)
    requires g + 1 < |Groups(ids)|
    ensures IsRun(ids, Groups(ids)[g]) && IsRun(ids, Groups(ids)[g + 1])
    ensures ids[Groups(ids)[g][0]] != ids[Groups(ids)[g + 1][0]]
  {
    GroupsAreNamed(ids, g);
    GroupsAreNamed(ids, g + 1);
    MessagesAlternate(ids);
  }
}
