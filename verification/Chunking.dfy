/** Splitting one message into sentence-aligned, overlapping windows near a token target. */
module Chunking {
  import opened Text

  const TARGET_TOKENS: nat := 600

  /** Token counts are an arbitrary function of the text. */
  type Counter = string -> nat

  predicate IsTerminator(c: char) {
    c == '.' || c == '!' || c == '?'
  }

  // ---------------------------------------------------------------- where sentences end

  /** Going back from `e` over white space leads to a sentence terminator. */
  predicate Terminated(text: string, e: nat)
    requires e <= |text|
  {
    e > 0 && (IsTerminator(text[e - 1]) || (IsBlankChar(text[e - 1]) && Terminated(text, e - 1)))
  }

  /**
   A sentence ends at the end of the text, after the white space that follows a terminator, or
   after a run of newlines that does not itself follow a terminator.
   */
  predicate SentenceEnd(text: string, e: nat)
    requires e <= |text|
  {
    e > 0
    && (|| e == |text|
        || (Terminated(text, e) && IsBlankChar(text[e - 1]) && !IsBlankChar(text[e]))
        || (text[e - 1] == '\n' && text[e] != '\n' && !Terminated(text, e)))
  }

  function EndsUpTo(text: string, e: nat): seq<nat>
    requires e <= |text|
  {
    if e == 0 then [] else EndsUpTo(text, e - 1) + if SentenceEnd(text, e) then [e] else []
  }

  function StartOf(ends: seq<nat>, k: nat): nat
    requires k < |ends|
  {
    if k == 0 then 0 else ends[k - 1]
  }

  datatype Span = Span(start: nat, end: nat)

  /** The sentences as consecutive spans. */
  function Sentences(text: string): seq<Span> {
    var ends := EndsUpTo(text, |text|);
    seq(|ends|, k requires 0 <= k < |ends| => Span(StartOf(ends, k), ends[k]))
  }

  lemma {:induction false} NoEndBetween(text: string, lo: nat, hi: nat)
    requires lo <= hi <= |text|
    requires forall e :: lo < e <= hi ==> !SentenceEnd(text, e)
    ensures EndsUpTo(text, hi) == EndsUpTo(text, lo)
  {
    if lo < hi {
      NoEndBetween(text, lo, hi - 1);
    }
  }

  lemma OneEndBetween(text: string, lo: nat, hi: nat)
    requires lo < hi <= |text| && SentenceEnd(text, hi)
    requires forall e :: lo < e < hi ==> !SentenceEnd(text, e)
    ensures EndsUpTo(text, hi) == EndsUpTo(text, lo) + [hi]
  {
    NoEndBetween(text, lo, hi - 1);
  }

  lemma {:induction false} EndsAscend(text: string, e: nat)
    requires e <= |text|
    ensures forall k :: 0 <= k < |EndsUpTo(text, e)| ==> 0 < EndsUpTo(text, e)[k] <= e
    ensures forall k, l :: 0 <= k < l < |EndsUpTo(text, e)| ==> EndsUpTo(text, e)[k] < EndsUpTo(text, e)[l]
  {
    if e > 0 {
      EndsAscend(text, e - 1);
    }
  }

  lemma LastEnd(text: string)
    requires text != ""
    ensures EndsUpTo(text, |text|) != [] && EndsUpTo(text, |text|)[|EndsUpTo(text, |text|)| - 1] == |text|
  {
  }

  // ---------------------------------------------------------------- the sentence scanner

  /** The spans found so far are the sentences that end at or before `start`. */
  ghost predicate SpansUpTo(text: string, spans: seq<Span>, start: nat)
    requires start <= |text|
  {
    var ends := EndsUpTo(text, start);
    && |spans| == |ends|
    && (forall k :: 0 <= k < |spans| ==> spans[k] == Span(StartOf(ends, k), ends[k]))
    && (if ends == [] then start == 0 else ends[|ends| - 1] == start)
  }

  lemma AddSpan(text: string, spans: seq<Span>, start: nat, end: nat)
    requires start < end <= |text| && SpansUpTo(text, spans, start) && SentenceEnd(text, end)
    requires forall e :: start < e < end ==> !SentenceEnd(text, e)
    ensures SpansUpTo(text, spans + [Span(start, end)], end)
  {
    OneEndBetween(text, start, end);
  }

  method SkipTerminators(text: string, i: nat) returns (j: nat)
    requires i < |text| && IsTerminator(text[i])
    ensures i < j <= |text| && (forall k :: i <= k < j ==> IsTerminator(text[k]))
    ensures j < |text| ==> !IsTerminator(text[j])
  {
    j := i + 1;
    while j < |text| && IsTerminator(text[j])
      invariant i < j <= |text| && forall k :: i <= k < j ==> IsTerminator(text[k])
    {
      j := j + 1;
    }
  }

  method SkipBlanks(text: string, j: nat) returns (end: nat)
    requires 0 < j <= |text| && IsTerminator(text[j - 1])
    ensures j <= end <= |text| && (forall k :: j <= k < end ==> IsBlankChar(text[k]))
    ensures end < |text| ==> !IsBlankChar(text[end])
    ensures forall e :: j <= e <= end ==> Terminated(text, e)
  {
    end := j;
    while end < |text| && IsBlankChar(text[end])
      invariant j <= end <= |text| && (forall k :: j <= k < end ==> IsBlankChar(text[k]))
      invariant forall e :: j <= e <= end ==> Terminated(text, e)
    {
      end := end + 1;
    }
  }

  method SkipNewlines(text: string, i: nat) returns (j: nat)
    requires i < |text| && text[i] == '\n' && !Terminated(text, i)
    ensures i < j <= |text| && (forall k :: i <= k < j ==> text[k] == '\n')
    ensures j < |text| ==> text[j] != '\n'
    ensures forall e :: i < e <= j ==> !Terminated(text, e)
  {
    j := i + 1;
    while j < |text| && text[j] == '\n'
      invariant i < j <= |text| && (forall k :: i <= k < j ==> text[k] == '\n')
      invariant forall e :: i < e <= j ==> !Terminated(text, e)
    {
      j := j + 1;
    }
  }

  /** One scan finds exactly the sentences. */
  method SentenceSpans(text: string) returns (spans: seq<Span>)
    ensures spans == Sentences(text)
  {
    spans := [];
    var start, i := 0, 0;
    while i < |text|
      invariant start <= i <= |text|
      invariant SpansUpTo(text, spans, start)
      invariant forall e :: start < e <= i && e < |text| ==> !SentenceEnd(text, e)
      invariant i < |text| && Terminated(text, i) ==> !IsBlankChar(text[i])
      decreases |text| - i
    {
      if IsTerminator(text[i]) {
        var j := SkipTerminators(text, i);
        if j >= |text| || IsBlankChar(text[j]) {
          var end := SkipBlanks(text, j);
          assert forall e :: i < e <= j && e < |text| ==> !SentenceEnd(text, e);
          AddSpan(text, spans, start, end);
          spans := spans + [Span(start, end)];
          start := end;
          i := end;
        } else {
          i := j;
        }
      } else if text[i] == '\n' {
        var j := SkipNewlines(text, i);
        AddSpan(text, spans, start, j);
        spans := spans + [Span(start, j)];
        start := j;
        i := j;
      } else {
        i := i + 1;
      }
    }
    if start < |text| {
      AddSpan(text, spans, start, |text|);
      spans := spans + [Span(start, |text|)];
    }
    assert spans == Sentences(text);
  }


  // ---------------------------------------------------------------- windows of sentences

  /** A window as the half-open range of the sentences it holds. */
  datatype Window = Window(first: nat, past: nat)

  function SentenceTokens(text: string, ends: seq<nat>, count: Counter, k: nat): nat
    requires k < |ends| && StartOf(ends, k) <= ends[k] <= |text|
  {
    count(text[StartOf(ends, k)..ends[k]])
  }

  /** Tokens of the sentences `lo` up to but excluding `hi`, each counted on its own. */
  function Total(sizes: seq<nat>, lo: nat, hi: nat): nat
    requires lo <= hi <= |sizes|
    decreases hi
  {
    if lo == hi then 0 else Total(sizes, lo, hi - 1) + sizes[hi - 1]
  }

  /** The window opened at sentence `i` takes one sentence, then as many as keep the total within the target. */
  function Past(sizes: seq<nat>, i: nat, j: nat): (past: nat)
    requires i <= j <= |sizes| && (i < j || j < |sizes|)
    ensures j <= past <= |sizes| && i < past
    decreases |sizes| - j
  {
    if j < |sizes| && (j == i || Total(sizes, i, j) + sizes[j] <= TARGET_TOKENS) then Past(sizes, i, j + 1) else j
  }

  function Next(w: Window): nat
    requires w.first < w.past
  {
    if w.past - w.first >= 2 then w.past - 1 else w.past
  }

  function WindowsFrom(sizes: seq<nat>, i: nat): (windows: seq<Window>)
    requires i < |sizes|
    ensures windows != [] && windows[0].first == i
    ensures forall k :: 0 <= k < |windows| ==> windows[k].first < windows[k].past <= |sizes|
    decreases |sizes| - i
  {
    var w := Window(i, Past(sizes, i, i));
    if w.past >= |sizes| then [w] else [w] + WindowsFrom(sizes, Next(w))
  }

  /** Consecutive windows share at most one sentence and leave none out; only the last reaches the end. */
  ghost predicate Chained(sizes: seq<nat>, windows: seq<Window>) {
    && (forall k :: 0 <= k < |windows| ==> windows[k].first < windows[k].past <= |sizes|)
    && (forall k :: 0 <= k < |windows| - 1 ==>
          && windows[k].past < |sizes|
          && windows[k + 1].first == Next(windows[k]))
  }

  lemma {:induction false} WindowsAreChained(sizes: seq<nat>, i: nat)
    requires i < |sizes|
    ensures Chained(sizes, WindowsFrom(sizes, i))
    ensures WindowsFrom(sizes, i)[|WindowsFrom(sizes, i)| - 1].past == |sizes|
    decreases |sizes| - i
  {
    var w := Window(i, Past(sizes, i, i));
    if w.past < |sizes| {
      WindowsAreChained(sizes, Next(w));
    }
  }

  lemma {:induction false} PastFits(sizes: seq<nat>, i: nat, j: nat)
    requires i <= j <= |sizes| && (i < j || j < |sizes|)
    requires j - i <= 1 || Total(sizes, i, j) <= TARGET_TOKENS
    ensures var past := Past(sizes, i, j);
      && (past - i == 1 || Total(sizes, i, past) <= TARGET_TOKENS)
      && (past < |sizes| ==> Total(sizes, i, past) + sizes[past] > TARGET_TOKENS)
    decreases |sizes| - j
  {
    if j < |sizes| && (j == i || Total(sizes, i, j) + sizes[j] <= TARGET_TOKENS) {
      PastFits(sizes, i, j + 1);
    }
  }

  /** A window of several sentences stays within the target, and one sentence more would break it. */
  lemma {:induction false} WindowsFit(sizes: seq<nat>, i: nat)
    requires i < |sizes|
    ensures forall k :: 0 <= k < |WindowsFrom(sizes, i)| ==>
      var w := WindowsFrom(sizes, i)[k];
      && (w.past - w.first == 1 || Total(sizes, w.first, w.past) <= TARGET_TOKENS)
      && (w.past < |sizes| ==> Total(sizes, w.first, w.past) + sizes[w.past] > TARGET_TOKENS)
    decreases |sizes| - i
  {
    var w := Window(i, Past(sizes, i, i));
    PastFits(sizes, i, i);
    if w.past < |sizes| {
      WindowsFit(sizes, Next(w));
    }
  }

  /** Starts strictly increase, ends never decrease. */
  lemma {:induction false} WindowsAdvance(sizes: seq<nat>, windows: seq<Window>, k: nat, l: nat)
    requires Chained(sizes, windows) && k < l < |windows|
    ensures windows[k].first < windows[l].first && windows[k].past <= windows[l].past
    ensures windows[k].past - 1 <= windows[l].first
    decreases l
  {
    if l > k + 1 {
      WindowsAdvance(sizes, windows, k, l - 1);
    }
  }

  ghost predicate Holds(w: Window, m: nat) {
    w.first <= m < w.past
  }

  lemma {:induction false} SomeWindowHolds(sizes: seq<nat>, windows: seq<Window>, n: nat, m: nat)
    requires Chained(sizes, windows) && 0 < n <= |windows|
    requires windows[0].first <= m < windows[n - 1].past
    ensures exists k :: 0 <= k < n && Holds(windows[k], m)
  {
    if n == 1 || m >= windows[n - 1].first {
      assert Holds(windows[n - 1], m);
    } else {
      assert m < windows[n - 2].past;
      SomeWindowHolds(sizes, windows, n - 1, m);
    }
  }

  /** Every sentence is in one window or in two neighbours. */
  lemma EachSentenceOnceOrTwice(sizes: seq<nat>, m: nat)
    requires m < |sizes|
    ensures var windows := WindowsFrom(sizes, 0);
      exists k :: 0 <= k < |windows| && Holds(windows[k], m)
                  && forall l :: 0 <= l < |windows| && Holds(windows[l], m) ==> l == k || l == k + 1
  {
    var windows := WindowsFrom(sizes, 0);
    WindowsAreChained(sizes, 0);
    SomeWindowHolds(sizes, windows, |windows|, m);
    var k := FirstHolder(windows, m);
    forall l | 0 <= l < |windows| && Holds(windows[l], m) ensures l == k || l == k + 1 {
      if l > k + 1 {
        WindowsAdvance(sizes, windows, k, k + 1);
        WindowsAdvance(sizes, windows, k + 1, l);
        assert false;
      }
    }
  }

  lemma FirstHolder(windows: seq<Window>, m: nat) returns (k: nat)
    requires exists k :: 0 <= k < |windows| && Holds(windows[k], m)
    ensures k < |windows| && Holds(windows[k], m)
    ensures forall l :: 0 <= l < k ==> !Holds(windows[l], m)
  {
    k := 0;
    while !Holds(windows[k], m)
      invariant k < |windows|
      invariant forall l :: 0 <= l < k ==> !Holds(windows[l], m)
      decreases |windows| - k
    {
      k := k + 1;
    }
  }

  // ---------------------------------------------------------------- windows of the text

  function Sizes(text: string, count: Counter): (sizes: seq<nat>)
    ensures |sizes| == |EndsUpTo(text, |text|)|
  {
    var ends := EndsUpTo(text, |text|);
    EndsAscend(text, |text|);
    seq(|ends|, k requires 0 <= k < |ends| => SentenceTokens(text, ends, count, k))
  }

  function SpanOf(ends: seq<nat>, w: Window): Span
    requires w.first < w.past <= |ends|
  {
    Span(StartOf(ends, w.first), ends[w.past - 1])
  }

  function Windows(text: string, count: Counter): seq<Span> {
    if text == "" then []
    else if count(text) <= TARGET_TOKENS then [Span(0, |text|)]
    else
      LastEnd(text);
      var ends := EndsUpTo(text, |text|);
      var windows := WindowsFrom(Sizes(text, count), 0);
      seq(|windows|, k requires 0 <= k < |windows| => SpanOf(ends, windows[k]))
  }

  method WindowSpans(text: string, count: Counter) returns (windows: seq<Span>)
    ensures windows == Windows(text, count)
  {
    if |text| == 0 {
      return [];
    }
    if count(text) <= TARGET_TOKENS {
      return [Span(0, |text|)];
    }
    var sentences := SentenceSpans(text);
    LastEnd(text);
    windows := OpenWindows(text, count, sentences);
  }

  /** The windows still to come once `windows` have been emitted and the next one opens at sentence `i`. */
  ghost predicate Emitted(expected: seq<Window>, ends: seq<nat>, sizes: seq<nat>, windows: seq<Span>, i: nat)
    requires |sizes| == |ends|
  {
    && |windows| < |expected| && i < |sizes|
    && WindowsFrom(sizes, i) == expected[|windows|..]
    && (forall k :: 0 <= k < |windows| ==> IsSpanOf(windows[k], ends, expected[k]))
  }

  ghost predicate IsSpanOf(span: Span, ends: seq<nat>, w: Window) {
    w.first < w.past <= |ends| && span == SpanOf(ends, w)
  }

  lemma EmitOne(expected: seq<Window>, ends: seq<nat>, sizes: seq<nat>, windows: seq<Span>, i: nat)
    requires |sizes| == |ends| && Emitted(expected, ends, sizes, windows, i)
    ensures var w := Window(i, Past(sizes, i, i));
      && expected[|windows|] == w
      && (w.past >= |sizes| ==> |windows| + 1 == |expected|)
      && (w.past < |sizes| ==> Emitted(expected, ends, sizes, windows + [SpanOf(ends, w)], Next(w)))
  {
    var w := Window(i, Past(sizes, i, i));
    assert expected[|windows|] == expected[|windows|..][0] == w;
    if w.past < |sizes| {
      assert expected[|windows| + 1..] == expected[|windows|..][1..] == WindowsFrom(sizes, Next(w));
    }
  }

  /** The window loop over sentences. */
  method OpenWindows(text: string, count: Counter, sentences: seq<Span>) returns (windows: seq<Span>)
    requires sentences == Sentences(text) && sentences != []
    ensures |windows| == |WindowsFrom(Sizes(text, count), 0)|
    ensures forall k :: 0 <= k < |windows| ==>
      IsSpanOf(windows[k], EndsUpTo(text, |text|), WindowsFrom(Sizes(text, count), 0)[k])
  {
    ghost var ends, sizes := EndsUpTo(text, |text|), Sizes(text, count);
    ghost var expected := WindowsFrom(sizes, 0);
    windows := [];
    var i := 0;
    while true
      invariant Emitted(expected, ends, sizes, windows, i)
      decreases |sentences| - i
    {
      var j := CloseWindow(text, count, sentences, i);
      EmitOne(expected, ends, sizes, windows, i);
      assert Span(sentences[i].start, sentences[j - 1].end) == SpanOf(ends, Window(i, j));
      windows := windows + [Span(sentences[i].start, sentences[j - 1].end)];
      if j >= |sentences| {
        break;
      }
      i := if j - i >= 2 then j - 1 else j;
    }
  }

  /** The inner loop: how far the window opened at sentence `i` reaches. */
  method CloseWindow(text: string, count: Counter, sentences: seq<Span>, i: nat) returns (j: nat)
    requires sentences == Sentences(text) && i < |sentences|
    ensures j == Past(Sizes(text, count), i, i)
  {
    ghost var sizes := Sizes(text, count);
    EndsAscend(text, |text|);
    var accumulated := 0;
    j := i;
    while j < |sentences|
      invariant i <= j <= |sentences| && (i < j || j < |sentences|)
      invariant accumulated == Total(sizes, i, j)
      invariant Past(sizes, i, j) == Past(sizes, i, i)
    {
      var sentenceTokens := count(text[sentences[j].start..sentences[j].end]);
      assert sentenceTokens == sizes[j];
      if j > i && accumulated + sentenceTokens > TARGET_TOKENS {
        break;
      }
      accumulated := accumulated + sentenceTokens;
      j := j + 1;
    }
  }

  // ---------------------------------------------------------------- what the windows do to the text

  /** The spans cover `0..n` from left to right, overlapping or touching. */
  ghost predicate Covers(n: nat, ws: seq<Span>) {
    && ws != [] && ws[0].start == 0 && ws[|ws| - 1].end == n
    && (forall k :: 0 <= k < |ws| ==> ws[k].start < ws[k].end <= n)
    && (forall k :: 0 <= k < |ws| - 1 ==>
          ws[k].start < ws[k + 1].start <= ws[k].end <= ws[k + 1].end)
  }

  /** The ends of non-empty consecutive sentences. */
  ghost predicate Rising(ends: seq<nat>, n: nat) {
    && (forall i :: 0 <= i < |ends| ==> 0 < ends[i] <= n)
    && (forall i, j :: 0 <= i < j < |ends| ==> ends[i] < ends[j])
  }

  lemma SpansChain(ends: seq<nat>, sizes: seq<nat>, windows: seq<Window>, n: nat, k: nat)
    requires |sizes| == |ends| && Chained(sizes, windows) && Rising(ends, n) && k + 1 < |windows|
    ensures var s, t := SpanOf(ends, windows[k]), SpanOf(ends, windows[k + 1]);
      s.start < t.start <= s.end <= t.end
  {
    WindowsAdvance(sizes, windows, k, k + 1);
  }

  lemma SpansCover(ends: seq<nat>, sizes: seq<nat>, windows: seq<Window>, n: nat, ws: seq<Span>)
    requires |sizes| == |ends| && Chained(sizes, windows) && Rising(ends, n)
    requires ends != [] && ends[|ends| - 1] == n
    requires windows != [] && windows[0].first == 0 && windows[|windows| - 1].past == |sizes|
    requires |ws| == |windows| && forall k :: 0 <= k < |ws| ==> ws[k] == SpanOf(ends, windows[k])
    ensures Covers(n, ws)
  {
    forall k | 0 <= k < |ws| - 1 ensures ws[k].start < ws[k + 1].start <= ws[k].end <= ws[k + 1].end {
      SpansChain(ends, sizes, windows, n, k);
    }
  }

  /** Windows run from the start of the text to its end with no gap, and always move forward. */
  lemma WindowsCoverText(text: string, count: Counter)
    requires text != ""
    ensures Covers(|text|, Windows(text, count))
  {
    if count(text) > TARGET_TOKENS {
      LastEnd(text);
      EndsAscend(text, |text|);
      var sizes := Sizes(text, count);
      WindowsAreChained(sizes, 0);
      SpansCover(EndsUpTo(text, |text|), sizes, WindowsFrom(sizes, 0), |text|, Windows(text, count));
    }
  }

  lemma {:induction false} EndsAreSentenceEnds(text: string, e: nat)
    requires e <= |text|
    ensures forall k :: 0 <= k < |EndsUpTo(text, e)| ==>
      EndsUpTo(text, e)[k] <= |text| && SentenceEnd(text, EndsUpTo(text, e)[k])
  {
    if e > 0 {
      EndsAreSentenceEnds(text, e - 1);
    }
  }

  /** Windows begin and stop only where sentences do. */
  lemma WindowsCutAtSentences(text: string, count: Counter, k: nat)
    requires k < |Windows(text, count)|
    ensures var w := Windows(text, count)[k];
      && w.start < w.end <= |text| && SentenceEnd(text, w.end) && (w.start > 0 ==> SentenceEnd(text, w.start))
  {
    WindowsCoverText(text, count);
    if count(text) > TARGET_TOKENS {
      SpanCutsAtSentences(text, WindowsFrom(Sizes(text, count), 0)[k]);
    }
  }

  lemma SpanCutsAtSentences(text: string, w: Window)
    requires w.first < w.past <= |EndsUpTo(text, |text|)|
    ensures var span := SpanOf(EndsUpTo(text, |text|), w);
      && span.start <= |text| && span.end <= |text|
      && SentenceEnd(text, span.end) && (span.start > 0 ==> SentenceEnd(text, span.start))
  {
    EndsAscend(text, |text|);
    EndsAreSentenceEnds(text, |text|);
  }

  /** Concatenates the windows, each without what the one before already gave. */
  function Stitch(text: string, ws: seq<Span>): string
    requires forall k :: 0 <= k < |ws| ==> ws[k].start <= ws[k].end <= |text|
    requires forall k :: 0 <= k < |ws| - 1 ==> ws[k].end <= ws[k + 1].end
  {
    if ws == [] then ""
    else
      var last := ws[|ws| - 1];
      var given := if |ws| == 1 then 0 else ws[|ws| - 2].end;
      Stitch(text, ws[..|ws| - 1]) + text[if last.start < given then given else last.start..last.end]
  }

  lemma {:induction false} StitchPrefix(text: string, ws: seq<Span>, n: nat)
    requires Covers(|text|, ws) && 0 < n <= |ws|
    ensures Stitch(text, ws[..n]) == text[..ws[n - 1].end]
  {
    assert ws[..n][..n - 1] == ws[..n - 1];
    if n > 1 {
      StitchPrefix(text, ws, n - 1);
      assert ws[n - 2].start < ws[n - 1].start <= ws[n - 2].end <= ws[n - 1].end;
    }
  }

  /** Dropping the overlaps and concatenating gives back the text. */
  lemma WindowsRestoreText(text: string, count: Counter)
    requires text != ""
    ensures Covers(|text|, Windows(text, count)) && Stitch(text, Windows(text, count)) == text
  {
    WindowsCoverText(text, count);
    var ws := Windows(text, count);
    StitchPrefix(text, ws, |ws|);
    assert ws[..|ws|] == ws;
  }

  // ---------------------------------------------------------------- the token target

  /** Within this text a stretch never counts more than its two parts. */
  ghost predicate SubadditiveOn(text: string, count: Counter) {
    forall lo, mid, hi :: 0 <= lo <= mid <= hi <= |text| ==>
      count(text[lo..hi]) <= count(text[lo..mid]) + count(text[mid..hi])
  }

  lemma {:induction false} RangeTokens(text: string, count: Counter, ends: seq<nat>, sizes: seq<nat>, lo: nat, hi: nat)
    requires SubadditiveOn(text, count) && Rising(ends, |text|) && |sizes| == |ends|
    requires forall k :: 0 <= k < |ends| ==> sizes[k] == SentenceTokens(text, ends, count, k)
    requires lo < hi <= |ends|
    ensures StartOf(ends, lo) < ends[hi - 1]
    ensures count(text[StartOf(ends, lo)..ends[hi - 1]]) <= Total(sizes, lo, hi)
    decreases hi
  {
    assert Total(sizes, lo, hi) == Total(sizes, lo, hi - 1) + sizes[hi - 1];
    if lo + 1 < hi {
      RangeTokens(text, count, ends, sizes, lo, hi - 1);
    }
  }

  ghost predicate IsSentence(text: string, w: Span) {
    exists m :: 0 <= m < |Sentences(text)| && Sentences(text)[m] == w
  }

  /** The window counts at most `bound`, or is one sentence. */
  ghost predicate WithinBound(text: string, count: Counter, w: Span, bound: nat) {
    w.start < w.end <= |text| && (count(text[w.start..w.end]) <= bound || IsSentence(text, w))
  }

  lemma OneSentenceSpan(text: string, w: Window)
    requires w.first < w.past <= |EndsUpTo(text, |text|)| && w.past - w.first == 1
    ensures IsSentence(text, SpanOf(EndsUpTo(text, |text|), w))
  {
    assert Sentences(text)[w.first] == SpanOf(EndsUpTo(text, |text|), w);
  }

  lemma SpanWithinTarget(text: string, count: Counter, w: Window)
    requires SubadditiveOn(text, count) && w.first < w.past <= |Sizes(text, count)|
    requires w.past - w.first == 1 || Total(Sizes(text, count), w.first, w.past) <= TARGET_TOKENS
    ensures WithinBound(text, count, SpanOf(EndsUpTo(text, |text|), w), TARGET_TOKENS)
  {
    var ends := EndsUpTo(text, |text|);
    EndsAscend(text, |text|);
    RangeTokens(text, count, ends, Sizes(text, count), w.first, w.past);
    if w.past - w.first == 1 {
      OneSentenceSpan(text, w);
    }
  }

  /** A window exceeds the target only as a single sentence, where the estimator is subadditive on the text. */
  lemma WindowsWithinTarget(text: string, count: Counter, k: nat)
    requires SubadditiveOn(text, count) && k < |Windows(text, count)|
    ensures WithinBound(text, count, Windows(text, count)[k], TARGET_TOKENS)
  {
    if count(text) <= TARGET_TOKENS {
      assert text[0..|text|] == text;
    } else {
      LastEnd(text);
      WindowsFit(Sizes(text, count), 0);
      SpanWithinTarget(text, count, WindowsFrom(Sizes(text, count), 0)[k]);
    }
  }
}
