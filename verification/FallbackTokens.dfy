/**
 The estimator that counts tokens while no encoder is loaded, and how far windows sized by it can
 exceed the target.
 */
module FallbackTokens {
  import opened Text
  import opened Chunking

  // ---------------------------------------------------------------- the estimator

  predicate IsAscii(c: char) {
    c as int <= 127
  }

  function NonAscii(text: string): nat {
    if text == "" then 0 else NonAscii(text[..|text| - 1]) + if IsAscii(text[|text| - 1]) then 0 else 1
  }

  /** Which divisor a text takes: 4, 2.5 or 1.5 characters a token. */
  datatype Density = Thin | Mixed | Dense

  function DensityOf(length: nat, nonAscii: nat): Density {
    if 2 * nonAscii >= length then Dense else if 5 * nonAscii >= length then Mixed else Thin
  }

  function Tokens(density: Density, length: nat): nat {
    match density
    case Thin => length / 4 + 1
    case Mixed => 2 * length / 5 + 1
    case Dense => 2 * length / 3 + 1
  }

  function FallbackEstimate(text: string): nat {
    if text == "" then 0 else Tokens(DensityOf(|text|, NonAscii(text)), |text|)
  }

  lemma {:induction false} NonAsciiAdds(s: string, t: string)
    ensures NonAscii(s + t) == NonAscii(s) + NonAscii(t)
  {
    if t == "" {
      assert s + t == s;
    } else {
      assert (s + t)[..|s + t| - 1] == s + t[..|t| - 1];
      NonAsciiAdds(s, t[..|t| - 1]);
    }
  }

  lemma {:induction false} NonAsciiBound(s: string)
    ensures NonAscii(s) <= |s|
    ensures (forall i :: 0 <= i < |s| ==> IsAscii(s[i])) ==> NonAscii(s) == 0
    ensures (forall i :: 0 <= i < |s| ==> !IsAscii(s[i])) ==> NonAscii(s) == |s|
  {
    if s != "" {
      NonAsciiBound(s[..|s| - 1]);
    }
  }

  // ---------------------------------------------------------------- stretches of sentences

  /** The text of the sentences `lo` up to but excluding `hi`. */
  function Stretch(text: string, ends: seq<nat>, lo: nat, hi: nat): (stretch: string)
    requires Rising(ends, |text|) && lo < hi <= |ends|
    ensures stretch != ""
  {
    text[StartOf(ends, lo)..ends[hi - 1]]
  }

  lemma StretchSplits(text: string, ends: seq<nat>, lo: nat, hi: nat)
    requires Rising(ends, |text|) && lo + 1 < hi <= |ends|
    ensures Stretch(text, ends, lo, hi) == Stretch(text, ends, lo, hi - 1) + Stretch(text, ends, hi - 1, hi)
  {
  }

  /** The sizes are the estimates of the sentences. */
  ghost predicate Estimated(text: string, ends: seq<nat>, sizes: seq<nat>) {
    && Rising(ends, |text|) && |sizes| == |ends|
    && forall k :: 0 <= k < |sizes| ==> sizes[k] == FallbackEstimate(Stretch(text, ends, k, k + 1))
  }

  lemma SizesAreEstimates(text: string)
    ensures Estimated(text, EndsUpTo(text, |text|), Sizes(text, FallbackEstimate))
  {
    EndsAscend(text, |text|);
  }

  /** A bound on what the windows of several sentences may count. */
  ghost predicate SeveralWithin(text: string, bound: nat) {
    var ends, sizes := EndsUpTo(text, |text|), Sizes(text, FallbackEstimate);
    Rising(ends, |text|)
    && forall lo, hi :: 0 <= lo && lo + 1 < hi <= |ends| && Total(sizes, lo, hi) <= TARGET_TOKENS ==>
         FallbackEstimate(Stretch(text, ends, lo, hi)) <= bound
  }

  lemma SpanWithin(text: string, w: Window, bound: nat)
    requires SeveralWithin(text, bound) && w.first < w.past <= |Sizes(text, FallbackEstimate)|
    requires w.past - w.first == 1 || Total(Sizes(text, FallbackEstimate), w.first, w.past) <= TARGET_TOKENS
    ensures WithinBound(text, FallbackEstimate, SpanOf(EndsUpTo(text, |text|), w), bound)
  {
    var ends := EndsUpTo(text, |text|);
    if w.past - w.first == 1 {
      OneSentenceSpan(text, w);
    } else {
      assert FallbackEstimate(Stretch(text, ends, w.first, w.past)) <= bound;
    }
  }

  lemma WindowsWithin(text: string, bound: nat, k: nat)
    requires SeveralWithin(text, bound) && bound >= TARGET_TOKENS && k < |Windows(text, FallbackEstimate)|
    ensures WithinBound(text, FallbackEstimate, Windows(text, FallbackEstimate)[k], bound)
  {
    if FallbackEstimate(text) <= TARGET_TOKENS {
      assert text[0..|text|] == text;
    } else {
      LastEnd(text);
      WindowsFit(Sizes(text, FallbackEstimate), 0);
      SpanWithin(text, WindowsFrom(Sizes(text, FallbackEstimate), 0)[k], bound);
    }
  }

  // ---------------------------------------------------------------- one density

  function SentenceDensity(text: string, ends: seq<nat>, k: nat): Density
    requires Rising(ends, |text|) && k < |ends|
  {
    var sentence := Stretch(text, ends, k, k + 1);
    DensityOf(|sentence|, NonAscii(sentence))
  }

  /** Every sentence of the text takes the same divisor. */
  ghost predicate IsUniform(text: string, density: Density) {
    var ends := EndsUpTo(text, |text|);
    Rising(ends, |text|) && forall k :: 0 <= k < |ends| ==> SentenceDensity(text, ends, k) == density
  }

  /** The text takes the divisor and these tokens are enough for it. */
  ghost predicate Takes(tokens: nat, stretch: string, density: Density) {
    DensityOf(|stretch|, NonAscii(stretch)) == density && Tokens(density, |stretch|) <= tokens
  }

  lemma DensityJoins(a: nat, m: nat, b: nat, n: nat, density: Density)
    requires 0 < a && 0 < b && DensityOf(a, m) == density && DensityOf(b, n) == density
    ensures DensityOf(a + b, m + n) == density
    ensures Tokens(density, a + b) <= Tokens(density, a) + Tokens(density, b)
  {
  }

  lemma TakesJoin(a: nat, s: string, b: nat, t: string, density: Density)
    requires s != "" && t != "" && Takes(a, s, density) && Takes(b, t, density)
    ensures Takes(a + b, s + t, density)
  {
    NonAsciiAdds(s, t);
    DensityJoins(|s|, NonAscii(s), |t|, NonAscii(t), density);
  }

  lemma {:induction false} UniformStretch(text: string, ends: seq<nat>, sizes: seq<nat>, density: Density, lo: nat, hi: nat)
    requires Rising(ends, |text|) && |sizes| == |ends| && lo < hi <= |ends|
    requires forall k :: 0 <= k < |sizes| ==> Takes(sizes[k], Stretch(text, ends, k, k + 1), density)
    ensures Takes(Total(sizes, lo, hi), Stretch(text, ends, lo, hi), density)
    decreases hi
  {
    assert Total(sizes, lo, hi) == Total(sizes, lo, hi - 1) + sizes[hi - 1];
    assert Takes(sizes[hi - 1], Stretch(text, ends, hi - 1, hi - 1 + 1), density);
    if lo + 1 < hi {
      UniformStretch(text, ends, sizes, density, lo, hi - 1);
      StretchSplits(text, ends, lo, hi);
      TakesJoin(Total(sizes, lo, hi - 1), Stretch(text, ends, lo, hi - 1), sizes[hi - 1], Stretch(text, ends, hi - 1, hi), density);
    }
  }

  /** When every sentence takes the same divisor, a window exceeds the target only as a single sentence. */
  lemma UniformWindowsWithinTarget(text: string, density: Density, k: nat)
    requires IsUniform(text, density) && k < |Windows(text, FallbackEstimate)|
    ensures WithinBound(text, FallbackEstimate, Windows(text, FallbackEstimate)[k], TARGET_TOKENS)
  {
    var ends, sizes := EndsUpTo(text, |text|), Sizes(text, FallbackEstimate);
    SizesAreEstimates(text);
    forall m | 0 <= m < |ends| ensures Takes(sizes[m], Stretch(text, ends, m, m + 1), density) {
      assert SentenceDensity(text, ends, m) == density;
    }
    forall lo, hi | 0 <= lo && lo + 1 < hi <= |ends| && Total(sizes, lo, hi) <= TARGET_TOKENS
      ensures FallbackEstimate(Stretch(text, ends, lo, hi)) <= TARGET_TOKENS
    {
      UniformStretch(text, ends, sizes, density, lo, hi);
    }
    WindowsWithin(text, TARGET_TOKENS, k);
  }

  lemma AsciiSentence(text: string, ends: seq<nat>, k: nat)
    requires Rising(ends, |text|) && k < |ends| && forall i :: 0 <= i < |text| ==> IsAscii(text[i])
    ensures SentenceDensity(text, ends, k) == Thin
  {
    var sentence := Stretch(text, ends, k, k + 1);
    assert forall i :: 0 <= i < |sentence| ==> sentence[i] == text[StartOf(ends, k) + i];
    NonAsciiBound(sentence);
  }

  /** ASCII text is uniform. */
  lemma AsciiWindowsWithinTarget(text: string, k: nat)
    requires (forall i :: 0 <= i < |text| ==> IsAscii(text[i])) && k < |Windows(text, FallbackEstimate)|
    ensures WithinBound(text, FallbackEstimate, Windows(text, FallbackEstimate)[k], TARGET_TOKENS)
  {
    var ends := EndsUpTo(text, |text|);
    EndsAscend(text, |text|);
    forall m | 0 <= m < |ends| ensures SentenceDensity(text, ends, m) == Thin {
      AsciiSentence(text, ends, m);
    }
    UniformWindowsWithinTarget(text, Thin, k);
  }

  // ---------------------------------------------------------------- any text

  /** The most that a window of several sentences can count. */
  const LARGEST_WINDOW: nat := 999

  /** However dense a sentence is, its tokens pay for three twentieths of its length and half its non-ASCII characters. */
  lemma SentencePays(length: nat, nonAscii: nat)
    requires 0 < length && nonAscii <= length
    ensures 20 * Tokens(DensityOf(length, nonAscii), length) >= 3 * length + 10 * nonAscii + 7
  {
  }

  ghost predicate Pays(tokens: nat, stretch: string, sentences: nat) {
    20 * tokens >= 3 * |stretch| + 10 * NonAscii(stretch) + 7 * sentences
  }

  lemma TextPays(sentence: string)
    requires sentence != ""
    ensures Pays(FallbackEstimate(sentence), sentence, 1)
  {
    NonAsciiBound(sentence);
    SentencePays(|sentence|, NonAscii(sentence));
  }

  lemma {:induction false} StretchPays(text: string, ends: seq<nat>, sizes: seq<nat>, lo: nat, hi: nat)
    requires Rising(ends, |text|) && |sizes| == |ends| && lo < hi <= |ends|
    requires forall k :: 0 <= k < |sizes| ==> Pays(sizes[k], Stretch(text, ends, k, k + 1), 1)
    ensures Pays(Total(sizes, lo, hi), Stretch(text, ends, lo, hi), hi - lo)
    decreases hi
  {
    assert Total(sizes, lo, hi) == Total(sizes, lo, hi - 1) + sizes[hi - 1];
    assert Pays(sizes[hi - 1], Stretch(text, ends, hi - 1, hi - 1 + 1), 1);
    if lo + 1 < hi {
      StretchPays(text, ends, sizes, lo, hi - 1);
      StretchSplits(text, ends, lo, hi);
      NonAsciiAdds(Stretch(text, ends, lo, hi - 1), Stretch(text, ends, hi - 1, hi));
    }
  }

  lemma PaidStretch(length: nat, nonAscii: nat)
    requires 3 * length + 10 * nonAscii + 14 <= 20 * TARGET_TOKENS
    ensures Tokens(DensityOf(length, nonAscii), length) <= LARGEST_WINDOW
  {
  }

  /** For every text a window of several sentences counts at most 999 tokens. */
  lemma FallbackWindowBound(text: string, k: nat)
    requires k < |Windows(text, FallbackEstimate)|
    ensures WithinBound(text, FallbackEstimate, Windows(text, FallbackEstimate)[k], LARGEST_WINDOW)
  {
    var ends, sizes := EndsUpTo(text, |text|), Sizes(text, FallbackEstimate);
    SizesAreEstimates(text);
    forall m | 0 <= m < |ends| ensures Pays(sizes[m], Stretch(text, ends, m, m + 1), 1) {
      TextPays(Stretch(text, ends, m, m + 1));
    }
    forall lo, hi | 0 <= lo && lo + 1 < hi <= |ends| && Total(sizes, lo, hi) <= TARGET_TOKENS
      ensures FallbackEstimate(Stretch(text, ends, lo, hi)) <= LARGEST_WINDOW
    {
      StretchPays(text, ends, sizes, lo, hi);
      var stretch := Stretch(text, ends, lo, hi);
      PaidStretch(|stretch|, NonAscii(stretch));
    }
    WindowsWithin(text, LARGEST_WINDOW, k);
  }

  // ---------------------------------------------------------------- two texts

  function Repeat(c: char, n: nat): (s: string)
    ensures |s| == n && forall i :: 0 <= i < n ==> s[i] == c
  {
    seq(n, _ => c)
  }

  lemma RepeatNonAscii(c: char, n: nat)
    ensures NonAscii(Repeat(c, n)) == if IsAscii(c) then 0 else n
  {
    NonAsciiBound(Repeat(c, n));
  }

  const HAN: char := '\U{4E2D}'

  /** The estimate of a whole can exceed the sum over its parts: 6 against 2 and 3. */
  lemma EstimateIsNotSubadditive()
    ensures FallbackEstimate(Repeat('a', 4) + Repeat(HAN, 4)) == 6
    ensures FallbackEstimate(Repeat('a', 4)) == 2 && FallbackEstimate(Repeat(HAN, 4)) == 3
  {
    RepeatNonAscii('a', 4);
    RepeatNonAscii(HAN, 4);
    NonAsciiAdds(Repeat('a', 4), Repeat(HAN, 4));
  }

  /** Inside a stretch with neither terminators nor white space no sentence ends. */
  lemma NoEndInside(text: string, lo: nat, hi: nat)
    requires lo <= hi < |text| && forall i :: lo <= i < hi ==> !IsTerminator(text[i]) && !IsBlankChar(text[i])
    ensures forall e :: lo < e <= hi ==> !SentenceEnd(text, e)
  {
  }

  /** A sentence ends after the stop and the blank behind it. */
  lemma EndAfterStop(text: string, lo: nat, stop: nat)
    requires lo <= stop && stop + 2 < |text|
    requires forall i :: lo <= i < stop ==> !IsTerminator(text[i]) && !IsBlankChar(text[i])
    requires text[stop] == '.' && text[stop + 1] == ' ' && !IsBlankChar(text[stop + 2])
    ensures EndsUpTo(text, stop + 2) == EndsUpTo(text, lo) + [stop + 2]
  {
    NoEndInside(text, lo, stop);
    assert Terminated(text, stop + 1);
    OneEndBetween(text, lo, stop + 2);
  }

  lemma EndOfText(text: string, lo: nat)
    requires lo < |text| && forall i :: lo <= i < |text| ==> !IsTerminator(text[i]) && !IsBlankChar(text[i])
    ensures EndsUpTo(text, |text|) == EndsUpTo(text, lo) + [|text|]
  {
    NoEndInside(text, lo, |text| - 1);
    OneEndBetween(text, lo, |text|);
  }

  /** A mixed sentence just short of dense, and one more character. */
  const PACKED: string := Repeat(HAN, 748) + Repeat('a', 747) + ". " + [HAN]

  lemma PackedEnds()
    ensures |PACKED| == 1498 && EndsUpTo(PACKED, |PACKED|) == [1497, 1498]
  {
    EndAfterStop(PACKED, 0, 1495);
    EndOfText(PACKED, 1497);
  }

  lemma PackedCounts()
    ensures NonAscii(PACKED[..1497]) == 748 && NonAscii(PACKED) == 749
  {
    RepeatNonAscii(HAN, 748);
    RepeatNonAscii('a', 747);
    NonAsciiBound(". ");
    NonAsciiBound([HAN]);
    NonAsciiAdds(Repeat(HAN, 748), Repeat('a', 747));
    NonAsciiAdds(Repeat(HAN, 748) + Repeat('a', 747), ". ");
    NonAsciiAdds(Repeat(HAN, 748) + Repeat('a', 747) + ". ", [HAN]);
    assert PACKED[..1497] == Repeat(HAN, 748) + Repeat('a', 747) + ". ";
  }

  lemma PackedSizes()
    ensures Sizes(PACKED, FallbackEstimate) == [599, 1] && FallbackEstimate(PACKED) == LARGEST_WINDOW
  {
    PackedEnds();
    PackedCounts();
    SizesAreEstimates(PACKED);
    var ends := [1497, 1498];
    assert Stretch(PACKED, ends, 0, 1) == PACKED[..1497];
    assert Stretch(PACKED, ends, 1, 2) == [HAN];
    NonAsciiBound([HAN]);
  }

  lemma TwoSentencesOneWindow(sizes: seq<nat>)
    requires sizes == [599, 1]
    ensures WindowsFrom(sizes, 0) == [Window(0, 2)]
  {
    assert Total(sizes, 0, 1) == Total(sizes, 0, 0) + sizes[0] == 599;
    assert Past(sizes, 0, 2) == 2;
    assert Past(sizes, 0, 1) == 2;
  }

  /**
   The bound is attained: this text of two sentences counts 999 tokens, and the program leaves it in
   one window.
   */
  lemma LargestWindowIsReached()
    ensures Windows(PACKED, FallbackEstimate) == [Span(0, |PACKED|)]
    ensures FallbackEstimate(PACKED) == LARGEST_WINDOW && !IsSentence(PACKED, Span(0, |PACKED|))
  {
    PackedEnds();
    PackedSizes();
    TwoSentencesOneWindow(Sizes(PACKED, FallbackEstimate));
  }
}
