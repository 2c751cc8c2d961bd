/**
 The byte stream behind the identity of a cleaned message list. Its hash is modelled by the stream
 itself, so two identities are equal exactly when their streams are.
 */
module SanitationDigest {

  type Byte = b: int | 0 <= b < 256

  /** A Python character: any code point, lone surrogates included. */
  type CodePoint = c: int | 0 <= c <= 0x10FFFF

  type PyText = seq<CodePoint>

  const COLON: Byte := 58
  const SEMICOLON: Byte := 59
  const SLICE: nat := 65536

  // ---------------------------------------------------------------- decimal numerals

  function Decimal(n: nat): seq<Byte> {
    if n < 10 then [48 + n] else Decimal(n / 10) + [48 + n % 10]
  }

  lemma {:induction false} DecimalHasDigits(n: nat)
    ensures |Decimal(n)| > 0
    ensures forall i :: 0 <= i < |Decimal(n)| ==> 48 <= Decimal(n)[i] < 58
  {
    if n >= 10 {
      DecimalHasDigits(n / 10);
    }
  }

  lemma {:induction false} DecimalInjective(m: nat, n: nat)
    requires Decimal(m) == Decimal(n)
    ensures m == n
  {
    DecimalHasDigits(m / 10);
    DecimalHasDigits(n / 10);
    var d, e := Decimal(m), Decimal(n);
    assert d[|d| - 1] == 48 + m % 10 && e[|e| - 1] == 48 + n % 10;
    if m >= 10 && n >= 10 {
      assert d[..|d| - 1] == Decimal(m / 10) && e[..|e| - 1] == Decimal(n / 10);
      DecimalInjective(m / 10, n / 10);
    }
  }

  function Count(n: nat): seq<Byte> {
    Decimal(n) + [COLON]
  }

  /** A numeral ends at its colon, whatever follows. */
  lemma CountIsPrefixFree(m: nat, n: nat, rest: seq<Byte>, other: seq<Byte>)
    requires Count(m) + rest == Count(n) + other
    ensures m == n && rest == other
  {
    DecimalHasDigits(m);
    DecimalHasDigits(n);
    var d, e := Decimal(m), Decimal(n);
    var s, t := Count(m) + rest, Count(n) + other;
    assert s[|d|] == COLON && t[|e|] == COLON;
    assert (forall i :: 0 <= i < |d| ==> s[i] == d[i]) && (forall i :: 0 <= i < |e| ==> t[i] == e[i]);
    assert |d| == |e|;
    assert s[..|d|] == d && t[..|e|] == e;
    DecimalInjective(m, n);
    assert s[|d| + 1..] == rest && t[|e| + 1..] == other;
  }

  // ---------------------------------------------------------------- spelling out a sequence piece by piece

  function Spell<T>(piece: T -> seq<Byte>, items: seq<T>): seq<Byte> {
    if items == [] then [] else Spell(piece, items[..|items| - 1]) + piece(items[|items| - 1])
  }

  /** The end of a piece can be told without knowing what follows. */
  ghost predicate PrefixFree<T(!new)>(piece: T -> seq<Byte>) {
    forall x: T, y: T, rest: seq<Byte>, other: seq<Byte> ::
      piece(x) + rest == piece(y) + other ==> x == y && rest == other
  }

  lemma Regroup(a: seq<Byte>, b: seq<Byte>, c: seq<Byte>)
    ensures a + (b + c) == a + b + c
  {
  }

  lemma LastOfSum<T>(s: seq<T>, t: seq<T>)
    requires t != []
    ensures (s + t)[..|s + t| - 1] == s + t[..|t| - 1] && (s + t)[|s + t| - 1] == t[|t| - 1]
  {
  }

  lemma {:induction false} SpellAppend<T>(piece: T -> seq<Byte>, items: seq<T>, more: seq<T>)
    ensures Spell(piece, items + more) == Spell(piece, items) + Spell(piece, more)
  {
    if more == [] {
      assert items + more == items;
    } else {
      var last := |more| - 1;
      SpellAppend(piece, items, more[..last]);
      LastOfSum(items, more);
      Regroup(Spell(piece, items), Spell(piece, more[..last]), piece(more[last]));
    }
  }

  lemma SpellFirst<T>(piece: T -> seq<Byte>, items: seq<T>, rest: seq<Byte>)
    requires items != []
    ensures Spell(piece, items) + rest == piece(items[0]) + (Spell(piece, items[1..]) + rest)
  {
    SpellAppend(piece, [items[0]], items[1..]);
    assert [items[0]] + items[1..] == items;
    assert Spell(piece, [items[0]]) == Spell(piece, []) + piece(items[0]) == piece(items[0]);
    Regroup(piece(items[0]), Spell(piece, items[1..]), rest);
  }

  /** Once the number of pieces is known, their spelling ends at one place only. */
  lemma {:induction false} SpellIsPrefixFree<T(!new)>(piece: T -> seq<Byte>, items: seq<T>, twins: seq<T>,
                                                      rest: seq<Byte>, other: seq<Byte>)
    requires PrefixFree(piece) && |items| == |twins|
    requires Spell(piece, items) + rest == Spell(piece, twins) + other
    ensures items == twins && rest == other
  {
    if items == [] {
      assert [] + rest == rest && [] + other == other;
    } else {
      SpellFirst(piece, items, rest);
      SpellFirst(piece, twins, other);
      SpellIsPrefixFree(piece, items[1..], twins[1..], rest, other);
      assert items == [items[0]] + items[1..] && twins == [twins[0]] + twins[1..];
    }
  }

  // ---------------------------------------------------------------- UTF-8 with surrogates passed through

  function Continuation(bits: int): Byte
    requires 0 <= bits < 64
  {
    0x80 + bits
  }

  function EncodeOne(c: CodePoint): seq<Byte> {
    if c < 0x80 then [c]
    else if c < 0x800 then [0xC0 + c / 64, Continuation(c % 64)]
    else if c < 0x10000 then [0xE0 + c / 64 / 64, Continuation(c / 64 % 64), Continuation(c % 64)]
    else [0xF0 + c / 64 / 64 / 64, Continuation(c / 64 / 64 % 64), Continuation(c / 64 % 64), Continuation(c % 64)]
  }

  function Encode(text: PyText): seq<Byte> {
    Spell(EncodeOne, text)
  }

  /** How many bytes a character takes, by its first byte. */
  function Width(first: Byte): nat {
    if first < 0x80 then 1 else if first < 0xE0 then 2 else if first < 0xF0 then 3 else 4
  }

  function Bits(byte: Byte, marker: int): int {
    byte as int - marker
  }

  function DecodeOne(bytes: seq<Byte>): int {
    if |bytes| == 1 then bytes[0]
    else if |bytes| == 2 then Bits(bytes[0], 0xC0) * 64 + Bits(bytes[1], 0x80)
    else if |bytes| == 3 then (Bits(bytes[0], 0xE0) * 64 + Bits(bytes[1], 0x80)) * 64 + Bits(bytes[2], 0x80)
    else if |bytes| == 4 then
      ((Bits(bytes[0], 0xF0) * 64 + Bits(bytes[1], 0x80)) * 64 + Bits(bytes[2], 0x80)) * 64 + Bits(bytes[3], 0x80)
    else 0
  }

  lemma DecodeEncoded(c: CodePoint)
    ensures DecodeOne(EncodeOne(c)) == c
    ensures |EncodeOne(c)| == Width(EncodeOne(c)[0])
  {
    var q := c / 64;
    assert c == q * 64 + c % 64;
    assert q == q / 64 * 64 + q % 64;
  }

  lemma OneIsPrefixFree(c: CodePoint, d: CodePoint, rest: seq<Byte>, other: seq<Byte>)
    requires EncodeOne(c) + rest == EncodeOne(d) + other
    ensures c == d && rest == other
  {
    var s, t := EncodeOne(c) + rest, EncodeOne(d) + other;
    DecodeEncoded(c);
    DecodeEncoded(d);
    assert s[0] == EncodeOne(c)[0] && t[0] == EncodeOne(d)[0];
    var w := |EncodeOne(c)|;
    assert s[..w] == EncodeOne(c) && t[..w] == EncodeOne(d);
    assert s[w..] == rest && t[w..] == other;
  }

  lemma EncodeIsPrefixFree(text: PyText, twin: PyText, rest: seq<Byte>, other: seq<Byte>)
    requires |text| == |twin| && Encode(text) + rest == Encode(twin) + other
    ensures text == twin && rest == other
  {
    forall c: CodePoint, d: CodePoint, r: seq<Byte>, o: seq<Byte> | EncodeOne(c) + r == EncodeOne(d) + o
      ensures c == d && r == o
    {
      OneIsPrefixFree(c, d, r, o);
    }
    SpellIsPrefixFree(EncodeOne, text, twin, rest, other);
  }

  // ---------------------------------------------------------------- fields, messages, lists

  /** The length prefix counts characters, not bytes. */
  function Field(value: PyText): seq<Byte> {
    Count(|value|) + (Encode(value) + [SEMICOLON])
  }

  lemma FieldIsPrefixFree(value: PyText, twin: PyText, rest: seq<Byte>, other: seq<Byte>)
    requires Field(value) + rest == Field(twin) + other
    ensures value == twin && rest == other
  {
    SplitField(value, rest);
    SplitField(twin, other);
    var after, otherAfter := [SEMICOLON] + rest, [SEMICOLON] + other;
    CountIsPrefixFree(|value|, |twin|, Encode(value) + after, Encode(twin) + otherAfter);
    EncodeIsPrefixFree(value, twin, after, otherAfter);
    assert after[1..] == rest && otherAfter[1..] == other;
  }

  lemma SplitField(value: PyText, rest: seq<Byte>)
    ensures Field(value) + rest == Count(|value|) + (Encode(value) + ([SEMICOLON] + rest))
  {
    Regroup(Count(|value|), Encode(value) + [SEMICOLON], rest);
    Regroup(Encode(value), [SEMICOLON], rest);
  }

  /** The replay identity of a message, its names, and its normalised timestamp ("" when untrusted). */
  datatype Message = Message(role: PyText, content: PyText, toolCallId: PyText, toolCalls: PyText,
                             name: PyText, toolName: PyText, observedAt: PyText)

  function FieldsOf(m: Message): seq<PyText> {
    [m.role, m.content, m.toolCallId, m.toolCalls, m.name, m.toolName, m.observedAt]
  }

  function Fields(values: seq<PyText>): seq<Byte> {
    Spell(Field, values)
  }

  lemma FieldsArePrefixFree(values: seq<PyText>, twins: seq<PyText>, rest: seq<Byte>, other: seq<Byte>)
    requires |values| == |twins| && Fields(values) + rest == Fields(twins) + other
    ensures values == twins && rest == other
  {
    forall v: PyText, w: PyText, r: seq<Byte>, o: seq<Byte> | Field(v) + r == Field(w) + o ensures v == w && r == o {
      FieldIsPrefixFree(v, w, r, o);
    }
    SpellIsPrefixFree(Field, values, twins, rest, other);
  }

  function AllFields(messages: seq<Message>): seq<PyText> {
    if messages == [] then [] else AllFields(messages[..|messages| - 1]) + FieldsOf(messages[|messages| - 1])
  }

  lemma {:induction false} AllFieldsInjective(messages: seq<Message>, twins: seq<Message>)
    requires |messages| == |twins| && AllFields(messages) == AllFields(twins)
    ensures messages == twins
  {
    if messages != [] {
      var last := |messages| - 1;
      var m, t := messages[last], twins[last];
      var s, u := AllFields(messages), AllFields(twins);
      assert s[|s| - 7..] == FieldsOf(m) && u[|u| - 7..] == FieldsOf(t);
      assert FieldsOf(m) == FieldsOf(t);
      SameFieldsSameMessage(m, t);
      assert s[..|s| - 7] == AllFields(messages[..last]) && u[..|u| - 7] == AllFields(twins[..last]);
      AllFieldsInjective(messages[..last], twins[..last]);
      assert messages == messages[..last] + [m] && twins == twins[..last] + [t];
    }
  }

  lemma SameFieldsSameMessage(m: Message, t: Message)
    requires FieldsOf(m) == FieldsOf(t)
    ensures m == t
  {
    var f, g := FieldsOf(m), FieldsOf(t);
    assert f[0] == g[0] && f[1] == g[1] && f[2] == g[2] && f[3] == g[3] && f[4] == g[4] && f[5] == g[5] && f[6] == g[6];
  }

  lemma {:induction false} FieldCount(messages: seq<Message>)
    ensures |AllFields(messages)| == 7 * |messages|
  {
    if messages != [] {
      FieldCount(messages[..|messages| - 1]);
    }
  }

  function MessageStream(messages: seq<Message>): seq<Byte> {
    Count(|messages|) + Fields(AllFields(messages))
  }

  /** Two message lists have the same identity only if they are the same list. */
  lemma MessageStreamInjective(messages: seq<Message>, twins: seq<Message>)
    requires MessageStream(messages) == MessageStream(twins)
    ensures messages == twins
  {
    CountIsPrefixFree(|messages|, |twins|, Fields(AllFields(messages)), Fields(AllFields(twins)));
    FieldCount(messages);
    FieldCount(twins);
    assert Fields(AllFields(messages)) + [] == Fields(AllFields(twins)) + [];
    FieldsArePrefixFree(AllFields(messages), AllFields(twins), [], []);
    AllFieldsInjective(messages, twins);
  }

  // ---------------------------------------------------------------- the incremental digest

  /** The hash object: what has been fed to it so far. */
  class Digest {
    var stream: seq<Byte>

    constructor ()
      ensures stream == []
    {
      stream := [];
    }

    method Update(bytes: seq<Byte>)
      modifies this
      ensures stream == old(stream) + bytes
    {
      stream := stream + bytes;
    }

    /** Feeds the characters slice by slice. */
    method UpdateSlices(value: PyText)
      modifies this
      ensures stream == old(stream) + Encode(value)
    {
      var offset := 0;
      while offset < |value|
        invariant 0 <= offset
        invariant stream == old(stream) + Encode(value[..Reached(value, offset)])
      {
        var end := if offset + SLICE < |value| then offset + SLICE else |value|;
        SpellAppend(EncodeOne, value[..offset], value[offset..end]);
        assert value[..offset] + value[offset..end] == value[..end];
        Regroup(old(stream), Encode(value[..offset]), Encode(value[offset..end]));
        Update(Encode(value[offset..end]));
        offset := offset + SLICE;
      }
      assert value[..|value|] == value;
    }

    /** Feeds one length-prefixed field. */
    method UpdateField(value: PyText)
      modifies this
      ensures stream == old(stream) + Field(value)
    {
      Update(Count(|value|));
      UpdateSlices(value);
      Update([SEMICOLON]);
      Regroup(old(stream), Count(|value|), Encode(value) + [SEMICOLON]);
      Regroup(old(stream) + Count(|value|), Encode(value), [SEMICOLON]);
    }
  }

  function Reached(value: PyText, offset: nat): nat {
    if offset < |value| then offset else |value|
  }

  /** `_cleanup_handoff_message_identity`: what the digest of a message list is computed from. */
  method MessageIdentity(messages: seq<Message>) returns (identity: seq<Byte>)
    ensures identity == MessageStream(messages)
  {
    var digest := new Digest();
    digest.Update(Count(|messages|));
    for n := 0 to |messages|
      invariant digest.stream == Count(|messages|) + Fields(AllFields(messages[..n]))
    {
      FeedMessage(digest, messages[n]);
      FeedOne(messages, n);
    }
    assert messages[..|messages|] == messages;
    identity := digest.stream;
  }

  lemma FeedOne(messages: seq<Message>, n: nat)
    requires n < |messages|
    ensures Count(|messages|) + Fields(AllFields(messages[..n])) + Fields(FieldsOf(messages[n]))
      == Count(|messages|) + Fields(AllFields(messages[..n + 1]))
  {
    SpellAppend(Field, AllFields(messages[..n]), FieldsOf(messages[n]));
    assert messages[..n + 1][..n] == messages[..n];
    Regroup(Count(|messages|), Fields(AllFields(messages[..n])), Fields(FieldsOf(messages[n])));
  }

  method FeedMessage(digest: Digest, m: Message)
    modifies digest
    ensures digest.stream == old(digest.stream) + Fields(FieldsOf(m))
  {
    var fields := FieldsOf(m);
    for k := 0 to |fields|
      invariant digest.stream == old(digest.stream) + Fields(fields[..k])
    {
      digest.UpdateField(fields[k]);
      assert fields[..k + 1][..k] == fields[..k];
    }
    assert fields[..|fields|] == fields;
  }
}
