/**
 One bounded retrieval: evidence and leads gathered round by round under hard budgets. Dictionaries
 keyed by citation or lead id are modelled as lists in insertion order without repeated keys.
 */
module RetrievalModel {
  import opened Wrappers
  import opened Text

  const MAX_RETRIEVAL_ROUNDS: nat := 3
  const MAX_CANDIDATE_REFS: nat := 40
  const MAX_SEARCH_LEADS: nat := 24
  const MAX_CONTEXT_TOKENS: nat := 7500
  const MAX_CONTEXT_CHARS: nat := 40000
  const MAX_REQUIREMENTS: nat := 12
  const MAX_EVIDENCE_CHARS: nat := 2400
  const MAX_STUB_CHARS: nat := 8192

  datatype Requirement = Requirement(slot: string, minimum: nat)

  datatype Evidence = Evidence(citation: string, quote: string, assertionId: string, tokens: nat, chars: nat)

  datatype Lead = Lead(id: string, tokens: nat, chars: nat)

  datatype Round = Round(number: nat, slot: string, newRefs: seq<string>, newLeads: seq<string>, truncated: bool)

  datatype Status = Active | Ready | Fallback | Finished | Abandoned

  datatype State = State(requirements: seq<Requirement>, candidates: seq<Evidence>, leads: seq<Lead>,
                         slotRefs: map<string, seq<string>>, rounds: seq<Round>, status: Status,
                         tokens: nat, chars: nat, exhausted: bool, reason: string, updatedAt: real)

  // ---------------------------------------------------------------- lookups and sums

  predicate Observed(candidates: seq<Evidence>, citation: string) {
    exists i :: 0 <= i < |candidates| && candidates[i].citation == citation
  }

  predicate HasLead(leads: seq<Lead>, id: string) {
    exists i :: 0 <= i < |leads| && leads[i].id == id
  }

  function EvidenceTokens(items: seq<Evidence>): nat {
    if items == [] then 0 else EvidenceTokens(items[..|items| - 1]) + items[|items| - 1].tokens
  }

  function EvidenceChars(items: seq<Evidence>): nat {
    if items == [] then 0 else EvidenceChars(items[..|items| - 1]) + items[|items| - 1].chars
  }

  function LeadTokens(items: seq<Lead>): nat {
    if items == [] then 0 else LeadTokens(items[..|items| - 1]) + items[|items| - 1].tokens
  }

  function LeadChars(items: seq<Lead>): nat {
    if items == [] then 0 else LeadChars(items[..|items| - 1]) + items[|items| - 1].chars
  }

  function Citations(items: seq<Evidence>): seq<string> {
    seq(|items|, i requires 0 <= i < |items| => items[i].citation)
  }

  // ---------------------------------------------------------------- slots

  /** An item of `resolved_slots`, or one that is not an object with a slot and a bounded list of refs. */
  datatype Resolution = Resolution(slot: string, refs: seq<string>) | Malformed

  predicate IsSlot(s: State, slot: string) {
    exists i :: 0 <= i < |s.requirements| && s.requirements[i].slot == slot
  }

  predicate IsOpen(s: State, r: Requirement) {
    r.slot in s.slotRefs ==> |s.slotRefs[r.slot]| < r.minimum
  }

  predicate IsOpenSlot(s: State, slot: string) {
    exists i :: 0 <= i < |s.requirements| && s.requirements[i].slot == slot && IsOpen(s, s.requirements[i])
  }

  predicate AllClosed(s: State) {
    forall i :: 0 <= i < |s.requirements| ==> !IsOpen(s, s.requirements[i])
  }

  /** Files observed refs under a slot, up to the first unobserved one; false when there is one. */
  function FileRefs(s: State, slot: string, refs: seq<string>): (State, bool)
    requires slot in s.slotRefs
    decreases |refs|
  {
    if refs == [] then (s, true)
    else
      var ref := Strip(refs[0]);
      if !Observed(s.candidates, ref) then (s, false)
      else if ref in s.slotRefs[slot] then FileRefs(s, slot, refs[1..])
      else FileRefs(s.(slotRefs := s.slotRefs[slot := s.slotRefs[slot] + [ref]]), slot, refs[1..])
  }

  /** Applies resolutions one by one; an error keeps what was applied before it. */
  function ApplyItems(s: State, items: seq<Resolution>): (State, bool)
    decreases |items|
  {
    if items == [] then (s, true)
    else if items[0].Malformed? then (s, false)
    else
      var slot := Lower(Strip(items[0].slot));
      if !IsSlot(s, slot) || slot !in s.slotRefs || items[0].refs == [] || |items[0].refs| > MAX_CANDIDATE_REFS then (s, false)
      else
        var (filed, ok) := FileRefs(s, slot, items[0].refs);
        if ok then ApplyItems(filed, items[1..]) else (filed, false)
  }

  function ApplyResolutions(s: State, items: seq<Resolution>): (State, bool) {
    if |items| > MAX_REQUIREMENTS then (s, false) else ApplyItems(s, items)
  }

  // ---------------------------------------------------------------- search

  predicate FitsEvidence(s: State, e: Evidence) {
    |s.candidates| < MAX_CANDIDATE_REFS && s.tokens + e.tokens <= MAX_CONTEXT_TOKENS
    && s.chars + e.chars <= MAX_CONTEXT_CHARS
  }

  function WithEvidence(s: State, e: Evidence): State {
    s.(candidates := s.candidates + [e], tokens := s.tokens + e.tokens, chars := s.chars + e.chars)
  }

  datatype Admitted<T> = Admitted(state: State, items: seq<T>, truncated: bool)

  /** Takes new evidence in order until one item would break a budget. */
  function AdmitEvidence(s: State, found: seq<Evidence>): Admitted<Evidence>
    decreases |found|
  {
    if found == [] then Admitted(s, [], false)
    else if Observed(s.candidates, found[0].citation) then AdmitEvidence(s, found[1..])
    else if !FitsEvidence(s, found[0]) then Admitted(s.(exhausted := true), [], true)
    else
      var rest := AdmitEvidence(WithEvidence(s, found[0]), found[1..]);
      rest.(items := [found[0]] + rest.items)
  }

  predicate FitsLead(s: State, l: Lead) {
    |s.leads| < MAX_SEARCH_LEADS && s.tokens + l.tokens <= MAX_CONTEXT_TOKENS && s.chars + l.chars <= MAX_CONTEXT_CHARS
  }

  function WithLead(s: State, l: Lead): State {
    s.(leads := s.leads + [l], tokens := s.tokens + l.tokens, chars := s.chars + l.chars)
  }

  function AdmitLeads(s: State, found: seq<Lead>): Admitted<Lead>
    decreases |found|
  {
    if found == [] then Admitted(s, [], false)
    else if HasLead(s.leads, found[0].id) then AdmitLeads(s, found[1..])
    else if !FitsLead(s, found[0]) then Admitted(s.(exhausted := true), [], true)
    else
      var rest := AdmitLeads(WithLead(s, found[0]), found[1..]);
      rest.(items := [found[0]] + rest.items)
  }

  function LeadIds(items: seq<Lead>): seq<string> {
    seq(|items|, i requires 0 <= i < |items| => items[i].id)
  }

  /** What a dispatched tool gave, or the error it raised or answered with. */
  datatype ToolAnswer = ToolAnswer(evidence: seq<Evidence>, leads: seq<Lead>, error: string)

  /** Nothing is taken from an answer with an error. */
  function EvidenceIn(answer: ToolAnswer): seq<Evidence> {
    if answer.error == "" then answer.evidence else []
  }

  function LeadsIn(answer: ToolAnswer): seq<Lead> {
    if answer.error == "" then answer.leads else []
  }

  function NoProgress(error: string): string {
    if error == "" then "retrieval made no exact-evidence progress" else "retrieval made no exact-evidence progress: " + error
  }

  function AfterRound(s: State, slot: string, answer: ToolAnswer, now: real): State {
    var evidence := AdmitEvidence(s, EvidenceIn(answer));
    var leads := AdmitLeads(evidence.state, LeadsIn(answer));
    var recorded := leads.state.(
      rounds := s.rounds + [Round(|s.rounds| + 1, slot, Citations(evidence.items), LeadIds(leads.items),
                                  evidence.truncated || leads.truncated)],
      updatedAt := now);
    if evidence.items == [] && leads.items == [] then
      recorded.(status := Fallback, reason := NoProgress(answer.error))
    else if |recorded.rounds| >= MAX_RETRIEVAL_ROUNDS then recorded.(exhausted := true)
    else recorded
  }

  datatype SearchCall = SearchCall(resolutions: seq<Resolution>, missingSlot: string, argumentsValid: bool,
                                   answer: ToolAnswer, now: real)

  /** The state after a search, and whether the call returned rather than raised. */
  function Search(s: State, call: SearchCall): (State, bool) {
    if s.status != Active then (s, false)
    else
      var (resolved, ok) := ApplyResolutions(s, call.resolutions);
      var slot := Lower(Strip(call.missingSlot));
      if !ok || !IsOpenSlot(resolved, slot) then (resolved, false)
      else if resolved.exhausted || |resolved.rounds| >= MAX_RETRIEVAL_ROUNDS then
        (resolved.(exhausted := true, reason := "retrieval round budget exhausted"), false)
      else if !call.argumentsValid then (resolved, false)
      else (AfterRound(resolved, slot, call.answer, call.now), true)
  }

  // ---------------------------------------------------------------- finish

  datatype Operand = ByAssertion(id: string, quote: string) | ByRef(citation: string, quote: string) | BadOperand

  datatype ComputeAnswer = Raised | NotObject | Answered(computed: bool, reason: string)

  /** The computation argument of a call, with the answer its dispatch would give. */
  datatype Computation = NoComputation | BadComputation | Compute(operands: seq<Operand>, answer: ComputeAnswer)

  datatype Selection = Default | Chosen(refs: seq<string>) | NotAList

  datatype FinishCall = FinishCall(resolutions: seq<Resolution>, selection: Selection, computation: Computation, now: real)

  /** `dict.fromkeys`: first occurrences, in order. */
  function Distinct(refs: seq<string>): seq<string> {
    if refs == [] then []
    else
      var front := Distinct(refs[..|refs| - 1]);
      if refs[|refs| - 1] in front then front else front + [refs[|refs| - 1]]
  }

  function StripAll(refs: seq<string>): seq<string> {
    seq(|refs|, i requires 0 <= i < |refs| => Strip(refs[i]))
  }

  function FiledRefs(s: State, n: nat): seq<string>
    requires n <= |s.requirements|
  {
    if n == 0 then []
    else
      var slot := s.requirements[n - 1].slot;
      FiledRefs(s, n - 1) + if slot in s.slotRefs then s.slotRefs[slot] else []
  }

  function SelectedRefs(s: State, selection: Selection): seq<string> {
    match selection
    case Default => Distinct(FiledRefs(s, |s.requirements|))
    case Chosen(refs) =>
      if refs == [] then Distinct(FiledRefs(s, |s.requirements|)) else Distinct(StripAll(refs))
    case NotAList => []
  }

  function ToSet(refs: seq<string>): set<string> {
    set r | r in refs
  }

  /** Enough distinct selected refs were filed under the slot. */
  predicate Meets(s: State, refs: seq<string>, r: Requirement) {
    r.slot in s.slotRefs && |ToSet(refs) * ToSet(s.slotRefs[r.slot])| >= r.minimum
  }

  predicate ValidSelection(s: State, refs: seq<string>) {
    && 1 <= |refs| <= MAX_CANDIDATE_REFS
    && (forall i :: 0 <= i < |refs| ==> Observed(s.candidates, refs[i]))
    && (forall i :: 0 <= i < |s.requirements| ==> Meets(s, refs, s.requirements[i]))
  }

  function WithAssertion(candidates: seq<Evidence>, id: string): seq<Evidence> {
    if candidates == [] then []
    else
      WithAssertion(candidates[..|candidates| - 1], id)
      + if candidates[|candidates| - 1].assertionId == id then [candidates[|candidates| - 1]] else []
  }

  /** The observed evidence an operand names, if it names exactly one. */
  function Named(s: State, operand: Operand): Option<Evidence> {
    match operand
    case BadOperand => None
    case ByAssertion(id, _) =>
      var found := WithAssertion(s.candidates, id);
      if |found| == 1 then Some(found[0]) else None
    case ByRef(citation, _) => FindEvidence(s.candidates, citation)
  }

  function FindEvidence(candidates: seq<Evidence>, citation: string): Option<Evidence> {
    if candidates == [] then None
    else if candidates[|candidates| - 1].citation == citation then Some(candidates[|candidates| - 1])
    else FindEvidence(candidates[..|candidates| - 1], citation)
  }

  predicate ValidOperand(s: State, refs: seq<string>, operand: Operand) {
    && !operand.BadOperand?
    && Named(s, operand).Some?
    && Named(s, operand).value.citation in refs
    && operand.quote == Named(s, operand).value.quote
  }

  predicate ValidComputation(s: State, refs: seq<string>, computation: Computation) {
    match computation
    case NoComputation => true
    case BadComputation => false
    case Compute(operands, answer) =>
      && (forall i :: 0 <= i < |operands| ==> ValidOperand(s, refs, operands[i]))
      && answer.Answered?
  }

  /** The slots of the first `n` requirements that are still open. */
  function OpenSlots(s: State, n: nat): seq<string>
    requires n <= |s.requirements|
  {
    if n == 0 then []
    else OpenSlots(s, n - 1) + if IsOpen(s, s.requirements[n - 1]) then [s.requirements[n - 1].slot] else []
  }

  /** `", ".join` */
  function Joined(parts: seq<string>): string {
    if parts == [] then ""
    else if |parts| == 1 then parts[0]
    else Joined(parts[..|parts| - 1]) + ", " + parts[|parts| - 1]
  }

  function StillOpen(s: State): string {
    "required evidence slots remain open: " + Joined(OpenSlots(s, |s.requirements|))
  }

  const MAX_REASON_CHARS: nat := 1000

  function Cut(text: string, n: nat): string {
    if |text| > n then text[..n] else text
  }

  function Finish(s: State, call: FinishCall): (State, bool) {
    if s.status == Finished || s.status == Abandoned then (s, false)
    else
      var (resolved, ok) := ApplyResolutions(s, call.resolutions);
      if !ok then (resolved, false)
      else if !AllClosed(resolved) then
        (resolved.(status := Fallback, reason := StillOpen(resolved), updatedAt := call.now), true)
      else
        var refs := SelectedRefs(resolved, call.selection);
        if call.selection.NotAList? || !ValidSelection(resolved, refs)
           || !ValidComputation(resolved, refs, call.computation)
        then (resolved, false)
        else if call.computation.Compute? && !call.computation.answer.computed then
          (resolved.(status := Fallback, reason := Cut(call.computation.answer.reason, MAX_REASON_CHARS),
                     updatedAt := call.now), true)
        else (resolved.(status := Finished, reason := "", updatedAt := call.now), true)
  }

  // ---------------------------------------------------------------- start

  predicate ValidRequirements(requirements: seq<Requirement>) {
    && 1 <= |requirements| <= MAX_REQUIREMENTS
    && (forall i :: 0 <= i < |requirements| ==> 1 <= requirements[i].minimum <= MAX_CANDIDATE_REFS)
    && (forall i, j :: 0 <= i < j < |requirements| ==> requirements[i].slot != requirements[j].slot)
    && MinimumTotal(requirements) <= MAX_CANDIDATE_REFS
  }

  function MinimumTotal(requirements: seq<Requirement>): nat {
    if requirements == [] then 0
    else MinimumTotal(requirements[..|requirements| - 1]) + requirements[|requirements| - 1].minimum
  }

  /** A cached query view: its evidence, keyed by citation, and what it filed under each slot. */
  datatype View = View(candidates: seq<Evidence>, slotRefs: map<string, seq<string>>, digestMatches: bool, confirmed: bool)

  /** Each piece of evidence is encoded anew when the view is read; a stub over the limit makes the start raise. */
  predicate IsReadable(view: View) {
    forall i :: 0 <= i < |view.candidates| ==> view.candidates[i].chars <= MAX_STUB_CHARS
  }

  function EmptySlots(requirements: seq<Requirement>): map<string, seq<string>> {
    map i | 0 <= i < |requirements| :: requirements[i].slot := []
  }

  function ViewSlots(requirements: seq<Requirement>, view: View): map<string, seq<string>> {
    map i | 0 <= i < |requirements| :: requirements[i].slot :=
      if requirements[i].slot in view.slotRefs then view.slotRefs[requirements[i].slot] else []
  }

  /** What a dictionary keyed by citation holds. */
  predicate DistinctCitations(items: seq<Evidence>) {
    forall i, j :: 0 <= i < j < |items| ==> items[i].citation != items[j].citation
  }

  predicate ViewSlotFits(view: View, r: Requirement) {
    && (r.slot in view.slotRefs ==>
          forall i :: 0 <= i < |view.slotRefs[r.slot]| ==> Observed(view.candidates, view.slotRefs[r.slot][i]))
    && |if r.slot in view.slotRefs then view.slotRefs[r.slot] else []| >= r.minimum
  }

  predicate ViewFits(requirements: seq<Requirement>, view: View) {
    && view.digestMatches
    && |view.candidates| <= MAX_CANDIDATE_REFS
    && EvidenceTokens(view.candidates) <= MAX_CONTEXT_TOKENS
    && EvidenceChars(view.candidates) <= MAX_CONTEXT_CHARS
    && (forall i :: 0 <= i < |requirements| ==> ViewSlotFits(view, requirements[i]))
  }

  function Start(requirements: seq<Requirement>, view: Option<View>, now: real): State {
    var empty := State(requirements, [], [], EmptySlots(requirements), [], Active, 0, 0, false, "", now);
    if view.Some? && ViewFits(requirements, view.value) && view.value.confirmed then
      empty.(candidates := view.value.candidates, slotRefs := ViewSlots(requirements, view.value), status := Ready,
              tokens := EvidenceTokens(view.value.candidates), chars := EvidenceChars(view.value.candidates))
    else empty
  }

  // ---------------------------------------------------------------- exact quotes

  datatype Item = Explicit(start: Option<int>, end: Option<int>, quote: string) | Implicit(offset: Option<int>, content: string)

  predicate OccursAt(content: string, quote: string, at: int) {
    0 <= at && at + |quote| <= |content| && content[at..at + |quote|] == quote
  }

  /** `content.find(quote, lo)`, -1 when there is none. */
  function Find(content: string, quote: string, lo: nat): (at: int)
    requires lo <= |content| + 1
    ensures at == -1 || (lo <= at && OccursAt(content, quote, at))
    ensures forall p :: lo <= p && OccursAt(content, quote, p) ==> at != -1 && at <= p
    decreases |content| + 1 - lo
  {
    if lo + |quote| > |content| then -1
    else if OccursAt(content, quote, lo) then lo
    else Find(content, quote, lo + 1)
  }

  datatype Exact = Exact(start: nat, end: nat, quote: string)

  function Bounded(quote: string): string {
    if |quote| > MAX_EVIDENCE_CHARS then quote[..MAX_EVIDENCE_CHARS] else quote
  }

  /** The span at which an item quotes the stored content, or nothing when it does not quote it exactly. */
  function Located(content: string, item: Item): Option<Exact> {
    match item
    case Explicit(start, end, whole) =>
      var quote := Bounded(whole);
      if quote == "" || start.None? || end.None? || end.value - start.value < |quote|
         || !OccursAt(content, quote, start.value)
      then None
      else Some(Exact(start.value, start.value + |quote|, quote))
    case Implicit(offset, whole) =>
      var quote := Bounded(whole);
      if quote == "" || offset.None? then None
      else if OccursAt(content, quote, offset.value) then Some(Exact(offset.value, offset.value + |quote|, quote))
      else
        var first := Find(content, quote, 0);
        if first < 0 || Find(content, quote, first + 1) >= 0 then None
        else Some(Exact(first, first + |quote|, quote))
  }

  predicate IsHex(c: char) {
    '0' <= c <= '9' || 'a' <= c <= 'f'
  }

  /** No assertion id, or the 64 hex digits of one. */
  predicate ValidAssertionId(text: string) {
    var id := Lower(Strip(text));
    id == "" || (|id| == 64 && forall i :: 0 <= i < |id| ==> IsHex(id[i]))
  }

  /** A candidate, nothing, or the error raised for an evidence stub over its limit. */
  datatype Outcome = Quoted(exact: Exact) | Refused | StubTooLong

  /** `stubChars` is the length of the stub that would carry a quote at its span. */
  function CandidateFromItem(content: string, item: Item, assertionId: string, stubChars: Exact -> nat): Outcome {
    match Located(content, item)
    case None => Refused
    case Some(exact) =>
      if !ValidAssertionId(assertionId) then Refused
      else if stubChars(exact) > MAX_STUB_CHARS then StubTooLong
      else Quoted(exact)
  }

  /** The quote stands at a position exactly when the content is some text of that length, the quote, and a rest. */
  lemma OccursIff(content: string, quote: string, at: int)
    ensures OccursAt(content, quote, at) <==> exists front: string, back: string :: content == front + quote + back && |front| == at
  {
    if OccursAt(content, quote, at) {
      assert content == content[..at] + quote + content[at + |quote|..];
    }
    if front: string, back: string :| content == front + quote + back && |front| == at {
      assert content[at..at + |quote|] == quote;
    }
  }

  /** An assertion id is absent, or 64 lower-case hex digits once stripped and lowered. */
  lemma AssertionIdIff(text: string)
    ensures ValidAssertionId(text) <==>
      var id := Lower(Strip(text));
      |id| == 0 || (|id| == 64 && forall c :: c in id ==> c in "0123456789abcdef")
  {
    var id := Lower(Strip(text));
    assert forall c :: c in "0123456789abcdef" <==> IsHex(c) by {
      forall c ensures c in "0123456789abcdef" <==> IsHex(c) {
        HexDigit(c);
      }
    }
    if ValidAssertionId(text) && id != "" {
      forall c | c in id ensures c in "0123456789abcdef" {
        var i :| 0 <= i < |id| && id[i] == c;
        assert IsHex(id[i]);
      }
    }
  }

  lemma HexDigit(c: char)
    ensures c in "0123456789abcdef" <==> IsHex(c)
  {
    var digits := "0123456789abcdef";
    if '0' <= c <= '9' {
      assert digits[(c - '0') as int] == c;
    } else if 'a' <= c <= 'f' {
      assert digits[(c - 'a') as int + 10] == c;
    }
  }

  /** Every candidate is a bounded verbatim quote; a span that was not declared must be the offset given or the only occurrence. */
  lemma CandidateIsExact(content: string, item: Item, assertionId: string, stubChars: Exact -> nat)
    requires CandidateFromItem(content, item, assertionId, stubChars).Quoted?
    ensures var e := CandidateFromItem(content, item, assertionId, stubChars).exact;
      && 0 < |e.quote| <= 2400 && e.end == e.start + |e.quote| <= |content| && content[e.start..e.end] == e.quote
      && stubChars(e) <= MAX_STUB_CHARS
      && (match item
          case Explicit(start, end, whole) => e.quote <= whole && start == Some(e.start) && e.end <= end.value
          case Implicit(offset, whole) =>
            && e.quote <= whole
            && (offset == Some(e.start) || forall p :: OccursAt(content, e.quote, p) ==> p == e.start))
  {
  }

  ghost predicate OccursOnce(content: string, quote: string) {
    exists p :: OccursAt(content, quote, p) && forall q :: OccursAt(content, quote, q) ==> q == p
  }

  /** `find` from the start finds the quote, and from just behind it finds no other. */
  predicate FoundOnce(content: string, quote: string) {
    var first := Find(content, quote, 0);
    first >= 0 && Find(content, quote, first + 1) < 0
  }

  lemma FoundOnceIff(content: string, quote: string)
    ensures FoundOnce(content, quote) <==> OccursOnce(content, quote)
  {
    var first := Find(content, quote, 0);
    if first >= 0 {
      var second := Find(content, quote, first + 1);
      if second >= 0 {
        assert OccursAt(content, quote, first) && OccursAt(content, quote, second) && first != second;
      } else {
        assert forall q :: OccursAt(content, quote, q) ==> q == first;
      }
    } else {
      assert forall p :: !OccursAt(content, quote, p);
    }
  }

  lemma ImplicitCandidate(content: string, offset: Option<int>, whole: string)
    ensures Located(content, Implicit(offset, whole)).Some? <==>
      whole != "" && offset.Some?
      && (OccursAt(content, Bounded(whole), offset.value) || FoundOnce(content, Bounded(whole)))
  {
  }

  /**
   Nothing exact is lost: without a span an item is refused exactly when its quote stands neither at
   its offset nor at one place only, or its assertion id is malformed. Otherwise it is a candidate
   unless its stub is too long, and then the call raises.
   */
  lemma ExactQuotesAreAccepted(content: string, offset: Option<int>, whole: string, assertionId: string,
                               stubChars: Exact -> nat)
    ensures var item := Implicit(offset, whole);
      var outcome := CandidateFromItem(content, item, assertionId, stubChars);
      && (!outcome.Refused? <==>
            && whole != "" && offset.Some?
            && (OccursAt(content, Bounded(whole), offset.value) || OccursOnce(content, Bounded(whole)))
            && ValidAssertionId(assertionId))
      && (!outcome.Refused? ==>
            && Located(content, item).Some?
            && (outcome.Quoted? <==> stubChars(Located(content, item).value) <= MAX_STUB_CHARS))
  {
    ImplicitCandidate(content, offset, whole);
    FoundOnceIff(content, Bounded(whole));
  }
}
