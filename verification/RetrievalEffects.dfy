/** What one call does to a retrieval: when it returns, what it records, and when a retrieval stops searching. */
module RetrievalEffects {
  import opened Wrappers
  import opened Text
  import opened RetrievalModel
  import opened RetrievalBudget

  // ---------------------------------------------------------------- resolving slots

  /** One item that can be applied: a required slot, and between one and forty refs to observed evidence. */
  ghost predicate Applicable(s: State, item: Resolution) {
    && item.Resolution? && IsSlot(s, Lower(Strip(item.slot))) && Lower(Strip(item.slot)) in s.slotRefs
    && 1 <= |item.refs| <= 40
    && forall i :: 0 <= i < |item.refs| ==> Observed(s.candidates, Strip(item.refs[i]))
  }

  ghost predicate AllApplicable(s: State, items: seq<Resolution>) {
    forall k :: 0 <= k < |items| ==> Applicable(s, items[k])
  }

  ghost predicate AllObserved(s: State, refs: seq<string>) {
    forall i :: 0 <= i < |refs| ==> Observed(s.candidates, Strip(refs[i]))
  }

  lemma {:induction false} FilesIff(s: State, slot: string, refs: seq<string>)
    requires slot in s.slotRefs
    ensures FileRefs(s, slot, refs).1 <==> AllObserved(s, refs)
    ensures FileRefs(s, slot, refs).0 == s.(slotRefs := FileRefs(s, slot, refs).0.slotRefs)
    ensures FileRefs(s, slot, refs).0.slotRefs.Keys == s.slotRefs.Keys
    decreases |refs|
  {
    if refs != [] && Observed(s.candidates, Strip(refs[0])) {
      var ref := Strip(refs[0]);
      var next := if ref in s.slotRefs[slot] then s else s.(slotRefs := s.slotRefs[slot := s.slotRefs[slot] + [ref]]);
      FilesIff(next, slot, refs[1..]);
      assert next.slotRefs.Keys == s.slotRefs.Keys;
      assert AllObserved(s, refs) <==> AllObserved(next, refs[1..]) by {
        assert forall i :: 0 < i < |refs| ==> refs[i] == refs[1..][i - 1];
      }
    }
  }

  /** A list of resolutions is applied whole exactly when each of its items can be. */
  lemma {:induction false} AppliesIff(s: State, items: seq<Resolution>)
    ensures ApplyItems(s, items).1 <==> AllApplicable(s, items)
    decreases |items|
  {
    if items != [] && items[0].Resolution? && Lower(Strip(items[0].slot)) in s.slotRefs {
      var slot := Lower(Strip(items[0].slot));
      FilesIff(s, slot, items[0].refs);
      var filed := FileRefs(s, slot, items[0].refs).0;
      AppliesIff(filed, items[1..]);
      RestApplicable(s, filed, items);
    }
  }

  lemma RestApplicable(s: State, filed: State, items: seq<Resolution>)
    requires items != [] && filed == s.(slotRefs := filed.slotRefs) && filed.slotRefs.Keys == s.slotRefs.Keys
    ensures AllApplicable(s, items) <==> Applicable(s, items[0]) && AllApplicable(filed, items[1..])
  {
    assert forall k :: 0 < k < |items| ==> items[k] == items[1..][k - 1];
    assert forall item :: item in items ==> (Applicable(filed, item) <==> Applicable(s, item));
  }

  /** Whether they succeed or not, resolutions change nothing but the lists of the slots there are. */
  lemma {:induction false} ApplyingFilesOnly(s: State, items: seq<Resolution>)
    ensures var t := ApplyItems(s, items).0;
      t == s.(slotRefs := t.slotRefs) && t.slotRefs.Keys == s.slotRefs.Keys
    decreases |items|
  {
    if items != [] && items[0].Resolution? && Lower(Strip(items[0].slot)) in s.slotRefs {
      var slot := Lower(Strip(items[0].slot));
      FilesIff(s, slot, items[0].refs);
      ApplyingFilesOnly(FileRefs(s, slot, items[0].refs).0, items[1..]);
    }
  }

  lemma ResolvingFilesOnly(s: State, items: seq<Resolution>)
    ensures var t := ApplyResolutions(s, items).0;
      t == s.(slotRefs := t.slotRefs) && t.slotRefs.Keys == s.slotRefs.Keys
  {
    ApplyingFilesOnly(s, items);
  }

  lemma ResolvesIff(s: State, items: seq<Resolution>)
    ensures ApplyResolutions(s, items).1 <==> |items| <= 12 && AllApplicable(s, items)
  {
    AppliesIff(s, items);
  }

  /** Some item files the ref under the slot. */
  ghost predicate FiledBy(items: seq<Resolution>, slot: string, ref: string) {
    exists k :: 0 <= k < |items| && ItemFiles(items[k], slot, ref)
  }

  ghost predicate ItemFiles(item: Resolution, slot: string, ref: string) {
    item.Resolution? && Lower(Strip(item.slot)) == slot && exists i :: 0 <= i < |item.refs| && Strip(item.refs[i]) == ref
  }

  lemma {:induction false} FilesExactly(s: State, slot: string, refs: seq<string>, other: string, ref: string)
    requires slot in s.slotRefs && other in s.slotRefs && AllObserved(s, refs)
    ensures other in FileRefs(s, slot, refs).0.slotRefs
    ensures ref in FileRefs(s, slot, refs).0.slotRefs[other] <==>
      ref in s.slotRefs[other] || (other == slot && exists i :: 0 <= i < |refs| && Strip(refs[i]) == ref)
    decreases |refs|
  {
    if refs != [] {
      var first := Strip(refs[0]);
      var next := if first in s.slotRefs[slot] then s else s.(slotRefs := s.slotRefs[slot := s.slotRefs[slot] + [first]]);
      assert AllObserved(next, refs[1..]);
      FilesExactly(next, slot, refs[1..], other, ref);
      assert ref in next.slotRefs[other] <==> ref in s.slotRefs[other] || (other == slot && ref == first);
      if i :| 0 <= i < |refs| && Strip(refs[i]) == ref && i > 0 {
        assert refs[1..][i - 1] == refs[i];
      }
    }
  }

  /** After resolutions that succeed a slot holds the refs it held and those filed under it, and no other. */
  lemma {:induction false} SlotsHoldFiled(s: State, items: seq<Resolution>, slot: string, ref: string)
    requires ApplyItems(s, items).1 && slot in s.slotRefs
    ensures slot in ApplyItems(s, items).0.slotRefs
    ensures ref in ApplyItems(s, items).0.slotRefs[slot] <==> ref in s.slotRefs[slot] || FiledBy(items, slot, ref)
    decreases |items|
  {
    if items != [] {
      var first := Lower(Strip(items[0].slot));
      FilesIff(s, first, items[0].refs);
      FilesExactly(s, first, items[0].refs, slot, ref);
      var filed := FileRefs(s, first, items[0].refs).0;
      SlotsHoldFiled(filed, items[1..], slot, ref);
      FiledByRest(items, slot, ref);
    }
  }

  lemma FiledByRest(items: seq<Resolution>, slot: string, ref: string)
    requires items != []
    ensures FiledBy(items, slot, ref) <==> ItemFiles(items[0], slot, ref) || FiledBy(items[1..], slot, ref)
  {
    if k :| 0 <= k < |items| && ItemFiles(items[k], slot, ref) && k > 0 {
      assert items[1..][k - 1] == items[k];
    }
    if k :| 0 <= k < |items[1..]| && ItemFiles(items[1..][k], slot, ref) {
      assert items[k + 1] == items[1..][k];
    }
  }

  // ---------------------------------------------------------------- one search

  /** What the round brought: the evidence and leads behind those held before. */
  function NewEvidence(s: State, t: State): seq<Evidence> {
    if |s.candidates| <= |t.candidates| then t.candidates[|s.candidates|..] else []
  }

  function NewLeads(s: State, t: State): seq<Lead> {
    if |s.leads| <= |t.leads| then t.leads[|s.leads|..] else []
  }

  /**
   A dispatched search adds to what is held and records one round of exactly that. Without anything
   new the retrieval falls back, and says why; otherwise it goes on, exhausted after the third round.
   */
  lemma RoundOutcome(s: State, slot: string, answer: ToolAnswer, now: real)
    ensures var t := AfterRound(s, slot, answer, now);
      && s.candidates <= t.candidates && s.leads <= t.leads
      && |t.rounds| == |s.rounds| + 1
      && var r, idle := t.rounds[|s.rounds|], NewEvidence(s, t) == [] && NewLeads(s, t) == [];
      && t.rounds == s.rounds + [r]
      && r == Round(|s.rounds| + 1, slot, Citations(NewEvidence(s, t)), LeadIds(NewLeads(s, t)), r.truncated)
      && t.requirements == s.requirements && t.slotRefs == s.slotRefs && t.updatedAt == now
      && t.status == (if idle then Fallback else s.status)
      && t.reason == (if !idle then s.reason
                      else if answer.error == "" then "retrieval made no exact-evidence progress"
                      else "retrieval made no exact-evidence progress: " + answer.error)
      && t.exhausted == (s.exhausted || r.truncated || (!idle && |t.rounds| >= 3))
      && (answer.error != "" ==> idle && !r.truncated)
  {
    EvidenceShape(s, EvidenceIn(answer));
    var evidence := AdmitEvidence(s, EvidenceIn(answer));
    LeadsShape(evidence.state, LeadsIn(answer));
    var leads := AdmitLeads(evidence.state, LeadsIn(answer));
    assert leads.state.candidates[|s.candidates|..] == evidence.items;
    assert leads.state.leads[|s.leads|..] == leads.items;
  }

  /** Leads are admitted as greedily as evidence. */
  ghost predicate LeadsStopAt(s: State, found: seq<Lead>, k: nat) {
    var a := AdmitLeads(s, found);
    && k <= |found|
    && (forall i :: 0 <= i < k ==> HasLead(a.state.leads, found[i].id))
    && (a.truncated <==> k < |found|)
    && (k < |found| ==>
          && !HasLead(a.state.leads, found[k].id)
          && (|a.state.leads| >= 24 || a.state.tokens + found[k].tokens > 7500 || a.state.chars + found[k].chars > 40000))
  }

  lemma LeadKnown(leads: seq<Lead>, l: Lead, id: string)
    ensures HasLead(leads + [l], id) <==> HasLead(leads, id) || l.id == id
  {
    if i :| 0 <= i < |leads| && leads[i].id == id {
      assert (leads + [l])[i].id == id;
    }
    if l.id == id {
      assert (leads + [l])[|leads|].id == id;
    }
  }

  lemma {:induction false} LeadAdmissionIsGreedy(s: State, found: seq<Lead>) returns (k: nat)
    ensures LeadsStopAt(s, found, k)
    ensures forall id :: HasLead(s.leads, id) ==> HasLead(AdmitLeads(s, found).state.leads, id)
    decreases |found|
  {
    k := 0;
    if found != [] {
      assert forall i :: 0 < i < |found| ==> found[i] == found[1..][i - 1];
      if HasLead(s.leads, found[0].id) {
        var rest := LeadAdmissionIsGreedy(s, found[1..]);
        k := rest + 1;
      } else if FitsLead(s, found[0]) {
        var next := WithLead(s, found[0]);
        var rest := LeadAdmissionIsGreedy(next, found[1..]);
        forall id ensures HasLead(next.leads, id) <==> HasLead(s.leads, id) || found[0].id == id {
          LeadKnown(s.leads, found[0], id);
        }
        k := rest + 1;
      }
    }
  }

  lemma {:induction false} AdmittedWereFound(s: State, found: seq<Evidence>, e: Evidence)
    ensures e in AdmitEvidence(s, found).items ==> e in found && !Observed(s.candidates, e.citation)
    decreases |found|
  {
    if found != [] {
      if Observed(s.candidates, found[0].citation) {
        AdmittedWereFound(s, found[1..], e);
      } else if FitsEvidence(s, found[0]) {
        AdmittedWereFound(WithEvidence(s, found[0]), found[1..], e);
        ObservedGrows(s.candidates, found[0], e.citation);
      }
    }
  }

  lemma {:induction false} AdmittedLeadsWereFound(s: State, found: seq<Lead>, l: Lead)
    ensures l in AdmitLeads(s, found).items ==> l in found && !HasLead(s.leads, l.id)
    decreases |found|
  {
    if found != [] {
      if HasLead(s.leads, found[0].id) {
        AdmittedLeadsWereFound(s, found[1..], l);
      } else if FitsLead(s, found[0]) {
        AdmittedLeadsWereFound(WithLead(s, found[0]), found[1..], l);
        LeadKnown(s.leads, found[0], l.id);
      }
    }
  }

  ghost predicate NamesOpenSlot(s: State, slot: string) {
    exists i :: 0 <= i < |s.requirements| && s.requirements[i].slot == slot
      && (slot in s.slotRefs ==> |s.slotRefs[slot]| < s.requirements[i].minimum)
  }

  /**
   A search returns exactly for an active retrieval within its rounds whose resolutions all apply, that
   names a slot still open after them and gives the tool valid arguments. One that raises has filed
   refs at most, and has marked the retrieval exhausted only if that is why it raised.
   */
  lemma SearchOutcome(s: State, call: SearchCall)
    ensures var (t, returned) := Search(s, call);
      var resolved, slot := ApplyResolutions(s, call.resolutions).0, Lower(Strip(call.missingSlot));
      var asked := s.status == Active && |call.resolutions| <= 12 && AllApplicable(s, call.resolutions)
                   && NamesOpenSlot(resolved, slot);
      var spent := s.exhausted || |s.rounds| >= 3;
      && (returned <==> asked && !spent && call.argumentsValid)
      && (returned ==> t == AfterRound(resolved, slot, call.answer, call.now))
      && (!returned && asked && spent ==> t == resolved.(exhausted := true, reason := "retrieval round budget exhausted"))
      && (!returned && !(asked && spent) ==> t == if s.status == Active then resolved else s)
  {
    ResolvesIff(s, call.resolutions);
    if s.status == Active {
      ResolvingFilesOnly(s, call.resolutions);
    }
  }

  // ---------------------------------------------------------------- one finish

  /** The open slots are those of requirements with fewer refs than they ask for. */
  lemma {:induction false} OpenSlotsListed(s: State, n: nat, slot: string)
    requires n <= |s.requirements|
    ensures slot in OpenSlots(s, n) <==>
      exists i :: 0 <= i < n && s.requirements[i].slot == slot
        && (slot in s.slotRefs ==> |s.slotRefs[slot]| < s.requirements[i].minimum)
  {
    if n > 0 {
      OpenSlotsListed(s, n - 1, slot);
    }
  }

  /** Without a choice the selection is what is filed under the required slots, otherwise what is chosen, each ref once. */
  lemma SelectionHolds(s: State, refs: seq<string>, r: string)
    ensures r in SelectedRefs(s, Default) <==>
      exists i :: 0 <= i < |s.requirements| && s.requirements[i].slot in s.slotRefs && r in s.slotRefs[s.requirements[i].slot]
    ensures SelectedRefs(s, Chosen([])) == SelectedRefs(s, Default)
    ensures refs != [] ==> (r in SelectedRefs(s, Chosen(refs)) <==> exists i :: 0 <= i < |refs| && Strip(refs[i]) == r)
    ensures Unrepeated(SelectedRefs(s, Default)) && Unrepeated(SelectedRefs(s, Chosen(refs)))
  {
    var filed := FiledRefs(s, |s.requirements|);
    FiledRefsHold(s, |s.requirements|);
    DistinctHolds(filed);
    DistinctHolds(StripAll(refs));
    if refs != [] && r in StripAll(refs) {
      var i :| 0 <= i < |refs| && StripAll(refs)[i] == r;
      assert Strip(refs[i]) == r;
    }
    if i :| 0 <= i < |refs| && Strip(refs[i]) == r {
      assert StripAll(refs)[i] == r;
    }
  }

  ghost predicate Unrepeated(refs: seq<string>) {
    forall i, j :: 0 <= i < j < |refs| ==> refs[i] != refs[j]
  }

  /** Every operand quotes selected evidence verbatim: named by its citation, or as the only one of an assertion. */
  ghost predicate Quotes(s: State, refs: seq<string>, operand: Operand) {
    exists k :: 0 <= k < |s.candidates| && s.candidates[k].citation in refs && QuotesAt(s, operand, k)
  }

  ghost predicate QuotesAt(s: State, operand: Operand, k: nat)
    requires k < |s.candidates|
  {
    match operand
    case BadOperand => false
    case ByRef(citation, quote) => s.candidates[k].citation == citation && s.candidates[k].quote == quote
    case ByAssertion(id, quote) =>
      && s.candidates[k].assertionId == id && s.candidates[k].quote == quote
      && forall j :: 0 <= j < |s.candidates| && s.candidates[j].assertionId == id ==> j == k
  }

  lemma {:induction false} EvidenceFound(candidates: seq<Evidence>, citation: string)
    ensures FindEvidence(candidates, citation).Some? <==> Observed(candidates, citation)
    ensures FindEvidence(candidates, citation).Some? ==>
      exists k :: 0 <= k < |candidates| && candidates[k] == FindEvidence(candidates, citation).value && candidates[k].citation == citation
  {
    if candidates != [] {
      var before := candidates[..|candidates| - 1];
      EvidenceFound(before, citation);
      if candidates[|candidates| - 1].citation != citation {
        if Observed(before, citation) {
          var k :| 0 <= k < |before| && before[k] == FindEvidence(before, citation).value && before[k].citation == citation;
          assert candidates[k] == before[k];
        }
        if k :| 0 <= k < |candidates| && candidates[k].citation == citation {
          assert before[k].citation == citation;
        }
      } else {
        assert candidates[|candidates| - 1].citation == citation;
      }
    }
  }

  lemma {:induction false} AssertionFound(candidates: seq<Evidence>, id: string)
    ensures |WithAssertion(candidates, id)| == 0 <==> forall j :: 0 <= j < |candidates| ==> candidates[j].assertionId != id
    ensures |WithAssertion(candidates, id)| == 1 <==> exists k: nat :: OnlyAt(candidates, id, k)
    ensures forall k: nat :: OnlyAt(candidates, id, k) ==> WithAssertion(candidates, id) == [candidates[k]]
  {
    if candidates != [] {
      var n := |candidates| - 1;
      var before := candidates[..n];
      AssertionFound(before, id);
      if candidates[n].assertionId == id {
        if |WithAssertion(before, id)| == 0 {
          assert OnlyAt(candidates, id, n);
        } else {
          var j :| 0 <= j < |before| && before[j].assertionId == id;
          assert candidates[j].assertionId == id;
        }
        forall k: nat | OnlyAt(candidates, id, k) ensures k == n && WithAssertion(before, id) == [] {
        }
      } else {
        forall k: nat ensures OnlyAt(candidates, id, k) <==> OnlyAt(before, id, k) {
          assert forall j :: 0 <= j < n ==> candidates[j] == before[j];
        }
      }
    }
  }

  ghost predicate OnlyAt(candidates: seq<Evidence>, id: string, k: nat) {
    k < |candidates| && candidates[k].assertionId == id
    && forall j :: 0 <= j < |candidates| && candidates[j].assertionId == id ==> j == k
  }

  /** An operand is valid exactly when it quotes a selected piece of evidence that it names. */
  lemma OperandIff(s: State, refs: seq<string>, operand: Operand)
    requires DistinctCitations(s.candidates)
    ensures ValidOperand(s, refs, operand) <==> Quotes(s, refs, operand)
  {
    match operand
    case BadOperand =>
    case ByRef(citation, quote) =>
      EvidenceFound(s.candidates, citation);
      if Observed(s.candidates, citation) {
        var k :| 0 <= k < |s.candidates| && s.candidates[k] == FindEvidence(s.candidates, citation).value
          && s.candidates[k].citation == citation;
        assert QuotesAt(s, operand, k) <==> s.candidates[k].quote == quote;
      }
    case ByAssertion(id, quote) =>
      AssertionFound(s.candidates, id);
      if k: nat :| OnlyAt(s.candidates, id, k) {
        assert QuotesAt(s, operand, k) <==> s.candidates[k].quote == quote;
      }
  }

  /** A computation is valid when there is none, or every operand is and the tool answers with an object. */
  lemma ComputationIff(s: State, refs: seq<string>, computation: Computation)
    requires DistinctCitations(s.candidates)
    ensures ValidComputation(s, refs, computation) <==>
      || computation.NoComputation?
      || (computation.Compute? && computation.answer.Answered?
          && forall operand :: operand in computation.operands ==> Quotes(s, refs, operand))
  {
    if computation.Compute? {
      forall operand ensures ValidOperand(s, refs, operand) <==> Quotes(s, refs, operand) {
        OperandIff(s, refs, operand);
      }
    }
  }

  /** The ways out of a finish. */
  lemma FinishOutcome(s: State, call: FinishCall)
    ensures var (t, returned) := Finish(s, call);
      var resolved := ApplyResolutions(s, call.resolutions).0;
      var refs := SelectedRefs(resolved, call.selection);
      var open := s.status != Finished && s.status != Abandoned && |call.resolutions| <= 12 && AllApplicable(s, call.resolutions);
      var settled := !call.selection.NotAList? && ValidSelection(resolved, refs) && ValidComputation(resolved, refs, call.computation);
      && (returned <==> open && (!AllClosed(resolved) || settled))
      && (returned ==> t == resolved.(status := t.status, reason := t.reason, updatedAt := call.now))
      && (returned ==> (t.status == Finished <==>
            AllClosed(resolved) && (call.computation.Compute? ==> call.computation.answer.computed)))
      && (returned && t.status != Finished ==>
            && t.status == Fallback
            && if AllClosed(resolved) then t.reason <= call.computation.answer.reason && |t.reason| <= 1000
               else t.reason == "required evidence slots remain open: " + Joined(OpenSlots(resolved, |resolved.requirements|)))
      && (returned && t.status == Finished ==> t.reason == "")
      && (!returned ==> t == if s.status == Finished || s.status == Abandoned then s else resolved)
  {
    ResolvesIff(s, call.resolutions);
  }

  // ---------------------------------------------------------------- when searching stops

  predicate Searches(s: State, step: Call) {
    step.SearchStep? && Search(s, step.search).1
  }

  /** How many searches of a run were dispatched to a tool. */
  ghost function Dispatched(s: State, steps: seq<Call>): nat
    decreases |steps|
  {
    if steps == [] then 0 else (if Searches(s, steps[0]) then 1 else 0) + Dispatched(Apply(s, steps[0]), steps[1..])
  }

  lemma StepRounds(s: State, step: Call)
    ensures |Apply(s, step).rounds| == |s.rounds| + if Searches(s, step) then 1 else 0
    ensures s.status != Active ==> Apply(s, step).status != Active && !Searches(s, step)
    ensures Searches(s, step) ==> |s.rounds| < 3
  {
    match step
    case SearchStep(call) =>
      SearchOutcome(s, call);
      var resolved := ApplyResolutions(s, call.resolutions).0;
      ResolvingFilesOnly(s, call.resolutions);
      RoundOutcome(resolved, Lower(Strip(call.missingSlot)), call.answer, call.now);
    case FinishStep(call) =>
      FinishOutcome(s, call);
      ResolvingFilesOnly(s, call.resolutions);
    case _ =>
  }

  /** A run dispatches one tool call per recorded round, so never more than three. */
  lemma {:induction false} RunDispatchesRounds(s: State, steps: seq<Call>)
    ensures |Run(s, steps).rounds| == |s.rounds| + Dispatched(s, steps)
    ensures |s.rounds| <= 3 ==> |Run(s, steps).rounds| <= 3
    ensures s.status != Active ==> Dispatched(s, steps) == 0
    decreases |steps|
  {
    if steps != [] {
      StepRounds(s, steps[0]);
      RunDispatchesRounds(Apply(s, steps[0]), steps[1..]);
    }
  }

  /** After a search that brought nothing new, no later call of the retrieval dispatches a tool again. */
  lemma IdleSearchIsLast(s: State, call: SearchCall, steps: seq<Call>)
    requires Search(s, call).1
    requires var t := Search(s, call).0; NewEvidence(s, t) == [] && NewLeads(s, t) == []
    ensures Search(s, call).0.status == Fallback && Dispatched(Search(s, call).0, steps) == 0
  {
    SearchOutcome(s, call);
    var resolved := ApplyResolutions(s, call.resolutions).0;
    ResolvingFilesOnly(s, call.resolutions);
    RoundOutcome(resolved, Lower(Strip(call.missingSlot)), call.answer, call.now);
    RunDispatchesRounds(Search(s, call).0, steps);
  }

  // ---------------------------------------------------------------- start

  /** A start is ready exactly on a view that fits its requirements and that its source confirms, and then holds what the view does. */
  lemma StartOutcome(requirements: seq<Requirement>, view: Option<View>, now: real)
    ensures var s := Start(requirements, view, now);
      var ready := view.Some? && view.value.confirmed && ViewFits(requirements, view.value);
      && s.requirements == requirements && s.leads == [] && s.rounds == [] && !s.exhausted && s.updatedAt == now
      && s.status == (if ready then Ready else Active)
      && s.candidates == (if ready then view.value.candidates else [])
      && (forall slot :: slot in s.slotRefs <==> exists i :: 0 <= i < |requirements| && requirements[i].slot == slot)
      && (forall slot :: slot in s.slotRefs ==>
            s.slotRefs[slot] == if ready && slot in view.value.slotRefs then view.value.slotRefs[slot] else [])
  {
  }

  /** The view files at least as many refs under the slot as it asks for, all to evidence the view holds. */
  ghost predicate SlotClosed(view: View, r: Requirement) {
    if r.slot in view.slotRefs then
      && |view.slotRefs[r.slot]| >= r.minimum
      && forall ref :: ref in view.slotRefs[r.slot] ==> IsCited(view.candidates, ref)
    else r.minimum == 0
  }

  ghost predicate IsCited(candidates: seq<Evidence>, ref: string) {
    exists e :: e in candidates && e.citation == ref
  }

  lemma CitedIff(candidates: seq<Evidence>, ref: string)
    ensures Observed(candidates, ref) <==> IsCited(candidates, ref)
  {
    if e :| e in candidates && e.citation == ref {
      var i :| 0 <= i < |candidates| && candidates[i] == e;
      assert candidates[i].citation == ref;
    }
  }

  lemma SlotFitsIff(view: View, r: Requirement)
    ensures ViewSlotFits(view, r) <==> SlotClosed(view, r)
  {
    if r.slot in view.slotRefs {
      var refs := view.slotRefs[r.slot];
      forall ref ensures Observed(view.candidates, ref) <==> IsCited(view.candidates, ref) {
        CitedIff(view.candidates, ref);
      }
      assert (forall i :: 0 <= i < |refs| ==> Observed(view.candidates, refs[i])) <==>
             forall ref :: ref in refs ==> Observed(view.candidates, ref);
    }
  }

  /** A view fits when its digest stands, its evidence is within the limits, and it closes every required slot. */
  lemma ViewFitsIff(requirements: seq<Requirement>, view: View)
    ensures ViewFits(requirements, view) <==>
      && view.digestMatches && |view.candidates| <= 40
      && EvidenceTokens(view.candidates) <= 7500 && EvidenceChars(view.candidates) <= 40000
      && forall r :: r in requirements ==> SlotClosed(view, r)
  {
    forall r ensures ViewSlotFits(view, r) <==> SlotClosed(view, r) {
      SlotFitsIff(view, r);
    }
  }

  /** A start accepts one to twelve requirements of distinct slots that ask for at least one ref each and forty together. */
  lemma RequirementsIff(requirements: seq<Requirement>)
    ensures ValidRequirements(requirements) <==>
      && 1 <= |requirements| <= 12 && MinimumTotal(requirements) <= 40
      && (forall r :: r in requirements ==> 1 <= r.minimum <= 40)
      && (forall i, j :: 0 <= i < j < |requirements| ==> requirements[i].slot != requirements[j].slot)
  {
  }

  lemma {:induction false} TotalIsSum(a: seq<Requirement>, b: seq<Requirement>)
    ensures MinimumTotal(a + b) == MinimumTotal(a) + MinimumTotal(b)
    ensures |b| == 1 ==> MinimumTotal(b) == b[0].minimum
  {
    if b == [] {
      assert a + b == a;
    } else {
      assert (a + b)[..|a + b| - 1] == a + b[..|b| - 1];
      TotalIsSum(a, b[..|b| - 1]);
    }
  }
}
