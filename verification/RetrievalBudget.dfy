/** What every call on a retrieval keeps, raising calls included, and when it can finish. */
module RetrievalBudget {
  import opened Wrappers
  import opened Text
  import opened RetrievalModel

  // ---------------------------------------------------------------- invariant

  /** Context sizes are the sums over what is held, and every budget is respected. */
  ghost predicate Budgeted(s: State) {
    && s.tokens == EvidenceTokens(s.candidates) + LeadTokens(s.leads) <= MAX_CONTEXT_TOKENS
    && s.chars == EvidenceChars(s.candidates) + LeadChars(s.leads) <= MAX_CONTEXT_CHARS
    && |s.candidates| <= MAX_CANDIDATE_REFS && |s.leads| <= MAX_SEARCH_LEADS && |s.rounds| <= MAX_RETRIEVAL_ROUNDS
  }

  ghost predicate DistinctLeads(items: seq<Lead>) {
    forall i, j :: 0 <= i < j < |items| ==> items[i].id != items[j].id
  }

  /** Refs are filed under required slots only, and only refs to observed evidence. */
  ghost predicate SlotsOk(s: State) {
    && (forall slot :: slot in s.slotRefs <==> IsSlot(s, slot))
    && (forall slot, i :: slot in s.slotRefs && 0 <= i < |s.slotRefs[slot]| ==> Observed(s.candidates, s.slotRefs[slot][i]))
  }

  function GatheredRefs(rounds: seq<Round>): seq<string> {
    if rounds == [] then [] else GatheredRefs(rounds[..|rounds| - 1]) + rounds[|rounds| - 1].newRefs
  }

  function GatheredLeads(rounds: seq<Round>): seq<string> {
    if rounds == [] then [] else GatheredLeads(rounds[..|rounds| - 1]) + rounds[|rounds| - 1].newLeads
  }

  /** Everything held came from exactly one recorded round, unless a cached view made the retrieval ready at once. */
  ghost predicate Accounted(s: State) {
    && (s.rounds != [] || s.status == Active ==> GatheredRefs(s.rounds) == Citations(s.candidates))
    && GatheredLeads(s.rounds) == LeadIds(s.leads)
    && (forall i :: 0 <= i < |s.rounds| ==> s.rounds[i].number == i + 1)
  }

  ghost predicate Sound(s: State) {
    && Budgeted(s) && DistinctCitations(s.candidates) && DistinctLeads(s.leads) && SlotsOk(s) && Accounted(s)
    && (s.status == Finished ==> exists refs :: ValidSelection(s, refs))
  }

  // ---------------------------------------------------------------- resolving slots

  /** Only the slot lists differ, and they only grow at the end. */
  ghost predicate OnlyFiles(s: State, t: State) {
    && t == s.(slotRefs := t.slotRefs) && t.slotRefs.Keys == s.slotRefs.Keys
    && (forall slot :: slot in s.slotRefs ==> s.slotRefs[slot] <= t.slotRefs[slot])
  }

  lemma FilingOne(s: State, slot: string, ref: string)
    requires slot in s.slotRefs && SlotsOk(s) && Observed(s.candidates, ref)
    ensures var t := s.(slotRefs := s.slotRefs[slot := s.slotRefs[slot] + [ref]]);
      OnlyFiles(s, t) && SlotsOk(t)
  {
    var t := s.(slotRefs := s.slotRefs[slot := s.slotRefs[slot] + [ref]]);
    assert forall x :: IsSlot(s, x) <==> IsSlot(t, x);
  }

  lemma FilesTwice(s: State, t: State, u: State)
    requires OnlyFiles(s, t) && OnlyFiles(t, u)
    ensures OnlyFiles(s, u)
  {
    forall slot | slot in s.slotRefs ensures s.slotRefs[slot] <= u.slotRefs[slot] {
      assert s.slotRefs[slot] <= t.slotRefs[slot] <= u.slotRefs[slot];
    }
  }

  /** Filing only appends observed refs to one slot. */
  lemma {:induction false} FilingFiles(s: State, slot: string, refs: seq<string>)
    requires slot in s.slotRefs && SlotsOk(s)
    ensures OnlyFiles(s, FileRefs(s, slot, refs).0) && SlotsOk(FileRefs(s, slot, refs).0)
    decreases |refs|
  {
    if refs != [] && Observed(s.candidates, Strip(refs[0])) {
      var ref := Strip(refs[0]);
      if ref in s.slotRefs[slot] {
        FilingFiles(s, slot, refs[1..]);
      } else {
        var next := s.(slotRefs := s.slotRefs[slot := s.slotRefs[slot] + [ref]]);
        FilingOne(s, slot, ref);
        FilingFiles(next, slot, refs[1..]);
        FilesTwice(s, next, FileRefs(next, slot, refs[1..]).0);
      }
    }
  }

  /** A resolution that succeeds has filed every ref it names. */
  lemma {:induction false} FiledAll(s: State, slot: string, refs: seq<string>, i: nat)
    requires slot in s.slotRefs && SlotsOk(s) && i < |refs| && FileRefs(s, slot, refs).1
    ensures slot in FileRefs(s, slot, refs).0.slotRefs && Strip(refs[i]) in FileRefs(s, slot, refs).0.slotRefs[slot]
    decreases |refs|
  {
    var ref := Strip(refs[0]);
    var next := if ref in s.slotRefs[slot] then s else s.(slotRefs := s.slotRefs[slot := s.slotRefs[slot] + [ref]]);
    if ref !in s.slotRefs[slot] {
      FilingOne(s, slot, ref);
    }
    FilingFiles(next, slot, refs[1..]);
    assert FileRefs(s, slot, refs) == FileRefs(next, slot, refs[1..]);
    if i > 0 {
      FiledAll(next, slot, refs[1..], i - 1);
    } else {
      assert ref in next.slotRefs[slot];
    }
  }

  lemma {:induction false} ResolvingFiles(s: State, items: seq<Resolution>)
    requires SlotsOk(s)
    ensures OnlyFiles(s, ApplyItems(s, items).0) && SlotsOk(ApplyItems(s, items).0)
    decreases |items|
  {
    if items != [] && items[0].Resolution? {
      var slot := Lower(Strip(items[0].slot));
      if slot in s.slotRefs {
        FilingFiles(s, slot, items[0].refs);
        var (filed, ok) := FileRefs(s, slot, items[0].refs);
        if ok {
          ResolvingFiles(filed, items[1..]);
        }
      }
    }
  }

  lemma FilingKeepsOk(s: State, t: State)
    requires Sound(s) && OnlyFiles(s, t) && SlotsOk(t) && s.status != Finished
    ensures Sound(t)
  {
  }

  // ---------------------------------------------------------------- admitting evidence and leads

  lemma EvidenceSums(items: seq<Evidence>, e: Evidence)
    ensures EvidenceTokens(items + [e]) == EvidenceTokens(items) + e.tokens
    ensures EvidenceChars(items + [e]) == EvidenceChars(items) + e.chars
  {
    assert (items + [e])[..|items|] == items;
  }

  lemma LeadSums(items: seq<Lead>, l: Lead)
    ensures LeadTokens(items + [l]) == LeadTokens(items) + l.tokens
    ensures LeadChars(items + [l]) == LeadChars(items) + l.chars
  {
    assert (items + [l])[..|items|] == items;
  }

  lemma ObservedGrows(items: seq<Evidence>, e: Evidence, citation: string)
    ensures Observed(items + [e], citation) <==> Observed(items, citation) || e.citation == citation
  {
    if i :| 0 <= i < |items| && items[i].citation == citation {
      assert (items + [e])[i].citation == citation;
    }
    if e.citation == citation {
      assert (items + [e])[|items|].citation == citation;
    }
  }

  ghost predicate Holding(s: State) {
    Budgeted(s) && DistinctCitations(s.candidates) && DistinctLeads(s.leads) && SlotsOk(s)
  }

  lemma SlotsStayOk(s: State, e: Evidence)
    requires SlotsOk(s)
    ensures SlotsOk(WithEvidence(s, e))
  {
    var t := WithEvidence(s, e);
    assert forall slot :: IsSlot(s, slot) <==> IsSlot(t, slot);
    forall slot, i | slot in t.slotRefs && 0 <= i < |t.slotRefs[slot]| ensures Observed(t.candidates, t.slotRefs[slot][i]) {
      ObservedGrows(s.candidates, e, s.slotRefs[slot][i]);
    }
  }

  lemma StaysDistinct(items: seq<Evidence>, e: Evidence)
    requires DistinctCitations(items) && !Observed(items, e.citation)
    ensures DistinctCitations(items + [e])
  {
  }

  lemma TakingEvidence(s: State, e: Evidence)
    requires Holding(s) && FitsEvidence(s, e) && !Observed(s.candidates, e.citation)
    ensures Holding(WithEvidence(s, e))
  {
    EvidenceSums(s.candidates, e);
    StaysDistinct(s.candidates, e);
    SlotsStayOk(s, e);
  }

  lemma TakingLead(s: State, l: Lead)
    requires Holding(s) && FitsLead(s, l) && !HasLead(s.leads, l.id)
    ensures Holding(WithLead(s, l))
  {
    LeadSums(s.leads, l);
  }

  lemma {:induction false} EvidenceHolds(s: State, found: seq<Evidence>)
    requires Holding(s)
    ensures Holding(AdmitEvidence(s, found).state)
    decreases |found|
  {
    if found != [] && Observed(s.candidates, found[0].citation) {
      EvidenceHolds(s, found[1..]);
    } else if found != [] && FitsEvidence(s, found[0]) {
      TakingEvidence(s, found[0]);
      EvidenceHolds(WithEvidence(s, found[0]), found[1..]);
    } else if found != [] {
      HoldingRelabelled(s, s.(exhausted := true));
    }
  }

  lemma {:induction false} LeadsHold(s: State, found: seq<Lead>)
    requires Holding(s)
    ensures Holding(AdmitLeads(s, found).state)
    decreases |found|
  {
    if found != [] && HasLead(s.leads, found[0].id) {
      LeadsHold(s, found[1..]);
    } else if found != [] && FitsLead(s, found[0]) {
      TakingLead(s, found[0]);
      LeadsHold(WithLead(s, found[0]), found[1..]);
    } else if found != [] {
      HoldingRelabelled(s, s.(exhausted := true));
    }
  }

  /** Admission appends exactly the new items and says whether it stopped short. */
  lemma {:induction false} EvidenceShape(s: State, found: seq<Evidence>)
    ensures var a := AdmitEvidence(s, found);
      && a.state.candidates == s.candidates + a.items
      && a.state == s.(candidates := a.state.candidates, tokens := a.state.tokens, chars := a.state.chars,
                       exhausted := s.exhausted || a.truncated)
    decreases |found|
  {
    if found != [] && Observed(s.candidates, found[0].citation) {
      EvidenceShape(s, found[1..]);
    } else if found != [] && FitsEvidence(s, found[0]) {
      EvidenceShape(WithEvidence(s, found[0]), found[1..]);
    }
  }

  lemma {:induction false} LeadsShape(s: State, found: seq<Lead>)
    ensures var a := AdmitLeads(s, found);
      && a.state.leads == s.leads + a.items
      && a.state == s.(leads := a.state.leads, tokens := a.state.tokens, chars := a.state.chars,
                       exhausted := s.exhausted || a.truncated)
    decreases |found|
  {
    if found != [] && HasLead(s.leads, found[0].id) {
      LeadsShape(s, found[1..]);
    } else if found != [] && FitsLead(s, found[0]) {
      LeadsShape(WithLead(s, found[0]), found[1..]);
    }
  }

  lemma AdmittingEvidence(s: State, found: seq<Evidence>)
    requires Holding(s)
    ensures var a := AdmitEvidence(s, found);
      && Holding(a.state) && a.state.candidates == s.candidates + a.items
      && a.state == s.(candidates := a.state.candidates, tokens := a.state.tokens, chars := a.state.chars,
                       exhausted := s.exhausted || a.truncated)
  {
    EvidenceHolds(s, found);
    EvidenceShape(s, found);
  }

  lemma AdmittingLeads(s: State, found: seq<Lead>)
    requires Holding(s)
    ensures var a := AdmitLeads(s, found);
      && Holding(a.state) && a.state.leads == s.leads + a.items
      && a.state == s.(leads := a.state.leads, tokens := a.state.tokens, chars := a.state.chars,
                       exhausted := s.exhausted || a.truncated)
  {
    LeadsHold(s, found);
    LeadsShape(s, found);
  }

  /** Where admission stops: everything before is held, and an item there is new and breaks a budget. */
  ghost predicate StopsAt(s: State, found: seq<Evidence>, k: nat) {
    var a := AdmitEvidence(s, found);
    && k <= |found|
    && (forall i :: 0 <= i < k ==> Observed(a.state.candidates, found[i].citation))
    && (a.truncated <==> k < |found|)
    && (k < |found| ==> !Observed(a.state.candidates, found[k].citation) && !FitsEvidence(a.state, found[k]))
  }

  /** Admission takes the longest prefix of the answer that the budgets allow. */
  lemma {:induction false} AdmissionIsGreedy(s: State, found: seq<Evidence>) returns (k: nat)
    ensures StopsAt(s, found, k)
    ensures forall citation :: Observed(s.candidates, citation) ==> Observed(AdmitEvidence(s, found).state.candidates, citation)
    decreases |found|
  {
    k := 0;
    if found != [] {
      if Observed(s.candidates, found[0].citation) {
        var rest := AdmissionIsGreedy(s, found[1..]);
        assert forall i :: 0 < i < |found| ==> found[i] == found[1..][i - 1];
        k := rest + 1;
      } else if FitsEvidence(s, found[0]) {
        var next := WithEvidence(s, found[0]);
        var rest := AdmissionIsGreedy(next, found[1..]);
        forall citation ensures Observed(next.candidates, citation) <==>
          (Observed(s.candidates, citation) || found[0].citation == citation)
        {
          ObservedGrows(s.candidates, found[0], citation);
        }
        assert forall i :: 0 < i < |found| ==> found[i] == found[1..][i - 1];
        k := rest + 1;
      }
    }
  }

  // ---------------------------------------------------------------- search keeps everything in order

  lemma CitationsAppend(items: seq<Evidence>, more: seq<Evidence>)
    ensures Citations(items + more) == Citations(items) + Citations(more)
  {
  }

  lemma LeadIdsAppend(items: seq<Lead>, more: seq<Lead>)
    ensures LeadIds(items + more) == LeadIds(items) + LeadIds(more)
  {
  }

  lemma RoundsAppend(rounds: seq<Round>, r: Round)
    ensures GatheredRefs(rounds + [r]) == GatheredRefs(rounds) + r.newRefs
    ensures GatheredLeads(rounds + [r]) == GatheredLeads(rounds) + r.newLeads
  {
    assert (rounds + [r])[..|rounds|] == rounds;
  }

  /** What a round records is what it added. */
  lemma RoundIsAccounted(s: State, t: State, r: Round, evidence: seq<Evidence>, leads: seq<Lead>)
    requires Accounted(s) && s.status == Active
    requires t.rounds == s.rounds + [r] && r.number == |s.rounds| + 1
    requires r.newRefs == Citations(evidence) && r.newLeads == LeadIds(leads)
    requires t.candidates == s.candidates + evidence && t.leads == s.leads + leads
    ensures Accounted(t)
  {
    RoundsAppend(s.rounds, r);
    CitationsAppend(s.candidates, evidence);
    LeadIdsAppend(s.leads, leads);
  }

  /** The same holdings under another status, reason, flag or time. */
  ghost predicate Relabelled(s: State, t: State) {
    t == s.(status := t.status, reason := t.reason, exhausted := t.exhausted, updatedAt := t.updatedAt)
  }

  lemma HoldingRelabelled(s: State, t: State)
    requires Holding(s) && Relabelled(s, t)
    ensures Holding(t)
  {
    assert forall slot :: IsSlot(s, slot) <==> IsSlot(t, slot);
  }

  lemma RelabellingKeepsOk(s: State, t: State)
    requires Sound(s) && Relabelled(s, t)
    requires t.status == Active ==> s.status == Active
    requires t.status == Finished ==> exists refs :: ValidSelection(t, refs)
    ensures Sound(t)
  {
    HoldingRelabelled(s, t);
  }

  lemma RoundHolds(s: State, t: State, rounds: seq<Round>)
    requires Holding(s) && |rounds| <= MAX_RETRIEVAL_ROUNDS && Relabelled(s.(rounds := rounds), t)
    ensures Holding(t)
  {
    var u := s.(rounds := rounds);
    assert forall slot :: IsSlot(s, slot) <==> IsSlot(u, slot);
    assert Holding(u);
    HoldingRelabelled(u, t);
  }

  lemma RoundShape(s: State, slot: string, answer: ToolAnswer, now: real)
    ensures var evidence := AdmitEvidence(s, EvidenceIn(answer));
      var leads := AdmitLeads(evidence.state, LeadsIn(answer));
      var after := AfterRound(s, slot, answer, now);
      && |after.rounds| == |s.rounds| + 1
      && var r := after.rounds[|s.rounds|];
      && after.rounds == s.rounds + [r] && r.number == |s.rounds| + 1
      && r.newRefs == Citations(evidence.items) && r.newLeads == LeadIds(leads.items)
      && Relabelled(leads.state.(rounds := after.rounds), after)
      && (after.status == Fallback || after.status == leads.state.status)
  {
  }

  lemma RoundKeepsOk(s: State, slot: string, answer: ToolAnswer, now: real)
    requires Sound(s) && s.status == Active && |s.rounds| < MAX_RETRIEVAL_ROUNDS
    ensures Sound(AfterRound(s, slot, answer, now))
  {
    AdmittingEvidence(s, EvidenceIn(answer));
    var evidence := AdmitEvidence(s, EvidenceIn(answer));
    AdmittingLeads(evidence.state, LeadsIn(answer));
    var leads := AdmitLeads(evidence.state, LeadsIn(answer));
    RoundShape(s, slot, answer, now);
    var after := AfterRound(s, slot, answer, now);
    RoundHolds(leads.state, after, after.rounds);
    RoundIsAccounted(s, after, after.rounds[|s.rounds|], evidence.items, leads.items);
  }

  lemma ResolutionsKeepOk(s: State, items: seq<Resolution>)
    requires Sound(s) && s.status != Finished
    ensures Sound(ApplyResolutions(s, items).0) && OnlyFiles(s, ApplyResolutions(s, items).0)
  {
    ResolvingFiles(s, items);
    if |items| <= MAX_REQUIREMENTS {
      FilingKeepsOk(s, ApplyItems(s, items).0);
    }
  }

  lemma SearchShape(s: State, call: SearchCall)
    requires s.status == Active
    ensures var resolved := ApplyResolutions(s, call.resolutions).0;
      var after := Search(s, call).0;
      || (Relabelled(resolved, after) && after.status == resolved.status)
      || (|resolved.rounds| < MAX_RETRIEVAL_ROUNDS
          && after == AfterRound(resolved, Lower(Strip(call.missingSlot)), call.answer, call.now))
  {
  }

  lemma SearchKeepsOk(s: State, call: SearchCall)
    requires Sound(s)
    ensures Sound(Search(s, call).0)
  {
    if s.status == Active {
      ResolutionsKeepOk(s, call.resolutions);
      SearchShape(s, call);
      var resolved, after := ApplyResolutions(s, call.resolutions).0, Search(s, call).0;
      if Relabelled(resolved, after) && after.status == resolved.status {
        RelabellingKeepsOk(resolved, after);
      } else {
        RoundKeepsOk(resolved, Lower(Strip(call.missingSlot)), call.answer, call.now);
      }
    }
  }

  lemma SelectionRelabelled(s: State, t: State, refs: seq<string>)
    requires ValidSelection(s, refs) && Relabelled(s, t)
    ensures ValidSelection(t, refs)
  {
    assert forall i :: 0 <= i < |s.requirements| ==> (Meets(s, refs, s.requirements[i]) <==> Meets(t, refs, t.requirements[i]));
  }

  lemma FinishShape(s: State, call: FinishCall)
    requires s.status != Finished && s.status != Abandoned
    ensures var resolved := ApplyResolutions(s, call.resolutions).0;
      var after := Finish(s, call).0;
      && Relabelled(resolved, after)
      && (after.status == Fallback || after.status == Finished || after.status == resolved.status)
      && (after.status == Finished && resolved.status != Finished ==>
            ValidSelection(resolved, SelectedRefs(resolved, call.selection)))
  {
  }

  lemma FinishKeepsOk(s: State, call: FinishCall)
    requires Sound(s)
    ensures Sound(Finish(s, call).0)
  {
    if s.status != Finished && s.status != Abandoned {
      ResolutionsKeepOk(s, call.resolutions);
      FinishShape(s, call);
      var resolved := ApplyResolutions(s, call.resolutions).0;
      var after := Finish(s, call).0;
      if after.status == Finished {
        SelectionRelabelled(resolved, after, SelectedRefs(resolved, call.selection));
      }
      RelabellingKeepsOk(resolved, after);
    }
  }

  // ---------------------------------------------------------------- start

  lemma StartIsOk(requirements: seq<Requirement>, view: Option<View>, now: real)
    requires ValidRequirements(requirements) && (view.Some? ==> DistinctCitations(view.value.candidates))
    ensures Sound(Start(requirements, view, now))
  {
    var s := Start(requirements, view, now);
    forall slot ensures slot in s.slotRefs <==> IsSlot(s, slot) {
      if slot in s.slotRefs {
        var i :| 0 <= i < |requirements| && requirements[i].slot == slot;
        assert s.requirements[i].slot == slot;
      }
    }
    if s.status == Ready {
      forall slot, i | slot in s.slotRefs && 0 <= i < |s.slotRefs[slot]| ensures Observed(s.candidates, s.slotRefs[slot][i]) {
        var j :| 0 <= j < |requirements| && requirements[j].slot == slot;
        assert ViewSlotFits(view.value, requirements[j]);
      }
    }
  }

  // ---------------------------------------------------------------- runs

  datatype Call = SearchStep(search: SearchCall) | FinishStep(finish: FinishCall) | StatusStep(now: real) | AbandonStep(now: real)

  function Apply(s: State, step: Call): State {
    match step
    case SearchStep(call) => Search(s, call).0
    case FinishStep(call) => Finish(s, call).0
    case StatusStep(now) => s.(updatedAt := now)
    case AbandonStep(now) => s.(status := Abandoned, reason := "abandoned by answerer", updatedAt := now)
  }

  ghost function Run(s: State, steps: seq<Call>): State
    decreases |steps|
  {
    if steps == [] then s else Run(Apply(s, steps[0]), steps[1..])
  }

  lemma StepKeepsOk(s: State, step: Call)
    requires Sound(s)
    ensures Sound(Apply(s, step))
  {
    match step
    case SearchStep(call) => SearchKeepsOk(s, call);
    case FinishStep(call) => FinishKeepsOk(s, call);
    case StatusStep(now) =>
      if refs :| s.status == Finished && ValidSelection(s, refs) {
        SelectionRelabelled(s, Apply(s, step), refs);
      }
      RelabellingKeepsOk(s, Apply(s, step));
    case AbandonStep(now) => RelabellingKeepsOk(s, Apply(s, step));
  }

  /** Every reachable state of a retrieval is accounted for and within all its budgets. */
  lemma {:induction false} RunKeepsOk(requirements: seq<Requirement>, view: Option<View>, now: real, steps: seq<Call>)
    requires ValidRequirements(requirements) && (view.Some? ==> DistinctCitations(view.value.candidates))
    ensures Sound(Run(Start(requirements, view, now), steps))
  {
    StartIsOk(requirements, view, now);
    RunFromOk(Start(requirements, view, now), steps);
  }

  lemma {:induction false} RunFromOk(s: State, steps: seq<Call>)
    requires Sound(s)
    ensures Sound(Run(s, steps))
    decreases |steps|
  {
    if steps != [] {
      StepKeepsOk(s, steps[0]);
      RunFromOk(Apply(s, steps[0]), steps[1..]);
    }
  }

  /** A finished or abandoned retrieval never changes again, apart from its time and being abandoned. */
  lemma {:induction false} FinishedIsFinal(s: State, steps: seq<Call>)
    requires s.status == Finished || s.status == Abandoned
    ensures var t := Run(s, steps);
      t == s.(status := t.status, reason := t.reason, updatedAt := t.updatedAt)
      && (t.status == s.status || t.status == Abandoned)
    decreases |steps|
  {
    if steps != [] {
      FinishedIsFinal(Apply(s, steps[0]), steps[1..]);
    }
  }

  // ---------------------------------------------------------------- when closing every slot is enough

  lemma {:induction false} DistinctHolds(refs: seq<string>)
    ensures forall r :: r in Distinct(refs) <==> r in refs
    ensures forall i, j :: 0 <= i < j < |Distinct(refs)| ==> Distinct(refs)[i] != Distinct(refs)[j]
  {
    if refs != [] {
      DistinctHolds(refs[..|refs| - 1]);
      assert refs == refs[..|refs| - 1] + [refs[|refs| - 1]];
    }
  }

  lemma {:induction false} FiledRefsHold(s: State, n: nat)
    requires n <= |s.requirements|
    ensures forall r :: r in FiledRefs(s, n) <==>
      exists i :: 0 <= i < n && s.requirements[i].slot in s.slotRefs && r in s.slotRefs[s.requirements[i].slot]
  {
    if n > 0 {
      FiledRefsHold(s, n - 1);
    }
  }

  lemma {:induction false} DistinctSize(refs: seq<string>)
    requires forall i, j :: 0 <= i < j < |refs| ==> refs[i] != refs[j]
    ensures |ToSet(refs)| == |refs|
  {
    if refs != [] {
      var front := refs[..|refs| - 1];
      DistinctSize(front);
      assert refs[|refs| - 1] !in front;
      assert ToSet(refs) == ToSet(front) + {refs[|refs| - 1]};
    }
  }

  lemma SubsetSize<T>(a: set<T>, b: set<T>)
    requires a <= b
    ensures |a| <= |b|
  {
    assert b == a + (b - a);
  }

  lemma FewFiledRefs(s: State, refs: seq<string>)
    requires Holding(s) && refs == Distinct(FiledRefs(s, |s.requirements|))
    ensures |refs| <= MAX_CANDIDATE_REFS
    ensures forall i :: 0 <= i < |refs| ==> Observed(s.candidates, refs[i])
  {
    var filed := FiledRefs(s, |s.requirements|);
    DistinctHolds(filed);
    FiledRefsHold(s, |s.requirements|);
    forall i | 0 <= i < |refs| ensures Observed(s.candidates, refs[i]) && refs[i] in Citations(s.candidates) {
      assert refs[i] in filed;
      var k :| 0 <= k < |s.requirements| && s.requirements[k].slot in s.slotRefs && refs[i] in s.slotRefs[s.requirements[k].slot];
      ObservedIsCited(s.candidates, refs[i]);
    }
    DistinctSize(refs);
    DistinctSize(Citations(s.candidates));
    SubsetSize(ToSet(refs), ToSet(Citations(s.candidates)));
  }

  lemma ObservedIsCited(candidates: seq<Evidence>, citation: string)
    ensures Observed(candidates, citation) <==> citation in Citations(candidates)
  {
    if i :| 0 <= i < |candidates| && candidates[i].citation == citation {
      assert Citations(candidates)[i] == citation;
    }
  }

  /** The default selection holds everything filed, so it meets a slot exactly when enough distinct refs are filed there. */
  lemma DefaultMeetsIff(s: State, i: nat)
    requires SlotsOk(s) && i < |s.requirements|
    ensures var r := s.requirements[i];
      r.slot in s.slotRefs
      && (Meets(s, Distinct(FiledRefs(s, |s.requirements|)), r) <==> |ToSet(s.slotRefs[r.slot])| >= r.minimum)
  {
    var r := s.requirements[i];
    assert IsSlot(s, r.slot);
    var refs := Distinct(FiledRefs(s, |s.requirements|));
    DistinctHolds(FiledRefs(s, |s.requirements|));
    FiledRefsHold(s, |s.requirements|);
    assert ToSet(refs) * ToSet(s.slotRefs[r.slot]) == ToSet(s.slotRefs[r.slot]);
  }

  lemma DefaultOutcome(s: State, now: real)
    requires s.status != Finished && s.status != Abandoned && AllClosed(s)
    ensures Finish(s, FinishCall([], Default, NoComputation, now)).0.status == Finished <==>
      ValidSelection(s, Distinct(FiledRefs(s, |s.requirements|)))
  {
  }

  ghost predicate EnoughFiled(s: State, r: Requirement) {
    r.slot in s.slotRefs && |ToSet(s.slotRefs[r.slot])| >= r.minimum
  }

  /**
   With every slot closed, finishing on the default selection succeeds exactly when each slot holds
   enough distinct refs.
   */
  lemma DefaultFinishesIff(s: State, now: real)
    requires Sound(s) && s.status != Finished && s.status != Abandoned && AllClosed(s)
    requires s.requirements != [] && s.requirements[0].minimum > 0
    ensures Finish(s, FinishCall([], Default, NoComputation, now)).0.status == Finished <==>
      forall i :: 0 <= i < |s.requirements| ==> EnoughFiled(s, s.requirements[i])
  {
    var refs := Distinct(FiledRefs(s, |s.requirements|));
    DefaultOutcome(s, now);
    FewFiledRefs(s, refs);
    forall i | 0 <= i < |s.requirements| ensures Meets(s, refs, s.requirements[i]) <==> EnoughFiled(s, s.requirements[i]) {
      DefaultMeetsIff(s, i);
    }
    if refs == [] {
      assert ToSet(refs) == {};
      assert !Meets(s, refs, s.requirements[0]);
    }
  }

  /** A list without repetitions that closes its slot holds enough distinct refs. */
  lemma ClosedWithoutRepeats(s: State, r: Requirement)
    requires r.slot in s.slotRefs && !IsOpen(s, r)
    requires forall i, j :: 0 <= i < j < |s.slotRefs[r.slot]| ==> s.slotRefs[r.slot][i] != s.slotRefs[r.slot][j]
    ensures EnoughFiled(s, r)
  {
    DistinctSize(s.slotRefs[r.slot]);
  }
}
