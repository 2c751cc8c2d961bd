/** What a finished retrieval leaves for later ones: the query view it persists, and what a start makes of it. */
module RetrievalViews {
  import opened Wrappers
  import opened Text
  import opened RetrievalModel
  import opened RetrievalBudget

  // ---------------------------------------------------------------- lists without repetitions

  ghost predicate NoRepeats(refs: seq<string>) {
    forall i, j :: 0 <= i < j < |refs| ==> refs[i] != refs[j]
  }

  /** No ref is filed twice under a slot. */
  ghost predicate FiledOnce(slotRefs: map<string, seq<string>>) {
    forall slot :: slot in slotRefs ==> NoRepeats(slotRefs[slot])
  }

  lemma {:induction false} FilingFilesOnce(s: State, slot: string, refs: seq<string>)
    requires slot in s.slotRefs && FiledOnce(s.slotRefs)
    ensures FiledOnce(FileRefs(s, slot, refs).0.slotRefs) && FileRefs(s, slot, refs).0.slotRefs.Keys == s.slotRefs.Keys
    decreases |refs|
  {
    if refs != [] && Observed(s.candidates, Strip(refs[0])) {
      var ref := Strip(refs[0]);
      if ref in s.slotRefs[slot] {
        FilingFilesOnce(s, slot, refs[1..]);
      } else {
        FilingFilesOnce(s.(slotRefs := s.slotRefs[slot := s.slotRefs[slot] + [ref]]), slot, refs[1..]);
      }
    }
  }

  lemma {:induction false} ResolvingFilesOnce(s: State, items: seq<Resolution>)
    requires FiledOnce(s.slotRefs)
    ensures FiledOnce(ApplyItems(s, items).0.slotRefs)
    decreases |items|
  {
    if items != [] && items[0].Resolution? {
      var slot := Lower(Strip(items[0].slot));
      if slot in s.slotRefs {
        FilingFilesOnce(s, slot, items[0].refs);
        var (filed, ok) := FileRefs(s, slot, items[0].refs);
        if ok {
          ResolvingFilesOnce(filed, items[1..]);
        }
      }
    }
  }

  lemma RoundKeepsSlots(s: State, slot: string, answer: ToolAnswer, now: real)
    ensures AfterRound(s, slot, answer, now).slotRefs == s.slotRefs
  {
    EvidenceShape(s, EvidenceIn(answer));
    LeadsShape(AdmitEvidence(s, EvidenceIn(answer)).state, LeadsIn(answer));
  }

  lemma StepFilesOnce(s: State, step: Call)
    requires FiledOnce(s.slotRefs)
    ensures FiledOnce(Apply(s, step).slotRefs)
  {
    match step
    case SearchStep(call) =>
      ResolvingFilesOnce(s, call.resolutions);
      if s.status == Active {
        SearchShape(s, call);
        RoundKeepsSlots(ApplyResolutions(s, call.resolutions).0, Lower(Strip(call.missingSlot)), call.answer, call.now);
      }
    case FinishStep(call) => ResolvingFilesOnce(s, call.resolutions);
    case StatusStep(_) =>
    case AbandonStep(_) =>
  }

  lemma {:induction false} RunFilesOnce(s: State, steps: seq<Call>)
    requires FiledOnce(s.slotRefs)
    ensures FiledOnce(Run(s, steps).slotRefs)
    decreases |steps|
  {
    if steps != [] {
      StepFilesOnce(s, steps[0]);
      RunFilesOnce(Apply(s, steps[0]), steps[1..]);
    }
  }

  lemma StartFilesOnce(requirements: seq<Requirement>, view: Option<View>, now: real)
    requires view.Some? ==> FiledOnce(view.value.slotRefs)
    ensures FiledOnce(Start(requirements, view, now).slotRefs) && Start(requirements, view, now).requirements == requirements
  {
  }

  lemma RunFacts(requirements: seq<Requirement>, view: Option<View>, now: real, steps: seq<Call>)
    requires ValidRequirements(requirements)
    requires view.Some? ==> DistinctCitations(view.value.candidates) && FiledOnce(view.value.slotRefs)
    ensures var s := Run(Start(requirements, view, now), steps);
      Sound(s) && FiledOnce(s.slotRefs) && s.requirements == requirements
  {
    var s0 := Start(requirements, view, now);
    StartIsOk(requirements, view, now);
    StartFilesOnce(requirements, view, now);
    RunFromOk(s0, steps);
    RunFilesOnce(s0, steps);
    RunKeepsRequirements(s0, steps);
  }

  lemma ClosedFinishes(s: State, later: real)
    requires Sound(s) && FiledOnce(s.slotRefs) && s.status != Finished && s.status != Abandoned && AllClosed(s)
    requires s.requirements != [] && s.requirements[0].minimum > 0
    ensures Finish(s, FinishCall([], Default, NoComputation, later)).0.status == Finished
  {
    forall i | 0 <= i < |s.requirements| ensures EnoughFiled(s, s.requirements[i]) {
      assert IsSlot(s, s.requirements[i].slot);
      ClosedWithoutRepeats(s, s.requirements[i]);
    }
    DefaultFinishesIff(s, later);
  }

  /**
   In every retrieval that starts without a view, or from one that files no ref twice, closing all
   slots is enough: the default selection then finishes.
   */
  lemma ClosedRunFinishes(requirements: seq<Requirement>, view: Option<View>, now: real, steps: seq<Call>, later: real)
    requires ValidRequirements(requirements)
    requires view.Some? ==> DistinctCitations(view.value.candidates) && FiledOnce(view.value.slotRefs)
    requires var s := Run(Start(requirements, view, now), steps);
      s.status != Finished && s.status != Abandoned && AllClosed(s)
    ensures var s := Run(Start(requirements, view, now), steps);
      Finish(s, FinishCall([], Default, NoComputation, later)).0.status == Finished
  {
    RunFacts(requirements, view, now, steps);
    ClosedFinishes(Run(Start(requirements, view, now), steps), later);
  }

  lemma {:induction false} RunKeepsRequirements(s: State, steps: seq<Call>)
    requires Sound(s)
    ensures Run(s, steps).requirements == s.requirements
    decreases |steps|
  {
    if steps != [] {
      StepKeepsRequirements(s, steps[0]);
      StepKeepsOk(s, steps[0]);
      RunKeepsRequirements(Apply(s, steps[0]), steps[1..]);
    }
  }

  lemma StepKeepsRequirements(s: State, step: Call)
    requires Sound(s)
    ensures Apply(s, step).requirements == s.requirements
  {
    match step
    case SearchStep(call) =>
      if s.status == Active {
        ResolutionsKeepOk(s, call.resolutions);
        var resolved := ApplyResolutions(s, call.resolutions).0;
        EvidenceShape(resolved, EvidenceIn(call.answer));
        LeadsShape(AdmitEvidence(resolved, EvidenceIn(call.answer)).state, LeadsIn(call.answer));
        SearchShape(s, call);
      }
    case FinishStep(call) =>
      if s.status != Finished && s.status != Abandoned {
        ResolutionsKeepOk(s, call.resolutions);
        FinishShape(s, call);
      }
    case StatusStep(_) =>
    case AbandonStep(_) =>
  }

  // ---------------------------------------------------------------- the view a finish persists

  /** `"assertion_id":"` with 64 hex digits, a quote and a comma: only a view's stub carries it. */
  const ASSERTION_FIELD_CHARS: nat := 82

  /** Token counts of the stubs a view is read back as. */
  type ViewTokens = Evidence -> nat

  /** Evidence as a start rebuilds it from a stored dependency. */
  function Rebuilt(e: Evidence, viewTokens: ViewTokens): Evidence {
    e.(tokens := viewTokens(e), chars := e.chars + if e.assertionId == "" then 0 else ASSERTION_FIELD_CHARS)
  }

  function SelectedEvidence(s: State, refs: seq<string>): seq<Evidence>
    requires forall i :: 0 <= i < |refs| ==> FindEvidence(s.candidates, refs[i]).Some?
  {
    seq(|refs|, i requires 0 <= i < |refs| => FindEvidence(s.candidates, refs[i]).value)
  }

  function RebuiltAll(items: seq<Evidence>, viewTokens: ViewTokens): seq<Evidence> {
    seq(|items|, i requires 0 <= i < |items| => Rebuilt(items[i], viewTokens))
  }

  /** The refs of a list that are among the selected ones. */
  function Keep(filed: seq<string>, selected: seq<string>): seq<string> {
    if filed == [] then []
    else Keep(filed[..|filed| - 1], selected) + if filed[|filed| - 1] in selected then [filed[|filed| - 1]] else []
  }

  function KeepAll(slotRefs: map<string, seq<string>>, selected: seq<string>): map<string, seq<string>> {
    map slot | slot in slotRefs :: Keep(slotRefs[slot], selected)
  }

  /** The persisted view, read back while it is fresh; `stored` lists the selected refs in the store's order. */
  function PersistedView(s: State, stored: seq<string>, viewTokens: ViewTokens): View
    requires forall i :: 0 <= i < |stored| ==> FindEvidence(s.candidates, stored[i]).Some?
  {
    View(RebuiltAll(SelectedEvidence(s, stored), viewTokens), KeepAll(s.slotRefs, stored), true, true)
  }

  ghost predicate SameRefs(stored: seq<string>, refs: seq<string>) {
    NoRepeats(stored) && forall r :: r in stored <==> r in refs
  }

  ghost predicate SameRequirements(a: seq<Requirement>, b: seq<Requirement>) {
    forall r :: r in a <==> r in b
  }

  // ---------------------------------------------------------------- what the view holds

  lemma {:induction false} FindsObserved(candidates: seq<Evidence>, citation: string)
    ensures Observed(candidates, citation) <==> FindEvidence(candidates, citation).Some?
    ensures var found := FindEvidence(candidates, citation);
      found.Some? ==> found.value.citation == citation && found.value in candidates
  {
    if candidates != [] {
      var front := candidates[..|candidates| - 1];
      FindsObserved(front, citation);
      assert candidates == front + [candidates[|candidates| - 1]];
      ObservedGrows(front, candidates[|candidates| - 1], citation);
    }
  }

  lemma {:induction false} KeepMembers(filed: seq<string>, selected: seq<string>)
    ensures forall r :: r in Keep(filed, selected) <==> r in filed && r in selected
    ensures NoRepeats(filed) ==> NoRepeats(Keep(filed, selected))
  {
    if filed != [] {
      var front := filed[..|filed| - 1];
      KeepMembers(front, selected);
      assert filed == front + [filed[|filed| - 1]];
    }
  }

  lemma {:induction false} SetNoLarger(refs: seq<string>)
    ensures |ToSet(refs)| <= |refs|
  {
    if refs != [] {
      var front := refs[..|refs| - 1];
      SetNoLarger(front);
      assert refs == front + [refs[|refs| - 1]];
      assert ToSet(refs) == ToSet(front) + {refs[|refs| - 1]};
    }
  }

  /** A slot of the view holds exactly its selected refs, so it is met by as many as the selection met it by. */
  lemma KeptSlot(s: State, refs: seq<string>, stored: seq<string>, r: Requirement)
    requires SameRefs(stored, refs) && Meets(s, refs, r)
    ensures |ToSet(Keep(s.slotRefs[r.slot], stored))| >= r.minimum && |Keep(s.slotRefs[r.slot], stored)| >= r.minimum
    ensures forall i :: 0 <= i < |Keep(s.slotRefs[r.slot], stored)| ==> Keep(s.slotRefs[r.slot], stored)[i] in stored
  {
    var kept := Keep(s.slotRefs[r.slot], stored);
    KeepMembers(s.slotRefs[r.slot], stored);
    assert ToSet(kept) == ToSet(refs) * ToSet(s.slotRefs[r.slot]);
    SetNoLarger(kept);
  }

  /** A persisted view files no ref twice, so the next retrieval can again finish as soon as it is closed. */
  lemma PersistedFilesOnce(slotRefs: map<string, seq<string>>, stored: seq<string>)
    requires FiledOnce(slotRefs)
    ensures FiledOnce(KeepAll(slotRefs, stored))
  {
    forall slot | slot in slotRefs ensures NoRepeats(KeepAll(slotRefs, stored)[slot]) {
      KeepMembers(slotRefs[slot], stored);
    }
  }

  ghost predicate CanPersist(s: State, refs: seq<string>, stored: seq<string>) {
    ValidSelection(s, refs) && SameRefs(stored, refs)
  }

  lemma StoredIsFound(s: State, refs: seq<string>, stored: seq<string>)
    requires CanPersist(s, refs, stored)
    ensures forall i :: 0 <= i < |stored| ==> FindEvidence(s.candidates, stored[i]).Some?
  {
    forall i | 0 <= i < |stored| ensures FindEvidence(s.candidates, stored[i]).Some? {
      assert stored[i] in refs;
      FindsObserved(s.candidates, stored[i]);
    }
  }

  lemma ViewCitations(s: State, refs: seq<string>, stored: seq<string>, viewTokens: ViewTokens)
    requires CanPersist(s, refs, stored)
    ensures forall i :: 0 <= i < |stored| ==> FindEvidence(s.candidates, stored[i]).Some?
    ensures var items := PersistedView(s, stored, viewTokens).candidates;
      && |items| == |stored| <= MAX_CANDIDATE_REFS
      && (forall i :: 0 <= i < |items| ==> items[i].citation == stored[i])
      && DistinctCitations(items) && forall r :: r in stored ==> Observed(items, r)
  {
    StoredIsFound(s, refs, stored);
    forall i | 0 <= i < |stored| ensures FindEvidence(s.candidates, stored[i]).value.citation == stored[i] {
      FindsObserved(s.candidates, stored[i]);
    }
    DistinctSize(stored);
    SetNoLarger(refs);
    assert ToSet(stored) == ToSet(refs);
    var items := PersistedView(s, stored, viewTokens).candidates;
    forall r | r in stored ensures Observed(items, r) {
      var i :| 0 <= i < |stored| && stored[i] == r;
      assert items[i].citation == r;
    }
  }

  lemma ViewSlotsFit(s: State, refs: seq<string>, stored: seq<string>, viewTokens: ViewTokens, r: Requirement)
    requires CanPersist(s, refs, stored) && Meets(s, refs, r)
    requires forall i :: 0 <= i < |stored| ==> FindEvidence(s.candidates, stored[i]).Some?
    ensures ViewSlotFits(PersistedView(s, stored, viewTokens), r)
  {
    ViewCitations(s, refs, stored, viewTokens);
    KeptSlot(s, refs, stored, r);
  }

  // ---------------------------------------------------------------- the next start

  ghost predicate WithinContext(items: seq<Evidence>) {
    EvidenceTokens(items) <= MAX_CONTEXT_TOKENS && EvidenceChars(items) <= MAX_CONTEXT_CHARS
  }

  lemma PersistedViewFitsIff(s: State, refs: seq<string>, stored: seq<string>, viewTokens: ViewTokens,
                             requirements: seq<Requirement>)
    requires CanPersist(s, refs, stored) && SameRequirements(requirements, s.requirements)
    ensures forall i :: 0 <= i < |stored| ==> FindEvidence(s.candidates, stored[i]).Some?
    ensures var view := PersistedView(s, stored, viewTokens);
      ViewFits(requirements, view) <==> WithinContext(view.candidates)
  {
    ViewCitations(s, refs, stored, viewTokens);
    forall i | 0 <= i < |requirements| ensures ViewSlotFits(PersistedView(s, stored, viewTokens), requirements[i]) {
      assert requirements[i] in s.requirements;
      var k :| 0 <= k < |s.requirements| && s.requirements[k] == requirements[i];
      ViewSlotsFit(s, refs, stored, viewTokens, requirements[i]);
    }
  }

  lemma NextSlot(s: State, refs: seq<string>, stored: seq<string>, view: View, next: State, r: Requirement)
    requires CanPersist(s, refs, stored) && Meets(s, refs, r) && view.slotRefs == KeepAll(s.slotRefs, stored)
    requires next.slotRefs == ViewSlots(next.requirements, view) && r in next.requirements
    ensures EnoughFiled(next, r) && !IsOpen(next, r)
  {
    var i :| 0 <= i < |next.requirements| && next.requirements[i] == r;
    KeptSlot(s, refs, stored, r);
    assert next.slotRefs[next.requirements[i].slot] == Keep(s.slotRefs[r.slot], stored);
  }

  lemma ReadyFinishes(s: State, refs: seq<string>, stored: seq<string>, view: View, next: State, later: real)
    requires CanPersist(s, refs, stored) && view.slotRefs == KeepAll(s.slotRefs, stored)
    requires SameRequirements(next.requirements, s.requirements) && next.slotRefs == ViewSlots(next.requirements, view)
    requires Sound(next) && next.status == Ready && next.requirements != [] && next.requirements[0].minimum > 0
    ensures Finish(next, FinishCall([], Default, NoComputation, later)).0.status == Finished
  {
    forall i | 0 <= i < |next.requirements|
      ensures EnoughFiled(next, next.requirements[i]) && !IsOpen(next, next.requirements[i])
    {
      var r := next.requirements[i];
      assert r in s.requirements;
      var k :| 0 <= k < |s.requirements| && s.requirements[k] == r;
      NextSlot(s, refs, stored, view, next, r);
    }
    DefaultFinishesIff(next, later);
  }

  lemma PersistedViewFinishes(s: State, refs: seq<string>, stored: seq<string>, viewTokens: ViewTokens,
                              requirements: seq<Requirement>, now: real, later: real)
    requires CanPersist(s, refs, stored) && SameRequirements(requirements, s.requirements) && ValidRequirements(requirements)
    requires forall i :: 0 <= i < |stored| ==> FindEvidence(s.candidates, stored[i]).Some?
    requires Start(requirements, Some(PersistedView(s, stored, viewTokens)), now).status == Ready
    ensures var next := Start(requirements, Some(PersistedView(s, stored, viewTokens)), now);
      Finish(next, FinishCall([], Default, NoComputation, later)).0.status == Finished
  {
    var view := PersistedView(s, stored, viewTokens);
    ViewCitations(s, refs, stored, viewTokens);
    StartIsOk(requirements, Some(view), now);
    ReadyFinishes(s, refs, stored, view, Start(requirements, Some(view), now), later);
  }

  /**
   What a view persisted by a valid selection does for a later start with the same requirements, in
   any order. The start raises exactly when a rebuilt stub is too long. Otherwise it is ready exactly
   when the rebuilt evidence is within the context limits, and whenever it is ready the default
   selection finishes it.
   */
  lemma PersistedViewOutcome(s: State, refs: seq<string>, stored: seq<string>, viewTokens: ViewTokens,
                             requirements: seq<Requirement>, now: real, later: real)
    requires CanPersist(s, refs, stored) && SameRequirements(requirements, s.requirements) && ValidRequirements(requirements)
    ensures forall i :: 0 <= i < |stored| ==> FindEvidence(s.candidates, stored[i]).Some?
    ensures var view := PersistedView(s, stored, viewTokens);
      var next := Start(requirements, Some(view), now);
      && (IsReadable(view) <==> forall i :: 0 <= i < |stored| ==>
            var e := FindEvidence(s.candidates, stored[i]).value;
            e.chars + (if e.assertionId == "" then 0 else ASSERTION_FIELD_CHARS) <= MAX_STUB_CHARS)
      && (next.status == Ready <==> WithinContext(view.candidates))
      && (next.status == Ready ==> Finish(next, FinishCall([], Default, NoComputation, later)).0.status == Finished)
  {
    PersistedViewFitsIff(s, refs, stored, viewTokens, requirements);
    var view := PersistedView(s, stored, viewTokens);
    if Start(requirements, Some(view), now).status == Ready {
      PersistedViewFinishes(s, refs, stored, viewTokens, requirements, now, later);
    }
    ReadableStubs(s, stored, viewTokens);
  }

  lemma ReadableStubs(s: State, stored: seq<string>, viewTokens: ViewTokens)
    requires forall i :: 0 <= i < |stored| ==> FindEvidence(s.candidates, stored[i]).Some?
    ensures IsReadable(PersistedView(s, stored, viewTokens)) <==> forall i :: 0 <= i < |stored| ==>
      var e := FindEvidence(s.candidates, stored[i]).value;
      e.chars + (if e.assertionId == "" then 0 else ASSERTION_FIELD_CHARS) <= MAX_STUB_CHARS
  {
    var items := PersistedView(s, stored, viewTokens).candidates;
    forall i | 0 <= i < |stored|
      ensures items[i].chars ==
        (var e := FindEvidence(s.candidates, stored[i]).value;
         e.chars + (if e.assertionId == "" then 0 else ASSERTION_FIELD_CHARS))
    {
    }
  }

  // ---------------------------------------------------------------- when nothing is recounted

  lemma {:induction false} SumRemove(items: seq<Evidence>, i: nat)
    requires i < |items|
    ensures EvidenceTokens(items) == EvidenceTokens(items[..i] + items[i + 1..]) + items[i].tokens
    ensures EvidenceChars(items) == EvidenceChars(items[..i] + items[i + 1..]) + items[i].chars
    decreases |items|
  {
    var front, last := items[..|items| - 1], items[|items| - 1];
    if i < |items| - 1 {
      SumRemove(front, i);
      assert items[..i] + items[i + 1..] == (front[..i] + front[i + 1..]) + [last];
      EvidenceSums(front[..i] + front[i + 1..], last);
    } else {
      assert items[..i] + items[i + 1..] == front;
    }
  }

  /** Different items taken from a list sum to no more than the list. */
  lemma {:induction false} PartSums(part: seq<Evidence>, whole: seq<Evidence>)
    requires DistinctCitations(part) && forall i :: 0 <= i < |part| ==> part[i] in whole
    ensures EvidenceTokens(part) <= EvidenceTokens(whole) && EvidenceChars(part) <= EvidenceChars(whole)
    decreases |part|
  {
    if part != [] {
      var front, last := part[..|part| - 1], part[|part| - 1];
      var k :| 0 <= k < |whole| && whole[k] == last;
      var rest := whole[..k] + whole[k + 1..];
      forall i | 0 <= i < |front| ensures front[i] in rest {
        var j :| 0 <= j < |whole| && whole[j] == part[i];
        assert j != k;
        assert rest[if j < k then j else j - 1] == part[i];
      }
      PartSums(front, rest);
      SumRemove(whole, k);
    }
  }

  /**
   A view without assertion ids whose stubs count as they did in the search always makes the next
   start ready, and finishable on the default selection.
   */
  lemma PersistedViewIsReady(s: State, refs: seq<string>, stored: seq<string>, viewTokens: ViewTokens,
                             requirements: seq<Requirement>, now: real, later: real)
    requires Sound(s) && CanPersist(s, refs, stored)
    requires SameRequirements(requirements, s.requirements) && ValidRequirements(requirements)
    requires forall i :: 0 <= i < |s.candidates| ==>
      var e := s.candidates[i];
      e.chars <= MAX_STUB_CHARS && (e.citation in refs ==> e.assertionId == "" && viewTokens(e) == e.tokens)
    ensures forall i :: 0 <= i < |stored| ==> FindEvidence(s.candidates, stored[i]).Some?
    ensures var view := PersistedView(s, stored, viewTokens);
      var next := Start(requirements, Some(view), now);
      && IsReadable(view) && next.status == Ready
      && Finish(next, FinishCall([], Default, NoComputation, later)).0.status == Finished
  {
    PersistedViewOutcome(s, refs, stored, viewTokens, requirements, now, later);
    ViewCitations(s, refs, stored, viewTokens);
    var items := PersistedView(s, stored, viewTokens).candidates;
    forall i | 0 <= i < |stored|
      ensures items[i] == FindEvidence(s.candidates, stored[i]).value && items[i] in s.candidates
      ensures items[i].chars <= MAX_STUB_CHARS
    {
      FindsObserved(s.candidates, stored[i]);
      var e := FindEvidence(s.candidates, stored[i]).value;
      assert e in s.candidates && e.citation in refs;
    }
    PartSums(items, s.candidates);
  }

  /** A finish that succeeds leaves a selection that can be persisted, whatever calls came before it. */
  lemma FinishCanPersist(requirements: seq<Requirement>, now: real, steps: seq<Call>, call: FinishCall)
    requires ValidRequirements(requirements)
    requires var s := Run(Start(requirements, None, now), steps);
      s.status != Finished && s.status != Abandoned && Finish(s, call).0.status == Finished
    ensures var s := Run(Start(requirements, None, now), steps);
      var t := Finish(s, call).0;
      && Sound(t) && FiledOnce(t.slotRefs) && t.requirements == requirements
      && ValidSelection(t, SelectedRefs(ApplyResolutions(s, call.resolutions).0, call.selection))
  {
    var s := Run(Start(requirements, None, now), steps);
    RunFacts(requirements, None, now, steps);
    FinishKeepsOk(s, call);
    StepFilesOnce(s, FinishStep(call));
    StepKeepsRequirements(s, FinishStep(call));
    ResolutionsKeepOk(s, call.resolutions);
    FinishShape(s, call);
    SelectionRelabelled(ApplyResolutions(s, call.resolutions).0, Finish(s, call).0,
                        SelectedRefs(ApplyResolutions(s, call.resolutions).0, call.selection));
  }

  // ---------------------------------------------------------------- a view no start can read

  const REF: string := "lcm:1:0-1306"

  function Repeat(c: char, n: nat): (text: string)
    ensures |text| == n
  {
    seq(n, _ => c)
  }

  /** 1306 control characters, each six characters of JSON, bring a stub close to its limit. */
  const LONG: Evidence := Evidence(REF, Repeat('\U{1}', 1306), Repeat('a', 64), 2500, 8115)

  const WANTED: seq<Requirement> := [Requirement("when", 1)]

  const FOUND: SearchCall := SearchCall([], "when", true, ToolAnswer([LONG], [], ""), 1.0)

  const FILED: FinishCall := FinishCall([Resolution("when", [REF])], Default, NoComputation, 2.0)

  lemma WantedIsValid()
    ensures ValidRequirements(WANTED)
    ensures Start(WANTED, None, 0.0) == State(WANTED, [], [], map["when" := []], [], Active, 0, 0, false, "", 0.0)
  {
    assert WANTED[..0] == [];
    assert WANTED[0].slot == "when";
  }

  lemma Normal()
    ensures Lower(Strip("when")) == "when" && Strip(REF) == REF
  {
    StripKeeps("when");
    LowerKeeps("when");
    StripKeeps(REF);
  }

  const SEARCHED: State :=
    State(WANTED, [LONG], [], map["when" := []], [Round(1, "when", [REF], [], false)], Active, 2500, 8115, false, "", 1.0)

  lemma OneAdmitted(s: State, e: Evidence)
    requires !Observed(s.candidates, e.citation) && FitsEvidence(s, e)
    ensures AdmitEvidence(s, [e]) == Admitted(WithEvidence(s, e), [e], false)
  {
    assert [e][1..] == [];
    assert AdmitEvidence(WithEvidence(s, e), []) == Admitted(WithEvidence(s, e), [], false);
  }

  lemma OneRound(s: State, slot: string, e: Evidence, now: real)
    requires !Observed(s.candidates, e.citation) && FitsEvidence(s, e) && |s.rounds| + 1 < MAX_RETRIEVAL_ROUNDS
    ensures AfterRound(s, slot, ToolAnswer([e], [], ""), now) ==
      WithEvidence(s, e).(rounds := s.rounds + [Round(|s.rounds| + 1, slot, [e.citation], [], false)], updatedAt := now)
  {
    OneAdmitted(s, e);
    assert Citations([e]) == [e.citation] && LeadIds([]) == [];
  }

  lemma OneFiled(s: State, slot: string, ref: string)
    requires slot in s.slotRefs && Strip(ref) == ref && Observed(s.candidates, ref) && ref !in s.slotRefs[slot]
    ensures FileRefs(s, slot, [ref]) == (s.(slotRefs := s.slotRefs[slot := s.slotRefs[slot] + [ref]]), true)
  {
    assert [ref][1..] == [];
    var t := s.(slotRefs := s.slotRefs[slot := s.slotRefs[slot] + [ref]]);
    assert FileRefs(t, slot, []) == (t, true);
  }

  lemma OneResolved(s: State, slot: string, ref: string)
    requires Lower(Strip(slot)) == slot && IsSlot(s, slot)
    requires slot in s.slotRefs && Strip(ref) == ref && Observed(s.candidates, ref) && ref !in s.slotRefs[slot]
    ensures ApplyResolutions(s, [Resolution(slot, [ref])])
            == (s.(slotRefs := s.slotRefs[slot := s.slotRefs[slot] + [ref]]), true)
  {
    OneFiled(s, slot, ref);
    var t := s.(slotRefs := s.slotRefs[slot := s.slotRefs[slot] + [ref]]);
    assert [Resolution(slot, [ref])][1..] == [];
    assert ApplyItems(t, []) == (t, true);
  }

  lemma OneSearch(s: State, call: SearchCall, slot: string)
    requires s.status == Active && !s.exhausted && |s.rounds| < MAX_RETRIEVAL_ROUNDS
    requires call.resolutions == [] && call.argumentsValid && Lower(Strip(call.missingSlot)) == slot && IsOpenSlot(s, slot)
    ensures Search(s, call) == (AfterRound(s, slot, call.answer, call.now), true)
  {
    assert ApplyResolutions(s, []) == (s, true);
  }

  lemma OpensWhen()
    ensures IsOpenSlot(Start(WANTED, None, 0.0), "when")
  {
    WantedIsValid();
    var s := Start(WANTED, None, 0.0);
    assert s.requirements[0].slot == "when" && IsOpen(s, s.requirements[0]);
  }

  lemma OneFound(s: State, call: SearchCall, slot: string, e: Evidence)
    requires s.status == Active && !s.exhausted && s.rounds == [] && s.candidates == [] && s.tokens == s.chars == 0
    requires call.resolutions == [] && call.argumentsValid && Lower(Strip(call.missingSlot)) == slot && IsOpenSlot(s, slot)
    requires call.answer == ToolAnswer([e], [], "") && e.tokens <= MAX_CONTEXT_TOKENS && e.chars <= MAX_CONTEXT_CHARS
    ensures Search(s, call) ==
      (s.(candidates := [e], tokens := e.tokens, chars := e.chars, rounds := [Round(1, slot, [e.citation], [], false)],
          updatedAt := call.now), true)
  {
    OneSearch(s, call, slot);
    OneRound(s, slot, e, call.now);
    assert s.candidates + [e] == [e];
    assert s.rounds + [Round(1, slot, [e.citation], [], false)] == [Round(1, slot, [e.citation], [], false)];
  }

  lemma LongIsFound()
    ensures Search(Start(WANTED, None, 0.0), FOUND) == (SEARCHED, true)
  {
    WantedIsValid();
    Normal();
    OpensWhen();
    OneFound(Start(WANTED, None, 0.0), FOUND, "when", LONG);
  }

  /** The state with one slot and one ref filed under it. */
  ghost predicate HasOneRef(s: State, slot: string, ref: string) {
    s.requirements == [Requirement(slot, 1)] && s.slotRefs == map[slot := [ref]] && Observed(s.candidates, ref)
  }

  lemma OneSelected(s: State, slot: string, ref: string)
    requires HasOneRef(s, slot, ref)
    ensures SelectedRefs(s, Default) == [ref] && AllClosed(s)
  {
    assert FiledRefs(s, 0) == [];
    assert FiledRefs(s, 1) == [] + [ref] == [ref];
    assert [ref][..0] == [] && Distinct([]) == [];
  }

  lemma OneIsValid(s: State, slot: string, ref: string)
    requires HasOneRef(s, slot, ref)
    ensures ValidSelection(s, [ref])
  {
    assert ToSet([ref]) * ToSet(s.slotRefs[slot]) == {ref};
  }

  lemma FirstRef(slotRefs: map<string, seq<string>>, slot: string, ref: string)
    requires slotRefs == map[slot := []]
    ensures slot in slotRefs && slotRefs[slot] == [] && slotRefs[slot := slotRefs[slot] + [ref]] == map[slot := [ref]]
  {
    assert slot in slotRefs && slotRefs[slot] == [];
    assert slotRefs[slot] + [ref] == [ref];
  }

  lemma FinishResolved(s: State, items: seq<Resolution>, closed: State, now: real)
    requires s.status != Finished && s.status != Abandoned
    requires ApplyResolutions(s, items) == (closed, true) && AllClosed(closed)
    requires ValidSelection(closed, SelectedRefs(closed, Default))
    ensures Finish(s, FinishCall(items, Default, NoComputation, now)).0 ==
      closed.(status := Finished, reason := "", updatedAt := now)
  {
  }

  lemma OneFinishes(s: State, slot: string, ref: string, now: real)
    requires s.status != Finished && s.status != Abandoned && IsSlot(s, slot)
    requires Lower(Strip(slot)) == slot && Strip(ref) == ref
    requires s.requirements == [Requirement(slot, 1)] && s.slotRefs == map[slot := []] && Observed(s.candidates, ref)
    ensures var closed := s.(slotRefs := map[slot := [ref]]);
      Finish(s, FinishCall([Resolution(slot, [ref])], Default, NoComputation, now)).0 ==
        closed.(status := Finished, reason := "", updatedAt := now)
  {
    FirstRef(s.slotRefs, slot, ref);
    OneResolved(s, slot, ref);
    var closed := s.(slotRefs := map[slot := [ref]]);
    OneSelected(closed, slot, ref);
    OneIsValid(closed, slot, ref);
    FinishResolved(s, [Resolution(slot, [ref])], closed, now);
  }

  const CLOSED: State := SEARCHED.(slotRefs := map["when" := [REF]], status := Finished, updatedAt := 2.0)

  lemma LongIsFinished()
    ensures Finish(SEARCHED, FILED).0 == CLOSED
  {
    Normal();
    assert SEARCHED.candidates[0].citation == REF && SEARCHED.requirements[0].slot == "when";
    OneFinishes(SEARCHED, "when", REF, 2.0);
  }

  /**
   A retrieval finds one piece of evidence with an assertion id, whose stub of 8115 characters is
   within the limit, files it and finishes. The stub of the view it persists has 8197 characters, so
   every later start that reads the view raises.
   */
  lemma AssertionMakesViewUnreadable(viewTokens: ViewTokens)
    ensures var t := Run(Start(WANTED, None, 0.0), [SearchStep(FOUND), FinishStep(FILED)]);
      && t.status == Finished && CanPersist(t, [REF], [REF])
      && FindEvidence(t.candidates, REF) == Some(LONG)
      && !IsReadable(PersistedView(t, [REF], viewTokens))
  {
    LongIsFound();
    LongIsFinished();
    var steps := [SearchStep(FOUND), FinishStep(FILED)];
    assert steps[1..] == [FinishStep(FILED)] && steps[1..][1..] == [];
    assert Run(SEARCHED, steps[1..]) == Run(CLOSED, []);
    assert CLOSED.candidates[0].citation == REF;
    OneIsValid(CLOSED, "when", REF);
    UnreadableView(CLOSED, viewTokens);
  }

  lemma UnreadableView(t: State, viewTokens: ViewTokens)
    requires t.candidates == [LONG]
    ensures FindEvidence(t.candidates, REF) == Some(LONG)
    ensures !IsReadable(PersistedView(t, [REF], viewTokens))
  {
    assert t.candidates[|t.candidates| - 1] == LONG;
    assert PersistedView(t, [REF], viewTokens).candidates[0].chars == 8197;
  }
}
