/** What each auxiliary-session operation does to the session it names, and what guards and markers are for. */
module AuxEffects {
  import opened Wrappers
  import opened AuxModel
  import opened AuxOwnership

  // ---------------------------------------------------------------- one session at a time

  /** A session that has ended: it stays known, and what owned it is retired. */
  function EndedView(v: View, retiring: set<nat>): View {
    View(false, v.lineage, v.reused, false, None, None, None, v.retired + retiring)
  }

  function OwnerOf(v: View): set<nat> {
    if v.live.Some? && v.live.value != 0 then {v.live.value} else {}
  }

  lemma RetiredView(s: Aux, id: string, generation: Option<nat>)
    requires id != ""
    ensures RetiredOf(Retire(s, id, generation), id) ==
      RetiredOf(s, id) + if generation.Some? && generation.value != 0 then {generation.value} else {}
  {
  }

  /** Registering with a token: the token owns the session, and whoever owned it before is retired for it. */
  lemma TakenView(s: Aux, id: string, keepMarker: bool, generation: nat)
    requires id != "" && generation != 0
    ensures var v, t := Session(s, id), Session(RegisterGeneration(s, id, keepMarker, generation), id);
      var again := v.live == Some(generation);
      t == View(true, true, v.reused && keepMarker,
                v.guarded || (!again && (v.active || v.usage.Some? || v.live.Some?)),
                if again then v.usage else None, Some(generation), None,
                v.retired + if again then {} else OwnerOf(v))
  {
    RetiredView(s, id, Lookup(s.live, id));
    RetiredView(Claimed(s, id, keepMarker), id, Lookup(s.live, id));
  }

  /** Registering without one: a live session keeps its owner, any other starts afresh. */
  lemma UnownedView(s: Aux, id: string, keepMarker: bool)
    requires id != ""
    ensures var v, t := Session(s, id), Session(RegisterGeneration(s, id, keepMarker, 0), id);
      t == if v.active && v.live.Some? then v.(lineage := true, reused := v.reused && keepMarker)
           else View(true, true, v.reused && keepMarker, false, None, None, None, v.retired + OwnerOf(v))
  {
    RetiredView(Claimed(s, id, keepMarker), id, Lookup(s.live, id));
  }

  /**
   Registration refuses a caller whose token was retired while another token owns the session or it
   is active without an owner; a retired token whose session stands free is replaced by a new one.
   */
  lemma RegisterOutcome(s: Aux, id: string, keepMarker: bool, agent: Agent)
    requires Inv(s) && id != ""
    ensures var (seen, token) := TokenFor(s, agent, false);
      var (t, registered) := Register(s, id, keepMarker, Some(agent));
      var retired := token in RetiredOf(s, id);
      && (registered <==> !(retired && (if id in s.live then s.live[id] != token else id in s.active)))
      && (!registered ==> t == seen)
      && (registered ==> id in t.active && id in t.live && t.live[id] == (if retired then t.lastToken else token))
      && (registered && retired ==> t.lastToken == seen.lastToken + 1)
  {
    CallerTokenIssued(s, id, Some(agent), false);
    var (seen, token) := TokenFor(s, agent, false);
    TakenView(seen, id, keepMarker, token);
    var (renewed, other) := CallerGeneration(seen, id, Some(agent), true);
    CallerKeepsSessions(seen, id, Some(agent), true);
    RegisterIsConfined(seen, id, keepMarker, token);
    if other != 0 {
      TakenView(renewed, id, keepMarker, other);
      RegisterIsConfined(renewed, id, keepMarker, other);
    }
  }

  /** Who may end a session, field by field. */
  predicate MayEndView(v: View, generation: nat, callerParent: string) {
    && (generation == 0 || generation !in v.retired)
    && match v.live
       case Some(owner) => generation == owner || (generation == 0 && (!v.guarded || v.usage.Some?))
       case None =>
         || !v.guarded
         || ((generation != 0 || v.usage.Some?)
             && (v.parent.None? || v.parent.value == "" || callerParent == "" || callerParent == v.parent.value))
  }

  lemma EndsIff(s: Aux, id: string, generation: nat, callerParent: string)
    ensures var (t, ended) := Deactivate(s, id, generation, callerParent);
      && (ended <==> id != "" && MayEndView(Session(s, id), generation, callerParent))
      && (!ended ==> t == s)
      && (ended ==>
            Session(t, id) == EndedView(Session(s, id), if id in s.live then OwnerOf(Session(s, id)) else {generation} - {0}))
  {
    if id != "" {
      RetiredView(s, id, if id in s.live then Some(s.live[id]) else Some(generation));
    }
  }

  /** Unmarking ends a session whoever owns it; one of a known lineage is then marked as reused in the foreground. */
  lemma UnmarkedView(s: Aux, id: string, suppress: bool)
    requires id != ""
    ensures var v := Session(s, id);
      Session(Unmark(s, id, suppress), id) == EndedView(v, OwnerOf(v)).(reused := v.reused || (suppress && v.lineage))
  {
    RetiredView(s, id, Lookup(s.live, id));
  }

  // ---------------------------------------------------------------- usage

  /** Whether a response counts for the session: by its owner, or by nobody's caller if nobody owns it. */
  predicate Counts(v: View, generation: nat, onStackTop: bool) {
    if v.live.Some? then generation == v.live.value || (generation == 0 && onStackTop) else generation == 0
  }

  /** Whether a response lets its caller take an unowned session. */
  predicate Takes(v: View, generation: nat, callerParent: string) {
    v.live.None? && generation != 0 && (v.parent.None? || v.parent.value == "" || callerParent == v.parent.value)
  }

  lemma UsageView(s: Aux, id: string, generation: nat, prompt: int, callerParent: string, onStackTop: bool)
    ensures var v := Session(s, id);
      Session(RecordUsage(s, id, generation, prompt, callerParent, onStackTop), id) ==
        if !v.active || (generation != 0 && generation in v.retired) then v
        else if Takes(v, generation, callerParent) then
          v.(live := Some(generation), usage := Some(prompt), guarded := v.guarded || v.usage.Some?)
        else if Counts(v, generation, onStackTop) then v.(usage := Some(prompt)) else v
  {
  }

  // ---------------------------------------------------------------- handoff

  /** The old session of a handoff: kept as it was, or ended. */
  lemma PriorView(s: Aux, prior: string, id: string, keepPrior: bool, generation: nat, marked: bool)
    requires prior != "" && prior != id
    ensures var v := Session(s, prior);
      Session(HandoffCommit(s, prior, id, keepPrior, generation, marked), prior) ==
        (if keepPrior then v else EndedView(v, OwnerOf(v))).(lineage := true)
  {
    RetiredView(s, prior, Lookup(s.live, prior));
    var released := ReleasePrior(s, prior, keepPrior);
    AcquireIsConfined(released, prior, prior in s.active, id, generation, marked);
    assert SameSession(released, AcquireNew(released, prior, prior in s.active, id, generation, marked), prior);
  }

  lemma AcquireIsConfined(s: Aux, prior: string, priorWasActive: bool, id: string, generation: nat, marked: bool)
    ensures Confined(s, AcquireNew(s, prior, priorWasActive, id, generation, marked), id)
  {
    if id != "" {
      TakeOverIsConfined(s, prior, id, generation, marked);
      TakeOverReusedIsConfined(s, prior, id, generation);
    }
  }

  /** Does the handoff replace the new session's owner? */
  predicate Replaces(v: View, prior: string, generation: nat) {
    && v.live.Some?
    && (if generation != 0 then v.live.value != generation
        else v.guarded && (v.usage.None? || v.parent.None? || v.parent.value == "" || prior == v.parent.value))
  }

  predicate HasRuntime(v: View) {
    v.active || v.usage.Some? || v.live.Some? || v.guarded
  }

  /**
   Does the handoff leave the new session guarded? It does when it replaces an owner or a guard, when
   a token takes over what a caller without one left, or when a session of the lineage is handed on
   from the thread's own marker or from a session of the lineage.
   */
  predicate StaysGuarded(v: View, prior: string, priorKnown: bool, generation: nat, marked: bool) {
    || Replaces(v, prior, generation)
    || v.guarded
    || (v.live.None? && generation != 0 && HasRuntime(v))
    || (v.live.None? && generation == 0 && v.lineage && (marked || (prior != "" && HasRuntime(v) && priorKnown)))
  }

  lemma GuardedIff(s: Aux, prior: string, id: string, generation: nat, marked: bool)
    ensures SupersedesLive(s, prior, id, generation) <==> Replaces(Session(s, id), prior, generation)
    ensures GuardsNew(s, prior, id, generation, marked) <==>
      StaysGuarded(Session(s, id), prior, prior in s.lineage || prior in s.active, generation, marked)
  {
  }

  lemma TakeOverMarks(s: Aux, prior: string, id: string, generation: nat, marked: bool)
    ensures var t := TakeOver(s, prior, id, generation, marked);
      && id in t.active && id !in t.usage && id !in t.reused && t.lineage == s.lineage
      && (id in t.guards <==> GuardsNew(s, prior, id, generation, marked))
  {
  }

  lemma TakeOverOwner(s: Aux, prior: string, id: string, generation: nat, marked: bool)
    ensures Lookup(TakeOver(s, prior, id, generation, marked).live, id) ==
      if generation != 0 then Some(generation)
      else if SupersedesLive(s, prior, id, generation) then None else Lookup(s.live, id)
  {
  }

  lemma TakeOverParent(s: Aux, prior: string, id: string, generation: nat, marked: bool)
    ensures Lookup(TakeOver(s, prior, id, generation, marked).parents, id) ==
      if generation != 0 then None
      else if GuardsNew(s, prior, id, generation, marked) && prior != "" then Some(prior) else Lookup(s.parents, id)
  {
  }

  lemma TakeOverRetires(s: Aux, prior: string, id: string, generation: nat, marked: bool)
    requires id != ""
    ensures RetiredOf(TakeOver(s, prior, id, generation, marked), id) ==
      RetiredOf(s, id) + if SupersedesLive(s, prior, id, generation) then OwnerOf(Session(s, id)) else {}
  {
    RetiredView(s, id, Lookup(s.live, id));
  }

  /** The session taken over, when it was not reused in the foreground. */
  lemma TakenOverView(s: Aux, prior: string, id: string, generation: nat, marked: bool)
    requires id != ""
    ensures var v, t := Session(s, id), Session(TakeOver(s, prior, id, generation, marked), id);
      var guarded := StaysGuarded(v, prior, prior in s.lineage || prior in s.active, generation, marked);
      t == View(true, v.lineage, false, guarded, None,
                if generation != 0 then Some(generation) else if Replaces(v, prior, generation) then None else v.live,
                if generation != 0 then None else if guarded && prior != "" then Some(prior) else v.parent,
                v.retired + if Replaces(v, prior, generation) then OwnerOf(v) else {})
  {
    GuardedIff(s, prior, id, generation, marked);
    TakeOverMarks(s, prior, id, generation, marked);
    TakeOverOwner(s, prior, id, generation, marked);
    TakeOverParent(s, prior, id, generation, marked);
    TakeOverRetires(s, prior, id, generation, marked);
  }

  /** One reused in the foreground keeps that marker and gets no guard; its owner is always retired. */
  lemma ReusedView(s: Aux, prior: string, id: string, generation: nat)
    requires id != ""
    ensures var v, t := Session(s, id), Session(TakeOverReused(s, prior, id, generation), id);
      t == View(true, v.lineage, v.reused, false, None, if generation != 0 then Some(generation) else None,
                if generation != 0 then None else if prior != "" then Some(prior) else v.parent,
                v.retired + OwnerOf(v))
  {
    RetiredView(s, id, Lookup(s.live, id));
  }

  /** A parent that lost the session before changes nothing but the lineage. */
  predicate Stale(v: View, prior: string, priorWasActive: bool, priorRetired: bool, generation: nat) {
    && v.live.Some? && generation == 0 && prior != "" && !priorWasActive
    && ((priorRetired && v.parent != Some(prior))
        || (v.guarded && v.usage.Some? && v.parent.Some? && v.parent.value != "" && v.parent.value != prior))
  }

  lemma AcquiredView(s: Aux, prior: string, priorWasActive: bool, id: string, generation: nat, marked: bool)
    requires id != ""
    ensures var v, t := Session(s, id), Session(AcquireNew(s, prior, priorWasActive, id, generation, marked), id);
      t == if Stale(v, prior, priorWasActive, RetiredOf(s, prior) != {}, generation) then v.(lineage := true)
           else if v.reused && (generation == 0 || v.live != Some(generation)) then
             Session(TakeOverReused(s, prior, id, generation), id).(lineage := true)
           else Session(TakeOver(s, prior, id, generation, marked), id).(lineage := true)
  {
  }

  /** A commit stops at the stale parent exactly in that case, judged after the old session is released. */
  lemma StopsIff(s: Aux, prior: string, id: string, keepPrior: bool, generation: nat)
    requires id != ""
    ensures var released := ReleasePrior(s, prior, keepPrior);
      StopsAtStaleParent(s, prior, id, keepPrior, generation) <==>
        Stale(Session(released, id), prior, prior in s.active, RetiredOf(released, prior) != {}, generation)
  {
  }

  /** A caller whose token was retired for the new session hands nothing over: the session only joins the lineage. */
  lemma RetiredHandoffDoesNothing(s: Aux, prior: string, id: string, keepPrior: bool, agent: Agent, marked: bool, x: string)
    requires TokenFor(s, agent, false).1 in RetiredOf(s, id) && TokenFor(s, agent, false).1 != 0
    ensures var v := Session(s, x);
      Session(Handoff(s, prior, id, keepPrior, Some(agent), marked), x) == if x == id && id != "" then v.(lineage := true) else v
  {
    CallerKeepsSessions(s, id, Some(agent), false);
  }

  // ---------------------------------------------------------------- nothing outlives a session

  /** Usage, guards and parents are kept for active sessions only; marked sessions are of a known lineage. */
  ghost predicate NoResidue(s: Aux) {
    && s.usage.Keys <= s.active && s.guards <= s.active && s.parents.Keys <= s.active && s.reused <= s.lineage
  }

  lemma RegisterLeavesNoResidue(s: Aux, id: string, keepMarker: bool, generation: nat)
    requires NoResidue(s)
    ensures NoResidue(RegisterGeneration(s, id, keepMarker, generation))
  {
  }

  lemma HandoffLeavesNoResidue(s: Aux, prior: string, id: string, keepPrior: bool, generation: nat, marked: bool)
    requires NoResidue(s)
    ensures NoResidue(HandoffCommit(s, prior, id, keepPrior, generation, marked))
  {
    var released := ReleasePrior(s, prior, keepPrior);
    assert NoResidue(released);
    AcquireLeavesNoResidue(released, prior, prior in s.active, id, generation, marked);
  }

  lemma AcquireLeavesNoResidue(s: Aux, prior: string, priorWasActive: bool, id: string, generation: nat, marked: bool)
    requires NoResidue(s)
    ensures NoResidue(AcquireNew(s, prior, priorWasActive, id, generation, marked))
  {
    assert NoResidue(TakeOverReused(s, prior, id, generation));
    TakeOverLeavesNoResidue(s, prior, id, generation, marked);
  }

  lemma TakeOverLeavesNoResidue(s: Aux, prior: string, id: string, generation: nat, marked: bool)
    requires NoResidue(s)
    ensures NoResidue(TakeOver(s, prior, id, generation, marked))
  {
  }

  lemma CallerKeepsSessions(s: Aux, id: string, caller: Option<Agent>, refresh: bool)
    ensures var t := CallerGeneration(s, id, caller, refresh).0;
      t == s.(holders := t.holders, lastToken := t.lastToken)
  {
  }

  lemma RegisterStepLeavesNoResidue(s: Aux, id: string, keepMarker: bool, caller: Option<Agent>)
    requires NoResidue(s)
    ensures NoResidue(Register(s, id, keepMarker, caller).0)
  {
    CallerKeepsSessions(s, id, caller, false);
    var (seen, generation) := CallerGeneration(s, id, caller, false);
    CallerKeepsSessions(seen, id, caller, true);
    RegisterLeavesNoResidue(seen, id, keepMarker, generation);
    var (renewed, other) := CallerGeneration(seen, id, caller, true);
    RegisterLeavesNoResidue(renewed, id, keepMarker, other);
  }

  lemma HandoffStepLeavesNoResidue(s: Aux, prior: string, id: string, keepPrior: bool, caller: Option<Agent>, marked: bool)
    requires NoResidue(s)
    ensures NoResidue(Handoff(s, prior, id, keepPrior, caller, marked))
  {
    CallerKeepsSessions(s, id, caller, false);
    var (seen, generation) := CallerGeneration(s, id, caller, false);
    HandoffLeavesNoResidue(seen, prior, id, keepPrior, generation, marked);
  }

  lemma EndLeavesNoResidue(s: Aux, id: string, generation: Option<nat>)
    requires NoResidue(s)
    ensures NoResidue(Ended(s, id, generation))
  {
  }

  lemma UsageLeavesNoResidue(s: Aux, id: string, generation: nat, prompt: int, callerParent: string, onStackTop: bool)
    requires NoResidue(s)
    ensures NoResidue(RecordUsage(s, id, generation, prompt, callerParent, onStackTop))
  {
  }

  lemma StepLeavesNoResidue(s: Aux, step: Step)
    requires NoResidue(s)
    ensures NoResidue(Apply(s, step))
  {
    match step
    case RegisterStep(id, keepMarker, caller) => RegisterStepLeavesNoResidue(s, id, keepMarker, caller);
    case HandoffStep(prior, id, keepPrior, caller, marked) => HandoffStepLeavesNoResidue(s, prior, id, keepPrior, caller, marked);
    case CommitStep(prior, id, keepPrior, generation, marked) =>
      HandoffLeavesNoResidue(s, prior, id, keepPrior, generation, marked);
    case DeactivateStep(id, generation, _) =>
      EndLeavesNoResidue(s, id, if id in s.live then Some(s.live[id]) else Some(generation));
    case UnmarkStep(id, _) => EndLeavesNoResidue(s, id, Lookup(s.live, id));
    case UsageStep(id, generation, prompt, callerParent, onStackTop) =>
      UsageLeavesNoResidue(s, id, generation, prompt, callerParent, onStackTop);
    case _ =>
  }

  /** Over every run, overtaken handoffs included: when a session is not active, nothing of it is kept but its history. */
  lemma {:induction false} RunLeavesNoResidue(s: Aux, steps: seq<Step>)
    requires NoResidue(s)
    ensures NoResidue(Run(s, steps))
    decreases |steps|
  {
    if steps != [] {
      StepLeavesNoResidue(s, steps[0]);
      RunLeavesNoResidue(Apply(s, steps[0]), steps[1..]);
    }
  }

  // ---------------------------------------------------------------- what the guard is for

  /**
   When a token takes a session from a live one, a late end without a token is refused until the new
   owner has answered once; then it ends the session again. The displaced token is refused in both cases.
   */
  lemma GuardWaitsForUsage(s: Aux, id: string, keepMarker: bool, generation: nat, prompt: int, callerParent: string,
                           onStackTop: bool)
    requires Inv(s) && id != "" && id in s.live && generation != 0 && generation != s.live[id] && !IsRetired(s, id, generation)
    ensures var taken := RegisterGeneration(s, id, keepMarker, generation);
      var answered := RecordUsage(taken, id, generation, prompt, callerParent, onStackTop);
      && !Deactivate(taken, id, 0, callerParent).1 && Deactivate(answered, id, 0, callerParent).1
      && !Deactivate(taken, id, s.live[id], callerParent).1 && !Deactivate(answered, id, s.live[id], callerParent).1
  {
    assert SessionOk(s, id);
    TakenView(s, id, keepMarker, generation);
    var taken := RegisterGeneration(s, id, keepMarker, generation);
    UsageView(taken, id, generation, prompt, callerParent, onStackTop);
    EndsIff(taken, id, 0, callerParent);
    EndsIff(taken, id, s.live[id], callerParent);
    var answered := RecordUsage(taken, id, generation, prompt, callerParent, onStackTop);
    EndsIff(answered, id, 0, callerParent);
    EndsIff(answered, id, s.live[id], callerParent);
  }

  /**
   A handoff without a token that replaces an owner names the parent that may end the session: once
   the session has answered, an end reported from another parent is refused, one from that parent is not.
   */
  lemma HandoffNamesParent(s: Aux, prior: string, id: string, marked: bool, prompt: int, other: string, onStackTop: bool)
    requires Inv(s) && id != "" && prior != "" && other != "" && other != prior
    requires id !in s.reused && Replaces(Session(s, id), prior, 0)
    ensures var taken := TakeOver(s, prior, id, 0, marked);
      var answered := RecordUsage(taken, id, 0, prompt, prior, onStackTop);
      && !Deactivate(taken, id, 0, prior).1 && !Deactivate(taken, id, 0, other).1
      && !Deactivate(answered, id, 0, other).1 && Deactivate(answered, id, 0, prior).1
  {
    TakenOverView(s, prior, id, 0, marked);
    var taken := TakeOver(s, prior, id, 0, marked);
    UsageView(taken, id, 0, prompt, prior, onStackTop);
    EndsIff(taken, id, 0, prior);
    EndsIff(taken, id, 0, other);
    var answered := RecordUsage(taken, id, 0, prompt, prior, onStackTop);
    EndsIff(answered, id, 0, other);
    EndsIff(answered, id, 0, prior);
  }

  // ---------------------------------------------------------------- tokens and the thread's stack

  /** An agent that asks again gets the token it has, and a forced one replaces it. */
  lemma TokenIsKept(s: Aux, agent: Agent, forceNew: bool)
    ensures var (t, token) := TokenFor(s, agent, forceNew);
      && TokenFor(t, agent, false) == (t, token)
      && (forceNew ==> token == s.lastToken + 1 && t.lastToken == token)
  {
  }

  /** The end of an agent drops its own token; a newer one at the same address stays. */
  lemma DropForgets(s: Aux, address: nat, holder: Holder, agent: Agent)
    ensures var t := DropToken(s, address, holder);
      && t == s.(holders := t.holders)
      && (forall a :: a in t.holders <==> a in s.holders && !(a == address && s.holders[a] == holder))
      && (forall a :: a in t.holders ==> t.holders[a] == s.holders[a])
      && (agent.address == address && holder.serial == agent.serial && TokenFor(s, agent, false).1 == holder.token
          && address in s.holders && s.holders[address] == holder ==>
            TokenFor(t, agent, false).1 == s.lastToken + 1)
  {
  }

  function Kept(stack: seq<string>, keep: set<string>): seq<string> {
    if stack == [] then [] else (if stack[0] in keep then [stack[0]] else []) + Kept(stack[1..], keep)
  }

  lemma {:induction false} KeptEnd(stack: seq<string>, x: string, keep: set<string>)
    ensures Kept(stack + [x], keep) == Kept(stack, keep) + if x in keep then [x] else []
  {
    if stack == [] {
      assert [x][1..] == [];
    } else {
      assert (stack + [x])[1..] == stack[1..] + [x];
      KeptEnd(stack[1..], x, keep);
    }
  }

  lemma {:induction false} OnlyActiveWithout(stack: seq<string>, ids: set<string>, active: set<string>)
    ensures OnlyActive(Without(stack, ids), active) == Kept(stack, active - ids)
  {
    if stack != [] {
      var before, last := stack[..|stack| - 1], stack[|stack| - 1];
      OnlyActiveWithout(before, ids, active);
      KeptEnd(before, last, active - ids);
      assert before + [last] == stack;
      if last !in ids {
        OnlyActiveEnd(Without(before, ids), last, active);
      } else {
        assert Without(before, ids) + [] == Without(before, ids);
      }
    }
  }

  lemma OnlyActiveEnd(stack: seq<string>, x: string, active: set<string>)
    ensures OnlyActive(stack + [x], active) == OnlyActive(stack, active) + if x in active then [x] else []
  {
    assert (stack + [x])[..|stack|] == stack;
  }

  /**
   After a handoff the thread's stack holds its other active sessions in their order, then the new
   session, if the thread was in the old or the new one and the new one is active.
   */
  lemma HandoffMovesMarker(stack: seq<string>, prior: string, id: string, active: set<string>)
    ensures HandoffStack(stack, prior, id, active) ==
      Kept(stack, active - {prior, id})
      + if (prior in stack || id in stack) && id != "" && id in active then [id] else []
  {
    OnlyActiveWithout(stack, {prior, id}, active);
    OnlyActiveEnd(Without(stack, {prior, id}), id, active);
  }
}
