/** What every interleaving of auxiliary-session operations keeps, and who may end a session. */
module AuxOwnership {
  import opened Wrappers
  import opened AuxModel

  /** Everything recorded about one session. */
  datatype View = View(active: bool, lineage: bool, reused: bool, guarded: bool, usage: Option<int>,
                       live: Option<nat>, parent: Option<string>, retired: set<nat>)

  function Session(s: Aux, x: string): View {
    View(x in s.active, x in s.lineage, x in s.reused, x in s.guards, Lookup(s.usage, x), Lookup(s.live, x),
         Lookup(s.parents, x), RetiredOf(s, x))
  }

  /** A live session is active and part of a lineage, and its generation was never retired for it. */
  ghost predicate ViewOk(v: View, last: nat) {
    && (v.live.Some? ==> v.active && v.live.value != 0 && v.live.value <= last && v.live.value !in v.retired)
    && (v.active ==> v.lineage)
    && (forall g :: g in v.retired ==> g <= last)
  }

  ghost predicate SessionOk(s: Aux, x: string) {
    ViewOk(Session(s, x), s.lastToken)
  }

  /** Tokens held are issued ones, and no two addresses hold the same. */
  ghost predicate HoldersOk(s: Aux) {
    && (forall a :: a in s.holders ==> 0 < s.holders[a].token <= s.lastToken)
    && (forall a, b :: a in s.holders && b in s.holders && s.holders[a].token == s.holders[b].token ==> a == b)
  }

  ghost predicate Inv(s: Aux) {
    HoldersOk(s) && forall x :: SessionOk(s, x)
  }

  ghost predicate SameSession(s: Aux, t: Aux, x: string) {
    Session(s, x) == Session(t, x)
  }

  /** Same counters and holders, only `id` touched, and nothing un-retired. */
  ghost predicate Confined(s: Aux, t: Aux, id: string) {
    && (forall x :: x != id ==> SameSession(s, t, x))
    && RetiredOf(s, id) <= RetiredOf(t, id)
    && t.lastToken == s.lastToken && t.holders == s.holders
  }

  lemma ConfinedKeepsInv(s: Aux, t: Aux, id: string)
    requires Inv(s) && Confined(s, t, id) && SessionOk(t, id)
    ensures Inv(t)
  {
    forall x ensures SessionOk(t, x) {
      assert SessionOk(s, x);
      assert x != id ==> SameSession(s, t, x);
    }
  }

  lemma RetireFacts(s: Aux, id: string, generation: Option<nat>)
    ensures var t := Retire(s, id, generation);
      && RetiredOf(t, id) == RetiredOf(s, id)
           + (if id != "" && generation.Some? && generation.value != 0 then {generation.value} else {})
      && (forall x :: x != id ==> RetiredOf(t, x) == RetiredOf(s, x))
      && t == s.(retired := t.retired)
  {
  }

  // ---------------------------------------------------------------- operations touch one session

  lemma DisplacedLeavesOthers(s: Aux, id: string, guard: bool, x: string)
    requires x != id
    ensures SameSession(s, Displaced(s, id, guard), x)
  {
    RetireFacts(s, id, Lookup(s.live, id));
  }

  lemma DisownedLeavesOthers(s: Aux, id: string, generation: Option<nat>, x: string)
    requires x != id
    ensures SameSession(s, Disowned(s, id, generation), x)
  {
    RetireFacts(s, id, generation);
  }

  lemma ClaimedLeavesOthers(s: Aux, id: string, keepMarker: bool, x: string)
    requires x != id
    ensures SameSession(s, Claimed(s, id, keepMarker), x)
  {
  }

  lemma OwnedLeavesOthers(s: Aux, id: string, generation: nat, x: string)
    requires x != id
    ensures SameSession(s, Owned(s, id, generation), x)
  {
  }

  lemma RegisterLeavesOthers(s: Aux, id: string, keepMarker: bool, generation: nat, x: string)
    requires x != id
    ensures SameSession(s, RegisterGeneration(s, id, keepMarker, generation), x)
  {
    var claimed := Claimed(s, id, keepMarker);
    ClaimedLeavesOthers(s, id, keepMarker, x);
    if generation != 0 {
      var guard := id in s.active || id in s.usage || Lookup(s.live, id).Some?;
      DisplacedLeavesOthers(claimed, id, guard, x);
      OwnedLeavesOthers(claimed, id, generation, x);
      OwnedLeavesOthers(Displaced(claimed, id, guard), id, generation, x);
    } else {
      DisownedLeavesOthers(claimed, id, Lookup(s.live, id), x);
    }
  }

  lemma RegisterIsConfined(s: Aux, id: string, keepMarker: bool, generation: nat)
    ensures Confined(s, RegisterGeneration(s, id, keepMarker, generation), id)
  {
    RetireFacts(Claimed(s, id, keepMarker), id, Lookup(s.live, id));
    forall x | x != id ensures SameSession(s, RegisterGeneration(s, id, keepMarker, generation), x) {
      RegisterLeavesOthers(s, id, keepMarker, generation, x);
    }
  }

  lemma EndedIsConfined(s: Aux, id: string, generation: Option<nat>)
    ensures Confined(s, Ended(s, id, generation), id)
  {
    RetireFacts(s, id, generation);
  }

  lemma UsageLeavesOthers(s: Aux, id: string, generation: nat, prompt: int, callerParent: string, onStackTop: bool, x: string)
    requires x != id
    ensures SameSession(s, RecordUsage(s, id, generation, prompt, callerParent, onStackTop), x)
  {
  }

  lemma UsageIsConfined(s: Aux, id: string, generation: nat, prompt: int, callerParent: string, onStackTop: bool)
    ensures Confined(s, RecordUsage(s, id, generation, prompt, callerParent, onStackTop), id)
  {
    forall x | x != id ensures SameSession(s, RecordUsage(s, id, generation, prompt, callerParent, onStackTop), x) {
      UsageLeavesOthers(s, id, generation, prompt, callerParent, onStackTop, x);
    }
  }

  lemma TakeOverLeavesOthers(s: Aux, prior: string, id: string, generation: nat, marked: bool, x: string)
    requires x != id
    ensures SameSession(s, WithLineage(TakeOver(s, prior, id, generation, marked), id), x)
  {
    RetireFacts(s, id, Lookup(s.live, id));
  }

  lemma TakeOverIsConfined(s: Aux, prior: string, id: string, generation: nat, marked: bool)
    ensures Confined(s, WithLineage(TakeOver(s, prior, id, generation, marked), id), id)
  {
    RetireFacts(s, id, Lookup(s.live, id));
    forall x | x != id ensures SameSession(s, WithLineage(TakeOver(s, prior, id, generation, marked), id), x) {
      TakeOverLeavesOthers(s, prior, id, generation, marked, x);
    }
  }

  lemma TakeOverReusedLeavesOthers(s: Aux, prior: string, id: string, generation: nat, x: string)
    requires x != id
    ensures SameSession(s, WithLineage(TakeOverReused(s, prior, id, generation), id), x)
  {
    RetireFacts(s, id, Lookup(s.live, id));
  }

  lemma TakeOverReusedIsConfined(s: Aux, prior: string, id: string, generation: nat)
    ensures Confined(s, WithLineage(TakeOverReused(s, prior, id, generation), id), id)
  {
    RetireFacts(s, id, Lookup(s.live, id));
    forall x | x != id ensures SameSession(s, WithLineage(TakeOverReused(s, prior, id, generation), id), x) {
      TakeOverReusedLeavesOthers(s, prior, id, generation, x);
    }
  }

  // ---------------------------------------------------------------- and leave it sound

  lemma RegisterKeepsSession(s: Aux, id: string, keepMarker: bool, generation: nat)
    requires SessionOk(s, id) && generation <= s.lastToken && !IsRetired(s, id, generation)
    ensures SessionOk(RegisterGeneration(s, id, keepMarker, generation), id)
  {
    RetireFacts(Claimed(s, id, keepMarker), id, Lookup(s.live, id));
  }

  lemma EndedKeepsSession(s: Aux, id: string, generation: Option<nat>)
    requires SessionOk(s, id) && (generation.Some? ==> generation.value <= s.lastToken)
    ensures SessionOk(Ended(s, id, generation), id)
  {
    RetireFacts(s, id, generation);
  }

  lemma UsageKeepsSession(s: Aux, id: string, generation: nat, prompt: int, callerParent: string, onStackTop: bool)
    requires SessionOk(s, id) && generation <= s.lastToken
    ensures SessionOk(RecordUsage(s, id, generation, prompt, callerParent, onStackTop), id)
  {
  }

  lemma TakeOverKeepsSession(s: Aux, prior: string, id: string, generation: nat, marked: bool)
    requires SessionOk(s, id) && generation <= s.lastToken && id != ""
    ensures SessionOk(WithLineage(TakeOver(s, prior, id, generation, marked), id), id) <==> !IsRetired(s, id, generation)
  {
    RetireFacts(s, id, Lookup(s.live, id));
  }

  lemma TakeOverReusedKeepsSession(s: Aux, prior: string, id: string, generation: nat)
    requires SessionOk(s, id) && generation <= s.lastToken && id != ""
    requires generation == 0 || Lookup(s.live, id) != Some(generation)
    ensures SessionOk(WithLineage(TakeOverReused(s, prior, id, generation), id), id) <==> !IsRetired(s, id, generation)
  {
    RetireFacts(s, id, Lookup(s.live, id));
  }

  // ---------------------------------------------------------------- tokens

  /** A caller's token is its own, positive, and after a refresh not retired. */
  lemma CallerTokenIssued(s: Aux, id: string, caller: Option<Agent>, refresh: bool)
    requires Inv(s)
    ensures var (t, token) := CallerGeneration(s, id, caller, refresh);
      && Inv(t) && s.lastToken <= t.lastToken && t == s.(lastToken := t.lastToken, holders := t.holders)
      && token <= t.lastToken && (caller.Some? <==> token != 0)
      && (refresh ==> !IsRetired(t, id, token))
  {
    var (t, token) := CallerGeneration(s, id, caller, refresh);
    forall x ensures SessionOk(t, x) {
      assert SessionOk(s, x) && Session(s, x) == Session(t, x);
    }
    assert SessionOk(s, id);
  }

  // ---------------------------------------------------------------- whole operations

  ghost predicate RetiredGrows(s: Aux, t: Aux) {
    forall x :: RetiredOf(s, x) <= RetiredOf(t, x)
  }

  ghost predicate Progress(s: Aux, t: Aux) {
    Inv(t) && RetiredGrows(s, t) && s.lastToken <= t.lastToken
  }

  lemma ConfinedProgress(s: Aux, t: Aux, id: string)
    requires Inv(s) && Confined(s, t, id) && SessionOk(t, id)
    ensures Progress(s, t)
  {
    ConfinedKeepsInv(s, t, id);
    forall x ensures RetiredOf(s, x) <= RetiredOf(t, x) {
      assert x != id ==> SameSession(s, t, x);
    }
  }

  lemma RegisterGenerationProgress(s: Aux, id: string, keepMarker: bool, generation: nat)
    requires Inv(s) && generation <= s.lastToken && !IsRetired(s, id, generation)
    ensures Progress(s, RegisterGeneration(s, id, keepMarker, generation))
  {
    assert SessionOk(s, id);
    RegisterIsConfined(s, id, keepMarker, generation);
    RegisterKeepsSession(s, id, keepMarker, generation);
    ConfinedProgress(s, RegisterGeneration(s, id, keepMarker, generation), id);
  }

  lemma RegisterKeepsInv(s: Aux, id: string, keepMarker: bool, caller: Option<Agent>)
    requires Inv(s)
    ensures Progress(s, Register(s, id, keepMarker, caller).0)
  {
    var (seen, generation) := CallerGeneration(s, id, caller, false);
    CallerProgress(s, id, caller, false);
    if IsRetired(seen, id, generation) {
      var (renewed, other) := CallerGeneration(seen, id, caller, true);
      CallerProgress(seen, id, caller, true);
      RegisterGenerationProgress(renewed, id, keepMarker, other);
      ProgressContinues(s, seen, renewed);
      ProgressContinues(s, renewed, RegisterGeneration(renewed, id, keepMarker, other));
    } else {
      RegisterGenerationProgress(seen, id, keepMarker, generation);
      ProgressContinues(s, seen, RegisterGeneration(seen, id, keepMarker, generation));
    }
  }

  lemma CallerProgress(s: Aux, id: string, caller: Option<Agent>, refresh: bool)
    requires Inv(s)
    ensures var (t, token) := CallerGeneration(s, id, caller, refresh);
      Progress(s, t) && token <= t.lastToken && (refresh ==> !IsRetired(t, id, token))
  {
    CallerTokenIssued(s, id, caller, refresh);
  }

  lemma ProgressContinues(s: Aux, t: Aux, u: Aux)
    requires Progress(s, t) && Progress(t, u)
    ensures Progress(s, u)
  {
    forall x ensures RetiredOf(s, x) <= RetiredOf(u, x) {
      assert RetiredOf(s, x) <= RetiredOf(t, x);
    }
  }

  lemma EndedProgress(s: Aux, id: string, generation: Option<nat>)
    requires Inv(s) && (generation.Some? ==> generation.value <= s.lastToken)
    ensures Progress(s, Ended(s, id, generation))
  {
    assert SessionOk(s, id);
    EndedIsConfined(s, id, generation);
    EndedKeepsSession(s, id, generation);
    ConfinedProgress(s, Ended(s, id, generation), id);
  }

  lemma LineageProgress(s: Aux, id: string)
    requires Inv(s)
    ensures Progress(s, WithLineage(s, id))
  {
    assert SessionOk(s, id);
    assert Confined(s, WithLineage(s, id), id);
    ConfinedProgress(s, WithLineage(s, id), id);
  }

  lemma UnmarkKeepsInv(s: Aux, id: string, suppress: bool)
    requires Inv(s)
    ensures Progress(s, Unmark(s, id, suppress))
  {
    assert SessionOk(s, id);
    EndedProgress(s, id, Lookup(s.live, id));
    var ended := Ended(s, id, Lookup(s.live, id));
    var marked := ended.(reused := ended.reused + {id});
    assert SessionOk(ended, id);
    assert Confined(ended, marked, id);
    ConfinedProgress(ended, marked, id);
  }

  lemma DeactivateKeepsInv(s: Aux, id: string, generation: nat, callerParent: string)
    requires Inv(s) && generation <= s.lastToken
    ensures Progress(s, Deactivate(s, id, generation, callerParent).0)
  {
    assert SessionOk(s, id);
    EndedProgress(s, id, if id in s.live then Some(s.live[id]) else Some(generation));
  }

  lemma UsageKeepsInv(s: Aux, id: string, generation: nat, prompt: int, callerParent: string, onStackTop: bool)
    requires Inv(s) && generation <= s.lastToken
    ensures Progress(s, RecordUsage(s, id, generation, prompt, callerParent, onStackTop))
  {
    assert SessionOk(s, id);
    UsageIsConfined(s, id, generation, prompt, callerParent, onStackTop);
    UsageKeepsSession(s, id, generation, prompt, callerParent, onStackTop);
    ConfinedProgress(s, RecordUsage(s, id, generation, prompt, callerParent, onStackTop), id);
  }

  lemma ReleaseProgress(s: Aux, prior: string, keepPrior: bool)
    requires Inv(s)
    ensures Progress(s, ReleasePrior(s, prior, keepPrior))
  {
    if prior != "" {
      assert SessionOk(s, prior);
      EndedProgress(s, prior, Lookup(s.live, prior));
      var released := if keepPrior then s else Ended(s, prior, Lookup(s.live, prior));
      LineageProgress(released, prior);
    }
  }

  // ---------------------------------------------------------------- handoff

  lemma AcquireKeepsInvIff(s: Aux, prior: string, priorWasActive: bool, id: string, generation: nat, marked: bool)
    requires Inv(s) && generation <= s.lastToken
    ensures var t := AcquireNew(s, prior, priorWasActive, id, generation, marked);
      && (Inv(t) <==> id == "" || !IsRetired(s, id, generation)) && RetiredGrows(s, t) && t.lastToken == s.lastToken
  {
    if id != "" {
      assert SessionOk(s, id);
      TakeOverIsConfined(s, prior, id, generation, marked);
      TakeOverReusedIsConfined(s, prior, id, generation);
      TakeOverKeepsSession(s, prior, id, generation, marked);
      if generation == 0 || Lookup(s.live, id) != Some(generation) {
        TakeOverReusedKeepsSession(s, prior, id, generation);
      }
      var t := AcquireNew(s, prior, priorWasActive, id, generation, marked);
      if StaleParent(s, prior, priorWasActive, id, generation) {
        LineageProgress(s, id);
      } else {
        assert Confined(s, t, id);
        assert SessionOk(t, id) <==> !IsRetired(s, id, generation);
        if SessionOk(t, id) {
          ConfinedProgress(s, t, id);
        }
        forall x ensures RetiredOf(s, x) <= RetiredOf(t, x) {
          assert x != id ==> SameSession(s, t, x);
        }
      }
    }
  }

  /** The generation that a commit would make live has been retired, before it or by it. */
  predicate BringsBackRetired(s: Aux, prior: string, id: string, keepPrior: bool, generation: nat) {
    id != "" && generation != 0
    && (generation in RetiredOf(s, id) || (prior == id && !keepPrior && Lookup(s.live, id) == Some(generation)))
  }

  /**
   A handoff commit keeps ownership sound exactly when it does not make a retired generation live.
   Between two sessions, as its caller guarantees, that happens exactly when the generation was
   retired after the unlocked check.
   */
  lemma CommitKeepsInvIff(s: Aux, prior: string, id: string, keepPrior: bool, generation: nat, marked: bool)
    requires Inv(s) && generation <= s.lastToken
    ensures var t := HandoffCommit(s, prior, id, keepPrior, generation, marked);
      && (Inv(t) <==> !BringsBackRetired(s, prior, id, keepPrior, generation))
      && (prior != id ==> (Inv(t) <==> id == "" || !IsRetired(s, id, generation)))
      && RetiredGrows(s, t) && t.lastToken == s.lastToken
  {
    ReleaseProgress(s, prior, keepPrior);
    var released := ReleasePrior(s, prior, keepPrior);
    assert released.lastToken == s.lastToken;
    AcquireKeepsInvIff(released, prior, prior in s.active, id, generation, marked);
    ReleasedRetired(s, prior, id, keepPrior, generation);
  }

  lemma ReleasedRetired(s: Aux, prior: string, id: string, keepPrior: bool, generation: nat)
    ensures IsRetired(ReleasePrior(s, prior, keepPrior), id, generation) <==>
      generation != 0
      && (generation in RetiredOf(s, id)
          || (prior == id && prior != "" && !keepPrior && Lookup(s.live, id) == Some(generation)))
  {
    RetireFacts(s, prior, Lookup(s.live, prior));
  }

  /** A handoff between two sessions, made in one piece, keeps ownership sound. */
  lemma HandoffKeepsInv(s: Aux, prior: string, id: string, keepPrior: bool, caller: Option<Agent>, marked: bool)
    requires Inv(s) && prior != id
    ensures Progress(s, Handoff(s, prior, id, keepPrior, caller, marked))
  {
    CallerTokenIssued(s, id, caller, false);
    var (seen, generation) := CallerGeneration(s, id, caller, false);
    if IsRetired(seen, id, generation) {
      LineageProgress(seen, id);
    } else {
      CommitKeepsInvIff(seen, prior, id, keepPrior, generation, marked);
    }
  }

  // ---------------------------------------------------------------- runs

  datatype Step =
    | TokenStep(agent: Agent)
    | DropStep(address: nat, holder: Holder)
    | RegisterStep(id: string, keepMarker: bool, caller: Option<Agent>)
    | DeactivateStep(id: string, generation: nat, callerParent: string)
    | UnmarkStep(id: string, suppress: bool)
    | UsageStep(id: string, generation: nat, prompt: int, callerParent: string, onStackTop: bool)
    | HandoffStep(prior: string, id: string, keepPrior: bool, caller: Option<Agent>, marked: bool)
    | CommitStep(prior: string, id: string, keepPrior: bool, generation: nat, marked: bool)

  /** Generations passed in were issued before; handoffs join two sessions, and commits are not overtaken. */
  predicate Enabled(s: Aux, step: Step) {
    match step
    case DeactivateStep(_, generation, _) => generation <= s.lastToken
    case UsageStep(_, generation, _, _, _) => generation <= s.lastToken
    case HandoffStep(prior, id, _, _, _) => prior != id
    case CommitStep(prior, id, keepPrior, generation, _) =>
      generation <= s.lastToken && !BringsBackRetired(s, prior, id, keepPrior, generation)
    case _ => true
  }

  function Apply(s: Aux, step: Step): Aux {
    match step
    case TokenStep(agent) => TokenFor(s, agent, false).0
    case DropStep(address, holder) => DropToken(s, address, holder)
    case RegisterStep(id, keepMarker, caller) => Register(s, id, keepMarker, caller).0
    case DeactivateStep(id, generation, callerParent) => Deactivate(s, id, generation, callerParent).0
    case UnmarkStep(id, suppress) => Unmark(s, id, suppress)
    case UsageStep(id, generation, prompt, callerParent, onStackTop) =>
      RecordUsage(s, id, generation, prompt, callerParent, onStackTop)
    case HandoffStep(prior, id, keepPrior, caller, marked) => Handoff(s, prior, id, keepPrior, caller, marked)
    case CommitStep(prior, id, keepPrior, generation, marked) =>
      HandoffCommit(s, prior, id, keepPrior, generation, marked)
  }

  ghost function Run(s: Aux, steps: seq<Step>): Aux
    decreases |steps|
  {
    if steps == [] then s else Run(Apply(s, steps[0]), steps[1..])
  }

  ghost predicate RunEnabled(s: Aux, steps: seq<Step>)
    decreases |steps|
  {
    steps == [] || (Enabled(s, steps[0]) && RunEnabled(Apply(s, steps[0]), steps[1..]))
  }

  lemma TokensProgress(s: Aux, t: Aux)
    requires Inv(s) && HoldersOk(t) && s.lastToken <= t.lastToken
    requires t == s.(lastToken := t.lastToken, holders := t.holders)
    ensures Progress(s, t)
  {
    forall x ensures SessionOk(t, x) {
      assert SessionOk(s, x) && Session(s, x) == Session(t, x);
    }
  }

  lemma StepKeepsInv(s: Aux, step: Step)
    requires Inv(s) && Enabled(s, step)
    ensures Progress(s, Apply(s, step))
  {
    match step
    case TokenStep(agent) => TokensProgress(s, Apply(s, step));
    case DropStep(address, holder) => TokensProgress(s, Apply(s, step));
    case RegisterStep(id, keepMarker, caller) => RegisterKeepsInv(s, id, keepMarker, caller);
    case DeactivateStep(id, generation, callerParent) => DeactivateKeepsInv(s, id, generation, callerParent);
    case UnmarkStep(id, suppress) => UnmarkKeepsInv(s, id, suppress);
    case UsageStep(id, generation, prompt, callerParent, onStackTop) =>
      UsageKeepsInv(s, id, generation, prompt, callerParent, onStackTop);
    case HandoffStep(prior, id, keepPrior, caller, marked) => HandoffKeepsInv(s, prior, id, keepPrior, caller, marked);
    case CommitStep(prior, id, keepPrior, generation, marked) =>
      CommitKeepsInvIff(s, prior, id, keepPrior, generation, marked);
  }

  /** Over every run live generations are unretired, live sessions active, active ones in the lineage. */
  lemma {:induction false} RunKeepsInv(s: Aux, steps: seq<Step>)
    requires Inv(s) && RunEnabled(s, steps)
    ensures Progress(s, Run(s, steps))
    decreases |steps|
  {
    if steps != [] {
      StepKeepsInv(s, steps[0]);
      RunKeepsInv(Apply(s, steps[0]), steps[1..]);
    }
  }

  /** A generation retired for a session never owns it again. */
  lemma RetiredNeverReturns(s: Aux, steps: seq<Step>, id: string, generation: nat)
    requires Inv(s) && RunEnabled(s, steps) && generation in RetiredOf(s, id)
    ensures Lookup(Run(s, steps).live, id) != Some(generation)
  {
    RunKeepsInv(s, steps);
    var t := Run(s, steps);
    assert SessionOk(t, id) && generation in RetiredOf(t, id);
  }

  // ---------------------------------------------------------------- a live generation leaves only by retirement

  ghost predicate LiveOrRetired(s: Aux, x: string, g: nat) {
    Lookup(s.live, x) == Some(g) || g in RetiredOf(s, x)
  }

  lemma RegisterRetiresLive(s: Aux, id: string, keepMarker: bool, generation: nat, g: nat)
    requires SessionOk(s, id) && id != "" && LiveOrRetired(s, id, g)
    ensures LiveOrRetired(RegisterGeneration(s, id, keepMarker, generation), id, g)
  {
    RetireFacts(Claimed(s, id, keepMarker), id, Lookup(s.live, id));
  }

  lemma EndedRetiresLive(s: Aux, id: string, g: nat, generation: Option<nat>)
    requires SessionOk(s, id) && id != "" && LiveOrRetired(s, id, g)
    requires id in s.live ==> generation == Some(s.live[id])
    ensures LiveOrRetired(Ended(s, id, generation), id, g)
  {
    RetireFacts(s, id, generation);
  }

  lemma TakeOverRetiresLive(s: Aux, prior: string, id: string, generation: nat, marked: bool, g: nat)
    requires SessionOk(s, id) && id != "" && LiveOrRetired(s, id, g)
    ensures LiveOrRetired(TakeOver(s, prior, id, generation, marked), id, g)
    ensures LiveOrRetired(TakeOverReused(s, prior, id, generation), id, g)
  {
    RetireFacts(s, id, Lookup(s.live, id));
  }

  lemma ConfinedKeepsOthers(s: Aux, t: Aux, id: string, x: string, g: nat)
    requires Confined(s, t, id) && x != id && LiveOrRetired(s, x, g)
    ensures LiveOrRetired(t, x, g)
  {
    assert SameSession(s, t, x);
  }

  lemma RegisterKeepsLiveOrRetired(s: Aux, id: string, keepMarker: bool, caller: Option<Agent>, x: string, g: nat)
    requires Inv(s) && x != "" && LiveOrRetired(s, x, g)
    ensures LiveOrRetired(Register(s, id, keepMarker, caller).0, x, g)
  {
    CallerTokenIssued(s, id, caller, false);
    var (seen, generation) := CallerGeneration(s, id, caller, false);
    CallerTokenIssued(seen, id, caller, true);
    var (renewed, other) := CallerGeneration(seen, id, caller, true);
    assert SessionOk(seen, x) && SessionOk(renewed, x);
    if x == id {
      RegisterRetiresLive(seen, id, keepMarker, generation, g);
      RegisterRetiresLive(renewed, id, keepMarker, other, g);
    } else {
      RegisterIsConfined(seen, id, keepMarker, generation);
      ConfinedKeepsOthers(seen, RegisterGeneration(seen, id, keepMarker, generation), id, x, g);
      RegisterIsConfined(renewed, id, keepMarker, other);
      ConfinedKeepsOthers(renewed, RegisterGeneration(renewed, id, keepMarker, other), id, x, g);
    }
  }

  lemma EndedKeepsLiveOrRetired(s: Aux, id: string, generation: Option<nat>, x: string, g: nat)
    requires Inv(s) && x != "" && LiveOrRetired(s, x, g)
    requires id in s.live ==> generation == Some(s.live[id])
    ensures LiveOrRetired(Ended(s, id, generation), x, g)
  {
    assert SessionOk(s, x);
    if x == id {
      EndedRetiresLive(s, id, g, generation);
    } else {
      EndedIsConfined(s, id, generation);
      ConfinedKeepsOthers(s, Ended(s, id, generation), id, x, g);
    }
  }

  lemma CommitKeepsLiveOrRetired(s: Aux, prior: string, id: string, keepPrior: bool, generation: nat, marked: bool,
                                 x: string, g: nat)
    requires Inv(s) && x != "" && LiveOrRetired(s, x, g)
    ensures LiveOrRetired(HandoffCommit(s, prior, id, keepPrior, generation, marked), x, g)
  {
    var released := ReleasePrior(s, prior, keepPrior);
    ReleaseProgress(s, prior, keepPrior);
    if prior != "" && !keepPrior {
      EndedKeepsLiveOrRetired(s, prior, Lookup(s.live, prior), x, g);
    }
    assert SessionOk(released, x);
    AcquireKeepsLiveOrRetired(released, prior, prior in s.active, id, generation, marked, x, g);
  }

  lemma AcquireKeepsLiveOrRetired(s: Aux, prior: string, priorWasActive: bool, id: string, generation: nat, marked: bool,
                                  x: string, g: nat)
    requires SessionOk(s, x) && x != "" && LiveOrRetired(s, x, g)
    ensures LiveOrRetired(AcquireNew(s, prior, priorWasActive, id, generation, marked), x, g)
  {
    if x == id {
      TakeOverRetiresLive(s, prior, id, generation, marked, g);
    } else {
      TakeOverIsConfined(s, prior, id, generation, marked);
      TakeOverReusedIsConfined(s, prior, id, generation);
      ConfinedKeepsOthers(s, WithLineage(TakeOver(s, prior, id, generation, marked), id), id, x, g);
      ConfinedKeepsOthers(s, WithLineage(TakeOverReused(s, prior, id, generation), id), id, x, g);
    }
  }

  lemma StepKeepsLiveOrRetired(s: Aux, step: Step, x: string, g: nat)
    requires Inv(s) && x != "" && LiveOrRetired(s, x, g)
    ensures LiveOrRetired(Apply(s, step), x, g)
  {
    match step
    case TokenStep(_) =>
    case DropStep(_, _) =>
    case RegisterStep(id, keepMarker, caller) => RegisterKeepsLiveOrRetired(s, id, keepMarker, caller, x, g);
    case DeactivateStep(id, generation, _) =>
      EndedKeepsLiveOrRetired(s, id, if id in s.live then Some(s.live[id]) else Some(generation), x, g);
    case UnmarkStep(id, _) => EndedKeepsLiveOrRetired(s, id, Lookup(s.live, id), x, g);
    case UsageStep(id, generation, prompt, callerParent, onStackTop) =>
      UsageIsConfined(s, id, generation, prompt, callerParent, onStackTop);
      if x != id {
        ConfinedKeepsOthers(s, Apply(s, step), id, x, g);
      }
    case HandoffStep(prior, id, keepPrior, caller, marked) =>
      CallerTokenIssued(s, id, caller, false);
      var (seen, generation) := CallerGeneration(s, id, caller, false);
      CommitKeepsLiveOrRetired(seen, prior, id, keepPrior, generation, marked, x, g);
    case CommitStep(prior, id, keepPrior, generation, marked) =>
      CommitKeepsLiveOrRetired(s, prior, id, keepPrior, generation, marked, x, g);
  }

  /** Over every run a generation that owned a session still owns it or has been retired for it. */
  lemma {:induction false} LiveLeavesByRetirement(s: Aux, steps: seq<Step>, x: string, g: nat)
    requires Inv(s) && RunEnabled(s, steps) && x != "" && LiveOrRetired(s, x, g)
    ensures LiveOrRetired(Run(s, steps), x, g)
    decreases |steps|
  {
    if steps != [] {
      StepKeepsInv(s, steps[0]);
      StepKeepsLiveOrRetired(s, steps[0], x, g);
      LiveLeavesByRetirement(Apply(s, steps[0]), steps[1..], x, g);
    }
  }

  // ---------------------------------------------------------------- tokens are personal

  /** Token `k` was issued, and whoever still holds it is the agent with this serial. */
  ghost predicate OwnedBy(s: Aux, k: nat, serial: nat) {
    k <= s.lastToken && forall a :: a in s.holders && s.holders[a].token == k ==> s.holders[a].serial == serial
  }

  lemma RegisterKeepsOwner(s: Aux, id: string, keepMarker: bool, caller: Option<Agent>, k: nat, serial: nat)
    requires OwnedBy(s, k, serial)
    ensures OwnedBy(Register(s, id, keepMarker, caller).0, k, serial)
  {
    CallerKeepsOwner(s, id, caller, false, k, serial);
    var (seen, generation) := CallerGeneration(s, id, caller, false);
    CallerKeepsOwner(seen, id, caller, true, k, serial);
    var (renewed, other) := CallerGeneration(seen, id, caller, true);
    RegisterIsConfined(seen, id, keepMarker, generation);
    RegisterIsConfined(renewed, id, keepMarker, other);
  }

  lemma ReleaseKeepsOwner(s: Aux, prior: string, keepPrior: bool, k: nat, serial: nat)
    requires OwnedBy(s, k, serial)
    ensures OwnedBy(ReleasePrior(s, prior, keepPrior), k, serial)
  {
    EndedIsConfined(s, prior, Lookup(s.live, prior));
  }

  lemma AcquireKeepsOwner(s: Aux, prior: string, priorWasActive: bool, id: string, generation: nat, marked: bool, k: nat,
                          serial: nat)
    requires OwnedBy(s, k, serial)
    ensures OwnedBy(AcquireNew(s, prior, priorWasActive, id, generation, marked), k, serial)
  {
    TakeOverIsConfined(s, prior, id, generation, marked);
    TakeOverReusedIsConfined(s, prior, id, generation);
  }

  lemma CommitKeepsOwner(s: Aux, prior: string, id: string, keepPrior: bool, generation: nat, marked: bool, k: nat, serial: nat)
    requires OwnedBy(s, k, serial)
    ensures OwnedBy(HandoffCommit(s, prior, id, keepPrior, generation, marked), k, serial)
  {
    ReleaseKeepsOwner(s, prior, keepPrior, k, serial);
    AcquireKeepsOwner(ReleasePrior(s, prior, keepPrior), prior, prior in s.active, id, generation, marked, k, serial);
  }

  lemma StepKeepsOwner(s: Aux, step: Step, k: nat, serial: nat)
    requires OwnedBy(s, k, serial)
    ensures OwnedBy(Apply(s, step), k, serial)
  {
    match step
    case TokenStep(_) =>
    case DropStep(_, _) =>
    case RegisterStep(id, keepMarker, caller) => RegisterKeepsOwner(s, id, keepMarker, caller, k, serial);
    case DeactivateStep(id, generation, _) =>
      EndedIsConfined(s, id, if id in s.live then Some(s.live[id]) else Some(generation));
    case UnmarkStep(id, _) => EndedIsConfined(s, id, Lookup(s.live, id));
    case UsageStep(id, generation, prompt, callerParent, onStackTop) =>
      UsageIsConfined(s, id, generation, prompt, callerParent, onStackTop);
    case HandoffStep(prior, id, keepPrior, caller, marked) =>
      CallerKeepsOwner(s, id, caller, false, k, serial);
      var (seen, generation) := CallerGeneration(s, id, caller, false);
      CommitKeepsOwner(seen, prior, id, keepPrior, generation, marked, k, serial);
    case CommitStep(prior, id, keepPrior, generation, marked) =>
      CommitKeepsOwner(s, prior, id, keepPrior, generation, marked, k, serial);
  }

  lemma CallerKeepsOwner(s: Aux, id: string, caller: Option<Agent>, refresh: bool, k: nat, serial: nat)
    requires OwnedBy(s, k, serial)
    ensures OwnedBy(CallerGeneration(s, id, caller, refresh).0, k, serial)
  {
  }

  lemma {:induction false} RunKeepsOwner(s: Aux, steps: seq<Step>, k: nat, serial: nat)
    requires OwnedBy(s, k, serial)
    ensures OwnedBy(Run(s, steps), k, serial)
    decreases |steps|
  {
    if steps != [] {
      StepKeepsOwner(s, steps[0], k, serial);
      RunKeepsOwner(Apply(s, steps[0]), steps[1..], k, serial);
    }
  }

  /** Two agents never get the same token, even at the same address and whatever happens in between. */
  lemma TokensAreNotShared(s: Aux, first: Agent, steps: seq<Step>, second: Agent, forceNew: bool)
    requires Inv(s) && first.serial != second.serial
    ensures var (t, token) := TokenFor(s, first, false);
      TokenFor(Run(t, steps), second, forceNew).1 != token
  {
    var (t, token) := TokenFor(s, first, false);
    RunKeepsOwner(t, steps, token, first.serial);
  }

  // ---------------------------------------------------------------- who may end a session

  /** A caller with a token ends a session only as its live generation, or where none is live and its own is not retired. */
  lemma TokenEndsOnlyItsOwn(s: Aux, id: string, generation: nat, callerParent: string)
    requires Inv(s) && generation != 0 && Deactivate(s, id, generation, callerParent).1
    ensures if id in s.live then s.live[id] == generation else generation !in RetiredOf(s, id)
    ensures var t := Deactivate(s, id, generation, callerParent).0;
      id !in t.live && id !in t.active && generation in RetiredOf(t, id)
  {
    RetireFacts(s, id, Some(generation));
  }

  /** The live generation can always end its session; ending twice is refused. */
  lemma OwnerEndsOnce(s: Aux, id: string, callerParent: string)
    requires Inv(s) && id in s.live && id != ""
    ensures var (t, ended) := Deactivate(s, id, s.live[id], callerParent);
      ended && !Deactivate(t, id, s.live[id], callerParent).1
  {
    assert SessionOk(s, id);
    RetireFacts(s, id, Some(s.live[id]));
  }

  // ---------------------------------------------------------------- an overtaken handoff

  /** The session is registered by an agent, which gets generation 1. */
  function Registered(agent: Agent): Aux {
    Apply(NONE_YET, RegisterStep("y", false, Some(agent)))
  }

  /** Another thread unmarks the session. */
  function Unmarked(agent: Agent): Aux {
    Apply(Registered(agent), UnmarkStep("y", false))
  }

  lemma NoneYetIsSound()
    ensures Inv(NONE_YET)
  {
  }

  lemma RegisteredState(agent: Agent)
    ensures Inv(Registered(agent)) && Registered(agent).live == map["y" := 1] && Registered(agent).lastToken == 1
    ensures CallerGeneration(Registered(agent), "y", Some(agent), false) == (Registered(agent), 1)
    ensures !IsRetired(Registered(agent), "y", 1)
  {
    NoneYetIsSound();
    RegisterKeepsInv(NONE_YET, "y", false, Some(agent));
  }

  /**
   A handoff of "x" to "y" by the owner of "y" passes its unlocked check. Another thread unmarks "y"
   before the lock is taken, and the commit then makes the retired generation live again.
   */
  lemma OvertakenHandoffBreaksOwnership(agent: Agent)
    ensures Inv(Registered(agent)) && Inv(Unmarked(agent))
    ensures CallerGeneration(Registered(agent), "y", Some(agent), false).1 == 1 && !IsRetired(Registered(agent), "y", 1)
    ensures !Inv(HandoffCommit(Unmarked(agent), "x", "y", false, 1, false))
  {
    RegisteredState(agent);
    UnmarkKeepsInv(Registered(agent), "y", false);
    RetireFacts(Registered(agent), "y", Some(1));
    CommitKeepsInvIff(Unmarked(agent), "x", "y", false, 1, false);
  }
}
