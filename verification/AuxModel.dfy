/**
 Which auxiliary sessions are live, and which generation of caller owns each. The innermost
 auxiliary agent frame on the call stack is an input, `caller`.
 */
module AuxModel {
  import opened Wrappers

  /** An agent object: its memory address can be reused after its death, its serial cannot. */
  datatype Agent = Agent(address: nat, serial: nat)

  datatype Holder = Holder(serial: nat, token: nat)

  /** `live` maps a session to the generation that owns it; token 0 is a caller without a frame. */
  datatype Aux = Aux(active: set<string>, lineage: set<string>, reused: set<string>, usage: map<string, int>,
                     live: map<string, nat>, retired: map<string, set<nat>>, guards: set<string>,
                     parents: map<string, string>, holders: map<nat, Holder>, lastToken: nat)

  const NONE_YET: Aux := Aux({}, {}, {}, map[], map[], map[], {}, map[], map[], 0)

  function RetiredOf(s: Aux, id: string): set<nat> {
    if id in s.retired then s.retired[id] else {}
  }

  function Lookup<V>(m: map<string, V>, id: string): Option<V> {
    if id in m then Some(m[id]) else None
  }

  predicate IsRetired(s: Aux, id: string, generation: nat) {
    generation != 0 && generation in RetiredOf(s, id)
  }

  function Retire(s: Aux, id: string, generation: Option<nat>): Aux {
    if id != "" && generation.Some? && generation.value != 0 then
      s.(retired := s.retired[id := RetiredOf(s, id) + {generation.value}])
    else s
  }

  // ---------------------------------------------------------------- generation tokens

  function TokenFor(s: Aux, agent: Agent, forceNew: bool): (Aux, nat) {
    if agent.address in s.holders && s.holders[agent.address].serial == agent.serial && !forceNew then
      (s, s.holders[agent.address].token)
    else
      (s.(lastToken := s.lastToken + 1, holders := s.holders[agent.address := Holder(agent.serial, s.lastToken + 1)]),
       s.lastToken + 1)
  }

  function CallerGeneration(s: Aux, id: string, caller: Option<Agent>, refreshRetired: bool): (Aux, nat) {
    if caller.None? then (s, 0)
    else
      var (after, token) := TokenFor(s, caller.value, false);
      if refreshRetired && IsRetired(after, id, token) then TokenFor(after, caller.value, true) else (after, token)
  }

  /** The weak reference of a dead agent drops its token, unless the address has a newer one. */
  function DropToken(s: Aux, address: nat, holder: Holder): Aux {
    if address in s.holders && s.holders[address] == holder then s.(holders := s.holders - {address}) else s
  }

  // ---------------------------------------------------------------- register

  function Claimed(s: Aux, id: string, keepMarker: bool): Aux {
    s.(active := s.active + {id}, lineage := s.lineage + {id}, reused := if keepMarker then s.reused else s.reused - {id})
  }

  /** Another generation takes the session: the old one is retired and its usage forgotten. */
  function Displaced(s: Aux, id: string, guard: bool): Aux {
    var retired := Retire(s, id, Lookup(s.live, id));
    retired.(guards := if guard then retired.guards + {id} else retired.guards, usage := retired.usage - {id})
  }

  function Owned(s: Aux, id: string, generation: nat): Aux {
    s.(live := s.live[id := generation], parents := s.parents - {id})
  }

  /** No generation owns the session any more. */
  function Disowned(s: Aux, id: string, generation: Option<nat>): Aux {
    var retired := Retire(s, id, generation);
    retired.(usage := retired.usage - {id}, live := retired.live - {id}, guards := retired.guards - {id},
             parents := retired.parents - {id})
  }

  function RegisterGeneration(s: Aux, id: string, keepMarker: bool, generation: nat): Aux {
    var previous, hadActive, hadUsage := Lookup(s.live, id), id in s.active, id in s.usage;
    var claimed := Claimed(s, id, keepMarker);
    if generation != 0 then
      var taken := if previous == Some(generation) then claimed
                   else Displaced(claimed, id, hadActive || hadUsage || previous.Some?);
      Owned(taken, id, generation)
    else if previous.Some? && hadActive then claimed
    else Disowned(claimed, id, previous)
  }

  function Register(s: Aux, id: string, keepMarker: bool, caller: Option<Agent>): (Aux, bool) {
    var (seen, generation) := CallerGeneration(s, id, caller, false);
    if IsRetired(seen, id, generation) then
      if id in seen.live && seen.live[id] != generation then (seen, false)
      else if id in seen.active && id !in seen.live then (seen, false)
      else
        var (renewed, other) := CallerGeneration(seen, id, caller, true);
        (RegisterGeneration(renewed, id, keepMarker, other), true)
    else (RegisterGeneration(seen, id, keepMarker, generation), true)
  }

  // ---------------------------------------------------------------- deactivate, unmark, usage

  /** Whether this caller may end the session. `callerParent` is the parent its frame reports. */
  predicate MayEnd(s: Aux, id: string, generation: nat, callerParent: string) {
    && id != "" && !IsRetired(s, id, generation)
    && (if id !in s.live then
          id in s.guards ==>
            && (generation != 0 || id in s.usage)
            && !(id in s.parents && s.parents[id] != "" && callerParent != "" && callerParent != s.parents[id])
        else
          generation == s.live[id] || (generation == 0 && !(id in s.guards && id !in s.usage)))
  }

  function Ended(s: Aux, id: string, generation: Option<nat>): Aux {
    var disowned := Disowned(s, id, generation);
    disowned.(active := disowned.active - {id})
  }

  function Deactivate(s: Aux, id: string, generation: nat, callerParent: string): (Aux, bool) {
    if MayEnd(s, id, generation, callerParent) then
      (Ended(s, id, if id in s.live then Some(s.live[id]) else Some(generation)), true)
    else (s, false)
  }

  function Unmark(s: Aux, id: string, suppress: bool): Aux {
    var ended := Ended(s, id, Lookup(s.live, id));
    if suppress && id in s.lineage then ended.(reused := ended.reused + {id}) else ended
  }

  /** The auxiliary half of a response's usage: it may claim an unowned active session. */
  function RecordUsage(s: Aux, id: string, generation: nat, prompt: int, callerParent: string, onStackTop: bool): Aux {
    if id !in s.active || IsRetired(s, id, generation) then s
    else if id !in s.live && generation != 0 then
      if id in s.parents && s.parents[id] != "" && callerParent != s.parents[id] then s
      else
        s.(guards := if id in s.usage then s.guards + {id} else s.guards, live := s.live[id := generation],
           usage := s.usage[id := prompt])
    else if (if id !in s.live then generation == 0 else generation == s.live[id] || (generation == 0 && onStackTop)) then
      s.(usage := s.usage[id := prompt])
    else s
  }

  // ---------------------------------------------------------------- handoff

  function ReleasePrior(s: Aux, prior: string, keepPrior: bool): Aux {
    if prior == "" then s
    else
      var released := if keepPrior then s else Ended(s, prior, Lookup(s.live, prior));
      WithLineage(released, prior)
  }

  predicate HasRuntimeState(s: Aux, id: string) {
    id in s.active || id in s.usage || id in s.live || id in s.guards
  }

  predicate ExpectsOther(s: Aux, id: string, parent: string) {
    id in s.parents && s.parents[id] != "" && parent != s.parents[id]
  }

  /** Does the handoff put a new owner, or none, in place of the live generation? */
  predicate SupersedesLive(s: Aux, prior: string, id: string, generation: nat) {
    && id in s.live
    && (|| (generation != 0 && s.live[id] != generation)
        || (generation == 0 && id in s.guards
            && (id !in s.usage || id !in s.parents || s.parents[id] == "" || prior == s.parents[id])))
  }

  predicate GuardsNew(s: Aux, prior: string, id: string, generation: nat, marked: bool) {
    && (HasRuntimeState(s, id) || id in s.lineage)
    && (|| SupersedesLive(s, prior, id, generation)
        || id in s.guards
        || (generation != 0 && id !in s.live && HasRuntimeState(s, id))
        || (generation == 0 && id !in s.live && id in s.lineage
            && (marked || (prior != "" && HasRuntimeState(s, id) && (prior in s.lineage || prior in s.active)))))
  }

  /** A parent that already lost the session tries to hand it on. */
  predicate StaleParent(s: Aux, prior: string, priorWasActive: bool, id: string, generation: nat) {
    && id in s.live && generation == 0 && prior != "" && !priorWasActive
    && (|| (RetiredOf(s, prior) != {} && Some(prior) != Lookup(s.parents, id))
        || (id in s.guards && id in s.usage && ExpectsOther(s, id, prior)))
  }

  function TakeOver(s: Aux, prior: string, id: string, generation: nat, marked: bool): Aux {
    var superseded := SupersedesLive(s, prior, id, generation);
    var guarded := GuardsNew(s, prior, id, generation, marked);
    var retired := if superseded then Retire(s, id, Lookup(s.live, id)) else s;
    var taken := retired.(
      usage := s.usage - {id},
      guards := if guarded then s.guards + {id} else s.guards - {id},
      parents := if guarded && prior != "" then s.parents[id := prior] else s.parents,
      active := s.active + {id}, reused := s.reused - {id});
    if generation != 0 then taken.(live := s.live[id := generation], parents := taken.parents - {id})
    else if id !in s.live || superseded then taken.(live := s.live - {id})
    else taken
  }

  /** The session was reused in the foreground, and that marker is kept. */
  function TakeOverReused(s: Aux, prior: string, id: string, generation: nat): Aux {
    var retired := Retire(s, id, Lookup(s.live, id));
    var taken := retired.(usage := s.usage - {id}, guards := s.guards - {id}, active := s.active + {id});
    if generation != 0 then taken.(live := s.live[id := generation], parents := s.parents - {id})
    else taken.(live := s.live - {id}, parents := if prior != "" then s.parents[id := prior] else s.parents)
  }

  function WithLineage(s: Aux, id: string): Aux {
    s.(lineage := s.lineage + {id})
  }

  function AcquireNew(s: Aux, prior: string, priorWasActive: bool, id: string, generation: nat, marked: bool): Aux {
    if id == "" then s
    else if StaleParent(s, prior, priorWasActive, id, generation) then WithLineage(s, id)
    else
      var taken :=
        if id in s.reused && !(generation != 0 && Lookup(s.live, id) == Some(generation)) then
          TakeOverReused(s, prior, id, generation)
        else TakeOver(s, prior, id, generation, marked);
      WithLineage(taken, id)
  }

  /** The locked part of a handoff. `marked`: the calling thread's stack holds the prior one. */
  function HandoffCommit(s: Aux, prior: string, id: string, keepPrior: bool, generation: nat, marked: bool): Aux {
    AcquireNew(ReleasePrior(s, prior, keepPrior), prior, prior in s.active, id, generation, marked)
  }

  function Handoff(s: Aux, prior: string, id: string, keepPrior: bool, caller: Option<Agent>, marked: bool): Aux {
    var (seen, generation) := CallerGeneration(s, id, caller, false);
    if IsRetired(seen, id, generation) then
      if id != "" then WithLineage(seen, id) else seen
    else HandoffCommit(seen, prior, id, keepPrior, generation, marked)
  }

  /** The handoff stops at the stale parent, before it reaches the thread's stack. */
  predicate StopsAtStaleParent(s: Aux, prior: string, id: string, keepPrior: bool, generation: nat) {
    id != "" && StaleParent(ReleasePrior(s, prior, keepPrior), prior, prior in s.active, id, generation)
  }

  // ---------------------------------------------------------------- the calling thread's stack

  function OnlyActive(stack: seq<string>, active: set<string>): seq<string> {
    if stack == [] then []
    else OnlyActive(stack[..|stack| - 1], active) + if stack[|stack| - 1] in active then [stack[|stack| - 1]] else []
  }

  function Without(stack: seq<string>, ids: set<string>): seq<string> {
    if stack == [] then []
    else Without(stack[..|stack| - 1], ids) + if stack[|stack| - 1] in ids then [] else [stack[|stack| - 1]]
  }

  /** A handoff moves the thread's marker from the old session to the new one. */
  function HandoffStack(stack: seq<string>, prior: string, id: string, active: set<string>): seq<string> {
    var others := Without(stack, {prior, id});
    OnlyActive(if (prior in stack || id in stack) && id != "" then others + [id] else others, active)
  }
}
