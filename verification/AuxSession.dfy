/** The auxiliary-session bookkeeping as the object whose methods update shared sets and maps in place. */
module AuxSession {
  import opened Wrappers
  import opened AuxModel

  class AuxiliarySessions {
    var active: set<string>
    var lineage: set<string>
    var reused: set<string>
    var usage: map<string, int>
    var live: map<string, nat>
    var retired: map<string, set<nat>>
    var guards: set<string>
    var parents: map<string, string>
    var holders: map<nat, Holder>
    var lastToken: nat

    constructor ()
      ensures Value() == NONE_YET
    {
      active, lineage, reused, usage, live := {}, {}, {}, map[], map[];
      retired, guards, parents, holders, lastToken := map[], {}, map[], map[], 0;
    }

    function Value(): Aux
      reads this
    {
      Aux(active, lineage, reused, usage, live, retired, guards, parents, holders, lastToken)
    }

    method GenerationTokenFor(agent: Agent, forceNew: bool) returns (token: nat)
      modifies this
      ensures (Value(), token) == TokenFor(old(Value()), agent, forceNew)
    {
      if agent.address in holders && !forceNew {
        var existing := holders[agent.address];
        if existing.serial == agent.serial {
          return existing.token;
        }
      }
      lastToken := lastToken + 1;
      token := lastToken;
      holders := holders[agent.address := Holder(agent.serial, token)];
    }

    method CallerToken(id: string, caller: Option<Agent>, refreshRetired: bool) returns (token: nat)
      modifies this
      ensures (Value(), token) == CallerGeneration(old(Value()), id, caller, refreshRetired)
    {
      if caller.None? {
        return 0;
      }
      token := GenerationTokenFor(caller.value, false);
      if refreshRetired && IsRetired(Value(), id, token) {
        token := GenerationTokenFor(caller.value, true);
      }
    }

    method RetireGeneration(id: string, generation: Option<nat>)
      modifies this`retired
      ensures Value() == Retire(old(Value()), id, generation)
    {
      if id != "" && generation.Some? && generation.value != 0 {
        var before := if id in retired then retired[id] else {};
        retired := retired[id := before + {generation.value}];
      }
    }

    method RegisterSession(id: string, keepMarker: bool, caller: Option<Agent>) returns (registered: bool)
      modifies this
      ensures (Value(), registered) == Register(old(Value()), id, keepMarker, caller)
    {
      var generation := CallerToken(id, caller, false);
      var previous := Lookup(live, id);
      var hadActive := id in active;
      if IsRetired(Value(), id, generation) {
        if previous.Some? && previous.value != generation {
          return false;
        }
        if hadActive && previous.None? {
          return false;
        }
        generation := CallerToken(id, caller, true);
      }
      TakeGeneration(id, keepMarker, generation);
      return true;
    }

    method TakeGeneration(id: string, keepMarker: bool, generation: nat)
      modifies this
      ensures Value() == RegisterGeneration(old(Value()), id, keepMarker, generation)
    {
      var previous, hadActive, hadUsage := Lookup(live, id), id in active, id in usage;
      active := active + {id};
      lineage := lineage + {id};
      if !keepMarker {
        reused := reused - {id};
      }
      if generation != 0 {
        if previous != Some(generation) {
          RetireGeneration(id, previous);
          if hadActive || hadUsage || previous.Some? {
            guards := guards + {id};
          }
          usage := usage - {id};
        }
        live := live[id := generation];
        parents := parents - {id};
      } else {
        if previous.Some? && hadActive {
          return;
        }
        Forget(id, previous);
      }
    }

    method Forget(id: string, generation: Option<nat>)
      modifies this
      ensures Value() == Disowned(old(Value()), id, generation)
    {
      RetireGeneration(id, generation);
      usage := usage - {id};
      live := live - {id};
      guards := guards - {id};
      parents := parents - {id};
    }

    /** True when the caller ended the session; every refusal leaves everything as it was. */
    method DeactivateSession(id: string, generation: nat, callerParent: string) returns (ended: bool)
      modifies this
      ensures (Value(), ended) == Deactivate(old(Value()), id, generation, callerParent)
    {
      if id == "" || IsRetired(Value(), id, generation) {
        return false;
      }
      var owner := Lookup(live, id);
      if owner.None? {
        if id in guards {
          if generation == 0 && id !in usage {
            return false;
          }
          var expected := Lookup(parents, id);
          if expected.Some? && expected.value != "" && callerParent != "" && callerParent != expected.value {
            return false;
          }
        }
      } else if generation != owner.value {
        if generation != 0 || (id in guards && id !in usage) {
          return false;
        }
      }
      Forget(id, if owner.Some? then owner else Some(generation));
      active := active - {id};
      return true;
    }

    method UnmarkSession(id: string, suppress: bool)
      modifies this
      ensures Value() == Unmark(old(Value()), id, suppress)
    {
      active := active - {id};
      if suppress && id in lineage {
        reused := reused + {id};
      }
      Forget(id, Lookup(live, id));
    }

    /** The locked part of a handoff. */
    method CommitHandoff(prior: string, id: string, keepPrior: bool, generation: nat, marked: bool) returns (stale: bool)
      modifies this
      ensures Value() == HandoffCommit(old(Value()), prior, id, keepPrior, generation, marked)
      ensures stale == StopsAtStaleParent(old(Value()), prior, id, keepPrior, generation)
    {
      var priorWasActive := prior in active;
      if prior != "" {
        if !keepPrior {
          Forget(prior, Lookup(live, prior));
          active := active - {prior};
        }
        lineage := lineage + {prior};
      }
      assert Value() == ReleasePrior(old(Value()), prior, keepPrior);
      stale := Acquire(prior, priorWasActive, id, generation, marked);
    }

    method Acquire(prior: string, priorWasActive: bool, id: string, generation: nat, marked: bool) returns (stale: bool)
      modifies this
      ensures Value() == AcquireNew(old(Value()), prior, priorWasActive, id, generation, marked)
      ensures stale == (id != "" && StaleParent(old(Value()), prior, priorWasActive, id, generation))
    {
      if id == "" {
        return false;
      }
      if StaleParent(Value(), prior, priorWasActive, id, generation) {
        lineage := lineage + {id};
        return true;
      }
      var boundary := generation != 0 && Lookup(live, id) == Some(generation);
      if id in reused && !boundary {
        AcquireReused(prior, id, generation);
      } else {
        AcquireUnmarked(prior, id, generation, marked);
      }
      lineage := lineage + {id};
      return false;
    }

    method AcquireUnmarked(prior: string, id: string, generation: nat, marked: bool)
      modifies this
      ensures Value() == TakeOver(old(Value()), prior, id, generation, marked)
    {
      var previous := Lookup(live, id);
      var superseded := SupersedesLive(Value(), prior, id, generation);
      var guarded := GuardsNew(Value(), prior, id, generation, marked);
      if superseded {
        RetireGeneration(id, previous);
      }
      ResetMarks(prior, id, guarded);
      if generation != 0 {
        live := live[id := generation];
        parents := parents - {id};
      } else if previous.None? || superseded {
        live := live - {id};
      }
    }

    /** The session starts over as active, guarded or not, outside the foreground. */
    method ResetMarks(prior: string, id: string, guarded: bool)
      modifies this`usage, this`guards, this`parents, this`active, this`reused
      ensures usage == old(usage) - {id} && active == old(active) + {id} && reused == old(reused) - {id}
      ensures guards == if guarded then old(guards) + {id} else old(guards) - {id}
      ensures parents == if guarded && prior != "" then old(parents)[id := prior] else old(parents)
    {
      usage := usage - {id};
      var others := guards - {id};
      if guarded {
        assert others + {id} == guards + {id};
        guards := others + {id};
        if prior != "" {
          parents := parents[id := prior];
        }
      } else {
        guards := others;
      }
      active := active + {id};
      reused := reused - {id};
    }

    method AcquireReused(prior: string, id: string, generation: nat)
      modifies this
      ensures Value() == TakeOverReused(old(Value()), prior, id, generation)
    {
      RetireGeneration(id, Lookup(live, id));
      usage := usage - {id};
      guards := guards - {id};
      active := active + {id};
      if generation != 0 {
        live := live[id := generation];
        parents := parents - {id};
      } else {
        live := live - {id};
        if prior != "" {
          parents := parents[id := prior];
        }
      }
    }

    /** A whole handoff, with the calling thread's stack of auxiliary markers. */
    method HandoffSession(prior: string, id: string, keepPrior: bool, caller: Option<Agent>, stack: seq<string>)
      returns (after: seq<string>)
      modifies this
      ensures Value() == Handoff(old(Value()), prior, id, keepPrior, caller, prior in stack)
      ensures var (seen, generation) := CallerGeneration(old(Value()), id, caller, false);
        after == if IsRetired(seen, id, generation) || StopsAtStaleParent(seen, prior, id, keepPrior, generation)
                 then stack else HandoffStack(stack, prior, id, active)
    {
      var generation := CallerToken(id, caller, false);
      if IsRetired(Value(), id, generation) {
        if id != "" {
          lineage := lineage + {id};
        }
        return stack;
      }
      var stale := CommitHandoff(prior, id, keepPrior, generation, prior in stack);
      if stale {
        return stack;
      }
      var hadMarker := prior in stack || id in stack;
      after := Without(stack, {prior, id});
      if hadMarker && id != "" {
        after := after + [id];
      }
      after := OnlyActive(after, active);
    }
  }
}
