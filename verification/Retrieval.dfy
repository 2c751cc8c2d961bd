/** Retrieval states as objects updated in place, and the registry that hands them out by id. */
module Retrieval {
  import opened Wrappers
  import opened Text
  import opened RetrievalModel
  import opened RetrievalBudget

  const MAX_ACTIVE_RETRIEVALS: nat := 32
  const RETRIEVAL_TTL_SECONDS: real := 900.0

  lemma Shift<T>(front: seq<T>, x: T, back: seq<T>)
    ensures front + ([x] + back) == front + [x] + back
  {
  }

  class RetrievalState {
    const id: string
    const requirements: seq<Requirement>
    const session: string
    const conversation: string
    var candidates: seq<Evidence>
    var leads: seq<Lead>
    var slotRefs: map<string, seq<string>>
    var rounds: seq<Round>
    var status: Status
    var tokens: nat
    var chars: nat
    var exhausted: bool
    var reason: string
    var updatedAt: real

    function Value(): State
      reads this
    {
      State(requirements, candidates, leads, slotRefs, rounds, status, tokens, chars, exhausted, reason, updatedAt)
    }

    constructor (id: string, requirements: seq<Requirement>, session: string, conversation: string, view: Option<View>, now: real)
      ensures this.id == id && this.session == session && this.conversation == conversation
      ensures Value() == Start(requirements, view, now)
    {
      this.id, this.requirements, this.session, this.conversation := id, requirements, session, conversation;
      candidates, leads, slotRefs, rounds := [], [], EmptySlots(requirements), [];
      status, tokens, chars, exhausted, reason, updatedAt := Active, 0, 0, false, "", now;
      new;
      if view.Some? && ViewFits(requirements, view.value) && view.value.confirmed {
        candidates := view.value.candidates;
        slotRefs := ViewSlots(requirements, view.value);
        tokens := EvidenceTokens(candidates);
        chars := EvidenceChars(candidates);
        status := Ready;
      }
    }

    /** The inner loop of `_apply_resolutions`: files refs until one was never observed. */
    method FileUnder(slot: string, refs: seq<string>) returns (ok: bool)
      requires slot in slotRefs
      modifies this`slotRefs
      ensures (Value(), ok) == FileRefs(old(Value()), slot, refs)
    {
      var k := 0;
      while k < |refs|
        invariant 0 <= k <= |refs| && slot in slotRefs
        invariant FileRefs(Value(), slot, refs[k..]) == FileRefs(old(Value()), slot, refs)
        invariant Value() == old(Value()).(slotRefs := slotRefs)
      {
        var ref := Strip(refs[k]);
        assert refs[k..][1..] == refs[k + 1..];
        if !Observed(candidates, ref) {
          return false;
        }
        if ref !in slotRefs[slot] {
          slotRefs := slotRefs[slot := slotRefs[slot] + [ref]];
        }
        k := k + 1;
      }
      return true;
    }

    method Resolve(items: seq<Resolution>) returns (ok: bool)
      modifies this`slotRefs
      ensures (Value(), ok) == ApplyResolutions(old(Value()), items)
    {
      if |items| > MAX_REQUIREMENTS {
        return false;
      }
      var k := 0;
      while k < |items|
        invariant 0 <= k <= |items|
        invariant ApplyItems(Value(), items[k..]) == ApplyItems(old(Value()), items)
      {
        assert items[k..][1..] == items[k + 1..];
        if items[k].Malformed? {
          return false;
        }
        var slot := Lower(Strip(items[k].slot));
        if !IsSlot(Value(), slot) || slot !in slotRefs || items[k].refs == [] || |items[k].refs| > MAX_CANDIDATE_REFS {
          return false;
        }
        var filed := FileUnder(slot, items[k].refs);
        if !filed {
          return false;
        }
        k := k + 1;
      }
      return true;
    }

    /** Adds new evidence until an item would break a budget. */
    method AddEvidence(found: seq<Evidence>) returns (items: seq<Evidence>, truncated: bool)
      modifies this`candidates, this`tokens, this`chars, this`exhausted
      ensures Admitted(Value(), items, truncated) == AdmitEvidence(old(Value()), found)
    {
      items, truncated := [], false;
      var k := 0;
      while k < |found|
        invariant 0 <= k <= |found| && !truncated
        invariant var rest := AdmitEvidence(Value(), found[k..]);
          AdmitEvidence(old(Value()), found) == rest.(items := items + rest.items)
      {
        var item := found[k];
        assert found[k..][1..] == found[k + 1..];
        k := k + 1;
        if !Observed(candidates, item.citation) {
          if |candidates| >= MAX_CANDIDATE_REFS || tokens + item.tokens > MAX_CONTEXT_TOKENS
             || chars + item.chars > MAX_CONTEXT_CHARS
          {
            truncated := true;
            exhausted := true;
            break;
          }
          candidates := candidates + [item];
          tokens := tokens + item.tokens;
          chars := chars + item.chars;
          Shift(items, item, AdmitEvidence(Value(), found[k..]).items);
          items := items + [item];
        }
      }
    }

    method AddLeads(found: seq<Lead>) returns (items: seq<Lead>, truncated: bool)
      modifies this`leads, this`tokens, this`chars, this`exhausted
      ensures Admitted(Value(), items, truncated) == AdmitLeads(old(Value()), found)
    {
      items, truncated := [], false;
      var k := 0;
      while k < |found|
        invariant 0 <= k <= |found| && !truncated
        invariant var rest := AdmitLeads(Value(), found[k..]);
          AdmitLeads(old(Value()), found) == rest.(items := items + rest.items)
      {
        var lead := found[k];
        assert found[k..][1..] == found[k + 1..];
        k := k + 1;
        if !HasLead(leads, lead.id) {
          if |leads| >= MAX_SEARCH_LEADS || tokens + lead.tokens > MAX_CONTEXT_TOKENS
             || chars + lead.chars > MAX_CONTEXT_CHARS
          {
            truncated := true;
            exhausted := true;
            break;
          }
          leads := leads + [lead];
          tokens := tokens + lead.tokens;
          chars := chars + lead.chars;
          Shift(items, lead, AdmitLeads(Value(), found[k..]).items);
          items := items + [lead];
        }
      }
    }

    /** Everything `search` does once its tool has answered. */
    method RecordRound(slot: string, answer: ToolAnswer, now: real)
      modifies this
      ensures Value() == AfterRound(old(Value()), slot, answer, now)
    {
      EvidenceShape(Value(), EvidenceIn(answer));
      LeadsShape(AdmitEvidence(Value(), EvidenceIn(answer)).state, LeadsIn(answer));
      var newItems, cutEvidence := AddEvidence(if answer.error != "" then [] else answer.evidence);
      var newLeads, cutLeads := AddLeads(if answer.error != "" then [] else answer.leads);
      rounds := rounds + [Round(|rounds| + 1, slot, Citations(newItems), LeadIds(newLeads), cutEvidence || cutLeads)];
      updatedAt := now;
      if newItems == [] && newLeads == [] {
        status := Fallback;
        reason := NoProgress(answer.error);
      } else if |rounds| >= MAX_RETRIEVAL_ROUNDS {
        exhausted := true;
      }
    }

    method SearchOnce(call: SearchCall) returns (ok: bool)
      modifies this
      ensures (Value(), ok) == Search(old(Value()), call)
    {
      if status != Active {
        return false;
      }
      var resolved := Resolve(call.resolutions);
      if !resolved {
        return false;
      }
      var slot := Lower(Strip(call.missingSlot));
      if !IsOpenSlot(Value(), slot) {
        return false;
      }
      if exhausted || |rounds| >= MAX_RETRIEVAL_ROUNDS {
        exhausted := true;
        reason := "retrieval round budget exhausted";
        return false;
      }
      if !call.argumentsValid {
        return false;
      }
      RecordRound(slot, call.answer, call.now);
      return true;
    }

    method FinishUp(call: FinishCall) returns (ok: bool)
      modifies this
      ensures (Value(), ok) == Finish(old(Value()), call)
    {
      if status == Finished || status == Abandoned {
        return false;
      }
      var resolved := Resolve(call.resolutions);
      if !resolved {
        return false;
      }
      if !AllClosed(Value()) {
        var open := StillOpen(Value());
        status := Fallback;
        reason := open;
        updatedAt := call.now;
        return true;
      }
      if call.selection.NotAList? {
        return false;
      }
      var refs := SelectedRefs(Value(), call.selection);
      if !ValidSelection(Value(), refs) || !ValidComputation(Value(), refs, call.computation) {
        return false;
      }
      if call.computation.Compute? && !call.computation.answer.computed {
        status := Fallback;
        reason := Cut(call.computation.answer.reason, MAX_REASON_CHARS);
      } else {
        status := Finished;
        reason := "";
      }
      updatedAt := call.now;
      return true;
    }
  }

  predicate Expired(s: RetrievalState, now: real)
    reads s
  {
    s.updatedAt + RETRIEVAL_TTL_SECONDS <= now
  }

  /** Both ends of the comparison must be known before a mismatch counts. */
  predicate SameOwner(owner: string, caller: string) {
    owner == "" || caller == "" || owner == caller
  }

  lemma DropOne<V>(m: map<string, V>, key: string)
    requires key in m
    ensures |m - {key}| == |m| - 1
  {
    assert (m - {key}).Keys == m.Keys - {key};
  }

  lemma AddOne<V>(m: map<string, V>, key: string, value: V)
    requires key !in m
    ensures |m[key := value]| == |m| + 1
  {
    assert m[key := value].Keys == m.Keys + {key};
  }

  /** The retrieval exists, belongs to the caller as far as both sides know, and has not expired. */
  predicate IsUsable(states: map<string, RetrievalState>, key: string, session: string, conversation: string, now: real)
    reads states.Values
  {
    && key in states && SameOwner(states[key].session, session) && SameOwner(states[key].conversation, conversation)
    && !Expired(states[key], now)
  }

  class AdaptiveRetrievalRegistry {
    var states: map<string, RetrievalState>

    /** At most 32 retrievals, each held under its own id. */
    ghost predicate Valid()
      reads this
    {
      |states| <= MAX_ACTIVE_RETRIEVALS && forall k :: k in states ==> states[k].id == k
    }

    constructor ()
      ensures Valid() && states == map[]
    {
      states := map[];
    }

    /** Drops expired retrievals, and the oldest one when the registry is still full. */
    method Purge(now: real)
      requires Valid()
      modifies this
      ensures Valid() && |states| < MAX_ACTIVE_RETRIEVALS
      ensures forall k :: k in states ==> k in old(states) && states[k] == old(states)[k] && !Expired(states[k], now)
      ensures forall k :: k in old(states) && !Expired(old(states)[k], now) && k !in states ==>
        |Unexpired(old(states), now)| == MAX_ACTIVE_RETRIEVALS
        && forall l :: l in old(states) && !Expired(old(states)[l], now) ==> old(states)[k].updatedAt <= old(states)[l].updatedAt
    {
      states := Unexpired(states, now);
      if |states| < MAX_ACTIVE_RETRIEVALS {
        return;
      }
      var oldest := Oldest();
      DropOne(states, oldest);
      states := states - {oldest};
    }

    method Oldest() returns (key: string)
      requires states != map[]
      ensures key in states && forall l :: l in states ==> states[key].updatedAt <= states[l].updatedAt
    {
      key :| key in states;
      var todo := states.Keys - {key};
      while todo != {}
        invariant key in states && todo <= states.Keys
        invariant forall l :: l in states && l !in todo ==> states[key].updatedAt <= states[l].updatedAt
        decreases |todo|
      {
        var other :| other in todo;
        if states[other].updatedAt < states[key].updatedAt {
          key := other;
        }
        todo := todo - {other};
      }
    }

    /** The caller's live retrieval; an expired one is dropped and refused. */
    method Get(id: string, session: string, conversation: string, now: real) returns (found: RetrievalState?)
      requires Valid()
      modifies this
      ensures Valid()
      ensures found != null <==> old(IsUsable(states, Strip(id), session, conversation, now))
      ensures found != null ==> found == old(states)[Strip(id)] && states == old(states)
      ensures found == null ==> states == old(states) || states == old(states) - {Strip(id)}
      ensures forall k :: k in old(states) && k !in states ==> Expired(old(states)[k], now)
    {
      var key := Strip(id);
      if key !in states {
        return null;
      }
      var state := states[key];
      if !SameOwner(state.session, session) || !SameOwner(state.conversation, conversation) {
        return null;
      }
      if Expired(state, now) {
        DropOne(states, key);
        states := states - {key};
        return null;
      }
      return state;
    }

    /** A new retrieval under a fresh id, unless the call raises on its requirements or on its view. */
    method StartRetrieval(id: string, requirements: seq<Requirement>, session: string, conversation: string,
                          view: Option<View>, now: real) returns (state: Option<State>)
      requires Valid() && id !in states
      modifies this
      ensures Valid()
      ensures state == if ValidRequirements(requirements) && (view.Some? ==> IsReadable(view.value))
                       then Some(Start(requirements, view, now)) else None
      ensures state.Some? ==> id in states && states[id].Value() == state.value
      ensures state.None? ==> states.Keys <= old(states.Keys) && forall k :: k in states ==> states[k] == old(states)[k]
      ensures !ValidRequirements(requirements) ==> states == old(states)
    {
      if !ValidRequirements(requirements) {
        return None;
      }
      Purge(now);
      if view.Some? && !IsReadable(view.value) {
        return None;
      }
      var state0 := new RetrievalState(id, requirements, session, conversation, view, now);
      AddOne(states, id, state0);
      states := states[id := state0];
      return Some(state0.Value());
    }

    /** Runs one search on the caller's own retrieval and leaves every other one alone. */
    method SearchRetrieval(id: string, session: string, conversation: string, call: SearchCall) returns (ok: bool)
      requires Valid()
      modifies this, states.Values
      ensures Valid() && states.Keys <= old(states.Keys)
      ensures forall k :: k in states ==> states[k] == old(states)[k]
      ensures forall k :: k in states && k != Strip(id) ==> states[k].Value() == old(states[k].Value())
      ensures if old(IsUsable(states, Strip(id), session, conversation, call.now)) then
          Strip(id) in states && (states[Strip(id)].Value(), ok) == Search(old(states[Strip(id)].Value()), call)
        else
          !ok && forall k :: k in states ==> states[k].Value() == old(states[k].Value())
    {
      var state := Get(id, session, conversation, call.now);
      if state == null {
        return false;
      }
      ok := state.SearchOnce(call);
    }

    method FinishRetrieval(id: string, session: string, conversation: string, call: FinishCall) returns (ok: bool)
      requires Valid()
      modifies this, states.Values
      ensures Valid() && states.Keys <= old(states.Keys)
      ensures forall k :: k in states ==> states[k] == old(states)[k]
      ensures forall k :: k in states && k != Strip(id) ==> states[k].Value() == old(states[k].Value())
      ensures if old(IsUsable(states, Strip(id), session, conversation, call.now)) then
          Strip(id) in states && (states[Strip(id)].Value(), ok) == Finish(old(states[Strip(id)].Value()), call)
        else
          !ok && forall k :: k in states ==> states[k].Value() == old(states[k].Value())
    {
      var state := Get(id, session, conversation, call.now);
      if state == null {
        return false;
      }
      ok := state.FinishUp(call);
    }

    /** An abandoned retrieval is handed out no more. */
    method AbandonRetrieval(id: string, session: string, conversation: string, now: real) returns (ok: bool)
      requires Valid()
      modifies this, states.Values
      ensures Valid() && (ok ==> Strip(id) !in states)
      ensures ok == old(IsUsable(states, Strip(id), session, conversation, now))
      ensures forall k :: k in states ==> k in old(states) && states[k] == old(states)[k]
      ensures forall k :: k in states && k != Strip(id) ==> states[k].Value() == old(states[k].Value())
    {
      var state := Get(id, session, conversation, now);
      if state == null {
        return false;
      }
      state.status, state.reason, state.updatedAt := Abandoned, "abandoned by answerer", now;
      DropOne(states, state.id);
      states := states - {state.id};
      return true;
    }
  }

  function Unexpired(states: map<string, RetrievalState>, now: real): (live: map<string, RetrievalState>)
    reads states.Values
    ensures |live| <= |states|
  {
    var live := map k | k in states && !Expired(states[k], now) :: states[k];
    assert live.Keys <= states.Keys;
    SubsetSize(live.Keys, states.Keys);
    live
  }
}
