/** The one-shot claim that lets a compression run pure sanitation of the list its preflight saw. */
module SanitationClaim {
  import opened Wrappers
  import opened SanitationDigest

  datatype Handoff = Handoff(session: string, conversation: string, identity: seq<Byte>, replayIdentity: seq<Byte>,
                             cooldownAuthorized: bool, generation: Option<int>, revision: int)

  datatype Claim = Claim(token: nat, handoff: Handoff, session: string, generation: int)

  /** The engine fields the claim protocol reads and writes; `nextToken` is one no claim has used. */
  datatype Engine = Engine(session: string, conversation: string, generation: Option<int>, revision: int,
                           handoff: Option<Handoff>, cleanupOnly: bool, pending: Option<Claim>, nextToken: nat)

  function Cleared(e: Engine): Engine {
    e.(handoff := None, cleanupOnly := false, pending := None)
  }

  /** What preflight hands over once it has found cleanup as the only work due. */
  function HandoffFor(e: Engine, messages: seq<Message>, replay: seq<Message>, cooldown: bool, revision: int): Handoff {
    Handoff(e.session, e.conversation, MessageStream(messages), MessageStream(replay), cooldown, e.generation, revision)
  }

  function WithHandoff(e: Engine, h: Handoff): Engine {
    e.(handoff := Some(h), cleanupOnly := true)
  }

  // ---------------------------------------------------------------- prepare

  /** A claim fits the attempt of its preflight or the one right after it. */
  predicate GenerationFits(h: Handoff, generation: int) {
    h.generation.Some? ==> generation == h.generation.value || generation == h.generation.value + 1
  }

  predicate Claimable(e: Engine, messages: seq<Message>, session: string, generation: Option<int>) {
    && e.handoff.Some?
    && e.handoff.value.session == e.session
    && e.handoff.value.conversation == e.conversation
    && e.handoff.value.identity == MessageStream(messages)
    && session != "" && session == e.session
    && generation.Some?
    && GenerationFits(e.handoff.value, generation.value)
    && generation == e.generation
    && e.handoff.value.revision == e.revision
  }

  function Prepare(e: Engine, bypass: bool, messages: seq<Message>, session: string, generation: Option<int>): (Engine, Option<nat>)
  {
    if bypass || (session != "" && session != e.session) then (e, None)
    else if Claimable(e, messages, session, generation) then
      (Cleared(e).(pending := Some(Claim(e.nextToken, e.handoff.value, session, generation.value)), nextToken := e.nextToken + 1),
       Some(e.nextToken))
    else (Cleared(e), None)
  }

  // ---------------------------------------------------------------- compress

  predicate HostClaimed(e: Engine, messages: seq<Message>, force: bool, token: Option<nat>) {
    && e.pending.Some?
    && token == Some(e.pending.value.token)
    && e.pending.value.handoff.session == e.session
    && e.pending.value.handoff.conversation == e.conversation
    && e.pending.value.handoff.identity == MessageStream(messages)
    && e.pending.value.session == e.session
    && e.generation == Some(e.pending.value.generation)
    && e.pending.value.handoff.revision == e.revision
    && !force
  }

  predicate Compatible(e: Engine, messages: seq<Message>, force: bool, token: Option<nat>) {
    && e.pending.None? && token.None?
    && e.handoff.Some?
    && e.handoff.value.session == e.session
    && e.handoff.value.conversation == e.conversation
    && e.handoff.value.identity == MessageStream(messages)
    && e.handoff.value.generation == e.generation
    && e.handoff.value.revision == e.revision
    && !force
  }

  /** An auxiliary caller without a claim leaves the foreground's pending sanitation alone. */
  predicate Preserves(e: Engine, bypass: bool, token: Option<nat>) {
    bypass && token.None? && (e.pending.Some? || e.handoff.Some?)
  }

  /** The claim part of `compress`: the state after it, and the handoff sanitation runs under, if any. */
  function Compress(e: Engine, bypass: bool, messages: seq<Message>, force: bool, token: Option<nat>): (Engine, Option<Handoff>)
  {
    if Preserves(e, bypass, token) then (e, None)
    else if HostClaimed(e, messages, force, token) then (Cleared(e), Some(e.pending.value.handoff))
    else if Compatible(e, messages, force, token) then (Cleared(e), e.handoff)
    else (Cleared(e), None)
  }

  // ---------------------------------------------------------------- the engine object

  class CompressionEngine {
    var session: string
    var conversation: string
    var generation: Option<int>
    var revision: int
    var handoff: Option<Handoff>
    var cleanupOnly: bool
    var pending: Option<Claim>
    var nextToken: nat

    constructor ()
      ensures Value() == Engine("", "", None, 0, None, false, None, 0)
    {
      session, conversation, generation, revision := "", "", None, 0;
      handoff, cleanupOnly, pending, nextToken := None, false, None, 0;
    }

    function Value(): Engine
      reads this
    {
      Engine(session, conversation, generation, revision, handoff, cleanupOnly, pending, nextToken)
    }

    method InvalidateSanitationOperation()
      modifies this
      ensures Value() == Cleared(old(Value()))
    {
      pending := None;
      cleanupOnly := false;
      handoff := None;
    }

    method RecordHandoff(messages: seq<Message>, replay: seq<Message>, cooldown: bool, ingestRevision: int)
      modifies this
      ensures Value() == WithHandoff(old(Value()), HandoffFor(old(Value()), messages, replay, cooldown, ingestRevision))
    {
      cleanupOnly := true;
      var identity := MessageIdentity(messages);
      var replayIdentity := MessageIdentity(replay);
      handoff := Some(Handoff(session, conversation, identity, replayIdentity, cooldown, generation, ingestRevision));
    }

    method PrepareCompressionOperation(bypass: bool, messages: seq<Message>, sessionId: string, attempt: Option<int>)
      returns (claim: Option<nat>)
      modifies this
      ensures (Value(), claim) == Prepare(old(Value()), bypass, messages, sessionId, attempt)
    {
      if bypass || (sessionId != "" && sessionId != session) {
        return None;
      }
      var found := handoff;
      InvalidateSanitationOperation();
      var identity := MessageIdentity(messages);
      if found.None? || found.value.session != session || found.value.conversation != conversation
         || found.value.identity != identity || sessionId == "" || sessionId != session || attempt.None?
         || (found.value.generation.Some? && attempt.value != found.value.generation.value
             && attempt.value != found.value.generation.value + 1)
         || attempt != generation || found.value.revision != revision
      {
        return None;
      }
      claim := Some(nextToken);
      pending := Some(Claim(nextToken, found.value, sessionId, attempt.value));
      nextToken := nextToken + 1;
    }

    method ClaimSanitation(bypass: bool, messages: seq<Message>, force: bool, token: Option<nat>)
      returns (sanitation: Option<Handoff>)
      modifies this
      ensures (Value(), sanitation) == Compress(old(Value()), bypass, messages, force, token)
    {
      var pendingClaim, compatibility := pending, handoff;
      var preserve := bypass && token.None? && (pendingClaim.Some? || compatibility.Some?);
      if preserve {
        pendingClaim, compatibility := None, None;
      } else {
        InvalidateSanitationOperation();
      }
      var identity := MessageIdentity(messages);
      var hostClaimed :=
        && pendingClaim.Some? && token == Some(pendingClaim.value.token)
        && pendingClaim.value.handoff.session == session
        && pendingClaim.value.handoff.conversation == conversation
        && pendingClaim.value.handoff.identity == identity
        && pendingClaim.value.session == session
        && generation == Some(pendingClaim.value.generation)
        && pendingClaim.value.handoff.revision == revision
        && !force;
      var compatible :=
        && pendingClaim.None? && token.None? && compatibility.Some?
        && compatibility.value.session == session
        && compatibility.value.conversation == conversation
        && compatibility.value.identity == identity
        && compatibility.value.generation == generation
        && compatibility.value.revision == revision
        && !force;
      return if hostClaimed then Some(pendingClaim.value.handoff) else if compatible then compatibility else None;
    }
  }

  // ---------------------------------------------------------------- histories

  /** What the engine looked like when preflight made a handoff, and the list it made it for. */
  datatype Preflight = Preflight(messages: seq<Message>, session: string, conversation: string,
                                 generation: Option<int>, revision: int)

  /** One sanitation run: the preflight it is charged to, and the call that made it. */
  datatype Sanitation = Sanitation(serial: nat, messages: seq<Message>, session: string, conversation: string,
                                   generation: Option<int>, revision: int, forced: bool)

  /** An engine with its past: every handoff made, which ones are still held, and the runs so far. */
  datatype History = History(engine: Engine, preflights: seq<Preflight>, held: Option<nat>, claimed: Option<nat>,
                             runs: seq<Sanitation>)

  datatype Step =
    | PreflightStep(bypass: bool, ingested: nat, handsOver: bool, messages: seq<Message>, replay: seq<Message>,
                    cooldown: bool, late: nat)
    | PrepareStep(bypass: bool, messages: seq<Message>, session: string, generation: Option<int>)
    | CompressStep(bypass: bool, messages: seq<Message>, force: bool, token: Option<nat>)
    | InvalidateStep
    | RebindStep(session: string, conversation: string)
    | AttemptStep(generation: Option<int>)
    | IngestStep(revision: int)

  /** `late` counts ingests by other threads between the preflight's own ingest and its handoff. */
  function PreflightHistory(h: History, step: Step): History
    requires step.PreflightStep?
  {
    if step.bypass then h
    else
      var ingested := Cleared(h.engine).(revision := h.engine.revision + step.ingested);
      if step.handsOver then
        var made := HandoffFor(ingested, step.messages, step.replay, step.cooldown, ingested.revision);
        h.(engine := WithHandoff(ingested, made).(revision := ingested.revision + step.late),
           preflights := h.preflights
                         + [Preflight(step.messages, made.session, made.conversation, made.generation, made.revision)],
           held := Some(|h.preflights|), claimed := None)
      else h.(engine := ingested, held := None, claimed := None)
  }

  function CompressHistory(h: History, step: Step): History
    requires step.CompressStep?
  {
    var (after, sanitation) := Compress(h.engine, step.bypass, step.messages, step.force, step.token);
    if Preserves(h.engine, step.bypass, step.token) then h
    else
      var serial := if h.claimed.Some? then h.claimed else h.held;
      h.(engine := after, held := None, claimed := None,
         runs := if sanitation.Some? && serial.Some? then
                   h.runs + [Sanitation(serial.value, step.messages, after.session, after.conversation, after.generation,
                                        after.revision, step.force)]
                 else h.runs)
  }

  function Apply(h: History, step: Step): History {
    match step
    case PreflightStep(_, _, _, _, _, _, _) => PreflightHistory(h, step)
    case PrepareStep(bypass, messages, session, generation) =>
      var (after, token) := Prepare(h.engine, bypass, messages, session, generation);
      if bypass || (session != "" && session != h.engine.session) then h
      else h.(engine := after, claimed := if token.Some? then h.held else None, held := None)
    case CompressStep(_, _, _, _) => CompressHistory(h, step)
    case InvalidateStep => h.(engine := Cleared(h.engine), held := None, claimed := None)
    case RebindStep(session, conversation) => h.(engine := h.engine.(session := session, conversation := conversation))
    case AttemptStep(generation) => h.(engine := h.engine.(generation := generation))
    case IngestStep(revision) => h.(engine := h.engine.(revision := revision))
  }

  ghost function Run(h: History, steps: seq<Step>): History
    decreases |steps|
  {
    if steps == [] then h else Run(Apply(h, steps[0]), steps[1..])
  }

  ghost predicate DescribesHandoff(p: Preflight, h: Handoff) {
    && h.session == p.session && h.conversation == p.conversation && h.identity == MessageStream(p.messages)
    && h.generation == p.generation && h.revision == p.revision
  }

  /** A run happened for the very list of its preflight, in its session, conversation, revision and attempt. */
  ghost predicate Exact(p: Preflight, run: Sanitation) {
    && run.messages == p.messages && run.session == p.session && run.conversation == p.conversation
    && run.revision == p.revision && !run.forced
    && (p.generation.Some? ==> run.generation == p.generation || run.generation == Some(p.generation.value + 1))
  }

  ghost predicate Unspent(h: History, serial: nat) {
    serial < |h.preflights| && forall i :: 0 <= i < |h.runs| ==> h.runs[i].serial != serial
  }

  ghost predicate Inv(h: History) {
    && (h.engine.cleanupOnly <==> h.engine.handoff.Some?)
    && (h.held.Some? <==> h.engine.handoff.Some?)
    && (h.claimed.Some? <==> h.engine.pending.Some?)
    && !(h.held.Some? && h.claimed.Some?)
    && (h.held.Some? ==> Unspent(h, h.held.value) && DescribesHandoff(h.preflights[h.held.value], h.engine.handoff.value))
    && (h.claimed.Some? ==>
          && Unspent(h, h.claimed.value)
          && DescribesHandoff(h.preflights[h.claimed.value], h.engine.pending.value.handoff)
          && GenerationFits(h.engine.pending.value.handoff, h.engine.pending.value.generation)
          && h.engine.pending.value.token < h.engine.nextToken)
    && (forall i :: 0 <= i < |h.runs| ==> h.runs[i].serial < |h.preflights| && Exact(h.preflights[h.runs[i].serial], h.runs[i]))
    && (forall i, j :: 0 <= i < j < |h.runs| ==> h.runs[i].serial != h.runs[j].serial)
  }

  lemma PreflightKeepsInv(h: History, step: Step)
    requires Inv(h) && step.PreflightStep?
    ensures Inv(Apply(h, step))
  {
    var after := Apply(h, step);
    forall i | 0 <= i < |h.runs| ensures after.preflights[h.runs[i].serial] == h.preflights[h.runs[i].serial] {
    }
  }

  /** A run added for an unspent preflight whose list it repeats keeps the books. */
  lemma AddedRun(h: History, after: History, serial: nat, run: Sanitation)
    requires Inv(h) && Unspent(h, serial) && run.serial == serial && Exact(h.preflights[serial], run)
    requires after == h.(engine := Cleared(h.engine), held := None, claimed := None, runs := h.runs + [run])
    ensures Inv(after)
  {
  }

  /** The run a compression adds is exact: equal identities mean equal lists. */
  lemma CompressKeepsInv(h: History, step: Step)
    requires Inv(h) && step.CompressStep?
    ensures Inv(Apply(h, step))
  {
    var after := Apply(h, step);
    if Preserves(h.engine, step.bypass, step.token) {
    } else if HostClaimed(h.engine, step.messages, step.force, step.token) {
      MessageStreamInjective(step.messages, h.preflights[h.claimed.value].messages);
      AddedRun(h, after, h.claimed.value, after.runs[|h.runs|]);
    } else if Compatible(h.engine, step.messages, step.force, step.token) {
      MessageStreamInjective(step.messages, h.preflights[h.held.value].messages);
      AddedRun(h, after, h.held.value, after.runs[|h.runs|]);
    }
  }

  lemma StepKeepsInv(h: History, step: Step)
    requires Inv(h)
    ensures Inv(Apply(h, step))
  {
    match step
    case PreflightStep(_, _, _, _, _, _, _) => PreflightKeepsInv(h, step);
    case CompressStep(_, _, _, _) => CompressKeepsInv(h, step);
    case _ =>
  }

  lemma {:induction false} RunKeepsInv(h: History, steps: seq<Step>)
    requires Inv(h)
    ensures Inv(Run(h, steps))
    decreases |steps|
  {
    if steps != [] {
      StepKeepsInv(h, steps[0]);
      RunKeepsInv(Apply(h, steps[0]), steps[1..]);
    }
  }

  /**
   Over every history of an engine that starts without a handoff or a claim, each preflight is
   charged with at most one sanitation run, made for the very list that preflight saw, in the
   session, conversation and ingest revision it saw, and on its attempt or the next one.
   */
  lemma SanitationIsExact(start: Engine, steps: seq<Step>)
    requires start == Cleared(start)
    ensures var h := Run(History(start, [], None, None, []), steps);
      && (forall i :: 0 <= i < |h.runs| ==>
            h.runs[i].serial < |h.preflights| && Exact(h.preflights[h.runs[i].serial], h.runs[i]))
      && (forall i, j :: 0 <= i < j < |h.runs| ==> h.runs[i].serial != h.runs[j].serial)
  {
    RunKeepsInv(History(start, [], None, None, []), steps);
  }

  predicate HandsOver(step: Step) {
    step.PreflightStep? && step.handsOver && !step.bypass
  }

  function Left(h: History): nat {
    if h.held.Some? || h.claimed.Some? then 1 else 0
  }

  /** Without a new handoff, whatever else happens, at most the one still held can be spent. */
  lemma {:induction false} HandoffsAreOneShot(h: History, steps: seq<Step>)
    requires Inv(h) && forall i :: 0 <= i < |steps| ==> !HandsOver(steps[i])
    ensures |Run(h, steps).runs| <= |h.runs| + Left(h)
    decreases |steps|
  {
    if steps != [] {
      StepKeepsInv(h, steps[0]);
      assert |Apply(h, steps[0]).runs| + Left(Apply(h, steps[0])) <= |h.runs| + Left(h);
      HandoffsAreOneShot(Apply(h, steps[0]), steps[1..]);
    }
  }

  /**
   A prepare gives a token exactly when it comes from the session's own current attempt, the one of the
   preflight or the next, with the list of a preflight that is held and nothing has moved since.
   */
  lemma ClaimsIff(h: History, bypass: bool, messages: seq<Message>, session: string, generation: Option<int>)
    requires Inv(h)
    ensures Prepare(h.engine, bypass, messages, session, generation).1.Some? <==>
      && !bypass && session != "" && session == h.engine.session
      && generation.Some? && generation == h.engine.generation
      && h.held.Some?
      && var p := h.preflights[h.held.value];
         Unmoved(p, h.engine, messages)
         && (p.generation.None? || generation == p.generation || generation == Some(p.generation.value + 1))
  {
    if h.held.Some? && h.engine.handoff.value.identity == MessageStream(messages) {
      MessageStreamInjective(messages, h.preflights[h.held.value].messages);
    }
  }

  /**
   Sanitation runs exactly when the call presents the pending claim, or no claim was ever taken and
   none is presented, and in either case nothing moved since the preflight.
   */
  lemma SanitisesIff(h: History, bypass: bool, messages: seq<Message>, force: bool, token: Option<nat>)
    requires Inv(h)
    ensures var (_, sanitation) := Compress(h.engine, bypass, messages, force, token);
      sanitation.Some? <==>
        && !force && !Preserves(h.engine, bypass, token)
        && (|| (h.claimed.Some? && token == Some(h.engine.pending.value.token)
                && h.engine.generation == Some(h.engine.pending.value.generation)
                && h.engine.pending.value.session == h.engine.session
                && Unmoved(h.preflights[h.claimed.value], h.engine, messages))
            || (h.held.Some? && token.None? && h.preflights[h.held.value].generation == h.engine.generation
                && Unmoved(h.preflights[h.held.value], h.engine, messages)))
  {
    if h.claimed.Some? && h.engine.pending.value.handoff.identity == MessageStream(messages) {
      MessageStreamInjective(messages, h.preflights[h.claimed.value].messages);
    }
    if h.held.Some? && h.engine.handoff.value.identity == MessageStream(messages) {
      MessageStreamInjective(messages, h.preflights[h.held.value].messages);
    }
  }

  ghost predicate Unmoved(p: Preflight, e: Engine, messages: seq<Message>) {
    e.session == p.session && e.conversation == p.conversation && e.revision == p.revision && messages == p.messages
  }

  // ---------------------------------------------------------------- an unmoved preflight is honoured

  /** A call that leaves another caller's handoff or claim alone: auxiliary, or about another session. */
  predicate Passive(step: Step, session: string) {
    || (step.PreflightStep? && step.bypass)
    || (step.PrepareStep? && (step.bypass || (step.session != "" && step.session != session)))
    || (step.CompressStep? && step.bypass && step.token.None?)
  }

  lemma {:induction false} PassiveChangesNothing(h: History, steps: seq<Step>)
    requires h.engine.handoff.Some? || h.engine.pending.Some?
    requires forall i :: 0 <= i < |steps| ==> Passive(steps[i], h.engine.session)
    ensures Run(h, steps) == h
    decreases |steps|
  {
    if steps != [] {
      assert Apply(h, steps[0]) == h;
      PassiveChangesNothing(h, steps[1..]);
    }
  }

  ghost predicate AllPassive(steps: seq<Step>, session: string) {
    forall i :: 0 <= i < |steps| ==> Passive(steps[i], session)
  }

  /** Something is handed over or claimed in the session. */
  ghost predicate Busy(h: History, session: string) {
    (h.engine.handoff.Some? || h.engine.pending.Some?) && h.engine.session == session
  }

  /** The engine holds what a preflight handed over, charged to `serial`, and nothing has moved since. */
  ghost predicate Holds(held: History, e: Engine, preflight: Step, serial: nat, runs: seq<Sanitation>)
    requires preflight.PreflightStep?
  {
    && held.engine.session == e.session && held.engine.conversation == e.conversation
    && held.engine.revision == e.revision + preflight.ingested && held.engine.nextToken == e.nextToken
    && held.engine.handoff == Some(Handoff(e.session, e.conversation, MessageStream(preflight.messages),
                                           MessageStream(preflight.replay), preflight.cooldown, e.generation,
                                           e.revision + preflight.ingested))
    && held.engine.pending.None? && held.held == Some(serial) && held.claimed.None? && held.runs == runs
  }

  /** The claim on it is pending under the token that was next, for this attempt. */
  ghost predicate IsClaimed(prepared: History, e: Engine, preflight: Step, serial: nat, runs: seq<Sanitation>, attempt: int)
    requires preflight.PreflightStep?
  {
    && prepared.engine.session == e.session && prepared.engine.conversation == e.conversation
    && prepared.engine.revision == e.revision + preflight.ingested && prepared.engine.generation == Some(attempt)
    && prepared.engine.pending ==
         Some(Claim(e.nextToken,
                    Handoff(e.session, e.conversation, MessageStream(preflight.messages), MessageStream(preflight.replay),
                            preflight.cooldown, e.generation, e.revision + preflight.ingested),
                    e.session, attempt))
    && prepared.claimed == Some(serial) && prepared.runs == runs
  }

  lemma PreflightHolds(h: History, step: Step)
    requires HandsOver(step) && step.late == 0
    ensures Holds(Apply(h, step), h.engine, step, |h.preflights|, h.runs)
    ensures Apply(h, step).engine.generation == h.engine.generation
  {
  }

  lemma AttemptHolds(held: History, e: Engine, preflight: Step, serial: nat, runs: seq<Sanitation>, step: Step)
    requires preflight.PreflightStep? && Holds(held, e, preflight, serial, runs) && step.AttemptStep?
    ensures Holds(Apply(held, step), e, preflight, serial, runs) && Apply(held, step).engine.generation == step.generation
  {
  }

  /** The attempt at hand takes the claim: preparing the list of the preflight gives the next token. */
  lemma PrepareClaims(held: History, e: Engine, preflight: Step, serial: nat, runs: seq<Sanitation>, step: Step, attempt: int)
    requires preflight.PreflightStep? && Holds(held, e, preflight, serial, runs) && held.engine.generation == Some(attempt)
    requires e.generation.None? || attempt == e.generation.value || attempt == e.generation.value + 1
    requires e.session != "" && step == PrepareStep(false, preflight.messages, e.session, Some(attempt))
    ensures Prepare(held.engine, false, preflight.messages, e.session, Some(attempt)).1 == Some(e.nextToken)
    ensures IsClaimed(Apply(held, step), e, preflight, serial, runs, attempt)
  {
  }

  /** Presenting the token with the list sanitises it under the handoff. */
  lemma ClaimSanitises(prepared: History, e: Engine, preflight: Step, serial: nat, runs: seq<Sanitation>, step: Step,
                       attempt: int)
    requires preflight.PreflightStep? && IsClaimed(prepared, e, preflight, serial, runs, attempt)
    requires step.CompressStep? && step.messages == preflight.messages && !step.force && step.token == Some(e.nextToken)
    ensures Compress(prepared.engine, step.bypass, step.messages, false, step.token).1 == Some(prepared.engine.pending.value.handoff)
    ensures Apply(prepared, step).runs ==
      runs + [Sanitation(serial, preflight.messages, e.session, e.conversation, Some(attempt), e.revision + preflight.ingested,
                         false)]
  {
  }

  lemma PassiveAfter(h: History, step: Step, passive: seq<Step>, session: string) returns (after: History)
    requires Busy(Apply(h, step), session) && AllPassive(passive, session)
    ensures after == Run(Apply(h, step), passive) == Apply(h, step)
  {
    PassiveChangesNothing(Apply(h, step), passive);
    after := Apply(h, step);
  }

  lemma HandoffIsHeld(h: History, preflight: Step, passive: seq<Step>) returns (held: History)
    requires HandsOver(preflight) && preflight.late == 0 && AllPassive(passive, h.engine.session)
    ensures held == Run(Apply(h, preflight), passive)
    ensures Holds(held, h.engine, preflight, |h.preflights|, h.runs) && held.engine.generation == h.engine.generation
  {
    PreflightHolds(h, preflight);
    held := PassiveAfter(h, preflight, passive, h.engine.session);
  }

  lemma HandoffIsKept(held: History, e: Engine, preflight: Step, serial: nat, runs: seq<Sanitation>, begin: Step,
                      passive: seq<Step>) returns (begun: History)
    requires preflight.PreflightStep? && Holds(held, e, preflight, serial, runs) && begin.AttemptStep?
    requires AllPassive(passive, e.session)
    ensures begun == Run(Apply(held, begin), passive)
    ensures Holds(begun, e, preflight, serial, runs) && begun.engine.generation == begin.generation
  {
    AttemptHolds(held, e, preflight, serial, runs, begin);
    begun := PassiveAfter(held, begin, passive, e.session);
  }

  lemma ClaimIsPending(begun: History, e: Engine, preflight: Step, serial: nat, runs: seq<Sanitation>, attempt: int,
                       prepare: Step, passive: seq<Step>) returns (prepared: History)
    requires preflight.PreflightStep? && Holds(begun, e, preflight, serial, runs) && begun.engine.generation == Some(attempt)
    requires e.generation.None? || attempt == e.generation.value || attempt == e.generation.value + 1
    requires e.session != "" && AllPassive(passive, e.session)
    requires prepare == PrepareStep(false, preflight.messages, e.session, Some(attempt))
    ensures prepared == Run(Apply(begun, prepare), passive) && IsClaimed(prepared, e, preflight, serial, runs, attempt)
  {
    PrepareClaims(begun, e, preflight, serial, runs, prepare, attempt);
    prepared := PassiveAfter(begun, prepare, passive, e.session);
  }

  /**
   A preflight that nothing overtakes is honoured. After the handoff, whatever auxiliary and foreign
   calls come between, the attempt that follows can claim it and sanitises that list under it.
   */
  lemma UnmovedPreflightSanitises(h: History, preflight: Step, first: seq<Step>, attempt: int, second: seq<Step>,
                                  third: seq<Step>, bypass: bool)
    returns (held: History, begun: History, prepared: History)
    requires HandsOver(preflight) && preflight.late == 0 && h.engine.session != ""
    requires h.engine.generation.None? || attempt == h.engine.generation.value || attempt == h.engine.generation.value + 1
    requires AllPassive(first, h.engine.session) && AllPassive(second, h.engine.session) && AllPassive(third, h.engine.session)
    ensures held == Run(Apply(h, preflight), first)
    ensures begun == Run(Apply(held, AttemptStep(Some(attempt))), second)
    ensures prepared == Run(Apply(begun, PrepareStep(false, preflight.messages, h.engine.session, Some(attempt))), third)
    ensures Apply(prepared, CompressStep(bypass, preflight.messages, false, Some(h.engine.nextToken))).runs ==
      h.runs + [Sanitation(|h.preflights|, preflight.messages, h.engine.session, h.engine.conversation, Some(attempt),
                           h.engine.revision + preflight.ingested, false)]
  {
    var e, serial := h.engine, |h.preflights|;
    held := HandoffIsHeld(h, preflight, first);
    begun := HandoffIsKept(held, e, preflight, serial, h.runs, AttemptStep(Some(attempt)), second);
    prepared := ClaimIsPending(begun, e, preflight, serial, h.runs, attempt,
                               PrepareStep(false, preflight.messages, e.session, Some(attempt)), third);
    ClaimSanitises(prepared, e, preflight, serial, h.runs,
                   CompressStep(bypass, preflight.messages, false, Some(e.nextToken)), attempt);
  }

  lemma HeldSanitises(held: History, e: Engine, preflight: Step, serial: nat, runs: seq<Sanitation>, step: Step)
    requires preflight.PreflightStep? && Holds(held, e, preflight, serial, runs) && held.engine.generation == e.generation
    requires step == CompressStep(false, preflight.messages, false, None)
    ensures Apply(held, step).runs ==
      runs + [Sanitation(serial, preflight.messages, e.session, e.conversation, e.generation, e.revision + preflight.ingested,
                         false)]
  {
  }

  /** A caller that never prepares is served too, as long as the attempt is still the preflight's. */
  lemma DirectCompressionSanitises(h: History, preflight: Step, between: seq<Step>) returns (held: History)
    requires HandsOver(preflight) && preflight.late == 0 && AllPassive(between, h.engine.session)
    ensures held == Run(Apply(h, preflight), between)
    ensures Apply(held, CompressStep(false, preflight.messages, false, None)).runs ==
      h.runs + [Sanitation(|h.preflights|, preflight.messages, h.engine.session, h.engine.conversation, h.engine.generation,
                           h.engine.revision + preflight.ingested, false)]
  {
    held := HandoffIsHeld(h, preflight, between);
    HeldSanitises(held, h.engine, preflight, |h.preflights|, h.runs, CompressStep(false, preflight.messages, false, None));
  }
}
