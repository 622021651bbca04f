/**
 The replay harness as a value: records become time-ordered events, each event is one transition,
 and a chunk either commits as a whole or leaves the harness as it was.
 */
module Replay {
  import opened Errors
  import opened Reals
  import opened LinearAlgebra
  import opened Cholesky
  import opened RidgeBandit
  import Ledger
  import Digest

  /** Foreign routines: the square root, and the bit pattern of a float (`f64::to_bits`). */
  datatype Env = Env(sqrt: real -> real, bits: real -> Digest.Word)

  datatype Record = Record(
    timestamp: nat, decisionId: nat, context: Vec, selectedArm: nat,
    outcomeTime: Option<nat>, reward: Option<real>, generation: nat, schemaHash: string,
    baselineReward: Option<real>, optimalReward: Option<real>, drift: bool)

  datatype ReplayConfig = ReplayConfig(
    maxRecords: nat, maxFeedbackDelay: nat, modelGeneration: nat, schemaHash: string,
    maxPending: nat, maxCompleted: nat)

  datatype Harness = Harness(
    config: ReplayConfig, model: Stable, ledger: Ledger.LedgerState, currentGeneration: nat,
    cumulativeReward: real, approximateRegret: real, baselineCumulativeReward: real,
    perArmPulls: seq<nat>, latencies: seq<nat>,
    expired: nat, duplicateFeedback: nat, rejected: nat, generationTransitions: nat,
    driftEvents: nat, missingFeedback: nat, processedRecords: nat, digest: Digest.Word)

  // ---- the record digest ----

  function WordsBytes(values: seq<real>, bits: real -> Digest.Word): seq<Digest.Byte> {
    if values == [] then [] else
      WordsBytes(values[..|values| - 1], bits) + Digest.LittleEndian(bits(values[|values| - 1]), 8)
  }

  function RecordBytes(r: Record, marker: Digest.Byte, bits: real -> Digest.Word): seq<Digest.Byte> {
    [marker] + Digest.LittleEndian(r.timestamp, 8) + Digest.LittleEndian(r.decisionId, 16)
    + Digest.LittleEndian(r.selectedArm, 8) + Digest.LittleEndian(r.generation, 8)
    + WordsBytes(r.context, bits)
    + (if r.reward.Some? then Digest.LittleEndian(bits(r.reward.value), 8) else [])
  }

  const DECISION_MARKER: Digest.Byte := 100
  const OUTCOME_MARKER: Digest.Byte := 111

  // ---- one decision event ----

  /** The bandit is usable and every arm has a pull counter. */
  ghost predicate Ready(h: Harness) {
    StableValid(h.model) && |h.perArmPulls| == h.model.armCount
  }

  function Reject(h: Harness): Result<Harness> {
    match CheckedIncrement(h.rejected)
    case Err(e) => Err(e)
    case Ok(n) => Ok(h.(rejected := n))
  }

  function EnterGeneration(h: Harness, generation: nat): (r: Result<Harness>)
    requires Ready(h)
    ensures Keeps(h, r)
  {
    if generation <= h.currentGeneration then Ok(h) else
      match CheckedIncrement(h.generationTransitions)
      case Err(e) => Err(e)
      case Ok(n) =>
        IdentityRepresents(h.model.featureCount);
        Ok(h.(model := StableReset(h.model), currentGeneration := generation, generationTransitions := n))
  }

  function EnterDrift(h: Harness, drift: bool): (r: Result<Harness>)
    requires Ready(h)
    ensures Keeps(h, r)
  {
    if !drift then Ok(h) else
      match CheckedIncrement(h.driftEvents)
      case Err(e) => Err(e)
      case Ok(n) =>
        IdentityRepresents(h.model.featureCount);
        Ok(h.(model := StableReset(h.model), driftEvents := n))
  }

  function DecisionOf(config: ReplayConfig, r: Record): Ledger.Decision {
    Ledger.Decision(r.decisionId, r.context, r.selectedArm, r.timestamp,
                    r.timestamp + config.maxFeedbackDelay, r.generation)
  }

  function RegisterDecision(h: Harness, r: Record, env: Env): Result<Harness> {
    if r.timestamp + h.config.maxFeedbackDelay > U64_MAX then Err(InvalidState(ExpiryOverflow))
    else
      var (ledger, reply) := Ledger.Register(h.ledger, DecisionOf(h.config, r));
      RecordRegistration(h, r, ledger, reply, Digest.Mix(h.digest, RecordBytes(r, DECISION_MARKER, env.bits)))
  }

  /** What a ledger reply means for the harness: only a new registration is digested and counted. */
  function RecordRegistration(
    h: Harness, r: Record, ledger: Ledger.LedgerState, reply: Ledger.Reply, digest: Digest.Word): Result<Harness>
  {
    if reply.Rejected? then Err(InvalidState(LedgerFailure(reply.error)))
    else if reply != Ledger.Receipt(Ledger.Registered) then Ok(h)
    else
      var next := h.(ledger := ledger, digest := digest);
      if r.outcomeTime.Some? then Ok(next)
      else
        match CheckedIncrement(next.missingFeedback)
        case Err(e) => Err(e)
        case Ok(n) => Ok(next.(missingFeedback := n))
  }

  /** `replay_decision`. */
  function DecisionStep(h: Harness, r: Record, env: Env): Result<Harness>
    requires Ready(h) && IsSqrt(env.sqrt)
  {
    if r.schemaHash != h.config.schemaHash then Reject(h)
    else if r.generation < h.currentGeneration then Reject(h)
    else
      match EnterGeneration(h, r.generation)
      case Err(e) => Err(e)
      case Ok(g) =>
        match EnterDrift(g, r.drift)
        case Err(e) => Err(e)
        case Ok(d) => CheckChoice(d, r, env)
  }

  /** The recorded arm must be the one the model chooses deterministically. */
  function CheckChoice(h: Harness, r: Record, env: Env): Result<Harness>
    requires Ready(h) && IsSqrt(env.sqrt)
  {
    CompareChoice(h, r, StableChoice(h.model, r.context, env.sqrt), env)
  }

  function CompareChoice(h: Harness, r: Record, choice: Result<nat>, env: Env): Result<Harness> {
    match choice
    case Err(e) => Err(e)
    case Ok(selected) => if selected != r.selectedArm then Reject(h) else RegisterDecision(h, r, env)
  }

  // ---- one outcome event ----

  /** `apply_contextual_outcome`: both transitions or neither. */
  function ApplyContextualOutcome(ledger: Ledger.LedgerState, model: Stable, o: Ledger.Outcome, sqrt: real -> real)
    : Result<(Ledger.LedgerState, Stable)>
    requires StableValid(model) && IsSqrt(sqrt)
  {
    if o.decisionId !in ledger.pending then Err(InvalidState(UnknownDelayedDecision))
    else
      var context := ledger.pending[o.decisionId].context;
      if |context| != model.featureCount then Err(DimensionMismatch(model.featureCount, |context|))
      else
        var (nextLedger, reply) := Ledger.ApplyFeedback(ledger, o);
        if reply.Rejected? then Err(InvalidState(LedgerFailure(reply.error)))
        else
          var (nextModel, result) := StableUpdate(model, o.action, context, o.reward, sqrt);
          match result
          case Err(e) => Err(e)
          case Ok(_) => Ok((nextLedger, nextModel))
  }

  function OutcomeOf(r: Record): Ledger.Outcome
    requires r.outcomeTime.Some? && r.reward.Some?
  {
    Ledger.Outcome(r.decisionId, r.selectedArm, r.reward.value, r.outcomeTime.value, r.generation)
  }

  function Accept(h: Harness, r: Record, env: Env): Result<Harness>
    requires Ready(h) && IsSqrt(env.sqrt)
    requires r.outcomeTime.Some? && r.reward.Some? && r.timestamp <= r.outcomeTime.value && r.selectedArm < h.model.armCount
  {
    Settle(h, r, ApplyContextualOutcome(h.ledger, h.model, OutcomeOf(r), env.sqrt),
           Digest.Mix(h.digest, RecordBytes(r, OUTCOME_MARKER, env.bits)))
  }

  /** The bookkeeping around the joint ledger and model transition `applied`. */
  function Settle(
    h: Harness, r: Record, applied: Result<(Ledger.LedgerState, Stable)>, digest: Digest.Word): Result<Harness>
    requires r.outcomeTime.Some? && r.reward.Some? && r.timestamp <= r.outcomeTime.value && r.selectedArm < |h.perArmPulls|
  {
    var reward := r.reward.value;
    var regret := if r.optimalReward.None? then 0.0 else Max(r.optimalReward.value - reward, 0.0);
    var baseline := if r.baselineReward.None? then 0.0 else r.baselineReward.value;
    match CheckedIncrement(h.perArmPulls[r.selectedArm])
    case Err(e) => Err(e)
    case Ok(pulls) =>
      if |h.latencies| >= h.config.maxRecords then Err(InvalidState(LatencyCapacityExceeded))
      else
        match applied
        case Err(e) => Err(e)
        case Ok(pair) =>
          Ok(h.(ledger := pair.0, model := pair.1,
                cumulativeReward := h.cumulativeReward + reward,
                baselineCumulativeReward := h.baselineCumulativeReward + baseline,
                approximateRegret := h.approximateRegret + regret,
                perArmPulls := h.perArmPulls[r.selectedArm := pulls],
                latencies := h.latencies + [r.outcomeTime.value - r.timestamp],
                digest := digest))
  }

  function SweepExpired(h: Harness, now: nat): Result<Harness> {
    var removed := |Ledger.ExpiredIds(h.ledger, now)|;
    if h.expired + removed > U64_MAX then Err(InvalidState(CounterOverflow))
    else Ok(h.(ledger := Ledger.ClearExpired(h.ledger, now).0, expired := h.expired + removed))
  }

  /** What becomes of an outcome event, in the order the source decides it. */
  datatype Verdict = Ignore | Refuse | Duplicate | Expire | Take

  function Judge(h: Harness, r: Record): (v: Verdict)
    ensures v == Take ==> r.outcomeTime.Some? && r.reward.Some?
    ensures v == Expire ==> r.outcomeTime.Some?
  {
    if r.outcomeTime.None? then Ignore
    else if r.reward.None? then Refuse
    else if r.generation != h.currentGeneration then Refuse
    else if r.decisionId in h.ledger.completed then Duplicate
    else if r.decisionId !in h.ledger.pending then Refuse
    else if r.outcomeTime.value > h.ledger.pending[r.decisionId].expiresAt then Expire
    else if !Matches(r, h.ledger.pending[r.decisionId]) then Refuse
    else Take
  }

  function CountDuplicate(h: Harness): Result<Harness> {
    match CheckedIncrement(h.duplicateFeedback)
    case Err(e) => Err(e)
    case Ok(n) => Ok(h.(duplicateFeedback := n))
  }

  /** `replay_outcome`. */
  function OutcomeStep(h: Harness, r: Record, env: Env): Result<Harness>
    requires Ready(h) && IsSqrt(env.sqrt) && RecordOk(r, h.model)
  {
    match Judge(h, r)
    case Ignore => Ok(h)
    case Refuse => Reject(h)
    case Duplicate => CountDuplicate(h)
    case Expire => SweepExpired(h, r.outcomeTime.value)
    case Take => Accept(h, r, env)
  }

  predicate Matches(r: Record, p: Ledger.Decision)
    requires r.outcomeTime.Some?
  {
    r.outcomeTime.value >= p.createdAt && r.generation == p.modelGeneration && r.selectedArm == p.action
  }

  // ---- records and events ----

  function ValidateRecord(r: Record, featureCount: nat, armCount: nat): Result<()> {
    if |r.context| != featureCount then Err(DimensionMismatch(featureCount, |r.context|))
    else if r.selectedArm >= armCount then Err(InvalidArm(armCount, r.selectedArm))
    else if r.outcomeTime.Some? != r.reward.Some? then Err(InvalidState(OutcomeRewardMismatch))
    else if r.outcomeTime.Some? && r.outcomeTime.value < r.timestamp then Err(InvalidState(OutcomePrecedesDecision))
    else Ok(())
  }

  predicate RecordOk(r: Record, model: Stable) {
    ValidateRecord(r, model.featureCount, model.armCount).Ok?
  }

  predicate RecordsOk(records: seq<Record>, model: Stable) {
    forall i :: 0 <= i < |records| ==> RecordOk(records[i], model)
  }

  datatype Event = Event(time: nat, kind: nat, index: nat)

  /** The order of the sort key (time, kind, index); decisions have kind 0 and outcomes kind 1. */
  predicate Before(a: Event, b: Event) {
    a.time < b.time || (a.time == b.time && (a.kind < b.kind || (a.kind == b.kind && a.index < b.index)))
  }

  /** The events of one record, in the order they are pushed. */
  function RecordEvents(r: Record, index: nat): seq<Event> {
    [Event(r.timestamp, 0, index)] + (if r.outcomeTime.Some? then [Event(r.outcomeTime.value, 1, index)] else [])
  }

  function EventsOf(records: seq<Record>): seq<Event> {
    if records == [] then [] else
      EventsOf(records[..|records| - 1]) + RecordEvents(records[|records| - 1], |records| - 1)
  }

  /** Inserts into a sorted list, after everything that is smaller. */
  function Insert(events: seq<Event>, e: Event): seq<Event> {
    if events == [] || Before(events[|events| - 1], e) then events + [e]
    else Insert(events[..|events| - 1], e) + [events[|events| - 1]]
  }

  function Sort(events: seq<Event>): seq<Event> {
    if events == [] then [] else Insert(Sort(events[..|events| - 1]), events[|events| - 1])
  }

  function EventStep(h: Harness, records: seq<Record>, e: Event, env: Env): Result<Harness>
    requires Ready(h) && IsSqrt(env.sqrt) && RecordsOk(records, h.model) && e.index < |records|
  {
    if e.kind == 0 then DecisionStep(h, records[e.index], env) else OutcomeStep(h, records[e.index], env)
  }

  ghost predicate Indexed(events: seq<Event>, n: nat) {
    forall i :: 0 <= i < |events| ==> events[i].index < n
  }

  /** What no event changes: the shape of the model and the configuration. */
  ghost predicate SameShape(h: Harness, next: Harness) {
    && next.model.featureCount == h.model.featureCount && next.model.armCount == h.model.armCount
    && next.model.alpha == h.model.alpha
    && next.config == h.config && next.processedRecords == h.processedRecords
    && next.ledger.config == h.ledger.config
  }

  /** A step that succeeds leaves a usable harness of the same shape. */
  ghost predicate Keeps(h: Harness, r: Result<Harness>) {
    r.Ok? ==> Ready(r.value) && SameShape(h, r.value)
  }

  lemma ChoiceKeepsShape(h: Harness, r: Record, env: Env)
    requires Ready(h) && IsSqrt(env.sqrt)
    ensures Keeps(h, CheckChoice(h, r, env))
  {
    RegisterKeepsShape(h, r, env);
  }

  lemma RegisterKeepsShape(h: Harness, r: Record, env: Env)
    requires Ready(h)
    ensures Keeps(h, RegisterDecision(h, r, env))
  {
    var (ledger, reply) := Ledger.Register(h.ledger, DecisionOf(h.config, r));
    assert ledger.config == h.ledger.config;
  }

  lemma DecisionKeepsShape(h: Harness, r: Record, env: Env)
    requires Ready(h) && IsSqrt(env.sqrt)
    ensures Keeps(h, DecisionStep(h, r, env))
  {
    var g := EnterGeneration(h, r.generation);
    if g.Ok? {
      var d := EnterDrift(g.value, r.drift);
      if d.Ok? { ChoiceKeepsShape(d.value, r, env); }
    }
  }

  lemma AcceptKeepsShape(h: Harness, r: Record, env: Env)
    requires Ready(h) && IsSqrt(env.sqrt)
    requires r.outcomeTime.Some? && r.reward.Some? && r.timestamp <= r.outcomeTime.value && r.selectedArm < h.model.armCount
    ensures Keeps(h, Accept(h, r, env))
  {
    if r.decisionId in h.ledger.pending {
      StableUpdateValid(h.model, r.selectedArm, h.ledger.pending[r.decisionId].context, r.reward.value, env.sqrt);
    }
  }

  lemma OutcomeKeepsShape(h: Harness, r: Record, env: Env)
    requires Ready(h) && IsSqrt(env.sqrt) && RecordOk(r, h.model)
    ensures Keeps(h, OutcomeStep(h, r, env))
  {
    if r.reward.Some? {
      AcceptKeepsShape(h, r, env);
    }
  }

  lemma EventKeepsShape(h: Harness, records: seq<Record>, e: Event, env: Env)
    requires Ready(h) && IsSqrt(env.sqrt) && RecordsOk(records, h.model) && e.index < |records|
    ensures Keeps(h, EventStep(h, records, e, env))
  {
    DecisionKeepsShape(h, records[e.index], env);
    OutcomeKeepsShape(h, records[e.index], env);
  }

  ghost function RunEvents(h: Harness, records: seq<Record>, events: seq<Event>, env: Env): (r: Result<Harness>)
    requires Ready(h) && IsSqrt(env.sqrt) && RecordsOk(records, h.model) && Indexed(events, |records|)
    ensures Keeps(h, r)
    decreases |events|
  {
    if events == [] then Ok(h) else
      EventKeepsShape(h, records, events[0], env);
      match EventStep(h, records, events[0], env)
      case Err(e) => Err(e)
      case Ok(next) => RunEvents(next, records, events[1..], env)
  }

  // ---- one chunk ----

  function TotalPulls(pulls: seq<nat>): nat {
    if pulls == [] then 0 else TotalPulls(pulls[..|pulls| - 1]) + pulls[|pulls| - 1]
  }

  /** What `validate_state` checks apart from the model's sample count. */
  ghost predicate Structured(h: Harness) {
    && h.config.maxRecords > 0 && h.config.maxPending > 0 && h.config.maxCompleted > 0
    && 0 < |h.config.schemaHash| <= 128
    && h.config.modelGeneration <= h.currentGeneration
    && h.processedRecords <= h.config.maxRecords
    && |h.perArmPulls| == h.model.armCount
    && |h.latencies| <= h.config.maxRecords
    && TotalPulls(h.perArmPulls) == |h.ledger.completed| <= U64_MAX
    && StableValid(h.model) && Ledger.LedgerValid(h.ledger)
  }

  /** What `validate_state` accepts: no more samples than pulls besides. */
  ghost predicate HarnessValid(h: Harness) {
    Structured(h) && h.model.samplesSeen <= TotalPulls(h.perArmPulls)
  }

  /** Machine bounds: the capacities are 64-bit numbers. */
  predicate Typed(h: Harness) {
    h.config.maxRecords <= U64_MAX && h.ledger.config.maxCompleted <= U64_MAX
  }

  /** The first record the validation loop rejects. */
  function ValidateRecords(records: seq<Record>, model: Stable, k: nat): (r: Result<()>)
    requires k <= |records|
    ensures r.Ok? <==> forall i :: 0 <= i < k ==> RecordOk(records[i], model)
  {
    if k == 0 then Ok(()) else
      match ValidateRecords(records, model, k - 1)
      case Err(e) => Err(e)
      case Ok(_) => ValidateRecord(records[k - 1], model.featureCount, model.armCount)
  }

  lemma EventsIndexed(records: seq<Record>)
    ensures Indexed(EventsOf(records), |records|) && Indexed(Sort(EventsOf(records)), |records|)
  {
    EventsBelow(records);
    SortIndexed(EventsOf(records), |records|);
  }

  lemma {:induction false} EventsBelow(records: seq<Record>)
    ensures Indexed(EventsOf(records), |records|)
  {
    if records == [] {
    } else {
      EventsBelow(records[..|records| - 1]);
    }
  }

  lemma {:induction false} InsertIndexed(events: seq<Event>, e: Event, n: nat)
    requires Indexed(events, n) && e.index < n
    ensures Indexed(Insert(events, e), n)
  {
    if events == [] || Before(events[|events| - 1], e) {
    } else {
      InsertIndexed(events[..|events| - 1], e, n);
    }
  }

  lemma {:induction false} SortIndexed(events: seq<Event>, n: nat)
    requires Indexed(events, n)
    ensures Indexed(Sort(events), n)
  {
    if events == [] {
    } else {
      SortIndexed(events[..|events| - 1], n);
      InsertIndexed(Sort(events[..|events| - 1]), events[|events| - 1], n);
    }
  }

  /** `replay_in_place`: all events of the chunk in key order. */
  ghost function ReplayInPlace(h: Harness, records: seq<Record>, env: Env): (r: Result<Harness>)
    requires Ready(h) && IsSqrt(env.sqrt) && RecordsOk(records, h.model)
    ensures Keeps(h, r)
  {
    EventsIndexed(records);
    RunEvents(h, records, Sort(EventsOf(records)), env)
  }

  /** The capacity and record checks before a chunk; on success, the new record count. */
  function Admit(h: Harness, records: seq<Record>): (r: Result<nat>)
    ensures r.Ok? ==> r.value == h.processedRecords + |records| && RecordsOk(records, h.model)
  {
    var processed := h.processedRecords + |records|;
    if processed > U64_MAX then Err(InvalidState(CounterOverflow))
    else if processed > h.config.maxRecords then Err(InvalidState(ReplayCapacityExceeded))
    else
      match ValidateRecords(records, h.model, |records|)
      case Err(e) => Err(e)
      case Ok(_) => Ok(processed)
  }

  /** The state the events of a chunk start from: its records are already counted. */
  function Start(h: Harness, records: seq<Record>): Harness {
    h.(processedRecords := h.processedRecords + |records|)
  }

  /** `replay`: the harness to commit, or the error that leaves it untouched. */
  ghost function ReplayChunk(h: Harness, records: seq<Record>, env: Env): Result<Harness>
    requires Ready(h) && IsSqrt(env.sqrt)
  {
    match Admit(h, records)
    case Err(e) => Err(e)
    case Ok(_) => Checked(ReplayInPlace(Start(h, records), records, env))
  }

  /** The scratch copy is committed only if it validates. */
  ghost function Checked(played: Result<Harness>): Result<Harness> {
    match played
    case Err(e) => Err(e)
    case Ok(next) => if HarnessValid(next) then Ok(next) else Err(InvalidState(InvalidReplayState))
  }
}
