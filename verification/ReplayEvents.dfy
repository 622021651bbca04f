/**
 What one event of the replay does, in full: which decisions register and which outcomes are accepted, in terms of
 the record, the ledger and the bounds of the arms, and every field that changes.
 */
module ReplayEvents {
  import opened Errors
  import opened Cholesky
  import opened RidgeBandit
  import opened RidgeScores
  import opened TieBreak
  import opened Replay
  import Ledger
  import Digest

  // ---- decisions ----

  /** The record belongs to the schema and its generation is not older. */
  predicate Current(h: Harness, r: Record) {
    r.schemaHash == h.config.schemaHash && h.currentGeneration <= r.generation
  }

  /** The model the decision is checked against: forgotten at a generation or drift boundary. */
  function FacedModel(h: Harness, r: Record): Stable {
    if Current(h, r) && (r.generation > h.currentGeneration || r.drift) then StableReset(h.model) else h.model
  }

  predicate Unknown(h: Harness, id: nat) {
    id !in h.ledger.pending && id !in h.ledger.completed
  }

  /** The harness after the resets of a decision event. */
  function Entered(h: Harness, r: Record): Harness {
    h.(model := FacedModel(h, r),
       currentGeneration := if Current(h, r) then r.generation else h.currentGeneration,
       generationTransitions := h.generationTransitions + (if Current(h, r) && r.generation > h.currentGeneration then 1 else 0),
       driftEvents := h.driftEvents + (if Current(h, r) && r.drift then 1 else 0))
  }

  /** The harness with the record newly pending, by its fields. */
  function NewlyPending(h: Harness, r: Record, bits: real -> Digest.Word): Harness {
    h.(ledger := h.ledger.(pending := h.ledger.pending[r.decisionId :=
         Ledger.Decision(r.decisionId, r.context, r.selectedArm, r.timestamp, r.timestamp + h.config.maxFeedbackDelay, r.generation)]),
       missingFeedback := h.missingFeedback + (if r.outcomeTime.None? then 1 else 0),
       digest := Digest.Mix(h.digest, RecordBytes(r, DECISION_MARKER, bits)))
  }

  lemma FacedValid(h: Harness, r: Record)
    requires Ready(h)
    ensures StableValid(FacedModel(h, r)) && FacedModel(h, r).featureCount == h.model.featureCount
  {
    IdentityRepresents(h.model.featureCount);
  }

  lemma EnteringMeaning(h: Harness, r: Record)
    requires Ready(h) && Current(h, r)
    ensures EnterGeneration(h, r.generation).Ok? <==>
      (r.generation > h.currentGeneration ==> h.generationTransitions < U64_MAX)
    ensures EnterGeneration(h, r.generation).Ok? ==>
      (EnterDrift(EnterGeneration(h, r.generation).value, r.drift).Ok? <==> (r.drift ==> h.driftEvents < U64_MAX))
    ensures EnterGeneration(h, r.generation).Ok? && EnterDrift(EnterGeneration(h, r.generation).value, r.drift).Ok? ==>
      EnterDrift(EnterGeneration(h, r.generation).value, r.drift).value == Entered(h, r)
  {
    assert StableReset(StableReset(h.model)) == StableReset(h.model);
  }

  lemma RegisterMeaning(h: Harness, r: Record, env: Env)
    requires Ledger.LedgerValid(h.ledger) && RegisterDecision(h, r, env).Ok?
    ensures RegisterDecision(h, r, env).value == if Unknown(h, r.decisionId) then NewlyPending(h, r, env.bits) else h
  {}

  lemma ChosenMeaning(h: Harness, r: Record, env: Env, us: seq<real>)
    requires Ready(h) && IsSqrt(env.sqrt) && |r.context| == h.model.featureCount && AreUppers(h.model, r.context, us)
    ensures CheckChoice(h, r, env)
      == if IsLowestBest(us, r.selectedArm) then RegisterDecision(h, r, env) else Reject(h)
  {
    ChoiceMeaning(h.model, r.context, env.sqrt, us, r.selectedArm);
  }

  /**
   A decision event in full. The record registers exactly when its schema matches, its generation is not older, its
   arm is the lowest-numbered one of greatest upper confidence bound under the model as the event's own resets leave
   it, and its identifier is new to the ledger; it is counted as rejected exactly when one of the first three fails.
   Nothing else changes, save that a current record enters its generation and resets the model at a boundary.
   */
  lemma DecisionMeaning(h: Harness, r: Record, env: Env, us: seq<real>)
    requires Ready(h) && Ledger.LedgerValid(h.ledger) && IsSqrt(env.sqrt) && |r.context| == h.model.featureCount
    requires StableValid(FacedModel(h, r)) && AreUppers(FacedModel(h, r), r.context, us)
    requires DecisionStep(h, r, env).Ok?
    ensures DecisionStep(h, r, env).value ==
      if !(Current(h, r) && IsLowestBest(us, r.selectedArm)) then Entered(h, r).(rejected := h.rejected + 1)
      else if Unknown(h, r.decisionId) then NewlyPending(Entered(h, r), r, env.bits)
      else Entered(h, r)
  {
    if Current(h, r) {
      EnteringMeaning(h, r);
      CheckedMeaning(Entered(h, r), r, env, us);
    } else {
      assert Entered(h, r) == h;
    }
  }

  lemma CheckedMeaning(h: Harness, r: Record, env: Env, us: seq<real>)
    requires Ready(h) && Ledger.LedgerValid(h.ledger)
    requires IsSqrt(env.sqrt) && |r.context| == h.model.featureCount && AreUppers(h.model, r.context, us)
    requires CheckChoice(h, r, env).Ok?
    ensures CheckChoice(h, r, env).value ==
      if !IsLowestBest(us, r.selectedArm) then h.(rejected := h.rejected + 1)
      else if Unknown(h, r.decisionId) then NewlyPending(h, r, env.bits)
      else h
  {
    ChosenMeaning(h, r, env, us);
    if IsLowestBest(us, r.selectedArm) { RegisterMeaning(h, r, env); }
  }

  /** The three ways a decision event ends, whatever arm the model prefers. */
  lemma DecisionEnds(h: Harness, r: Record, env: Env)
    requires Ready(h) && Ledger.LedgerValid(h.ledger) && IsSqrt(env.sqrt) && DecisionStep(h, r, env).Ok?
    ensures var next := DecisionStep(h, r, env).value;
      || next == Entered(h, r).(rejected := h.rejected + 1)
      || (!Unknown(h, r.decisionId) && next == Entered(h, r))
      || (Unknown(h, r.decisionId) && next == NewlyPending(Entered(h, r), r, env.bits))
  {
    if Current(h, r) {
      EnteringMeaning(h, r);
      CheckEnds(Entered(h, r), r, env);
    } else {
      assert Entered(h, r) == h;
    }
  }

  lemma CheckEnds(h: Harness, r: Record, env: Env)
    requires Ready(h) && Ledger.LedgerValid(h.ledger) && IsSqrt(env.sqrt) && CheckChoice(h, r, env).Ok?
    ensures var next := CheckChoice(h, r, env).value;
      || next == h.(rejected := h.rejected + 1)
      || (!Unknown(h, r.decisionId) && next == h)
      || (Unknown(h, r.decisionId) && next == NewlyPending(h, r, env.bits))
  {
    var choice := StableChoice(h.model, r.context, env.sqrt);
    if choice.Ok? && choice.value == r.selectedArm { RegisterMeaning(h, r, env); }
  }

  /** Exactly when a decision event succeeds. */
  lemma DecisionSucceeds(h: Harness, r: Record, env: Env, us: seq<real>)
    requires Ready(h) && Ledger.LedgerValid(h.ledger) && IsSqrt(env.sqrt) && |r.context| == h.model.featureCount
    requires StableValid(FacedModel(h, r)) && AreUppers(FacedModel(h, r), r.context, us)
    ensures DecisionStep(h, r, env).Ok? <==>
      && (Current(h, r) && r.generation > h.currentGeneration ==> h.generationTransitions < U64_MAX)
      && (Current(h, r) && r.drift ==> h.driftEvents < U64_MAX)
      && (!(Current(h, r) && IsLowestBest(us, r.selectedArm)) ==> h.rejected < U64_MAX)
      && (Current(h, r) && IsLowestBest(us, r.selectedArm) ==> Registrable(h, r))
  {
    if Current(h, r) {
      CurrentDecision(h, r, env);
      ChosenSucceeds(Entered(h, r), r, env, us);
      assert Registrable(Entered(h, r), r) == Registrable(h, r);
    } else {
      ForeignDecision(h, r, env);
    }
  }

  lemma ForeignDecision(h: Harness, r: Record, env: Env)
    requires Ready(h) && IsSqrt(env.sqrt) && !Current(h, r)
    ensures DecisionStep(h, r, env).Ok? <==> h.rejected < U64_MAX
  {}

  /** A current decision is checked after its resets. */
  lemma CurrentDecision(h: Harness, r: Record, env: Env)
    requires Ready(h) && IsSqrt(env.sqrt) && Current(h, r)
    ensures Ready(Entered(h, r))
    ensures DecisionStep(h, r, env).Ok? <==>
      && (r.generation > h.currentGeneration ==> h.generationTransitions < U64_MAX)
      && (r.drift ==> h.driftEvents < U64_MAX)
      && CheckChoice(Entered(h, r), r, env).Ok?
  {
    FacedValid(h, r);
    EnteringMeaning(h, r);
  }

  lemma ChosenSucceeds(h: Harness, r: Record, env: Env, us: seq<real>)
    requires Ready(h) && Ledger.LedgerValid(h.ledger)
    requires IsSqrt(env.sqrt) && |r.context| == h.model.featureCount && AreUppers(h.model, r.context, us)
    ensures CheckChoice(h, r, env).Ok?
      <==> if IsLowestBest(us, r.selectedArm) then Registrable(h, r) else h.rejected < U64_MAX
  {
    ChosenMeaning(h, r, env, us);
    RegisterSucceeds(h, r, env);
  }

  /** The ledger takes the decision: it is new and there is room, or it is known with the very same fields. */
  predicate Registrable(h: Harness, r: Record) {
    var d := Ledger.Decision(r.decisionId, r.context, r.selectedArm, r.timestamp, r.timestamp + h.config.maxFeedbackDelay, r.generation);
    && r.timestamp + h.config.maxFeedbackDelay <= U64_MAX
    && 8 * |r.context| <= h.ledger.config.maxContextBytes && 8 <= h.ledger.config.maxActionBytes
    && if r.decisionId in h.ledger.pending then h.ledger.pending[r.decisionId] == d
       else if r.decisionId in h.ledger.completed then h.ledger.completed[r.decisionId].decision == d
       else |h.ledger.pending| < h.ledger.config.maxPending && (r.outcomeTime.None? ==> h.missingFeedback < U64_MAX)
  }

  lemma RegisterSucceeds(h: Harness, r: Record, env: Env)
    requires Ledger.LedgerValid(h.ledger)
    ensures RegisterDecision(h, r, env).Ok? <==> Registrable(h, r)
  {}

  // ---- outcomes ----

  /** The outcome names a pending decision of the current generation and reports it within its time, arm and generation. */
  predicate Answers(h: Harness, r: Record) {
    && r.outcomeTime.Some? && r.reward.Some? && r.generation == h.currentGeneration
    && r.decisionId in h.ledger.pending && r.decisionId !in h.ledger.completed
    && var d := h.ledger.pending[r.decisionId];
      && d.createdAt <= r.outcomeTime.value <= d.expiresAt
      && r.generation == d.modelGeneration && r.selectedArm == d.action
  }

  /** The outcome of a pending decision of the current generation arrives after its expiry. */
  predicate Late(h: Harness, r: Record) {
    && r.outcomeTime.Some? && r.reward.Some? && r.generation == h.currentGeneration
    && r.decisionId in h.ledger.pending && r.decisionId !in h.ledger.completed
    && r.outcomeTime.value > h.ledger.pending[r.decisionId].expiresAt
  }

  /** The outcome names a decision of the current generation that is already answered. */
  predicate Repeats(h: Harness, r: Record) {
    r.outcomeTime.Some? && r.reward.Some? && r.generation == h.currentGeneration && r.decisionId in h.ledger.completed
  }

  function DueBefore(h: Harness, now: nat): set<nat> {
    set id | id in h.ledger.pending && h.ledger.pending[id].expiresAt < now
  }

  /** The harness after an accepted outcome, by its fields; `model` is the model after learning from it. */
  function Answered(h: Harness, r: Record, model: Stable, bits: real -> Digest.Word): Harness
    requires Answers(h, r) && r.timestamp <= r.outcomeTime.value && r.selectedArm < |h.perArmPulls|
  {
    var reward := r.reward.value;
    h.(model := model,
       ledger := h.ledger.(pending := h.ledger.pending - {r.decisionId},
                           completed := h.ledger.completed[r.decisionId :=
                             Ledger.Completed(h.ledger.pending[r.decisionId], reward, r.outcomeTime.value)]),
       cumulativeReward := h.cumulativeReward + reward,
       baselineCumulativeReward := h.baselineCumulativeReward + (if r.baselineReward.Some? then r.baselineReward.value else 0.0),
       approximateRegret := h.approximateRegret +
         (if r.optimalReward.Some? && r.optimalReward.value > reward then r.optimalReward.value - reward else 0.0),
       perArmPulls := h.perArmPulls[r.selectedArm := h.perArmPulls[r.selectedArm] + 1],
       latencies := h.latencies + [r.outcomeTime.value - r.timestamp],
       digest := Digest.Mix(h.digest, RecordBytes(r, OUTCOME_MARKER, bits)))
  }

  lemma AnsweredMeaning(h: Harness, r: Record, env: Env)
    requires Ready(h) && IsSqrt(env.sqrt) && RecordOk(r, h.model) && Answers(h, r) && Accept(h, r, env).Ok?
    ensures var learned := StableUpdate(h.model, r.selectedArm, h.ledger.pending[r.decisionId].context, r.reward.value, env.sqrt);
      learned.1.Ok? && Accept(h, r, env).value == Answered(h, r, learned.0, env.bits)
  {}

  /**
   An outcome event in full. A record without outcome changes nothing; an outcome that answers its decision moves it
   to the tombstones, teaches the model the registered context with the outcome's reward, and enters the books; a late
   one sweeps every decision due before it; one for an answered decision counts as duplicate; any other as rejected.
   */
  lemma OutcomeMeaning(h: Harness, r: Record, env: Env)
    requires Ready(h) && Ledger.LedgerValid(h.ledger) && IsSqrt(env.sqrt) && RecordOk(r, h.model)
    requires OutcomeStep(h, r, env).Ok?
    ensures var next := OutcomeStep(h, r, env).value;
      if r.outcomeTime.None? then next == h
      else if Answers(h, r) then
        var learned := StableUpdate(h.model, r.selectedArm, h.ledger.pending[r.decisionId].context, r.reward.value, env.sqrt);
        learned.1.Ok? && next == Answered(h, r, learned.0, env.bits)
      else if Late(h, r) then
        next == h.(ledger := h.ledger.(pending := h.ledger.pending - DueBefore(h, r.outcomeTime.value)),
                   expired := h.expired + |DueBefore(h, r.outcomeTime.value)|)
      else if Repeats(h, r) then next == h.(duplicateFeedback := h.duplicateFeedback + 1)
      else next == h.(rejected := h.rejected + 1)
  {
    if Answers(h, r) {
      AnsweredMeaning(h, r, env);
    } else if Late(h, r) {
      assert DueBefore(h, r.outcomeTime.value) == Ledger.ExpiredIds(h.ledger, r.outcomeTime.value);
    }
  }

  /** The conditions under which an answering outcome can be entered. */
  predicate Enterable(h: Harness, r: Record)
    requires Answers(h, r) && r.selectedArm < |h.perArmPulls|
  {
    && h.perArmPulls[r.selectedArm] < U64_MAX && |h.latencies| < h.config.maxRecords
    && |h.ledger.pending[r.decisionId].context| == h.model.featureCount && h.model.samplesSeen < U64_MAX
    && |h.ledger.completed| < h.ledger.config.maxCompleted
  }

  /** Exactly when an outcome event succeeds. */
  lemma OutcomeSucceeds(h: Harness, r: Record, env: Env)
    requires Ready(h) && Ledger.LedgerValid(h.ledger) && IsSqrt(env.sqrt) && RecordOk(r, h.model)
    ensures OutcomeStep(h, r, env).Ok? <==>
      if r.outcomeTime.None? then true
      else if Answers(h, r) then Enterable(h, r)
      else if Late(h, r) then h.expired + |DueBefore(h, r.outcomeTime.value)| <= U64_MAX
      else if Repeats(h, r) then h.duplicateFeedback < U64_MAX
      else h.rejected < U64_MAX
  {
    if Answers(h, r) {
      AnswerSucceeds(h, r, env);
    } else if Late(h, r) {
      assert DueBefore(h, r.outcomeTime.value) == Ledger.ExpiredIds(h.ledger, r.outcomeTime.value);
    }
  }

  lemma AnswerSucceeds(h: Harness, r: Record, env: Env)
    requires Ready(h) && Ledger.LedgerValid(h.ledger) && IsSqrt(env.sqrt) && RecordOk(r, h.model) && Answers(h, r)
    ensures Accept(h, r, env).Ok? <==> Enterable(h, r)
  {
    StableUpdateValid(h.model, r.selectedArm, h.ledger.pending[r.decisionId].context, r.reward.value, env.sqrt);
  }
}
