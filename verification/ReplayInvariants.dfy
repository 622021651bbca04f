/** What every replay event keeps: the validated invariant and the conservation laws of the counters. */
module ReplayInvariants {
  import opened Errors
  import opened Cholesky
  import opened RidgeBandit
  import opened Replay
  import Ledger

  // ---- sums over the ledger ----

  ghost function TombstonesOf(completed: map<nat, Ledger.Completed>, arm: nat): set<nat> {
    set id | id in completed && completed[id].decision.action == arm
  }

  ghost function RewardSumOver(ids: set<nat>, completed: map<nat, Ledger.Completed>): real
    requires ids <= completed.Keys
  {
    if ids == {} then 0.0 else
      var id :| id in ids;
      RewardSumOver(ids - {id}, completed) + completed[id].reward
  }

  ghost function RewardTotal(completed: map<nat, Ledger.Completed>): real {
    RewardSumOver(completed.Keys, completed)
  }

  /** The sum does not depend on the order in which identifiers are picked. */
  lemma {:induction false} RewardSumRemove(ids: set<nat>, completed: map<nat, Ledger.Completed>, id: nat)
    requires ids <= completed.Keys && id in ids
    ensures RewardSumOver(ids, completed) == RewardSumOver(ids - {id}, completed) + completed[id].reward
  {
    var picked :| picked in ids && RewardSumOver(ids, completed) == RewardSumOver(ids - {picked}, completed) + completed[picked].reward;
    if picked != id {
      RewardSumRemove(ids - {picked}, completed, id);
      RewardSumRemove(ids - {id}, completed, picked);
      assert ids - {picked} - {id} == ids - {id} - {picked};
    }
  }

  lemma {:induction false} RewardSumFrame(ids: set<nat>, before: map<nat, Ledger.Completed>, after: map<nat, Ledger.Completed>)
    requires ids <= before.Keys && ids <= after.Keys && forall id :: id in ids ==> before[id] == after[id]
    ensures RewardSumOver(ids, before) == RewardSumOver(ids, after)
  {
    if ids == {} {
    } else {
      var id :| id in ids;
      RewardSumRemove(ids, before, id);
      RewardSumRemove(ids, after, id);
      RewardSumFrame(ids - {id}, before, after);
    }
  }

  lemma RewardTotalInsert(completed: map<nat, Ledger.Completed>, id: nat, c: Ledger.Completed)
    requires id !in completed
    ensures RewardTotal(completed[id := c]) == RewardTotal(completed) + c.reward
  {
    var after := completed[id := c];
    RewardSumRemove(after.Keys, after, id);
    assert after.Keys - {id} == completed.Keys;
    RewardSumFrame(completed.Keys, completed, after);
  }

  lemma TombstonesInsert(completed: map<nat, Ledger.Completed>, id: nat, c: Ledger.Completed, arm: nat)
    requires id !in completed
    ensures |TombstonesOf(completed[id := c], arm)|
      == |TombstonesOf(completed, arm)| + (if c.decision.action == arm then 1 else 0)
  {
    var after := completed[id := c];
    assert TombstonesOf(after, arm) ==
      TombstonesOf(completed, arm) + (if c.decision.action == arm then {id} else {});
  }

  lemma {:induction false} TotalPullsStep(pulls: seq<nat>, arm: nat, n: nat)
    requires arm < |pulls| && n == pulls[arm] + 1
    ensures TotalPulls(pulls[arm := n]) == TotalPulls(pulls) + 1
  {
    var last := |pulls| - 1;
    if arm < last {
      TotalPullsStep(pulls[..last], arm, n);
      assert pulls[arm := n][..last] == pulls[..last][arm := n];
    } else {
      assert pulls[arm := n][..last] == pulls[..last];
    }
  }

  // ---- the invariants ----

  /**
   Pull counters count tombstones per arm, the cumulative reward adds up their rewards, each tombstone has
   its latency, and the regret is not negative.
   */
  ghost predicate Conserved(h: Harness) {
    && |h.perArmPulls| == h.model.armCount
    && (forall arm :: 0 <= arm < |h.perArmPulls| ==> h.perArmPulls[arm] == |TombstonesOf(h.ledger.completed, arm)|)
    && h.cumulativeReward == RewardTotal(h.ledger.completed)
    && |h.latencies| == |h.ledger.completed| && h.approximateRegret >= 0.0
  }

  ghost function Accounted(h: Harness): nat {
    |h.ledger.pending| + |h.ledger.completed| + h.expired
  }

  /** The event puts a new identifier into the ledger. */
  ghost predicate Registers(h: Harness, next: Harness, records: seq<Record>, e: Event)
    requires e.index < |records|
  {
    var id := records[e.index].decisionId;
    e.kind == 0 && id !in h.ledger.pending && id !in h.ledger.completed && id in next.ledger.pending
  }

  /** How often the model was reset. */
  function Resets(h: Harness): nat {
    h.generationTransitions + h.driftEvents
  }

  /** Samples and pulls move together, except that a reset drops the samples below the pulls. */
  ghost predicate Learns(h: Harness, next: Harness) {
    && Resets(h) <= Resets(next)
    && (Resets(next) == Resets(h) ==>
          next.model.samplesSeen - TotalPulls(next.perArmPulls) == h.model.samplesSeen - TotalPulls(h.perArmPulls))
    && (Resets(next) > Resets(h) ==> next.model.samplesSeen <= TotalPulls(next.perArmPulls))
  }

  /** What one successful event keeps, given the state before it; so a valid state stays valid. */
  ghost predicate StepKeeps(h: Harness, next: Harness, registered: bool) {
    && (Structured(h) ==> Structured(next)) && Learns(h, next)
    && (Conserved(h) ==> Conserved(next))
    && Accounted(next) == Accounted(h) + (if registered then 1 else 0)
  }

  lemma RejectKeeps(h: Harness)
    requires Reject(h).Ok?
    ensures StepKeeps(h, Reject(h).value, false)
  {}

  lemma ResetKeeps(h: Harness, next: Harness)
    requires Ready(h) && Typed(h)
    requires next == h.(model := StableReset(h.model), currentGeneration := next.currentGeneration,
                        generationTransitions := next.generationTransitions, driftEvents := next.driftEvents)
    requires h.currentGeneration <= next.currentGeneration && Resets(h) < Resets(next)
    ensures StepKeeps(h, next, false)
  {
    IdentityRepresents(h.model.featureCount);
  }

  lemma RegisterKeeps(h: Harness, r: Record, env: Env)
    requires Ready(h) && Ledger.LedgerValid(h.ledger) && RegisterDecision(h, r, env).Ok?
    ensures var next := RegisterDecision(h, r, env).value;
      StepKeeps(h, next, r.decisionId !in h.ledger.pending && r.decisionId !in h.ledger.completed && r.decisionId in next.ledger.pending)
  {
    Ledger.RegisterValid(h.ledger, DecisionOf(h.config, r));
    RegisterTouches(h, r, env);
    OnlyPendingGrew(h, RegisterDecision(h, r, env).value);
  }

  /** A decision touches only the pending map, the missing-feedback counter and the digest. */
  lemma RegisterTouches(h: Harness, r: Record, env: Env)
    requires Ready(h) && Ledger.LedgerValid(h.ledger) && RegisterDecision(h, r, env).Ok?
    ensures var next := RegisterDecision(h, r, env).value;
      var fresh0 := r.decisionId !in h.ledger.pending && r.decisionId !in h.ledger.completed && r.decisionId in next.ledger.pending;
      && next == h.(ledger := next.ledger, missingFeedback := next.missingFeedback, digest := next.digest)
      && next.ledger == h.ledger.(pending := next.ledger.pending)
      && |next.ledger.pending| == |h.ledger.pending| + (if fresh0 then 1 else 0)
  {}

  lemma OnlyPendingGrew(h: Harness, next: Harness)
    requires next == h.(ledger := next.ledger, missingFeedback := next.missingFeedback, digest := next.digest)
    requires next.ledger.completed == h.ledger.completed && (Ledger.LedgerValid(h.ledger) ==> Ledger.LedgerValid(next.ledger))
    ensures (Structured(h) ==> Structured(next)) && (Conserved(h) ==> Conserved(next)) && Learns(h, next)
  {}

  lemma SweepKeeps(h: Harness, now: nat)
    requires Ledger.LedgerValid(h.ledger) && SweepExpired(h, now).Ok?
    ensures StepKeeps(h, SweepExpired(h, now).value, false)
  {
    Ledger.ClearValid(h.ledger, now);
    Ledger.RemoveCount(h.ledger.pending, Ledger.ExpiredIds(h.ledger, now));
  }

  /** What an accepted outcome did: one tombstone, one pull, one sample, one latency, one reward. */
  ghost predicate Accepted(h: Harness, next: Harness, r: Record) {
    && r.decisionId in h.ledger.pending && r.decisionId !in h.ledger.completed
    && r.reward.Some? && r.outcomeTime.Some?
    && h.ledger.pending[r.decisionId].action == r.selectedArm < |h.perArmPulls|
    && next.ledger.pending == h.ledger.pending - {r.decisionId}
    && next.ledger.completed == h.ledger.completed[r.decisionId := TombstoneFor(h, r)]
    && next.perArmPulls == h.perArmPulls[r.selectedArm := h.perArmPulls[r.selectedArm] + 1]
    && next.cumulativeReward == h.cumulativeReward + r.reward.value
    && next.model.samplesSeen == h.model.samplesSeen + 1
    && |next.latencies| == |h.latencies| + 1 <= h.config.maxRecords && next.approximateRegret >= h.approximateRegret
    && next.expired == h.expired && next.currentGeneration == h.currentGeneration
  }

  function TombstoneFor(h: Harness, r: Record): Ledger.Completed
    requires r.decisionId in h.ledger.pending && r.reward.Some? && r.outcomeTime.Some?
  {
    Ledger.Completed(h.ledger.pending[r.decisionId], r.reward.value, r.outcomeTime.value)
  }

  lemma AcceptDoes(h: Harness, r: Record, env: Env)
    requires Ready(h) && Ledger.LedgerValid(h.ledger) && IsSqrt(env.sqrt)
    requires r.outcomeTime.Some? && r.reward.Some? && r.timestamp <= r.outcomeTime.value && r.selectedArm < h.model.armCount
    requires Accept(h, r, env).Ok?
    ensures Accepted(h, Accept(h, r, env).value, r)
    ensures Ledger.LedgerValid(Accept(h, r, env).value.ledger)
  {
    Ledger.FeedbackValid(h.ledger, OutcomeOf(r));
  }

  lemma AcceptedConserves(h: Harness, next: Harness, r: Record)
    requires Accepted(h, next, r) && Conserved(h) && next.model.armCount == h.model.armCount
    ensures Conserved(next)
  {
    var c := TombstoneFor(h, r);
    RewardTotalInsert(h.ledger.completed, r.decisionId, c);
    forall arm | 0 <= arm < |next.perArmPulls|
      ensures next.perArmPulls[arm] == |TombstonesOf(next.ledger.completed, arm)|
    {
      TombstonesInsert(h.ledger.completed, r.decisionId, c, arm);
    }
  }

  lemma AcceptKeeps(h: Harness, r: Record, env: Env)
    requires Structured(h) && Typed(h) && IsSqrt(env.sqrt)
    requires r.outcomeTime.Some? && r.reward.Some? && r.timestamp <= r.outcomeTime.value && r.selectedArm < h.model.armCount
    requires Accept(h, r, env).Ok?
    ensures StepKeeps(h, Accept(h, r, env).value, false)
  {
    var next := Accept(h, r, env).value;
    AcceptDoes(h, r, env);
    AcceptKeepsShape(h, r, env);
    if Conserved(h) { AcceptedConserves(h, next, r); }
    AcceptedAccounts(h, next, r);
  }

  lemma AcceptedAccounts(h: Harness, next: Harness, r: Record)
    requires Accepted(h, next, r)
    ensures Accounted(next) == Accounted(h)
    ensures |next.ledger.completed| == |h.ledger.completed| + 1
    ensures TotalPulls(next.perArmPulls) == TotalPulls(h.perArmPulls) + 1
  {
    Ledger.RemoveCount(h.ledger.pending, {r.decisionId});
    TotalPullsStep(h.perArmPulls, r.selectedArm, h.perArmPulls[r.selectedArm] + 1);
  }

  // ---- every event ----

  lemma OutcomeKeeps(h: Harness, r: Record, env: Env)
    requires Structured(h) && Typed(h) && IsSqrt(env.sqrt) && RecordOk(r, h.model)
    requires OutcomeStep(h, r, env).Ok?
    ensures StepKeeps(h, OutcomeStep(h, r, env).value, false)
  {
    match Judge(h, r)
    case Ignore =>
    case Refuse => RejectKeeps(h);
    case Duplicate =>
    case Expire => SweepKeeps(h, r.outcomeTime.value);
    case Take => AcceptKeeps(h, r, env);
  }

  lemma DecisionKeeps(h: Harness, records: seq<Record>, e: Event, env: Env)
    requires Structured(h) && Typed(h) && IsSqrt(env.sqrt) && e.index < |records| && e.kind == 0
    requires DecisionStep(h, records[e.index], env).Ok?
    ensures var next := DecisionStep(h, records[e.index], env).value;
      StepKeeps(h, next, Registers(h, next, records, e))
  {
    var r := records[e.index];
    if r.schemaHash == h.config.schemaHash && r.generation >= h.currentGeneration {
      EnteringKeeps(h, r);
      var d := EnterDrift(EnterGeneration(h, r.generation).value, r.drift).value;
      ChoiceStepKeeps(d, r, env);
      KeepsThenKeeps(h, d, CheckChoice(d, r, env).value, Registers(h, CheckChoice(d, r, env).value, records, e));
    }
  }

  /** The resets before a decision is looked at. */
  lemma EnteringKeeps(h: Harness, r: Record)
    requires Structured(h) && Typed(h) && r.generation >= h.currentGeneration
    requires EnterGeneration(h, r.generation).Ok? && EnterDrift(EnterGeneration(h, r.generation).value, r.drift).Ok?
    ensures var d := EnterDrift(EnterGeneration(h, r.generation).value, r.drift).value;
      StepKeeps(h, d, false) && d.ledger == h.ledger && Ready(d)
  {
    var g := EnterGeneration(h, r.generation).value;
    if r.generation > h.currentGeneration { ResetKeeps(h, g); }
    var d := EnterDrift(g, r.drift).value;
    if r.drift { ResetKeeps(g, d); }
    KeepsThenKeeps(h, g, d, false);
  }

  lemma KeepsThenKeeps(h: Harness, middle: Harness, next: Harness, registered: bool)
    requires StepKeeps(h, middle, false) && StepKeeps(middle, next, registered)
    ensures StepKeeps(h, next, registered)
  {}

  lemma ChoiceStepKeeps(h: Harness, r: Record, env: Env)
    requires Ready(h) && Ledger.LedgerValid(h.ledger) && IsSqrt(env.sqrt) && CheckChoice(h, r, env).Ok?
    ensures var next := CheckChoice(h, r, env).value;
      StepKeeps(h, next, r.decisionId !in h.ledger.pending && r.decisionId !in h.ledger.completed && r.decisionId in next.ledger.pending)
  {
    var choice := StableChoice(h.model, r.context, env.sqrt);
    if choice.Ok? && choice.value == r.selectedArm { RegisterKeeps(h, r, env); }
  }

  /** Every successful event keeps the validated invariant, the conservation laws and the account of decisions. */
  lemma EventKeeps(h: Harness, records: seq<Record>, e: Event, env: Env)
    requires Structured(h) && Typed(h) && IsSqrt(env.sqrt) && RecordsOk(records, h.model) && e.index < |records|
    requires EventStep(h, records, e, env).Ok?
    ensures var next := EventStep(h, records, e, env).value;
      StepKeeps(h, next, Registers(h, next, records, e)) && Typed(next) && (HarnessValid(h) ==> HarnessValid(next))
  {
    EventKeepsShape(h, records, e, env);
    if e.kind == 0 { DecisionKeeps(h, records, e, env); } else { OutcomeKeeps(h, records[e.index], env); }
  }

  // ---- a whole chunk ----

  /** How many new decisions the events register. */
  ghost function Registrations(h: Harness, records: seq<Record>, events: seq<Event>, env: Env): nat
    requires Ready(h) && IsSqrt(env.sqrt) && RecordsOk(records, h.model) && Indexed(events, |records|)
    decreases |events|
  {
    if events == [] then 0 else
      EventKeepsShape(h, records, events[0], env);
      match EventStep(h, records, events[0], env)
      case Err(_) => 0
      case Ok(next) =>
        (if Registers(h, next, records, events[0]) then 1 else 0) + Registrations(next, records, events[1..], env)
  }

  lemma {:induction false} EventsKeep(h: Harness, records: seq<Record>, events: seq<Event>, env: Env)
    requires Structured(h) && Typed(h) && IsSqrt(env.sqrt) && RecordsOk(records, h.model) && Indexed(events, |records|)
    requires RunEvents(h, records, events, env).Ok?
    ensures var next := RunEvents(h, records, events, env).value;
      && Structured(next) && Typed(next) && Learns(h, next) && (HarnessValid(h) ==> HarnessValid(next))
      && (Conserved(h) ==> Conserved(next))
      && Accounted(next) == Accounted(h) + Registrations(h, records, events, env)
    decreases |events|
  {
    if events == [] {
    } else {
      EventKeepsShape(h, records, events[0], env);
      EventKeeps(h, records, events[0], env);
      EventsKeep(EventStep(h, records, events[0], env).value, records, events[1..], env);
    }
  }

  /** The state a chunk's events start from. */
  ghost predicate Admitted(h: Harness, records: seq<Record>) {
    && h.processedRecords + |records| <= h.config.maxRecords && RecordsOk(records, h.model)
  }

  /**
   From a valid harness the check after a chunk cannot fail: a chunk within the capacity whose records
   validate succeeds exactly when its events do, and what it commits is valid again.
   */
  lemma ChunkValid(h: Harness, records: seq<Record>, env: Env)
    requires HarnessValid(h) && Typed(h) && IsSqrt(env.sqrt)
    ensures ReplayChunk(h, records, env).Ok? <==>
      Admitted(h, records) && ReplayInPlace(Start(h, records), records, env).Ok?
    ensures ReplayChunk(h, records, env).Ok? ==>
      var next := ReplayChunk(h, records, env).value;
      && HarnessValid(next) && Typed(next)
      && ReplayInPlace(Start(h, records), records, env) == Ok(next)
  {
    AdmitIs(h, records);
    if Admitted(h, records) && ReplayInPlace(Start(h, records), records, env).Ok? {
      PlayedValid(h, records, env);
    }
  }

  lemma AdmitIs(h: Harness, records: seq<Record>)
    requires Typed(h)
    ensures Admit(h, records).Ok? <==> Admitted(h, records)
  {
    var checked := ValidateRecords(records, h.model, |records|);
  }

  lemma PlayedValid(h: Harness, records: seq<Record>, env: Env)
    requires HarnessValid(h) && Typed(h) && IsSqrt(env.sqrt) && Admitted(h, records)
    requires ReplayInPlace(Start(h, records), records, env).Ok?
    ensures var next := ReplayInPlace(Start(h, records), records, env).value; HarnessValid(next) && Typed(next)
  {
    EventsIndexed(records);
    EventsKeep(Start(h, records), records, Sort(EventsOf(records)), env);
  }

  /** The decisions the events of an admitted chunk register. */
  ghost function PlayedRegistrations(h: Harness, records: seq<Record>, env: Env): nat
    requires Ready(h) && IsSqrt(env.sqrt) && RecordsOk(records, h.model)
  {
    EventsIndexed(records);
    Registrations(Start(h, records), records, Sort(EventsOf(records)), env)
  }

  lemma PlayedConserves(h: Harness, records: seq<Record>, env: Env)
    requires HarnessValid(h) && Typed(h) && IsSqrt(env.sqrt) && Conserved(h) && Admitted(h, records)
    requires ReplayInPlace(Start(h, records), records, env).Ok?
    ensures var next := ReplayInPlace(Start(h, records), records, env).value;
      Conserved(next) && Accounted(next) == Accounted(h) + PlayedRegistrations(h, records, env)
  {
    EventsIndexed(records);
    EventsKeep(Start(h, records), records, Sort(EventsOf(records)), env);
    assert Accounted(Start(h, records)) == Accounted(h);
  }

  /**
   Conservation over one committed chunk: newly registered decisions are pending, completed or
   expired; pulls count tombstones per arm; rewards add up; samples never exceed pulls.
   */
  lemma ChunkConserves(h: Harness, records: seq<Record>, env: Env)
    requires HarnessValid(h) && Typed(h) && IsSqrt(env.sqrt) && Conserved(h)
    requires ReplayChunk(h, records, env).Ok?
    ensures Admitted(h, records)
    ensures var next := ReplayChunk(h, records, env).value;
      && Conserved(next) && next.model.samplesSeen <= TotalPulls(next.perArmPulls)
      && Accounted(next) == Accounted(h) + PlayedRegistrations(h, records, env)
      && next.processedRecords == h.processedRecords + |records|
  {
    ChunkValid(h, records, env);
    PlayedConserves(h, records, env);
  }

  // ---- whole histories ----

  /** `DecisionReplayHarness::new`. */
  function NewHarness(model: Stable, config: ReplayConfig): Result<Harness> {
    if model.armCount == 0 || model.featureCount == 0 then Err(InvalidState(InvalidReplayState))
    else if config.maxPending == 0 || config.maxCompleted == 0 then Err(InvalidState(LedgerFailure(InvalidLedgerCapacity)))
    else Ok(Harness(config, model, Ledger.Empty(LedgerConfigOf(config)), config.modelGeneration, 0.0, 0.0, 0.0,
                    seq(model.armCount, _ => 0), [], 0, 0, 0, 0, 0, 0, 0, Replay.Digest.OFFSET_BASIS))
  }

  function LedgerConfigOf(config: ReplayConfig): Ledger.LedgerConfig {
    Ledger.LedgerConfig(config.maxPending, config.maxCompleted,
                        Ledger.DEFAULT_MAX_CONTEXT_BYTES, Ledger.DEFAULT_MAX_ACTION_BYTES)
  }

  lemma {:induction false} ZeroPulls(n: nat)
    ensures TotalPulls(seq(n, _ => 0)) == 0
  {
    if n == 0 {
    } else {
      ZeroPulls(n - 1);
      assert seq(n, _ => 0)[..n - 1] == seq(n - 1, _ => 0);
    }
  }

  /**
   A new harness satisfies the invariant exactly when its model has learned nothing yet, its record
   capacity is positive and its schema hash is of legal length; construction checks none of these.
   */
  lemma NewHarnessValid(model: Stable, config: ReplayConfig)
    requires StableValid(model) && NewHarness(model, config).Ok?
    ensures HarnessValid(NewHarness(model, config).value) <==>
      model.samplesSeen == 0 && config.maxRecords > 0 && 0 < |config.schemaHash| <= 128
    ensures Conserved(NewHarness(model, config).value) && Accounted(NewHarness(model, config).value) == 0
  {
    ZeroPulls(model.armCount);
    forall arm: nat ensures TombstonesOf(map[], arm) == {} {}
  }

  /** What the harness becomes when a chunk is offered: the committed state, or itself on failure. */
  ghost function Commit(h: Harness, records: seq<Record>, env: Env): (r: Harness)
    requires HarnessValid(h) && Typed(h) && IsSqrt(env.sqrt)
    ensures HarnessValid(r) && Typed(r)
  {
    ChunkValid(h, records, env);
    match ReplayChunk(h, records, env)
    case Err(_) => h
    case Ok(next) => next
  }

  /** The decisions an offered chunk registers; none when it fails. */
  ghost function ChunkRegistrations(h: Harness, records: seq<Record>, env: Env): nat
    requires HarnessValid(h) && Typed(h) && IsSqrt(env.sqrt)
  {
    if ReplayChunk(h, records, env).Err? then 0 else
      ChunkValid(h, records, env);
      PlayedRegistrations(h, records, env)
  }

  lemma CommitIs(h: Harness, records: seq<Record>, env: Env)
    requires HarnessValid(h) && Typed(h) && IsSqrt(env.sqrt)
    ensures match ReplayChunk(h, records, env)
      case Err(_) => Commit(h, records, env) == h && ChunkRegistrations(h, records, env) == 0
      case Ok(next) =>
        && Commit(h, records, env) == next && Admitted(h, records)
        && ChunkRegistrations(h, records, env) == PlayedRegistrations(h, records, env)
  {
    ChunkValid(h, records, env);
  }

  lemma CommitKeeps(h: Harness, records: seq<Record>, env: Env)
    requires HarnessValid(h) && Typed(h) && IsSqrt(env.sqrt) && Conserved(h)
    ensures Conserved(Commit(h, records, env))
    ensures Accounted(Commit(h, records, env)) == Accounted(h) + ChunkRegistrations(h, records, env)
  {
    CommitIs(h, records, env);
    if ReplayChunk(h, records, env).Ok? { ChunkConserves(h, records, env); }
  }

  /** A history of chunks. */
  ghost function ReplayAll(h: Harness, chunks: seq<seq<Record>>, env: Env): (r: Harness)
    requires HarnessValid(h) && Typed(h) && IsSqrt(env.sqrt)
    ensures HarnessValid(r) && Typed(r)
  {
    if chunks == [] then h else
      Commit(ReplayAll(h, chunks[..|chunks| - 1], env), chunks[|chunks| - 1], env)
  }

  /** The decisions registered over a history. */
  ghost function AllRegistrations(h: Harness, chunks: seq<seq<Record>>, env: Env): nat
    requires HarnessValid(h) && Typed(h) && IsSqrt(env.sqrt)
  {
    if chunks == [] then 0 else
      var init := chunks[..|chunks| - 1];
      AllRegistrations(h, init, env) + ChunkRegistrations(ReplayAll(h, init, env), chunks[|chunks| - 1], env)
  }

  /** The conservation laws over every history of chunks, from any valid state that satisfies them. */
  lemma {:induction false} HistoryKeeps(h: Harness, chunks: seq<seq<Record>>, env: Env)
    requires HarnessValid(h) && Typed(h) && IsSqrt(env.sqrt) && Conserved(h)
    ensures Conserved(ReplayAll(h, chunks, env))
    ensures Accounted(ReplayAll(h, chunks, env)) == Accounted(h) + AllRegistrations(h, chunks, env)
  {
    if chunks == [] {
    } else {
      HistoryKeeps(h, chunks[..|chunks| - 1], env);
      CommitKeeps(ReplayAll(h, chunks[..|chunks| - 1], env), chunks[|chunks| - 1], env);
    }
  }

  /**
   Over every history from a new harness: each decision ever registered is pending, completed or
   expired; pulls count tombstones per arm; rewards add up; samples never exceed the pulls.
   */
  lemma HistoryConserves(model: Stable, config: ReplayConfig, chunks: seq<seq<Record>>, env: Env)
    requires StableValid(model) && model.samplesSeen == 0 && NewHarness(model, config).Ok? && IsSqrt(env.sqrt)
    requires 0 < config.maxRecords <= U64_MAX && config.maxCompleted <= U64_MAX && 0 < |config.schemaHash| <= 128
    ensures HarnessValid(NewHarness(model, config).value) && Typed(NewHarness(model, config).value)
    ensures var h := ReplayAll(NewHarness(model, config).value, chunks, env);
      && Conserved(h)
      && |h.ledger.pending| + |h.ledger.completed| + h.expired
           == AllRegistrations(NewHarness(model, config).value, chunks, env)
      && h.model.samplesSeen <= TotalPulls(h.perArmPulls) == |h.ledger.completed|
  {
    NewHarnessValid(model, config);
    HistoryKeeps(NewHarness(model, config).value, chunks, env);
  }
}
