/** Which errors a replay can still end in once its chunk is admitted, and which branches are dead. */
module ReplayFailures {
  import opened Errors
  import opened Cholesky
  import opened RidgeBandit
  import opened Replay
  import opened ReplayInvariants
  import Ledger
  import Digest

  /** A saturated counter, an expiry beyond the clock, or the ledger refusing a registration or a tombstone. */
  predicate Possible(e: Error) {
    e.InvalidState? &&
    match e.fault
    case CounterOverflow => true
    case ExpiryOverflow => true
    case LedgerFailure(l) =>
      l == DecisionConflict || l == PendingCapacityExceeded || l == ValueTooLarge || l == CompletedCapacityExceeded
    case _ => false
  }

  ghost predicate FailsPossibly(r: Result<Harness>) {
    r.Err? ==> Possible(r.error)
  }

  lemma RegisterFails(h: Harness, r: Record, env: Env)
    ensures FailsPossibly(RegisterDecision(h, r, env))
  {
    RegistrationRefused(h.ledger, DecisionOf(h.config, r));
    var (ledger, reply) := Ledger.Register(h.ledger, DecisionOf(h.config, r));
    RecordFails(h, r, ledger, reply, Digest.Mix(h.digest, RecordBytes(r, DECISION_MARKER, env.bits)));
  }

  lemma RegistrationRefused(l: Ledger.LedgerState, d: Ledger.Decision)
    requires d.createdAt <= d.expiresAt
    ensures var reply := Ledger.Register(l, d).1; reply.Rejected? ==> Possible(InvalidState(LedgerFailure(reply.error)))
  {}

  lemma RecordFails(h: Harness, r: Record, ledger: Ledger.LedgerState, reply: Ledger.Reply, digest: Digest.Word)
    requires reply.Rejected? ==> Possible(InvalidState(LedgerFailure(reply.error)))
    ensures FailsPossibly(RecordRegistration(h, r, ledger, reply, digest))
  {}

  lemma DecisionFails(h: Harness, r: Record, env: Env)
    requires Ready(h) && IsSqrt(env.sqrt) && RecordOk(r, h.model)
    ensures FailsPossibly(DecisionStep(h, r, env))
  {
    if r.schemaHash == h.config.schemaHash && r.generation >= h.currentGeneration {
      var g := EnterGeneration(h, r.generation);
      if g.Ok? {
        var d := EnterDrift(g.value, r.drift);
        if d.Ok? { RegisterFails(d.value, r, env); }
      }
    }
  }

  /** A matching outcome is refused by the ledger only for lack of room: the replay has checked everything else. */
  lemma FeedbackFails(h: Harness, r: Record)
    requires Ledger.LedgerValid(h.ledger) && Judge(h, r) == Take
    ensures var reply := Ledger.ApplyFeedback(h.ledger, OutcomeOf(r)).1;
      reply == Ledger.Applied || reply == Ledger.Rejected(CompletedCapacityExceeded)
  {}

  /** Every pending context has the model's length; the state check does not look at this. */
  ghost predicate ContextsFit(h: Harness) {
    forall id :: id in h.ledger.pending ==> |h.ledger.pending[id].context| == h.model.featureCount
  }

  /**
   An outcome ends in any other error exactly when it matches its decision, the pull counter has room, and
   either the latency list is full or the pending context has another length than the model.
   */
  lemma OutcomeFailsOtherwise(h: Harness, r: Record, env: Env)
    requires Structured(h) && IsSqrt(env.sqrt) && RecordOk(r, h.model)
    ensures !FailsPossibly(OutcomeStep(h, r, env)) <==>
      && Judge(h, r) == Take && h.perArmPulls[r.selectedArm] < U64_MAX
      && (|h.latencies| >= h.config.maxRecords || |h.ledger.pending[r.decisionId].context| != h.model.featureCount)
  {
    if Judge(h, r) == Take {
      var applied := ApplyContextualOutcome(h.ledger, h.model, OutcomeOf(r), env.sqrt);
      JointFails(h, r, env);
      SettleFails(h, r, applied, Digest.Mix(h.digest, RecordBytes(r, OUTCOME_MARKER, env.bits)));
    }
  }

  /** The joint ledger and model transition of a matching outcome fails otherwise only on the context's length. */
  lemma JointFails(h: Harness, r: Record, env: Env)
    requires Structured(h) && IsSqrt(env.sqrt) && RecordOk(r, h.model) && Judge(h, r) == Take
    ensures var applied := ApplyContextualOutcome(h.ledger, h.model, OutcomeOf(r), env.sqrt);
      (applied.Err? && !Possible(applied.error)) <==> |h.ledger.pending[r.decisionId].context| != h.model.featureCount
  {
    FeedbackFails(h, r);
    if |h.ledger.pending[r.decisionId].context| == h.model.featureCount {
      StableUpdateValid(h.model, r.selectedArm, h.ledger.pending[r.decisionId].context, r.reward.value, env.sqrt);
    }
  }

  lemma SettleFails(h: Harness, r: Record, applied: Result<(Ledger.LedgerState, Stable)>, digest: Digest.Word)
    requires r.outcomeTime.Some? && r.reward.Some? && r.timestamp <= r.outcomeTime.value && r.selectedArm < |h.perArmPulls|
    ensures !FailsPossibly(Settle(h, r, applied, digest)) <==>
      && h.perArmPulls[r.selectedArm] < U64_MAX
      && (|h.latencies| >= h.config.maxRecords || (applied.Err? && !Possible(applied.error)))
  {}

  /**
   The expired and rejected counters overlap: after an outcome's sweep, the own outcome of a decision it expired
   is refused and counted as rejected, whatever its generation or reward, exactly if the record has one.
   */
  lemma ExpiredThenRejected(h: Harness, r: Record, own: Record, env: Env)
    requires Structured(h) && IsSqrt(env.sqrt) && RecordOk(r, h.model)
    requires Judge(h, r) == Expire && OutcomeStep(h, r, env).Ok?
    requires own.decisionId in Ledger.ExpiredIds(h.ledger, r.outcomeTime.value)
    ensures var swept := OutcomeStep(h, r, env).value;
      && Ready(swept) && swept.model == h.model && swept.expired > h.expired && swept.rejected == h.rejected
      && (Judge(swept, own) == Refuse <==> own.outcomeTime.Some?)
      && (RecordOk(own, h.model) && own.outcomeTime.Some? ==> OutcomeStep(swept, own, env) == Reject(swept))
  {
    Ledger.ClearValid(h.ledger, r.outcomeTime.value);
  }

  // ---- what events keep ----

  lemma DecisionFits(h: Harness, r: Record, env: Env)
    requires Ready(h) && IsSqrt(env.sqrt) && RecordOk(r, h.model) && ContextsFit(h) && DecisionStep(h, r, env).Ok?
    ensures var next := DecisionStep(h, r, env).value;
      ContextsFit(next) && next.latencies == h.latencies
  {
    if r.schemaHash == h.config.schemaHash && r.generation >= h.currentGeneration {
      var g := EnterGeneration(h, r.generation);
      var d := EnterDrift(g.value, r.drift);
      RegisterFits(d.value, r, env);
    }
  }

  lemma RegisterFits(h: Harness, r: Record, env: Env)
    requires Ready(h) && |r.context| == h.model.featureCount && ContextsFit(h)
    ensures var result := RegisterDecision(h, r, env);
      result.Ok? ==> ContextsFit(result.value) && result.value.latencies == h.latencies
  {}

  lemma OutcomeFits(h: Harness, r: Record, env: Env)
    requires Structured(h) && ContextsFit(h) && IsSqrt(env.sqrt) && RecordOk(r, h.model) && OutcomeStep(h, r, env).Ok?
    ensures var next := OutcomeStep(h, r, env).value;
      ContextsFit(next) && |next.latencies| <= |h.latencies| + 1
  {
    OutcomeKeepsShape(h, r, env);
    if Judge(h, r) == Take { AcceptDoes(h, r, env); }
  }

  // ---- outcome events of a chunk ----

  function Outcomes(events: seq<Event>): nat {
    if events == [] then 0 else Outcomes(events[..|events| - 1]) + if events[|events| - 1].kind == 0 then 0 else 1
  }

  lemma {:induction false} OutcomesConcat(a: seq<Event>, b: seq<Event>)
    ensures Outcomes(a + b) == Outcomes(a) + Outcomes(b)
  {
    if b == [] {
      assert a + b == a;
    } else {
      OutcomesConcat(a, b[..|b| - 1]);
      assert (a + b)[..|a + b| - 1] == a + b[..|b| - 1];
    }
  }

  lemma OutcomesFirst(events: seq<Event>)
    requires events != []
    ensures Outcomes(events) == Outcomes(events[1..]) + if events[0].kind == 0 then 0 else 1
  {
    OutcomesConcat(events[..1], events[1..]);
    assert events[..1] + events[1..] == events && events[..1][..0] == [];
  }

  lemma {:induction false} OutcomesInsert(events: seq<Event>, e: Event)
    ensures Outcomes(Insert(events, e)) == Outcomes(events) + if e.kind == 0 then 0 else 1
  {
    var n := |events| - 1;
    if events == [] || Before(events[n], e) {
      assert (events + [e])[..|events|] == events;
    } else {
      OutcomesInsert(events[..n], e);
      var r := Insert(events[..n], e);
      assert (r + [events[n]])[..|r|] == r;
    }
  }

  lemma {:induction false} OutcomesSort(events: seq<Event>)
    ensures Outcomes(Sort(events)) == Outcomes(events)
  {
    if events == [] {
    } else {
      OutcomesSort(events[..|events| - 1]);
      OutcomesInsert(Sort(events[..|events| - 1]), events[|events| - 1]);
    }
  }

  /** A record has at most one outcome event. */
  lemma {:induction false} OutcomesOfRecords(records: seq<Record>)
    ensures Outcomes(EventsOf(records)) <= |records|
  {
    if records == [] {
    } else {
      var n := |records| - 1;
      OutcomesOfRecords(records[..n]);
      var last := RecordEvents(records[n], n);
      OutcomesConcat(EventsOf(records[..n]), last);
      OutcomesFirst(last);
      if |last| == 2 { OutcomesFirst(last[1..]); }
    }
  }

  // ---- a whole chunk ----

  /** The latency list has room for the outcomes still to come. */
  ghost predicate Roomy(h: Harness, outcomes: nat) {
    |h.latencies| + outcomes <= h.config.maxRecords
  }

  lemma EventFails(h: Harness, records: seq<Record>, e: Event, env: Env, later: nat)
    requires Structured(h) && Typed(h) && ContextsFit(h) && IsSqrt(env.sqrt)
    requires RecordsOk(records, h.model) && e.index < |records|
    requires Roomy(h, later + if e.kind == 0 then 0 else 1)
    ensures var r := EventStep(h, records, e, env);
      && FailsPossibly(r)
      && (r.Ok? ==> Structured(r.value) && Typed(r.value) && ContextsFit(r.value) && Roomy(r.value, later))
  {
    EventKeepsShape(h, records, e, env);
    if e.kind == 0 { DecisionFails(h, records[e.index], env); } else { OutcomeFailsOtherwise(h, records[e.index], env); }
    if EventStep(h, records, e, env).Ok? {
      EventKeeps(h, records, e, env);
      if e.kind == 0 { DecisionFits(h, records[e.index], env); } else { OutcomeFits(h, records[e.index], env); }
    }
  }

  lemma {:induction false} EventsFail(h: Harness, records: seq<Record>, events: seq<Event>, env: Env)
    requires Structured(h) && Typed(h) && ContextsFit(h) && IsSqrt(env.sqrt)
    requires RecordsOk(records, h.model) && Indexed(events, |records|) && Roomy(h, Outcomes(events))
    ensures var r := RunEvents(h, records, events, env);
      FailsPossibly(r) && (r.Ok? ==> ContextsFit(r.value))
    decreases |events|
  {
    if events == [] {
    } else {
      OutcomesFirst(events);
      EventKeepsShape(h, records, events[0], env);
      EventFails(h, records, events[0], env, Outcomes(events[1..]));
      var r := EventStep(h, records, events[0], env);
      if r.Ok? { EventsFail(r.value, records, events[1..], env); }
    }
  }

  /**
   From any valid harness whose pending contexts fit the model and whose latency list has room for the chunk's
   outcomes, restored ones included, an admitted chunk fails only with a saturated counter, an expiry beyond the
   clock, or the ledger refusing a registration or lacking room for a tombstone. The numeric checks of the model,
   the other feedback checks of the ledger and the state check after the chunk cannot fail it.
   */
  lemma ChunkFails(h: Harness, records: seq<Record>, env: Env)
    requires HarnessValid(h) && Typed(h) && ContextsFit(h) && IsSqrt(env.sqrt) && Admitted(h, records)
    requires Roomy(h, Outcomes(EventsOf(records)))
    ensures FailsPossibly(ReplayChunk(h, records, env))
    ensures ReplayChunk(h, records, env).Ok? ==> ContextsFit(ReplayChunk(h, records, env).value)
  {
    var start, events := Start(h, records), Sort(EventsOf(records));
    EventsIndexed(records);
    OutcomesSort(EventsOf(records));
    EventsFail(start, records, events, env);
    AdmitIs(h, records);
    ChunkValid(h, records, env);
  }

  // ---- harnesses that started new ----

  /** The invariant of every harness that started new: each latency belongs to a record, and contexts fit. */
  ghost predicate Sound(h: Harness) {
    HarnessValid(h) && Typed(h) && Conserved(h) && ContextsFit(h) && |h.latencies| <= h.processedRecords
  }

  /** The latency list grows by at most the outcomes of the chunk. */
  lemma {:induction false} LatenciesGrow(h: Harness, records: seq<Record>, events: seq<Event>, env: Env)
    requires Structured(h) && Typed(h) && ContextsFit(h) && IsSqrt(env.sqrt)
    requires RecordsOk(records, h.model) && Indexed(events, |records|) && RunEvents(h, records, events, env).Ok?
    ensures |RunEvents(h, records, events, env).value.latencies| <= |h.latencies| + Outcomes(events)
    decreases |events|
  {
    if events == [] {
    } else {
      var e := events[0];
      OutcomesFirst(events);
      EventKeepsShape(h, records, e, env);
      EventKeeps(h, records, e, env);
      if e.kind == 0 { DecisionFits(h, records[e.index], env); } else { OutcomeFits(h, records[e.index], env); }
      LatenciesGrow(EventStep(h, records, e, env).value, records, events[1..], env);
    }
  }

  /** From a sound harness every admitted chunk has room, so only those errors remain; and the result is sound. */
  lemma SoundChunkFails(h: Harness, records: seq<Record>, env: Env)
    requires Sound(h) && IsSqrt(env.sqrt) && Admitted(h, records)
    ensures FailsPossibly(ReplayChunk(h, records, env))
    ensures ReplayChunk(h, records, env).Ok? ==> Sound(ReplayChunk(h, records, env).value)
  {
    OutcomesOfRecords(records);
    ChunkFails(h, records, env);
    ChunkValid(h, records, env);
    if ReplayChunk(h, records, env).Ok? {
      ChunkConserves(h, records, env);
      EventsIndexed(records);
      OutcomesSort(EventsOf(records));
      LatenciesGrow(Start(h, records), records, Sort(EventsOf(records)), env);
    }
  }

  /** A new harness over an untrained model is sound. */
  lemma NewSound(model: Stable, config: ReplayConfig)
    requires StableValid(model) && model.samplesSeen == 0 && NewHarness(model, config).Ok?
    requires 0 < config.maxRecords <= U64_MAX && config.maxCompleted <= U64_MAX && 0 < |config.schemaHash| <= 128
    ensures Sound(NewHarness(model, config).value)
  {
    NewHarnessValid(model, config);
  }

  /** Hence over every history of chunks from a new harness: only those errors, whatever was offered before. */
  lemma {:induction false} HistoryFails(model: Stable, config: ReplayConfig, chunks: seq<seq<Record>>, env: Env)
    requires StableValid(model) && model.samplesSeen == 0 && NewHarness(model, config).Ok? && IsSqrt(env.sqrt)
    requires 0 < config.maxRecords <= U64_MAX && config.maxCompleted <= U64_MAX && 0 < |config.schemaHash| <= 128
    ensures HarnessValid(NewHarness(model, config).value) && Typed(NewHarness(model, config).value)
    ensures var h := ReplayAll(NewHarness(model, config).value, chunks, env);
      && Sound(h)
      && forall records :: Admitted(h, records) ==> FailsPossibly(ReplayChunk(h, records, env))
  {
    NewSound(model, config);
    var start := NewHarness(model, config).value;
    if chunks == [] {
    } else {
      var n := |chunks| - 1;
      HistoryFails(model, config, chunks[..n], env);
      var before := ReplayAll(start, chunks[..n], env);
      CommitIs(before, chunks[n], env);
      if ReplayChunk(before, chunks[n], env).Ok? { SoundChunkFails(before, chunks[n], env); }
    }
    var h := ReplayAll(start, chunks, env);
    forall records | Admitted(h, records) ensures FailsPossibly(ReplayChunk(h, records, env)) {
      SoundChunkFails(h, records, env);
    }
  }
}
