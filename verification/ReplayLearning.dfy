/**
 What a replay teaches its model: over every run of events and every history the model is the one obtained from the
 first by the operations read off the events, a reset at each generation or drift boundary and one update with the
 registered context and the outcome's reward for each accepted outcome. So it holds the ridge statistics of these.
 */
module ReplayLearning {
  import opened Cholesky
  import opened RidgeBandit
  import opened RidgeRegression
  import opened Replay
  import opened ReplayInvariants
  import opened ReplayEvents
  import Ledger

  // ---- the operations of one event ----

  /** Two boundaries at once reset the model twice, which is resetting it once. */
  function DecisionLessons(h: Harness, r: Record): seq<Op> {
    if Current(h, r) then
      (if r.generation > h.currentGeneration then [Reset] else []) + (if r.drift then [Reset] else [])
    else []
  }

  /** An accepted outcome teaches the context its decision was registered with. */
  function OutcomeLessons(h: Harness, r: Record): seq<Op> {
    if Answers(h, r) then [Update(r.selectedArm, h.ledger.pending[r.decisionId].context, r.reward.value)] else []
  }

  function EventLessons(h: Harness, records: seq<Record>, e: Event): seq<Op>
    requires e.index < |records|
  {
    if e.kind == 0 then DecisionLessons(h, records[e.index]) else OutcomeLessons(h, records[e.index])
  }

  /** The operations of a run of events, in order. */
  ghost function Lessons(h: Harness, records: seq<Record>, events: seq<Event>, env: Env): seq<Op>
    requires Ready(h) && IsSqrt(env.sqrt) && RecordsOk(records, h.model) && Indexed(events, |records|)
    decreases |events|
  {
    if events == [] then [] else
      EventKeepsShape(h, records, events[0], env);
      match EventStep(h, records, events[0], env)
      case Err(_) => []
      case Ok(next) => EventLessons(h, records, events[0]) + Lessons(next, records, events[1..], env)
  }

  /** `next` is `s` after the operations, all of which succeed. */
  ghost predicate Learned(s: Stable, ops: seq<Op>, next: Stable, sqrt: real -> real)
    requires StableValid(s) && IsSqrt(sqrt)
  {
    && StableRun(s, ops, sqrt).0 == next
    && |StableRun(s, ops, sqrt).1| == |ops|
    && forall i :: 0 <= i < |ops| ==> StableRun(s, ops, sqrt).1[i].Ok?
  }

  lemma LearnedNothing(s: Stable, sqrt: real -> real)
    requires StableValid(s) && IsSqrt(sqrt)
    ensures Learned(s, [], s, sqrt)
  {}

  lemma LearnedNext(s: Stable, ops: seq<Op>, middle: Stable, op: Op, sqrt: real -> real)
    requires StableValid(s) && IsSqrt(sqrt) && Learned(s, ops, middle, sqrt) && StableStep(middle, op, sqrt).1.Ok?
    ensures Learned(s, ops + [op], StableStep(middle, op, sqrt).0, sqrt)
  {
    assert (ops + [op])[..|ops|] == ops;
  }

  lemma {:induction false} LearnedTogether(s: Stable, a: seq<Op>, middle: Stable, b: seq<Op>, next: Stable, sqrt: real -> real)
    requires StableValid(s) && StableValid(middle) && IsSqrt(sqrt)
    requires Learned(s, a, middle, sqrt) && Learned(middle, b, next, sqrt)
    ensures Learned(s, a + b, next, sqrt)
  {
    if b == [] {
      assert a + b == a;
    } else {
      var n := |b| - 1;
      var prior := StableRun(middle, b[..n], sqrt);
      assert forall i :: 0 <= i < n ==> prior.1[i] == StableRun(middle, b, sqrt).1[i];
      LearnedTogether(s, a, middle, b[..n], prior.0, sqrt);
      assert StableRun(middle, b, sqrt).1[n] == StableStep(prior.0, b[n], sqrt).1;
      LearnedNext(s, a + b[..n], prior.0, b[n], sqrt);
      assert a + b[..n] + [b[n]] == a + b;
    }
  }

  lemma LearnedOnce(s: Stable, op: Op, sqrt: real -> real)
    requires StableValid(s) && IsSqrt(sqrt) && StableStep(s, op, sqrt).1.Ok?
    ensures Learned(s, [op], StableStep(s, op, sqrt).0, sqrt)
  {
    LearnedNothing(s, sqrt);
    LearnedNext(s, [], s, op, sqrt);
    assert [] + [op] == [op];
  }

  lemma LearnedReset(s: Stable, sqrt: real -> real)
    requires StableValid(s) && IsSqrt(sqrt)
    ensures StableValid(StableReset(s))
    ensures Learned(s, [Reset], StableReset(s), sqrt) && Learned(s, [Reset, Reset], StableReset(s), sqrt)
  {
    IdentityRepresents(s.featureCount);
    LearnedOnce(s, Reset, sqrt);
    assert StableReset(StableReset(s)) == StableReset(s);
    LearnedNext(s, [Reset], StableReset(s), Reset, sqrt);
    assert [Reset] + [Reset] == [Reset, Reset];
  }

  lemma DecisionTeaches(h: Harness, r: Record, env: Env)
    requires Ready(h) && Ledger.LedgerValid(h.ledger) && IsSqrt(env.sqrt) && RecordOk(r, h.model) && DecisionStep(h, r, env).Ok?
    ensures Learned(h.model, DecisionLessons(h, r), DecisionStep(h, r, env).value.model, env.sqrt)
  {
    FacedValid(h, r);
    DecisionModel(h, r, env);
    LearnedNothing(h.model, env.sqrt);
    LearnedReset(h.model, env.sqrt);
    assert [Reset] + [] == [Reset] && [] + [Reset] == [Reset] && [Reset] + [Reset] == [Reset, Reset];
  }

  /** A decision event leaves the model its resets leave. */
  lemma DecisionModel(h: Harness, r: Record, env: Env)
    requires Ready(h) && IsSqrt(env.sqrt) && DecisionStep(h, r, env).Ok?
    ensures DecisionStep(h, r, env).value.model == FacedModel(h, r)
  {
    if Current(h, r) { EnteringMeaning(h, r); }
  }

  lemma OutcomeTeaches(h: Harness, r: Record, env: Env)
    requires Ready(h) && Ledger.LedgerValid(h.ledger) && IsSqrt(env.sqrt) && RecordOk(r, h.model) && OutcomeStep(h, r, env).Ok?
    ensures Learned(h.model, OutcomeLessons(h, r), OutcomeStep(h, r, env).value.model, env.sqrt)
  {
    OutcomeMeaning(h, r, env);
    LearnedNothing(h.model, env.sqrt);
    if Answers(h, r) {
      LearnedOnce(h.model, Update(r.selectedArm, h.ledger.pending[r.decisionId].context, r.reward.value), env.sqrt);
    }
  }

  lemma EventTeaches(h: Harness, records: seq<Record>, e: Event, env: Env)
    requires Ready(h) && Ledger.LedgerValid(h.ledger) && IsSqrt(env.sqrt) && RecordsOk(records, h.model) && e.index < |records|
    requires EventStep(h, records, e, env).Ok?
    ensures Learned(h.model, EventLessons(h, records, e), EventStep(h, records, e, env).value.model, env.sqrt)
  {
    if e.kind == 0 { DecisionTeaches(h, records[e.index], env); } else { OutcomeTeaches(h, records[e.index], env); }
  }

  // ---- runs, chunks and histories ----

  lemma {:induction false} EventsTeach(h: Harness, records: seq<Record>, events: seq<Event>, env: Env)
    requires Structured(h) && Typed(h) && IsSqrt(env.sqrt) && RecordsOk(records, h.model) && Indexed(events, |records|)
    requires RunEvents(h, records, events, env).Ok?
    ensures Learned(h.model, Lessons(h, records, events, env), RunEvents(h, records, events, env).value.model, env.sqrt)
    decreases |events|
  {
    if events == [] {
      LearnedNothing(h.model, env.sqrt);
    } else {
      EventKeepsShape(h, records, events[0], env);
      EventKeeps(h, records, events[0], env);
      EventTeaches(h, records, events[0], env);
      var middle := EventStep(h, records, events[0], env).value;
      EventsTeach(middle, records, events[1..], env);
      LearnedTogether(h.model, EventLessons(h, records, events[0]), middle.model, Lessons(middle, records, events[1..], env),
                      RunEvents(middle, records, events[1..], env).value.model, env.sqrt);
    }
  }

  /** The operations of a committed chunk; none when it fails. */
  ghost function ChunkLessons(h: Harness, records: seq<Record>, env: Env): seq<Op>
    requires HarnessValid(h) && Typed(h) && IsSqrt(env.sqrt)
  {
    if ReplayChunk(h, records, env).Err? then [] else
      ChunkValid(h, records, env);
      EventsIndexed(records);
      Lessons(Start(h, records), records, Sort(EventsOf(records)), env)
  }

  lemma ChunkTeaches(h: Harness, records: seq<Record>, env: Env)
    requires HarnessValid(h) && Typed(h) && IsSqrt(env.sqrt)
    ensures Learned(h.model, ChunkLessons(h, records, env), Commit(h, records, env).model, env.sqrt)
  {
    CommitIs(h, records, env);
    if ReplayChunk(h, records, env).Err? {
      LearnedNothing(h.model, env.sqrt);
    } else {
      ChunkValid(h, records, env);
      EventsIndexed(records);
      EventsTeach(Start(h, records), records, Sort(EventsOf(records)), env);
    }
  }

  ghost function HistoryLessons(h: Harness, chunks: seq<seq<Record>>, env: Env): seq<Op>
    requires HarnessValid(h) && Typed(h) && IsSqrt(env.sqrt)
  {
    if chunks == [] then [] else
      var n := |chunks| - 1;
      HistoryLessons(h, chunks[..n], env) + ChunkLessons(ReplayAll(h, chunks[..n], env), chunks[n], env)
  }

  /** After every history the model is the first one after the history's operations, every one of which succeeded. */
  lemma {:induction false} HistoryTeaches(h: Harness, chunks: seq<seq<Record>>, env: Env)
    requires HarnessValid(h) && Typed(h) && IsSqrt(env.sqrt)
    ensures Learned(h.model, HistoryLessons(h, chunks, env), ReplayAll(h, chunks, env).model, env.sqrt)
  {
    if chunks == [] {
      LearnedNothing(h.model, env.sqrt);
    } else {
      var n := |chunks| - 1;
      var middle := ReplayAll(h, chunks[..n], env);
      HistoryTeaches(h, chunks[..n], env);
      ChunkTeaches(middle, chunks[n], env);
      LearnedTogether(h.model, HistoryLessons(h, chunks[..n], env), middle.model, ChunkLessons(middle, chunks[n], env),
                      Commit(middle, chunks[n], env).model, env.sqrt);
    }
  }

  // ---- what the replayed model has learned ----

  /** The samples the operations teach one arm since the last reset. */
  function Taught(ops: seq<Op>, arm: nat): seq<Sample> {
    if ops == [] then [] else
      match ops[|ops| - 1]
      case Reset => []
      case Update(target, context, reward) =>
        Taught(ops[..|ops| - 1], arm) + if target == arm then [Sample(context, reward)] else []
  }

  /** When every operation succeeds, what an arm accepts is what it is taught. */
  lemma {:induction false} AcceptedIsTaught(s: Stable, ops: seq<Op>, sqrt: real -> real, arm: nat)
    requires StableValid(s) && IsSqrt(sqrt) && |StableRun(s, ops, sqrt).1| == |ops|
    requires forall i :: 0 <= i < |ops| ==> StableRun(s, ops, sqrt).1[i].Ok?
    ensures RidgeRegression.Accepted(s, ops, sqrt, arm) == Taught(ops, arm)
  {
    if ops == [] {
    } else {
      var n := |ops| - 1;
      var prior := StableRun(s, ops[..n], sqrt);
      var results := StableRun(s, ops, sqrt).1;
      assert |prior.1| == n && results[n] == StableStep(prior.0, ops[n], sqrt).1;
      assert forall i :: 0 <= i < n ==> prior.1[i] == results[i];
      AcceptedIsTaught(s, ops[..n], sqrt, arm);
    }
  }

  /**
   After every history from a new harness over a fresh model, each arm's matrix and vector are the ridge statistics of
   exactly the samples the accepted outcomes have taught it since the last boundary.
   */
  lemma ReplayedModelMeaning(c: Config, config: ReplayConfig, chunks: seq<seq<Record>>, env: Env, arm: nat)
    requires ConfigResult(c).Ok? && IsSqrt(env.sqrt) && arm < c.armCount
    requires StableNew(c).Ok? && NewHarness(StableNew(c).value, config).Ok?
    requires HarnessValid(NewHarness(StableNew(c).value, config).value) && Typed(NewHarness(StableNew(c).value, config).value)
    ensures var start := NewHarness(StableNew(c).value, config).value;
      var model := ReplayAll(start, chunks, env).model;
      && model.armCount == c.armCount
      && Summarises(model.aMatrices[arm], model.bVectors[arm], Taught(HistoryLessons(start, chunks, env), arm), c.featureCount)
  {
    var start := NewHarness(StableNew(c).value, config).value;
    var ops := HistoryLessons(start, chunks, env);
    HistoryTeaches(start, chunks, env);
    RunSummarises(c, ops, env.sqrt, arm);
    AcceptedIsTaught(StableNew(c).value, ops, env.sqrt, arm);
  }
}
