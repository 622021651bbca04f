/** Concrete restored harnesses on which a replay fails in a way no harness that started new can. */
module ReplayWitnesses {
  import opened Errors
  import opened LinearAlgebra
  import opened Cholesky
  import opened RidgeBandit
  import opened Replay
  import opened ReplayInvariants
  import opened ReplayFailures
  import Ledger

  // ---- building blocks: one arm, one feature, room for one record ----

  const MODEL: Stable := Stable(1, 1, 1.0, [Identity(1)], [Zero(1)], 0)

  /** A harness with the given pending decisions and latencies, and nothing completed. */
  function Restored(capacity: nat, pending: map<nat, Ledger.Decision>, latencies: seq<nat>): Harness {
    var config := ReplayConfig(capacity, 10, 0, "h", capacity, capacity);
    Harness(config, MODEL, Ledger.LedgerState(LedgerConfigOf(config), pending, map[]), 0, 0.0, 0.0, 0.0,
            [0], latencies, 0, 0, 0, 0, 0, 0, 0, 0)
  }

  function Waiting(id: nat, context: Vec): Ledger.Decision {
    Ledger.Decision(id, context, 0, 0, 10, 0)
  }

  /** A record whose schema hash is not the harness's: its decision event is only counted as rejected. */
  function Late(id: nat, outcomeTime: nat): Record {
    Record(0, id, [0.0], 0, Some(outcomeTime), Some(1.0), 0, "other", None, None, false)
  }

  lemma RestoredValid(capacity: nat, pending: map<nat, Ledger.Decision>, latencies: seq<nat>)
    requires 0 < capacity <= U64_MAX && |latencies| <= capacity && |pending| <= capacity
    requires forall id :: id in pending ==> |pending[id].context| <= 1 && pending[id] == Waiting(id, pending[id].context)
    ensures HarnessValid(Restored(capacity, pending, latencies)) && Typed(Restored(capacity, pending, latencies))
  {
    IdentityRepresents(1);
    assert TotalPulls([0]) == TotalPulls([0][..0]) + 0;
  }

  /** The events of one late record: its decision, then its outcome. */
  lemma LateEvents(id: nat, outcomeTime: nat)
    ensures Sort(EventsOf([Late(id, outcomeTime)])) == [Event(0, 0, 0), Event(outcomeTime, 1, 0)]
  {
    var records := [Late(id, outcomeTime)];
    var first, second := Event(0, 0, 0), Event(outcomeTime, 1, 0);
    assert records[..0] == [] && EventsOf(records) == EventsOf([]) + RecordEvents(records[0], 0);
    assert EventsOf(records) == [first, second];
    assert [first, second][..1] == [first] && [first][..0] == [];
    assert Sort([first]) == Insert(Sort([]), first) == [first];
    assert Before(first, second);
    assert Insert([first], second) == [first] + [second];
  }

  /** The chunk of one late record does what its outcome does after one rejection. */
  lemma LateChunk(h: Harness, id: nat, outcomeTime: nat, env: Env)
    requires HarnessValid(h) && Typed(h) && IsSqrt(env.sqrt) && h.config.schemaHash == "h"
    requires Admitted(h, [Late(id, outcomeTime)]) && h.rejected < U64_MAX
    ensures RecordOk(Late(id, outcomeTime), h.model)
    ensures var before := Start(h, [Late(id, outcomeTime)]).(rejected := h.rejected + 1);
      OutcomeStep(before, Late(id, outcomeTime), env).Err? ==>
        ReplayChunk(h, [Late(id, outcomeTime)], env) == Err(OutcomeStep(before, Late(id, outcomeTime), env).error)
  {
    var records := [Late(id, outcomeTime)];
    assert RecordOk(records[0], h.model);
    var start := Start(h, records);
    var before := start.(rejected := h.rejected + 1);
    var events := Sort(EventsOf(records));
    LateEvents(id, outcomeTime);
    EventsIndexed(records);
    AdmitIs(h, records);
    assert EventStep(start, records, events[0], env) == Ok(before);
    assert events[1..] == [Event(outcomeTime, 1, 0)];
    assert RunEvents(start, records, events, env) == RunEvents(before, records, events[1..], env);
  }

  // ---- the three witnesses ----

  /** A restored harness whose latency list is already full: it validates, and the next outcome fails the chunk. */
  lemma FullLatenciesFail(env: Env)
    requires IsSqrt(env.sqrt)
    ensures var h := Restored(1, map[7 := Waiting(7, [0.0])], [0]);
      && HarnessValid(h) && Typed(h) && ContextsFit(h) && Admitted(h, [Late(7, 5)])
      && ReplayChunk(h, [Late(7, 5)], env) == Err(InvalidState(LatencyCapacityExceeded))
      && !FailsPossibly(ReplayChunk(h, [Late(7, 5)], env))
  {
    var pending := map[7 := Waiting(7, [0.0])];
    assert pending.Keys == {7};
    RestoredValid(1, pending, [0]);
    LateChunk(Restored(1, pending, [0]), 7, 5, env);
  }

  /** A restored harness with an empty pending context over one feature: it validates, and its outcome fails the chunk. */
  lemma MisfitFails(env: Env)
    requires IsSqrt(env.sqrt)
    ensures var h := Restored(1, map[7 := Waiting(7, [])], []);
      && HarnessValid(h) && Typed(h) && !ContextsFit(h) && Admitted(h, [Late(7, 5)])
      && ReplayChunk(h, [Late(7, 5)], env) == Err(DimensionMismatch(1, 0))
      && !FailsPossibly(ReplayChunk(h, [Late(7, 5)], env))
  {
    var pending := map[7 := Waiting(7, [])];
    assert pending.Keys == {7};
    RestoredValid(1, pending, []);
    LateChunk(Restored(1, pending, []), 7, 5, env);
  }

  /** Two decisions swept by the late outcome of the first: both expired, and the second rejected as well. */
  lemma SweptTwice(env: Env)
    requires IsSqrt(env.sqrt)
    ensures var h := Restored(2, map[1 := Waiting(1, [0.0]), 2 := Waiting(2, [0.0])], []);
      && HarnessValid(h) && OutcomeStep(h, Late(1, 20), env).Ok?
      && var swept := OutcomeStep(h, Late(1, 20), env).value;
         && Ready(swept) && swept.expired == 2 && swept.rejected == 0
         && OutcomeStep(swept, Late(2, 21), env) == Ok(swept.(rejected := 1))
  {
    var pending := map[1 := Waiting(1, [0.0]), 2 := Waiting(2, [0.0])];
    assert pending.Keys == {1, 2};
    RestoredValid(2, pending, []);
    var h := Restored(2, pending, []);
    assert Ledger.ExpiredIds(h.ledger, 20) == {1, 2};
    ExpiredThenRejected(h, Late(1, 20), Late(2, 21), env);
  }
}
