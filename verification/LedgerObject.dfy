/** The mutable ledger object; each method is one transition of `Ledger`. */
module LedgerObject {
  import opened Errors
  import opened Ledger

  ghost predicate Ascending(ids: seq<nat>) {
    forall i, j :: 0 <= i < j < |ids| ==> ids[i] < ids[j]
  }

  lemma AscendingAppend(ids: seq<nat>, k: nat)
    requires Ascending(ids) && forall id :: id in ids ==> id < k
    ensures Ascending(ids + [k])
  {
    forall i | 0 <= i < |ids| ensures ids[i] < k {
      assert ids[i] in ids;
    }
  }

  /** The keys of an ordered map in iteration order. */
  method OrderedKeys(keys: set<nat>) returns (ids: seq<nat>)
    ensures Ascending(ids) && (forall id :: id in ids <==> id in keys)
  {
    ids := [];
    var rest := keys;
    while rest != {}
      invariant rest <= keys && Ascending(ids)
      invariant forall id :: id in ids <==> id in keys && id !in rest
      invariant forall id, other :: id in ids && other in rest ==> id < other
    {
      var least :| least in rest;
      var others := rest - {least};
      while others != {}
        invariant others <= rest && least in rest
        invariant forall id :: id in rest && id !in others ==> least <= id
      {
        var other :| other in others;
        if other < least { least := other; }
        others := others - {other};
      }
      AscendingAppend(ids, least);
      ids := ids + [least];
      rest := rest - {least};
    }
  }

  /** The matching keys, in the same order. */
  method Matching(keys: seq<nat>, matches: nat -> bool) returns (ids: seq<nat>)
    requires Ascending(keys)
    ensures Ascending(ids) && forall id :: id in ids <==> id in keys && matches(id)
  {
    ids := [];
    for i := 0 to |keys|
      invariant Ascending(ids) && forall id :: id in ids <==> id in keys[..i] && matches(id)
    {
      if matches(keys[i]) {
        forall id | id in ids ensures id < keys[i] {
          var j :| 0 <= j < i && keys[j] == id;
        }
        AscendingAppend(ids, keys[i]);
        ids := ids + [keys[i]];
      }
    }
    assert keys[..|keys|] == keys;
  }

  /** Collects the matching keys of an ordered map and removes them. */
  method Sweep<V>(m: map<nat, V>, matches: nat -> bool, ghost swept: set<nat>) returns (r: map<nat, V>, ids: seq<nat>)
    requires forall id :: id in swept <==> id in m && matches(id)
    ensures r == m - swept
    ensures Ascending(ids) && forall id :: id in ids <==> id in swept
  {
    var keys := OrderedKeys(m.Keys);
    ids := Matching(keys, matches);
    r := m;
    ghost var removed: set<nat> := {};
    for i := 0 to |ids|
      invariant r == m - removed && forall id :: id in removed <==> id in ids[..i]
    {
      r := r - {ids[i]};
      removed := removed + {ids[i]};
    }
    assert ids[..|ids|] == ids;
    assert removed == swept;
  }

  class DecisionLedger {
    const config: LedgerConfig
    var pending: map<nat, Decision>
    var completed: map<nat, Completed>

    function View(): LedgerState
      reads this
    {
      LedgerState(config, pending, completed)
    }

    ghost predicate Valid()
      reads this
    {
      LedgerValid(View())
    }

    constructor (config: LedgerConfig)
      requires ConfigPositive(config)
      ensures Valid() && View() == Empty(config)
    {
      this.config, pending, completed := config, map[], map[];
    }

    /** `DecisionLedger::new`, its error as the replay harness reports it. */
    static method New(config: LedgerConfig) returns (r: Result<DecisionLedger>)
      ensures r.Ok? <==> config.maxPending > 0 && config.maxCompleted > 0 && config.maxContextBytes > 0 && config.maxActionBytes > 0
      ensures r.Ok? ==> fresh(r.value) && r.value.Valid() && r.value.View() == Empty(config)
      ensures r.Err? ==> r.error == InvalidState(LedgerFailure(InvalidLedgerCapacity))
    {
      if config.maxPending == 0 || config.maxCompleted == 0 || config.maxContextBytes == 0 || config.maxActionBytes == 0 {
        return Err(InvalidState(LedgerFailure(InvalidLedgerCapacity)));
      }
      var ledger := new DecisionLedger(config);
      r := Ok(ledger);
    }

    constructor FromState(l: LedgerState)
      requires LedgerValid(l)
      ensures Valid() && View() == l
    {
      config, pending, completed := l.config, l.pending, l.completed;
    }

    method Register(decision: Decision) returns (reply: Reply)
      requires Valid()
      modifies this
      ensures Valid()
      ensures (View(), reply) == Ledger.Register(old(View()), decision)
    {
      StepValid(View(), CallRegister(decision));
      if decision.expiresAt < decision.createdAt {
        return Rejected(InvalidTimeRange);
      }
      if !ContextFits(config, decision.context) || !ActionFits(config) {
        return Rejected(ValueTooLarge);
      }
      if decision.id in pending {
        return if pending[decision.id] == decision then Receipt(PendingReplay) else Rejected(DecisionConflict);
      }
      if decision.id in completed {
        return if completed[decision.id].decision == decision then Receipt(CompletedReplay) else Rejected(DecisionConflict);
      }
      if |pending| >= config.maxPending {
        return Rejected(PendingCapacityExceeded);
      }
      pending := pending[decision.id := decision];
      reply := Receipt(Registered);
    }

    method ApplyFeedback(outcome: Outcome) returns (reply: Reply)
      requires Valid()
      modifies this
      ensures Valid()
      ensures (View(), reply) == Ledger.ApplyFeedback(old(View()), outcome)
    {
      StepValid(View(), CallFeedback(outcome));
      if !ActionFits(config) {
        return Rejected(ValueTooLarge);
      }
      if outcome.decisionId in completed {
        return Rejected(DuplicateFeedback);
      }
      if outcome.decisionId !in pending {
        return Rejected(UnknownDecision);
      }
      var decision := pending[outcome.decisionId];
      if outcome.observedAt < decision.createdAt {
        return Rejected(FeedbackBeforeDecision);
      }
      if outcome.observedAt > decision.expiresAt {
        return Rejected(FeedbackExpired);
      }
      if outcome.modelGeneration != decision.modelGeneration {
        return Rejected(GenerationMismatch);
      }
      if outcome.action != decision.action {
        return Rejected(ActionMismatch);
      }
      if |completed| >= config.maxCompleted {
        return Rejected(CompletedCapacityExceeded);
      }
      pending := pending - {outcome.decisionId};
      completed := completed[outcome.decisionId := Completed(decision, outcome.reward, outcome.observedAt)];
      reply := Applied;
    }

    /** Sweeps the decisions whose expiry is strictly before `now`; returns them in key order. */
    method ClearExpired(now: nat) returns (ids: seq<nat>)
      requires Valid()
      modifies this
      ensures Valid() && View() == Ledger.ClearExpired(old(View()), now).0
      ensures Ascending(ids) && forall id :: id in ids <==> id in ExpiredIds(old(View()), now)
    {
      var m := pending;
      ClearValid(View(), now);
      pending, ids := Sweep(m, id => id in m && m[id].expiresAt < now, ExpiredIds(View(), now));
    }

    /** Drops the tombstones observed strictly before `before`; returns them in key order. */
    method ClearCompletedBefore(before: nat) returns (ids: seq<nat>)
      requires Valid()
      modifies this
      ensures Valid() && View() == Ledger.ClearCompletedBefore(old(View()), before).0
      ensures Ascending(ids) && forall id :: id in ids <==> id in ObservedBefore(old(View()), before)
    {
      var m := completed;
      ClearValid(View(), before);
      completed, ids := Sweep(m, id => id in m && m[id].observedAt < before, ObservedBefore(View(), before));
    }
  }

  /** `validate_structure`, run on a state read from storage. */
  method Validate(l: LedgerState) returns (ok: bool)
    ensures ok <==> LedgerValid(l)
  {
    if !ConfigPositive(l.config) || |l.pending| > l.config.maxPending || |l.completed| > l.config.maxCompleted {
      return false;
    }
    var keys := OrderedKeys(l.pending.Keys);
    for i := 0 to |keys|
      invariant forall id :: id in keys[..i] ==> DecisionOk(l.config, id, l.pending[id]) && id !in l.completed
    {
      if !DecisionOk(l.config, keys[i], l.pending[keys[i]]) || keys[i] in l.completed {
        return false;
      }
    }
    var done := OrderedKeys(l.completed.Keys);
    for i := 0 to |done|
      invariant forall id :: id in done[..i] ==> CompletedOk(l.config, id, l.completed[id])
    {
      if !CompletedOk(l.config, done[i], l.completed[done[i]]) {
        return false;
      }
    }
    ok := true;
  }
}
