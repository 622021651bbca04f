/** The ledger's structural validation is exact: it accepts precisely the states that calls can reach. */
module LedgerReach {
  import opened Ledger

  ghost predicate Reachable(l: LedgerState) {
    exists calls: seq<Call> :: Run(Empty(l.config), calls) == l
  }

  lemma ReachNext(l: LedgerState, call: Call)
    requires Reachable(l) && Step(l, call).0.config == l.config
    ensures Reachable(Step(l, call).0)
  {
    var calls: seq<Call> :| Run(Empty(l.config), calls) == l;
    assert (calls + [call])[..|calls|] == calls;
    assert Run(Empty(l.config), calls + [call]) == Step(l, call).0;
  }

  /** Every tombstone is reached by registering its decision and answering it, while nothing else is pending. */
  lemma {:induction false} ReachCompleted(config: LedgerConfig, completed: map<nat, Completed>)
    requires LedgerValid(LedgerState(config, map[], completed))
    ensures Reachable(LedgerState(config, map[], completed))
  {
    var l := LedgerState(config, map[], completed);
    if completed == map[] {
      assert Run(Empty(config), []) == l;
    } else {
      var id :| id in completed;
      var c, rest := completed[id], completed - {id};
      var before := LedgerState(config, map[], rest);
      RemoveCount(completed, {id});
      ReachCompleted(config, rest);
      var outcome := Outcome(id, c.decision.action, c.reward, c.observedAt, c.decision.modelGeneration);
      ReachNext(before, CallRegister(c.decision));
      ReachNext(Register(before, c.decision).0, CallFeedback(outcome));
      assert map[id := c.decision] - {id} == map[];
      assert rest[id := c] == completed;
    }
  }

  lemma {:induction false} ReachPending(l: LedgerState)
    requires LedgerValid(l)
    ensures Reachable(l)
    decreases |l.pending|
  {
    if l.pending == map[] {
      ReachCompleted(l.config, l.completed);
    } else {
      var id :| id in l.pending;
      var before := l.(pending := l.pending - {id});
      RemoveCount(l.pending, {id});
      ReachPending(before);
      ReachNext(before, CallRegister(l.pending[id]));
      assert before.pending[id := l.pending[id]] == l.pending;
    }
  }

  lemma {:induction false} RunValid(config: LedgerConfig, calls: seq<Call>)
    requires ConfigPositive(config)
    ensures LedgerValid(Run(Empty(config), calls)) && Run(Empty(config), calls).config == config
  {
    if calls == [] {
    } else {
      RunValid(config, calls[..|calls| - 1]);
      StepValid(Run(Empty(config), calls[..|calls| - 1]), calls[|calls| - 1]);
    }
  }

  /**
   Over positive capacities a ledger passes the structural validation exactly when some sequence of registrations,
   feedbacks and sweeps leads to it from the empty ledger: no restored state is refused or let through wrongly.
   */
  lemma ValidIffReachable(l: LedgerState)
    ensures LedgerValid(l) <==>
      && l.config.maxPending > 0 && l.config.maxCompleted > 0 && l.config.maxContextBytes > 0 && l.config.maxActionBytes > 0
      && Reachable(l)
  {
    if LedgerValid(l) { ReachPending(l); }
    if ConfigPositive(l.config) && Reachable(l) {
      var calls: seq<Call> :| Run(Empty(l.config), calls) == l;
      RunValid(l.config, calls);
    }
  }
}
