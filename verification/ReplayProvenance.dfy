/**
 Where the replay's ledger comes from: every pending decision was registered by a fact of the journal with exactly its
 fields, and every tombstone answers such a decision by a later fact with exactly its reward and time.
 */
module ReplayProvenance {
  import opened Errors
  import opened Cholesky
  import opened Replay
  import opened ReplayInvariants
  import opened ReplayEvents
  import opened ReplayJournal
  import Ledger
  import Digest

  /** The fact registers the decision. */
  predicate Registering(f: Fact, d: Ledger.Decision, delay: nat) {
    && f.Chosen? && f.record.decisionId == d.id && f.record.context == d.context && f.record.selectedArm == d.action
    && f.record.timestamp == d.createdAt && f.record.timestamp + delay == d.expiresAt && f.record.generation == d.modelGeneration
  }

  /** The fact answers the decision of the tombstone. */
  predicate Answering(f: Fact, c: Ledger.Completed) {
    && f.Settled? && f.record.decisionId == c.decision.id && f.record.selectedArm == c.decision.action
    && f.record.reward == Some(c.reward) && f.record.outcomeTime == Some(c.observedAt)
    && f.record.generation == c.decision.modelGeneration
  }

  ghost predicate RegisteredIn(facts: seq<Fact>, d: Ledger.Decision, delay: nat) {
    exists i :: 0 <= i < |facts| && Registering(facts[i], d, delay)
  }

  /** The registering fact comes before the answering one. */
  ghost predicate AnsweredIn(facts: seq<Fact>, c: Ledger.Completed, delay: nat) {
    exists i, j :: 0 <= i < j < |facts| && Registering(facts[i], c.decision, delay) && Answering(facts[j], c)
  }

  /** Every entry of the ledger is documented by the facts. */
  ghost predicate Documented(h: Harness, facts: seq<Fact>) {
    && (forall id :: id in h.ledger.pending ==>
          h.ledger.pending[id].id == id && RegisteredIn(facts, h.ledger.pending[id], h.config.maxFeedbackDelay))
    && (forall id :: id in h.ledger.completed ==>
          h.ledger.completed[id].decision.id == id && AnsweredIn(facts, h.ledger.completed[id], h.config.maxFeedbackDelay))
  }

  lemma StillRegistered(a: seq<Fact>, b: seq<Fact>, d: Ledger.Decision, delay: nat)
    requires RegisteredIn(a, d, delay)
    ensures RegisteredIn(a + b, d, delay)
  {
    var i :| 0 <= i < |a| && Registering(a[i], d, delay);
    assert (a + b)[i] == a[i];
  }

  lemma StillAnswered(a: seq<Fact>, b: seq<Fact>, c: Ledger.Completed, delay: nat)
    requires AnsweredIn(a, c, delay)
    ensures AnsweredIn(a + b, c, delay)
  {
    var i, j :| 0 <= i < j < |a| && Registering(a[i], c.decision, delay) && Answering(a[j], c);
    assert (a + b)[i] == a[i] && (a + b)[j] == a[j];
  }

  lemma StillDocumented(h: Harness, a: seq<Fact>, b: seq<Fact>)
    requires Documented(h, a)
    ensures Documented(h, a + b)
  {
    forall id | id in h.ledger.pending ensures RegisteredIn(a + b, h.ledger.pending[id], h.config.maxFeedbackDelay) {
      StillRegistered(a, b, h.ledger.pending[id], h.config.maxFeedbackDelay);
    }
    forall id | id in h.ledger.completed ensures AnsweredIn(a + b, h.ledger.completed[id], h.config.maxFeedbackDelay) {
      StillAnswered(a, b, h.ledger.completed[id], h.config.maxFeedbackDelay);
    }
  }

  /** What a decision event does to the ledger. */
  lemma DecisionLedger(h: Harness, r: Record, env: Env)
    requires Ready(h) && Ledger.LedgerValid(h.ledger) && IsSqrt(env.sqrt) && DecisionStep(h, r, env).Ok?
    ensures var next := DecisionStep(h, r, env).value;
      next.config == h.config && (next.ledger == h.ledger || (Unknown(h, r.decisionId) && next.ledger == NewlyPending(h, r, env.bits).ledger))
  {
    DecisionEnds(h, r, env);
  }

  lemma DecisionDocuments(h: Harness, r: Record, next: Harness, bits: real -> Digest.Word, facts: seq<Fact>)
    requires Documented(h, facts) && Unknown(h, r.decisionId)
    requires next.config == h.config && next.ledger == NewlyPending(h, r, bits).ledger
    ensures Documented(next, facts + [Chosen(r)])
  {
    StillDocumented(h, facts, [Chosen(r)]);
    var all := facts + [Chosen(r)];
    assert Registering(all[|facts|], next.ledger.pending[r.decisionId], h.config.maxFeedbackDelay);
  }

  /** What an outcome event does to the ledger. */
  lemma OutcomeLedger(h: Harness, r: Record, env: Env)
    requires Ready(h) && Ledger.LedgerValid(h.ledger) && IsSqrt(env.sqrt) && RecordOk(r, h.model) && OutcomeStep(h, r, env).Ok?
    ensures var next := OutcomeStep(h, r, env).value;
      && next.config == h.config
      && if Answers(h, r) then
           && next.ledger.pending == h.ledger.pending - {r.decisionId}
           && next.ledger.completed == h.ledger.completed[r.decisionId :=
                Ledger.Completed(h.ledger.pending[r.decisionId], r.reward.value, r.outcomeTime.value)]
         else
           && next.ledger.completed == h.ledger.completed
           && next.ledger.pending.Keys <= h.ledger.pending.Keys
           && forall id :: id in next.ledger.pending ==> next.ledger.pending[id] == h.ledger.pending[id]
  {
    OutcomeMeaning(h, r, env);
  }

  /** Dropping pending decisions leaves the rest documented. */
  lemma FewerDocumented(h: Harness, next: Harness, facts: seq<Fact>)
    requires Documented(h, facts) && next.config == h.config && next.ledger.completed == h.ledger.completed
    requires forall id :: id in next.ledger.pending ==> id in h.ledger.pending && next.ledger.pending[id] == h.ledger.pending[id]
    ensures Documented(next, facts)
  {}

  lemma AnswerDocuments(h: Harness, r: Record, facts: seq<Fact>, next: Harness)
    requires Answers(h, r) && Documented(h, facts) && next.config == h.config
    requires next.ledger.pending == h.ledger.pending - {r.decisionId}
    requires next.ledger.completed == h.ledger.completed[r.decisionId :=
      Ledger.Completed(h.ledger.pending[r.decisionId], r.reward.value, r.outcomeTime.value)]
    ensures Documented(next, facts + [Settled(r)])
  {
    StillDocumented(h, facts, [Settled(r)]);
    TombstoneDocumented(h, r, facts);
  }

  lemma TombstoneDocumented(h: Harness, r: Record, facts: seq<Fact>)
    requires Answers(h, r) && Documented(h, facts)
    ensures AnsweredIn(facts + [Settled(r)],
                       Ledger.Completed(h.ledger.pending[r.decisionId], r.reward.value, r.outcomeTime.value),
                       h.config.maxFeedbackDelay)
  {
    var d, all := h.ledger.pending[r.decisionId], facts + [Settled(r)];
    var i :| 0 <= i < |facts| && Registering(facts[i], d, h.config.maxFeedbackDelay);
    assert all[i] == facts[i] && all[|facts|] == Settled(r);
    assert Answering(all[|facts|], Ledger.Completed(d, r.reward.value, r.outcomeTime.value));
  }

  lemma EventDocuments(h: Harness, records: seq<Record>, e: Event, env: Env, facts: seq<Fact>)
    requires Ready(h) && Ledger.LedgerValid(h.ledger) && IsSqrt(env.sqrt) && RecordsOk(records, h.model) && e.index < |records|
    requires EventStep(h, records, e, env).Ok? && Documented(h, facts)
    ensures var next := EventStep(h, records, e, env).value;
      Documented(next, facts + EventFacts(h, records, e, next))
  {
    var r, next := records[e.index], EventStep(h, records, e, env).value;
    assert facts + [] == facts;
    if e.kind == 0 {
      DecisionLedger(h, r, env);
      if Registers(h, next, records, e) {
        DecisionDocuments(h, r, next, env.bits, facts);
      }
    } else {
      OutcomeLedger(h, r, env);
      if Answers(h, r) {
        AnswerDocuments(h, r, facts, next);
      } else {
        FewerDocumented(h, next, facts);
      }
    }
  }

  lemma {:induction false} EventsDocument(h: Harness, records: seq<Record>, events: seq<Event>, env: Env, facts: seq<Fact>)
    requires Structured(h) && Typed(h) && IsSqrt(env.sqrt) && RecordsOk(records, h.model) && Indexed(events, |records|)
    requires RunEvents(h, records, events, env).Ok? && Documented(h, facts)
    ensures Documented(RunEvents(h, records, events, env).value, facts + Journal(h, records, events, env))
    decreases |events|
  {
    if events == [] {
      assert facts + [] == facts;
    } else {
      EventKeepsShape(h, records, events[0], env);
      EventKeeps(h, records, events[0], env);
      EventDocuments(h, records, events[0], env, facts);
      var next := EventStep(h, records, events[0], env).value;
      var first := EventFacts(h, records, events[0], next);
      EventsDocument(next, records, events[1..], env, facts + first);
      Regroup(facts, first, Journal(next, records, events[1..], env));
    }
  }

  lemma ChunkDocuments(h: Harness, records: seq<Record>, env: Env, facts: seq<Fact>)
    requires HarnessValid(h) && Typed(h) && IsSqrt(env.sqrt) && Documented(h, facts)
    ensures Documented(Commit(h, records, env), facts + ChunkJournal(h, records, env))
  {
    CommitIs(h, records, env);
    if ReplayChunk(h, records, env).Err? {
      assert facts + [] == facts;
    } else {
      ChunkValid(h, records, env);
      EventsIndexed(records);
      EventsDocument(Start(h, records), records, Sort(EventsOf(records)), env, facts);
    }
  }

  /**
   After every history from a harness with an empty ledger, every pending decision and every tombstone is documented by
   the facts the history accepted.
   */
  lemma {:induction false} HistoryDocuments(h: Harness, chunks: seq<seq<Record>>, env: Env)
    requires HarnessValid(h) && Typed(h) && IsSqrt(env.sqrt) && h.ledger.pending == map[] && h.ledger.completed == map[]
    ensures Documented(ReplayAll(h, chunks, env), HistoryJournal(h, chunks, env))
  {
    if chunks == [] {
    } else {
      var n := |chunks| - 1;
      HistoryDocuments(h, chunks[..n], env);
      ChunkDocuments(ReplayAll(h, chunks[..n], env), chunks[n], env, HistoryJournal(h, chunks[..n], env));
    }
  }
}
