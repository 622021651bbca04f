/** Nothing in a replay reads the digest, so harnesses that differ only in it run alike and never merge. */
module ReplayDigests {
  import opened Errors
  import opened Cholesky
  import opened RidgeBandit
  import opened Replay
  import opened ReplayInvariants
  import opened ReplayEvents
  import opened ReplayJournal
  import Ledger
  import Digest

  /** The same outcome, the digest apart. */
  ghost predicate Twins(a: Result<Harness>, b: Result<Harness>) {
    match a
    case Err(e) => b == Err(e)
    case Ok(h) => b.Ok? && b.value == h.(digest := b.value.digest)
  }

  lemma RecordTwins(h: Harness, d: Digest.Word, r: Record, ledger: Ledger.LedgerState, reply: Ledger.Reply,
                    first: Digest.Word, second: Digest.Word)
    ensures Twins(RecordRegistration(h, r, ledger, reply, first),
                  RecordRegistration(h.(digest := d), r, ledger, reply, second))
  {}

  lemma RegisterTwins(h: Harness, d: Digest.Word, r: Record, env: Env)
    ensures Twins(RegisterDecision(h, r, env), RegisterDecision(h.(digest := d), r, env))
  {
    var (ledger, reply) := Ledger.Register(h.ledger, DecisionOf(h.config, r));
    var bytes := RecordBytes(r, DECISION_MARKER, env.bits);
    RecordTwins(h, d, r, ledger, reply, Digest.Mix(h.digest, bytes), Digest.Mix(d, bytes));
  }

  lemma ChoiceTwins(h: Harness, d: Digest.Word, r: Record, env: Env)
    requires Ready(h) && IsSqrt(env.sqrt)
    ensures Twins(CheckChoice(h, r, env), CheckChoice(h.(digest := d), r, env))
  {
    CompareTwins(h, d, r, StableChoice(h.model, r.context, env.sqrt), env);
  }

  lemma CompareTwins(h: Harness, d: Digest.Word, r: Record, choice: Result<nat>, env: Env)
    ensures Twins(CompareChoice(h, r, choice, env), CompareChoice(h.(digest := d), r, choice, env))
  {
    if choice.Ok? && choice.value == r.selectedArm { RegisterTwins(h, d, r, env); }
  }

  lemma DecisionTwins(h: Harness, d: Digest.Word, r: Record, env: Env)
    requires Ready(h) && IsSqrt(env.sqrt)
    ensures Twins(DecisionStep(h, r, env), DecisionStep(h.(digest := d), r, env))
  {
    var k := h.(digest := d);
    var g, g' := EnterGeneration(h, r.generation), EnterGeneration(k, r.generation);
    assert g.Err? ==> g' == g;
    if g.Ok? {
      assert g' == Ok(g.value.(digest := d));
      var n, n' := EnterDrift(g.value, r.drift), EnterDrift(g.value.(digest := d), r.drift);
      assert n.Err? ==> n' == n;
      if n.Ok? {
        assert n' == Ok(n.value.(digest := d));
        ChoiceTwins(n.value, d, r, env);
      }
    }
  }

  lemma SettleTwins(h: Harness, d: Digest.Word, r: Record, applied: Result<(Ledger.LedgerState, Stable)>,
                    first: Digest.Word, second: Digest.Word)
    requires r.outcomeTime.Some? && r.reward.Some? && r.timestamp <= r.outcomeTime.value && r.selectedArm < |h.perArmPulls|
    ensures Twins(Settle(h, r, applied, first), Settle(h.(digest := d), r, applied, second))
  {}

  lemma OutcomeTwins(h: Harness, d: Digest.Word, r: Record, env: Env)
    requires Ready(h) && IsSqrt(env.sqrt) && RecordOk(r, h.model)
    ensures Twins(OutcomeStep(h, r, env), OutcomeStep(h.(digest := d), r, env))
  {
    assert Judge(h.(digest := d), r) == Judge(h, r);
    if Judge(h, r) == Take {
      var bytes := RecordBytes(r, OUTCOME_MARKER, env.bits);
      SettleTwins(h, d, r, ApplyContextualOutcome(h.ledger, h.model, OutcomeOf(r), env.sqrt),
                  Digest.Mix(h.digest, bytes), Digest.Mix(d, bytes));
    }
  }

  /** One event does the same to both, and accepts the same fact. */
  lemma EventTwins(h: Harness, d: Digest.Word, records: seq<Record>, e: Event, env: Env)
    requires Ready(h) && IsSqrt(env.sqrt) && RecordsOk(records, h.model) && e.index < |records|
    ensures Twins(EventStep(h, records, e, env), EventStep(h.(digest := d), records, e, env))
  {
    if e.kind == 0 { DecisionTwins(h, d, records[e.index], env); } else { OutcomeTwins(h, d, records[e.index], env); }
  }

  lemma FactTwins(h: Harness, d: Digest.Word, records: seq<Record>, e: Event, next: Harness, d': Digest.Word)
    requires e.index < |records|
    ensures EventFacts(h.(digest := d), records, e, next.(digest := d')) == EventFacts(h, records, e, next)
  {
    assert Answers(h.(digest := d), records[e.index]) == Answers(h, records[e.index]);
  }

  lemma {:induction false} EventsTwins(h: Harness, d: Digest.Word, records: seq<Record>, events: seq<Event>, env: Env)
    requires Ready(h) && IsSqrt(env.sqrt) && RecordsOk(records, h.model) && Indexed(events, |records|)
    ensures Twins(RunEvents(h, records, events, env), RunEvents(h.(digest := d), records, events, env))
    ensures Journal(h, records, events, env) == Journal(h.(digest := d), records, events, env)
    decreases |events|
  {
    if events == [] {
    } else {
      var k := h.(digest := d);
      EventKeepsShape(h, records, events[0], env);
      EventKeepsShape(k, records, events[0], env);
      EventTwins(h, d, records, events[0], env);
      var step, step' := EventStep(h, records, events[0], env), EventStep(k, records, events[0], env);
      if step.Ok? {
        FactTwins(h, d, records, events[0], step.value, step'.value.digest);
        EventsTwins(step.value, step'.value.digest, records, events[1..], env);
      }
    }
  }

  lemma ChunkTwins(h: Harness, d: Digest.Word, records: seq<Record>, env: Env)
    requires HarnessValid(h) && Typed(h) && IsSqrt(env.sqrt)
    ensures HarnessValid(h.(digest := d)) && Typed(h.(digest := d))
    ensures Twins(Ok(Commit(h, records, env)), Ok(Commit(h.(digest := d), records, env)))
    ensures ChunkJournal(h, records, env) == ChunkJournal(h.(digest := d), records, env)
  {
    var k := h.(digest := d);
    CommitIs(h, records, env);
    CommitIs(k, records, env);
    ChunkValid(h, records, env);
    ChunkValid(k, records, env);
    if Admitted(h, records) {
      EventsIndexed(records);
      assert Start(k, records) == Start(h, records).(digest := d);
      EventsTwins(Start(h, records), d, records, Sort(EventsOf(records)), env);
    }
  }

  lemma {:induction false} HistoryTwins(h: Harness, d: Digest.Word, chunks: seq<seq<Record>>, env: Env)
    requires HarnessValid(h) && Typed(h) && IsSqrt(env.sqrt)
    ensures HarnessValid(h.(digest := d)) && Typed(h.(digest := d))
    ensures Twins(Ok(ReplayAll(h, chunks, env)), Ok(ReplayAll(h.(digest := d), chunks, env)))
    ensures HistoryJournal(h, chunks, env) == HistoryJournal(h.(digest := d), chunks, env)
  {
    if chunks == [] {
    } else {
      var n := |chunks| - 1;
      HistoryTwins(h, d, chunks[..n], env);
      var middle := ReplayAll(h, chunks[..n], env);
      ChunkTwins(middle, ReplayAll(h.(digest := d), chunks[..n], env).digest, chunks[n], env);
    }
  }

  /**
   Two harnesses that differ only in their digest accept the same facts from the same chunks, end in states that
   differ only in the digest again, and their digests never merge.
   */
  lemma DigestsNeverMerge(h: Harness, d: Digest.Word, chunks: seq<seq<Record>>, env: Env)
    requires HarnessValid(h) && Typed(h) && IsSqrt(env.sqrt) && d != h.digest
    ensures HarnessValid(h.(digest := d)) && Typed(h.(digest := d))
    ensures var a, b := ReplayAll(h, chunks, env), ReplayAll(h.(digest := d), chunks, env);
      b == a.(digest := b.digest) && a.digest != b.digest
  {
    HistoryTwins(h, d, chunks, env);
    HistoryBooks(h, chunks, env);
    HistoryBooks(h.(digest := d), chunks, env);
    var bytes := Bytes(HistoryJournal(h, chunks, env), env.bits);
    if ReplayAll(h, chunks, env).digest == ReplayAll(h.(digest := d), chunks, env).digest {
      Digest.MixInjective(h.digest, d, bytes);
    }
  }

  /** From a new harness the digest of a history is the FNV-1a hash of the bytes of its accepted facts. */
  lemma FreshDigest(model: Stable, config: ReplayConfig, chunks: seq<seq<Record>>, env: Env)
    requires StableValid(model) && NewHarness(model, config).Ok? && IsSqrt(env.sqrt)
    requires HarnessValid(NewHarness(model, config).value) && Typed(NewHarness(model, config).value)
    ensures var start := NewHarness(model, config).value;
      ReplayAll(start, chunks, env).digest
        == Digest.Mix(0xcbf29ce484222325, Bytes(HistoryJournal(start, chunks, env), env.bits))
  {
    HistoryBooks(NewHarness(model, config).value, chunks, env);
  }

  /** Histories whose accepted facts spell byte streams of equal length that differ in one byte end in different digests. */
  lemma OneByteSeparatesHistories(h: Harness, p: seq<seq<Record>>, q: seq<seq<Record>>, env: Env, i: nat)
    requires HarnessValid(h) && Typed(h) && IsSqrt(env.sqrt)
    requires var a, b := Bytes(HistoryJournal(h, p, env), env.bits), Bytes(HistoryJournal(h, q, env), env.bits);
      |a| == |b| && i < |a| && a[i] != b[i] && forall k :: 0 <= k < |a| && k != i ==> a[k] == b[k]
    ensures ReplayAll(h, p, env).digest != ReplayAll(h, q, env).digest
  {
    HistoryBooks(h, p, env);
    HistoryBooks(h, q, env);
    Digest.OneByteChangesDigest(h.digest, Bytes(HistoryJournal(h, p, env), env.bits),
                                Bytes(HistoryJournal(h, q, env), env.bits), i);
  }
}
