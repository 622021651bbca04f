/**
 The books of a replay: which facts a run of events accepts, and that digest, latencies, rewards, regret,
 baseline and pulls are the folds of exactly those facts, in order.
 */
module ReplayJournal {
  import opened Errors
  import opened Reals
  import opened Cholesky
  import opened RidgeBandit
  import opened Replay
  import opened ReplayInvariants
  import opened ReplayEvents
  import Ledger
  import Digest

  /** A newly registered decision, or an outcome accepted for a pending one. */
  datatype Fact = Chosen(record: Record) | Settled(record: Record)

  // ---- what one fact is worth ----

  function FactBytes(f: Fact, bits: real -> Digest.Word): seq<Digest.Byte> {
    RecordBytes(f.record, if f.Chosen? then DECISION_MARKER else OUTCOME_MARKER, bits)
  }

  /** From the record's own timestamp to its outcome. */
  function Latency(r: Record): nat {
    if r.outcomeTime.Some? && r.outcomeTime.value >= r.timestamp then r.outcomeTime.value - r.timestamp else 0
  }

  function RewardOf(r: Record): real {
    if r.reward.Some? then r.reward.value else 0.0
  }

  /** What the best known arm would have earned more, where that is known. */
  function RegretOf(r: Record): real {
    if r.optimalReward.None? then 0.0 else Max(r.optimalReward.value - RewardOf(r), 0.0)
  }

  function BaselineOf(r: Record): real {
    if r.baselineReward.None? then 0.0 else r.baselineReward.value
  }

  // ---- folds over the facts ----

  function Bytes(facts: seq<Fact>, bits: real -> Digest.Word): seq<Digest.Byte> {
    if facts == [] then [] else FactBytes(facts[0], bits) + Bytes(facts[1..], bits)
  }

  function Latencies(facts: seq<Fact>): seq<nat> {
    if facts == [] then [] else
      (if facts[0].Settled? then [Latency(facts[0].record)] else []) + Latencies(facts[1..])
  }

  function Total(facts: seq<Fact>, worth: Record -> real): real {
    if facts == [] then 0.0 else
      (if facts[0].Settled? then worth(facts[0].record) else 0.0) + Total(facts[1..], worth)
  }

  function Pulls(facts: seq<Fact>, arm: nat): nat {
    if facts == [] then 0 else
      (if facts[0].Settled? && facts[0].record.selectedArm == arm then 1 else 0) + Pulls(facts[1..], arm)
  }

  /** The new decisions that will have no outcome. */
  function Unanswered(facts: seq<Fact>): nat {
    if facts == [] then 0 else
      (if facts[0].Chosen? && facts[0].record.outcomeTime.None? then 1 else 0) + Unanswered(facts[1..])
  }

  /** `next` is `h` with the facts entered in all its books. */
  ghost predicate Booked(h: Harness, next: Harness, facts: seq<Fact>, bits: real -> Digest.Word) {
    && next.digest == Digest.Mix(h.digest, Bytes(facts, bits))
    && next.latencies == h.latencies + Latencies(facts)
    && next.cumulativeReward == h.cumulativeReward + Total(facts, RewardOf)
    && next.approximateRegret == h.approximateRegret + Total(facts, RegretOf)
    && next.baselineCumulativeReward == h.baselineCumulativeReward + Total(facts, BaselineOf)
    && next.missingFeedback == h.missingFeedback + Unanswered(facts)
    && |next.perArmPulls| == |h.perArmPulls|
    && forall arm :: 0 <= arm < |h.perArmPulls| ==> next.perArmPulls[arm] == h.perArmPulls[arm] + Pulls(facts, arm)
  }

  // ---- the facts of events ----

  /** The fact a successful event accepts, if any. */
  ghost function EventFacts(h: Harness, records: seq<Record>, e: Event, next: Harness): seq<Fact>
    requires e.index < |records|
  {
    if e.kind == 0 then (if Registers(h, next, records, e) then [Chosen(records[e.index])] else [])
    else (if Answers(h, records[e.index]) then [Settled(records[e.index])] else [])
  }

  /** The facts accepted by a run of events, in order. */
  ghost function Journal(h: Harness, records: seq<Record>, events: seq<Event>, env: Env): seq<Fact>
    requires Ready(h) && IsSqrt(env.sqrt) && RecordsOk(records, h.model) && Indexed(events, |records|)
    decreases |events|
  {
    if events == [] then [] else
      EventKeepsShape(h, records, events[0], env);
      match EventStep(h, records, events[0], env)
      case Err(_) => []
      case Ok(next) => EventFacts(h, records, events[0], next) + Journal(next, records, events[1..], env)
  }

  // ---- one event ----

  /** Every book but the digest is untouched. */
  ghost predicate SameBooks(h: Harness, next: Harness) {
    && next.latencies == h.latencies && next.perArmPulls == h.perArmPulls
    && next.cumulativeReward == h.cumulativeReward && next.approximateRegret == h.approximateRegret
    && next.baselineCumulativeReward == h.baselineCumulativeReward
  }

  lemma NothingBooked(h: Harness, next: Harness, bits: real -> Digest.Word)
    requires next.digest == h.digest && next.missingFeedback == h.missingFeedback && SameBooks(h, next)
    ensures Booked(h, next, [], bits)
  {}

  lemma DecisionBooks(h: Harness, records: seq<Record>, e: Event, env: Env)
    requires Ready(h) && Ledger.LedgerValid(h.ledger) && IsSqrt(env.sqrt) && e.index < |records| && e.kind == 0
    requires DecisionStep(h, records[e.index], env).Ok?
    ensures var next := DecisionStep(h, records[e.index], env).value;
      Booked(h, next, EventFacts(h, records, e, next), env.bits)
  {
    var r := records[e.index];
    var next := DecisionStep(h, r, env).value;
    DecisionEnds(h, r, env);
    if Registers(h, next, records, e) {
      ChosenBooked(h, next, r, env.bits);
    } else {
      NothingBooked(h, next, env.bits);
    }
  }

  lemma OneBytes(f: Fact, bits: real -> Digest.Word)
    ensures Bytes([f], bits) == FactBytes(f, bits)
  {
    assert [f][1..] == [];
  }

  lemma ChosenBooked(h: Harness, next: Harness, r: Record, bits: real -> Digest.Word)
    requires next.digest == Digest.Mix(h.digest, RecordBytes(r, DECISION_MARKER, bits)) && SameBooks(h, next)
    requires next.missingFeedback == h.missingFeedback + if r.outcomeTime.None? then 1 else 0
    ensures Booked(h, next, [Chosen(r)], bits)
  {
    OneBytes(Chosen(r), bits);
    assert [Chosen(r)][1..] == [];
  }

  lemma OutcomeBooks(h: Harness, r: Record, env: Env)
    requires Ready(h) && IsSqrt(env.sqrt) && RecordOk(r, h.model) && OutcomeStep(h, r, env).Ok?
    ensures Booked(h, OutcomeStep(h, r, env).value, if Answers(h, r) then [Settled(r)] else [], env.bits)
  {
    var next := OutcomeStep(h, r, env).value;
    if Answers(h, r) {
      SettledBooked(h, next, r, env);
    } else {
      NothingBooked(h, next, env.bits);
    }
  }

  lemma SettledBooked(h: Harness, next: Harness, r: Record, env: Env)
    requires Ready(h) && IsSqrt(env.sqrt) && RecordOk(r, h.model) && Answers(h, r)
    requires Accept(h, r, env) == Ok(next)
    ensures Booked(h, next, [Settled(r)], env.bits)
  {
    AnsweredMeaning(h, r, env);
    AnsweredBooked(h, r, next.model, env.bits);
  }

  lemma AnsweredBooked(h: Harness, r: Record, model: Stable, bits: real -> Digest.Word)
    requires Answers(h, r) && r.timestamp <= r.outcomeTime.value && r.selectedArm < |h.perArmPulls|
    ensures Booked(h, Answered(h, r, model, bits), [Settled(r)], bits)
  {
    OneBytes(Settled(r), bits);
    assert [Settled(r)][1..] == [];
    assert Latencies([Settled(r)]) == [Latency(r)];
  }

  lemma EventBooks(h: Harness, records: seq<Record>, e: Event, env: Env)
    requires Ready(h) && Ledger.LedgerValid(h.ledger) && IsSqrt(env.sqrt) && RecordsOk(records, h.model) && e.index < |records|
    requires EventStep(h, records, e, env).Ok?
    ensures var next := EventStep(h, records, e, env).value;
      Booked(h, next, EventFacts(h, records, e, next), env.bits)
  {
    if e.kind == 0 { DecisionBooks(h, records, e, env); } else { OutcomeBooks(h, records[e.index], env); }
  }

  // ---- runs, chunks and histories ----

  lemma Regroup<T>(a: seq<T>, b: seq<T>, c: seq<T>)
    ensures (a + b) + c == a + (b + c)
  {}

  lemma {:induction false} BytesConcat(a: seq<Fact>, b: seq<Fact>, bits: real -> Digest.Word)
    ensures Bytes(a + b, bits) == Bytes(a, bits) + Bytes(b, bits)
  {
    if a == [] {
      assert a + b == b;
    } else {
      BytesConcat(a[1..], b, bits);
      assert (a + b)[1..] == a[1..] + b && (a + b)[0] == a[0];
      Regroup(FactBytes(a[0], bits), Bytes(a[1..], bits), Bytes(b, bits));
    }
  }

  lemma {:induction false} LatenciesConcat(a: seq<Fact>, b: seq<Fact>)
    ensures Latencies(a + b) == Latencies(a) + Latencies(b)
  {
    if a == [] {
      assert a + b == b;
    } else {
      LatenciesConcat(a[1..], b);
      assert (a + b)[1..] == a[1..] + b && (a + b)[0] == a[0];
    }
  }

  lemma {:induction false} TotalConcat(a: seq<Fact>, b: seq<Fact>, worth: Record -> real)
    ensures Total(a + b, worth) == Total(a, worth) + Total(b, worth)
  {
    if a == [] {
      assert a + b == b;
    } else {
      TotalConcat(a[1..], b, worth);
      assert (a + b)[1..] == a[1..] + b && (a + b)[0] == a[0];
    }
  }

  lemma {:induction false} PullsConcat(a: seq<Fact>, b: seq<Fact>, arm: nat)
    ensures Pulls(a + b, arm) == Pulls(a, arm) + Pulls(b, arm)
  {
    if a == [] {
      assert a + b == b;
    } else {
      PullsConcat(a[1..], b, arm);
      assert (a + b)[1..] == a[1..] + b && (a + b)[0] == a[0];
    }
  }

  lemma {:induction false} UnansweredConcat(a: seq<Fact>, b: seq<Fact>)
    ensures Unanswered(a + b) == Unanswered(a) + Unanswered(b)
  {
    if a == [] {
      assert a + b == b;
    } else {
      UnansweredConcat(a[1..], b);
      assert (a + b)[1..] == a[1..] + b && (a + b)[0] == a[0];
    }
  }

  /** Entering facts twice is entering them together. */
  lemma BookedTogether(h: Harness, middle: Harness, next: Harness, a: seq<Fact>, b: seq<Fact>, bits: real -> Digest.Word)
    requires Booked(h, middle, a, bits) && Booked(middle, next, b, bits)
    ensures Booked(h, next, a + b, bits)
  {
    DigestTogether(h.digest, a, b, bits);
    LatenciesConcat(a, b);
    UnansweredConcat(a, b);
    Regroup(h.latencies, Latencies(a), Latencies(b));
    TotalConcat(a, b, RewardOf);
    TotalConcat(a, b, RegretOf);
    TotalConcat(a, b, BaselineOf);
    forall arm | 0 <= arm < |h.perArmPulls| ensures next.perArmPulls[arm] == h.perArmPulls[arm] + Pulls(a + b, arm) {
      PullsConcat(a, b, arm);
    }
  }

  lemma DigestTogether(digest: Digest.Word, a: seq<Fact>, b: seq<Fact>, bits: real -> Digest.Word)
    ensures Digest.Mix(digest, Bytes(a + b, bits)) == Digest.Mix(Digest.Mix(digest, Bytes(a, bits)), Bytes(b, bits))
  {
    BytesConcat(a, b, bits);
    Digest.MixAppend(digest, Bytes(a, bits), Bytes(b, bits));
  }

  lemma {:induction false} EventsBook(h: Harness, records: seq<Record>, events: seq<Event>, env: Env)
    requires Structured(h) && Typed(h) && IsSqrt(env.sqrt) && RecordsOk(records, h.model) && Indexed(events, |records|)
    requires RunEvents(h, records, events, env).Ok?
    ensures Booked(h, RunEvents(h, records, events, env).value, Journal(h, records, events, env), env.bits)
    decreases |events|
  {
    if events == [] {
      NothingBooked(h, h, env.bits);
    } else {
      EventKeepsShape(h, records, events[0], env);
      EventKeeps(h, records, events[0], env);
      EventBooks(h, records, events[0], env);
      var middle := EventStep(h, records, events[0], env).value;
      EventsBook(middle, records, events[1..], env);
      BookedTogether(h, middle, RunEvents(middle, records, events[1..], env).value,
                     EventFacts(h, records, events[0], middle), Journal(middle, records, events[1..], env), env.bits);
    }
  }

  /** The facts a chunk accepts; none when it fails. */
  ghost function ChunkJournal(h: Harness, records: seq<Record>, env: Env): seq<Fact>
    requires HarnessValid(h) && Typed(h) && IsSqrt(env.sqrt)
  {
    if ReplayChunk(h, records, env).Err? then [] else
      ChunkValid(h, records, env);
      EventsIndexed(records);
      Journal(Start(h, records), records, Sort(EventsOf(records)), env)
  }

  /** A committed chunk enters exactly its facts: digest, latencies and totals are folds of them. */
  lemma ChunkBooks(h: Harness, records: seq<Record>, env: Env)
    requires HarnessValid(h) && Typed(h) && IsSqrt(env.sqrt)
    ensures Booked(h, Commit(h, records, env), ChunkJournal(h, records, env), env.bits)
  {
    CommitIs(h, records, env);
    if ReplayChunk(h, records, env).Err? {
      NothingBooked(h, h, env.bits);
    } else {
      ChunkValid(h, records, env);
      EventsIndexed(records);
      EventsBook(Start(h, records), records, Sort(EventsOf(records)), env);
    }
  }

  ghost function HistoryJournal(h: Harness, chunks: seq<seq<Record>>, env: Env): seq<Fact>
    requires HarnessValid(h) && Typed(h) && IsSqrt(env.sqrt)
  {
    if chunks == [] then [] else
      var n := |chunks| - 1;
      HistoryJournal(h, chunks[..n], env) + ChunkJournal(ReplayAll(h, chunks[..n], env), chunks[n], env)
  }

  /**
   After every history of chunks the digest is that of the accepted facts' bytes mixed into the first one, the
   latencies are the accepted outcomes' delays from their own records' timestamps, in order, and reward, regret,
   baseline and pulls are the sums over the same outcomes.
   */
  lemma {:induction false} HistoryBooks(h: Harness, chunks: seq<seq<Record>>, env: Env)
    requires HarnessValid(h) && Typed(h) && IsSqrt(env.sqrt)
    ensures Booked(h, ReplayAll(h, chunks, env), HistoryJournal(h, chunks, env), env.bits)
  {
    if chunks == [] {
      NothingBooked(h, h, env.bits);
    } else {
      var n := |chunks| - 1;
      var middle := ReplayAll(h, chunks[..n], env);
      HistoryBooks(h, chunks[..n], env);
      ChunkBooks(middle, chunks[n], env);
      BookedTogether(h, middle, Commit(middle, chunks[n], env),
                     HistoryJournal(h, chunks[..n], env), ChunkJournal(middle, chunks[n], env), env.bits);
    }
  }
}
