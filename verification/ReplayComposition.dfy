/** Chunked replay composes: splitting a history at a time boundary changes nothing. */
module ReplayComposition {
  import opened Errors
  import opened Cholesky
  import opened RidgeBandit
  import opened Replay
  import opened ReplayInvariants
  import Ledger
  import Digest

  // ---- the sort ----

  ghost predicate Sorted(events: seq<Event>) {
    forall i, j :: 0 <= i < j < |events| ==> !Before(events[j], events[i])
  }

  ghost predicate AllBefore(first: seq<Event>, second: seq<Event>) {
    forall i, j :: 0 <= i < |first| && 0 <= j < |second| ==> Before(first[i], second[j])
  }

  lemma {:induction false} InsertKeepsEvents(events: seq<Event>, e: Event)
    ensures multiset(Insert(events, e)) == multiset(events) + multiset{e}
  {
    if events == [] || Before(events[|events| - 1], e) {
    } else {
      InsertKeepsEvents(events[..|events| - 1], e);
      assert events == events[..|events| - 1] + [events[|events| - 1]];
    }
  }

  lemma SortedAppend(events: seq<Event>, e: Event)
    requires Sorted(events) && forall i :: 0 <= i < |events| ==> !Before(e, events[i])
    ensures Sorted(events + [e])
  {}

  lemma {:induction false} InsertKeepsOrder(events: seq<Event>, e: Event)
    requires Sorted(events)
    ensures Sorted(Insert(events, e))
  {
    if events == [] || Before(events[|events| - 1], e) {
      forall i | 0 <= i < |events| ensures !Before(e, events[i]) {
        if i < |events| - 1 { assert !Before(events[|events| - 1], events[i]); }
      }
      SortedAppend(events, e);
    } else {
      var init, last := events[..|events| - 1], events[|events| - 1];
      InsertKeepsOrder(init, e);
      InsertKeepsEvents(init, e);
      var r := Insert(init, e);
      forall i | 0 <= i < |r| ensures !Before(last, r[i]) {
        assert r[i] in multiset(r);
        if r[i] != e {
          assert r[i] in multiset(init);
          var k :| 0 <= k < |init| && init[k] == r[i];
          assert !Before(last, events[k]);
        }
      }
      SortedAppend(r, last);
    }
  }

  /** Sorting orders the events by key and keeps exactly the same events. */
  lemma {:induction false} SortSound(events: seq<Event>)
    ensures Sorted(Sort(events)) && multiset(Sort(events)) == multiset(events)
  {
    if events == [] {
    } else {
      var n := |events| - 1;
      SortSound(events[..n]);
      InsertKeepsOrder(Sort(events[..n]), events[n]);
      InsertKeepsEvents(Sort(events[..n]), events[n]);
      assert events == events[..n] + [events[n]];
    }
  }

  /** Any two sorted arrangements of the same events are equal, so the choice of sort does not matter. */
  lemma {:induction false} SortedUnique(a: seq<Event>, b: seq<Event>)
    requires Sorted(a) && Sorted(b) && multiset(a) == multiset(b)
    ensures a == b
  {
    assert |a| == |multiset(a)| == |multiset(b)| == |b|;
    if a == [] {
    } else {
      HeadsAgree(a, b);
      TailsAgree(a, b);
      SortedUnique(a[1..], b[1..]);
      assert a == [a[0]] + a[1..] && b == [b[0]] + b[1..];
    }
  }

  lemma HeadsAgree(a: seq<Event>, b: seq<Event>)
    requires Sorted(a) && Sorted(b) && multiset(a) == multiset(b) && a != [] && b != []
    ensures a[0] == b[0]
  {
    assert a[0] in multiset(b) && b[0] in multiset(a);
    var i :| 0 <= i < |b| && b[i] == a[0];
    var j :| 0 <= j < |a| && a[j] == b[0];
    assert !Before(a[0], b[0]) by { if i > 0 { assert !Before(b[i], b[0]); } }
    assert !Before(b[0], a[0]) by { if j > 0 { assert !Before(a[j], a[0]); } }
  }

  lemma TailsAgree(a: seq<Event>, b: seq<Event>)
    requires multiset(a) == multiset(b) && a != [] && b != [] && a[0] == b[0]
    ensures multiset(a[1..]) == multiset(b[1..])
  {
    assert a == [a[0]] + a[1..] && b == [b[0]] + b[1..];
    assert multiset(a[1..]) == multiset(a) - multiset{a[0]};
    assert multiset(b[1..]) == multiset(b) - multiset{b[0]};
  }

  lemma AppendSorted(first: seq<Event>, second: seq<Event>)
    requires Sorted(first) && Sorted(second) && AllBefore(first, second)
    ensures Sorted(first + second)
  {}

  lemma AllBeforeSorted(first: seq<Event>, second: seq<Event>)
    requires AllBefore(first, second)
    ensures AllBefore(Sort(first), Sort(second))
  {
    SortSound(first);
    SortSound(second);
    var a, b := Sort(first), Sort(second);
    forall i, j | 0 <= i < |a| && 0 <= j < |b| ensures Before(a[i], b[j]) {
      assert a[i] in multiset(first) && b[j] in multiset(second);
      var k :| 0 <= k < |first| && first[k] == a[i];
      var m :| 0 <= m < |second| && second[m] == b[j];
      assert Before(first[k], second[m]);
    }
  }

  /** The sort splits at a boundary that separates the keys. */
  lemma SortSplits(first: seq<Event>, second: seq<Event>)
    requires AllBefore(first, second)
    ensures Sort(first + second) == Sort(first) + Sort(second)
  {
    SortSound(first);
    SortSound(second);
    SortSound(first + second);
    AllBeforeSorted(first, second);
    AppendSorted(Sort(first), Sort(second));
    SortedUnique(Sort(first + second), Sort(first) + Sort(second));
  }

  // ---- renumbering the records of the second chunk ----

  function Shift(events: seq<Event>, offset: nat): (r: seq<Event>)
    ensures |r| == |events|
  {
    seq(|events|, i requires 0 <= i < |events| => events[i].(index := events[i].index + offset))
  }

  lemma {:induction false} InsertShift(events: seq<Event>, e: Event, offset: nat)
    ensures Insert(Shift(events, offset), e.(index := e.index + offset)) == Shift(Insert(events, e), offset)
  {
    var s := Shift(events, offset);
    if events == [] || Before(events[|events| - 1], e) {
    } else {
      InsertShift(events[..|events| - 1], e, offset);
      assert s[..|s| - 1] == Shift(events[..|events| - 1], offset);
    }
  }

  lemma {:induction false} SortShift(events: seq<Event>, offset: nat)
    ensures Sort(Shift(events, offset)) == Shift(Sort(events), offset)
  {
    if events == [] {
    } else {
      var n := |events| - 1;
      SortShift(events[..n], offset);
      assert Shift(events, offset)[..n] == Shift(events[..n], offset);
      InsertShift(Sort(events[..n]), events[n], offset);
    }
  }

  lemma ShiftAppend(a: seq<Event>, b: seq<Event>, offset: nat)
    ensures Shift(a + b, offset) == Shift(a, offset) + Shift(b, offset)
  {}

  lemma {:induction false} EventsAppend(a: seq<Record>, b: seq<Record>)
    ensures EventsOf(a + b) == EventsOf(a) + Shift(EventsOf(b), |a|)
  {
    if b == [] {
      assert a + b == a;
    } else {
      var n := |b| - 1;
      EventsAppend(a, b[..n]);
      assert (a + b)[..|a| + n] == a + b[..n];
      ShiftAppend(EventsOf(b[..n]), RecordEvents(b[n], n), |a|);
      assert RecordEvents(b[n], |a| + n) == Shift(RecordEvents(b[n], n), |a|);
    }
  }

  // ---- times ----

  function Earliest(r: Record): nat {
    if r.outcomeTime.Some? && r.outcomeTime.value < r.timestamp then r.outcomeTime.value else r.timestamp
  }

  function Latest(r: Record): nat {
    if r.outcomeTime.Some? && r.outcomeTime.value > r.timestamp then r.outcomeTime.value else r.timestamp
  }

  /** Every event time of `a` is before every event time of `b`. */
  ghost predicate Precedes(a: seq<Record>, b: seq<Record>) {
    forall i, j :: 0 <= i < |a| && 0 <= j < |b| ==> Latest(a[i]) < Earliest(b[j])
  }

  lemma {:induction false} EventTimes(records: seq<Record>, k: nat) returns (i: nat)
    requires k < |EventsOf(records)|
    ensures i < |records| && Earliest(records[i]) <= EventsOf(records)[k].time <= Latest(records[i])
  {
    var n := |records| - 1;
    if k < |EventsOf(records[..n])| {
      i := EventTimes(records[..n], k);
    } else {
      i := n;
    }
  }

  lemma PrecedesEvents(a: seq<Record>, b: seq<Record>)
    requires Precedes(a, b)
    ensures AllBefore(EventsOf(a), Shift(EventsOf(b), |a|))
  {
    var first, second := EventsOf(a), EventsOf(b);
    forall k, m | 0 <= k < |first| && 0 <= m < |second| ensures Before(first[k], Shift(second, |a|)[m]) {
      var i := EventTimes(a, k);
      var j := EventTimes(b, m);
    }
  }

  /** The events of the joined history, in order: those of `a`, then those of `b` renumbered. */
  lemma OrderSplits(a: seq<Record>, b: seq<Record>)
    requires Precedes(a, b)
    ensures Sort(EventsOf(a + b)) == Sort(EventsOf(a)) + Shift(Sort(EventsOf(b)), |a|)
  {
    EventsAppend(a, b);
    PrecedesEvents(a, b);
    SortSplits(EventsOf(a), Shift(EventsOf(b), |a|));
    SortShift(EventsOf(b), |a|);
  }

  // ---- running the events ----

  lemma {:induction false} RunAppend(h: Harness, records: seq<Record>, first: seq<Event>, second: seq<Event>, env: Env)
    requires Ready(h) && IsSqrt(env.sqrt) && RecordsOk(records, h.model)
    requires Indexed(first, |records|) && Indexed(second, |records|)
    ensures RunEvents(h, records, first + second, env) ==
      match RunEvents(h, records, first, env)
      case Err(e) => Err(e)
      case Ok(middle) => RunEvents(middle, records, second, env)
    decreases |first|
  {
    if first == [] {
      assert first + second == second;
    } else {
      EventKeepsShape(h, records, first[0], env);
      assert (first + second)[1..] == first[1..] + second;
      var step := EventStep(h, records, first[0], env);
      if step.Ok? { RunAppend(step.value, records, first[1..], second, env); }
    }
  }

  lemma {:induction false} RunPrefix(h: Harness, a: seq<Record>, b: seq<Record>, events: seq<Event>, env: Env)
    requires Ready(h) && IsSqrt(env.sqrt) && RecordsOk(a + b, h.model) && RecordsOk(a, h.model)
    requires Indexed(events, |a|) && Indexed(events, |a + b|)
    ensures RunEvents(h, a + b, events, env) == RunEvents(h, a, events, env)
    decreases |events|
  {
    if events == [] {
    } else {
      EventKeepsShape(h, a, events[0], env);
      var step := EventStep(h, a, events[0], env);
      if step.Ok? { RunPrefix(step.value, a, b, events[1..], env); }
    }
  }

  lemma {:induction false} RunShift(h: Harness, a: seq<Record>, b: seq<Record>, events: seq<Event>, env: Env)
    requires Ready(h) && IsSqrt(env.sqrt) && RecordsOk(a + b, h.model) && RecordsOk(b, h.model)
    requires Indexed(events, |b|) && Indexed(Shift(events, |a|), |a + b|)
    ensures RunEvents(h, a + b, Shift(events, |a|), env) == RunEvents(h, b, events, env)
    decreases |events|
  {
    if events == [] {
    } else {
      EventKeepsShape(h, b, events[0], env);
      assert Shift(events, |a|)[1..] == Shift(events[1..], |a|);
      var step := EventStep(h, b, events[0], env);
      assert EventStep(h, a + b, Shift(events, |a|)[0], env) == step;
      if step.Ok? { RunShift(step.value, a, b, events[1..], env); }
    }
  }

  function WithProcessed(r: Result<Harness>, n: nat): Result<Harness> {
    match r
    case Err(e) => Err(e)
    case Ok(h) => Ok(h.(processedRecords := n))
  }

  lemma ChoiceIgnoresProcessed(h: Harness, r: Record, n: nat, env: Env)
    requires Ready(h) && IsSqrt(env.sqrt)
    ensures CheckChoice(h.(processedRecords := n), r, env) == WithProcessed(CheckChoice(h, r, env), n)
  {
    CompareIgnoresProcessed(h, r, StableChoice(h.model, r.context, env.sqrt), n, env);
  }

  lemma CompareIgnoresProcessed(h: Harness, r: Record, choice: Result<nat>, n: nat, env: Env)
    ensures CompareChoice(h.(processedRecords := n), r, choice, env) == WithProcessed(CompareChoice(h, r, choice, env), n)
  {
    if choice.Ok? && choice.value == r.selectedArm { RegisterIgnoresProcessed(h, r, n, env); }
  }

  lemma RegisterIgnoresProcessed(h: Harness, r: Record, n: nat, env: Env)
    ensures RegisterDecision(h.(processedRecords := n), r, env) == WithProcessed(RegisterDecision(h, r, env), n)
  {
    var (ledger, reply) := Ledger.Register(h.ledger, DecisionOf(h.config, r));
    var digest := Digest.Mix(h.digest, RecordBytes(r, DECISION_MARKER, env.bits));
    RecordIgnoresProcessed(h, r, ledger, reply, digest, n);
  }

  lemma RecordIgnoresProcessed(
    h: Harness, r: Record, ledger: Ledger.LedgerState, reply: Ledger.Reply, digest: Digest.Word, n: nat)
    ensures RecordRegistration(h.(processedRecords := n), r, ledger, reply, digest)
      == WithProcessed(RecordRegistration(h, r, ledger, reply, digest), n)
  {}

  lemma DecisionIgnoresProcessed(h: Harness, r: Record, n: nat, env: Env)
    requires Ready(h) && IsSqrt(env.sqrt)
    ensures DecisionStep(h.(processedRecords := n), r, env) == WithProcessed(DecisionStep(h, r, env), n)
  {
    var k := h.(processedRecords := n);
    var g := EnterGeneration(h, r.generation);
    assert EnterGeneration(k, r.generation) == WithProcessed(g, n);
    if g.Ok? {
      var d := EnterDrift(g.value, r.drift);
      assert EnterDrift(g.value.(processedRecords := n), r.drift) == WithProcessed(d, n);
      if d.Ok? { ChoiceIgnoresProcessed(d.value, r, n, env); }
    }
  }

  lemma AcceptIgnoresProcessed(h: Harness, r: Record, n: nat, env: Env)
    requires Ready(h) && IsSqrt(env.sqrt)
    requires r.outcomeTime.Some? && r.reward.Some? && r.timestamp <= r.outcomeTime.value && r.selectedArm < h.model.armCount
    ensures Accept(h.(processedRecords := n), r, env) == WithProcessed(Accept(h, r, env), n)
  {
    SettleIgnoresProcessed(h, r, ApplyContextualOutcome(h.ledger, h.model, OutcomeOf(r), env.sqrt),
                           Digest.Mix(h.digest, RecordBytes(r, OUTCOME_MARKER, env.bits)), n);
  }

  lemma SettleIgnoresProcessed(
    h: Harness, r: Record, applied: Result<(Ledger.LedgerState, Stable)>, digest: Digest.Word, n: nat)
    requires r.outcomeTime.Some? && r.reward.Some? && r.timestamp <= r.outcomeTime.value && r.selectedArm < |h.perArmPulls|
    ensures Settle(h.(processedRecords := n), r, applied, digest) == WithProcessed(Settle(h, r, applied, digest), n)
  {}

  lemma OutcomeIgnoresProcessed(h: Harness, r: Record, n: nat, env: Env)
    requires Ready(h) && IsSqrt(env.sqrt) && RecordOk(r, h.model)
    ensures OutcomeStep(h.(processedRecords := n), r, env) == WithProcessed(OutcomeStep(h, r, env), n)
  {
    assert Judge(h.(processedRecords := n), r) == Judge(h, r);
    if Judge(h, r) == Take { AcceptIgnoresProcessed(h, r, n, env); }
  }

  /** No event reads or writes the record counter. */
  lemma StepIgnoresProcessed(h: Harness, records: seq<Record>, e: Event, n: nat, env: Env)
    requires Ready(h) && IsSqrt(env.sqrt) && RecordsOk(records, h.model) && e.index < |records|
    ensures EventStep(h.(processedRecords := n), records, e, env) == WithProcessed(EventStep(h, records, e, env), n)
  {
    DecisionIgnoresProcessed(h, records[e.index], n, env);
    OutcomeIgnoresProcessed(h, records[e.index], n, env);
  }

  lemma {:induction false} RunIgnoresProcessed(h: Harness, records: seq<Record>, events: seq<Event>, n: nat, env: Env)
    requires Ready(h) && IsSqrt(env.sqrt) && RecordsOk(records, h.model) && Indexed(events, |records|)
    ensures RunEvents(h.(processedRecords := n), records, events, env) == WithProcessed(RunEvents(h, records, events, env), n)
    decreases |events|
  {
    if events == [] {
    } else {
      StepIgnoresProcessed(h, records, events[0], n, env);
      EventKeepsShape(h, records, events[0], env);
      EventKeepsShape(h.(processedRecords := n), records, events[0], env);
      var step := EventStep(h, records, events[0], env);
      if step.Ok? { RunIgnoresProcessed(step.value, records, events[1..], n, env); }
    }
  }

  // ---- composition ----

  /** Replaying the joined records is replaying the first part and then the second from its result. */
  lemma InPlaceComposes(h: Harness, a: seq<Record>, b: seq<Record>, env: Env)
    requires Ready(h) && IsSqrt(env.sqrt) && Precedes(a, b)
    requires RecordsOk(a + b, h.model) && RecordsOk(a, h.model) && RecordsOk(b, h.model)
    ensures ReplayInPlace(h, a + b, env) ==
      match ReplayInPlace(h, a, env)
      case Err(e) => Err(e)
      case Ok(middle) => ReplayInPlace(middle, b, env)
  {
    var first, second := Sort(EventsOf(a)), Sort(EventsOf(b));
    OrderSplits(a, b);
    EventsIndexed(a);
    EventsIndexed(b);
    EventsIndexed(a + b);
    RunAppend(h, a + b, first, Shift(second, |a|), env);
    RunPrefix(h, a, b, first, env);
    var middle := RunEvents(h, a, first, env);
    if middle.Ok? { RunShift(middle.value, a, b, second, env); }
  }

  lemma JoinedOk(a: seq<Record>, b: seq<Record>, model: Stable)
    ensures RecordsOk(a + b, model) <==> RecordsOk(a, model) && RecordsOk(b, model)
  {
    if RecordsOk(a + b, model) {
      forall i | 0 <= i < |a| ensures RecordOk(a[i], model) { assert (a + b)[i] == a[i]; }
      forall i | 0 <= i < |b| ensures RecordOk(b[i], model) { assert (a + b)[|a| + i] == b[i]; }
    }
  }

  /** Admission of the joined chunk is admission of both, the second counted after the first. */
  lemma AdmissionSplits(h: Harness, a: seq<Record>, b: seq<Record>)
    ensures Admitted(h, a + b) <==>
      Admitted(h, a) && RecordsOk(b, h.model) && h.processedRecords + |a| + |b| <= h.config.maxRecords
  {
    JoinedOk(a, b, h.model);
  }

  /** Where a committed first part leaves the admission of the second. */
  lemma AdmissionAfter(h: Harness, a: seq<Record>, b: seq<Record>, env: Env)
    requires HarnessValid(h) && Typed(h) && IsSqrt(env.sqrt) && ReplayChunk(h, a, env).Ok?
    ensures Admitted(h, a)
    ensures Admitted(ReplayChunk(h, a, env).value, b) <==>
      RecordsOk(b, h.model) && h.processedRecords + |a| + |b| <= h.config.maxRecords
  {
    ChunkValid(h, a, env);
  }

  lemma AdmittedCompose(h: Harness, a: seq<Record>, b: seq<Record>, env: Env)
    requires Ready(h) && IsSqrt(env.sqrt) && Precedes(a, b)
    requires RecordsOk(a + b, h.model) && RecordsOk(a, h.model) && RecordsOk(b, h.model)
    ensures var all := h.processedRecords + |a| + |b|;
      ReplayInPlace(h.(processedRecords := all), a + b, env) ==
      match ReplayInPlace(h.(processedRecords := h.processedRecords + |a|), a, env)
      case Err(e) => Err(e)
      case Ok(middle) => ReplayInPlace(middle.(processedRecords := all), b, env)
  {
    var all := h.processedRecords + |a| + |b|;
    var start := h.(processedRecords := h.processedRecords + |a|);
    InPlaceComposes(h.(processedRecords := all), a, b, env);
    InPlaceIgnoresProcessed(start, a, all, env);
    assert start.(processedRecords := all) == h.(processedRecords := all);
  }

  lemma InPlaceIgnoresProcessed(h: Harness, records: seq<Record>, n: nat, env: Env)
    requires Ready(h) && IsSqrt(env.sqrt) && RecordsOk(records, h.model)
    ensures ReplayInPlace(h.(processedRecords := n), records, env) ==
      match ReplayInPlace(h, records, env)
      case Err(e) => Err(e)
      case Ok(next) => Ok(next.(processedRecords := n))
  {
    EventsIndexed(records);
    RunIgnoresProcessed(h, records, Sort(EventsOf(records)), n, env);
  }

  /** The events of an admitted chunk, run with its records already counted. */
  ghost function Played(h: Harness, records: seq<Record>, env: Env): Result<Harness>
    requires Ready(h) && IsSqrt(env.sqrt) && RecordsOk(records, h.model)
  {
    ReplayInPlace(Start(h, records), records, env)
  }

  lemma PlayedIsChunk(h: Harness, records: seq<Record>, env: Env)
    requires HarnessValid(h) && Typed(h) && IsSqrt(env.sqrt) && Admitted(h, records)
    ensures ReplayChunk(h, records, env).Ok? <==> Played(h, records, env).Ok?
    ensures Played(h, records, env).Ok? ==> ReplayChunk(h, records, env) == Played(h, records, env)
    ensures Played(h, records, env).Ok? ==>
      HarnessValid(Played(h, records, env).value) && Typed(Played(h, records, env).value)
  {
    ChunkValid(h, records, env);
  }

  lemma StartJoined(h: Harness, a: seq<Record>, b: seq<Record>)
    ensures Start(h, a + b) == h.(processedRecords := h.processedRecords + |a| + |b|)
    ensures Start(h, a) == h.(processedRecords := h.processedRecords + |a|)
  {}

  lemma PlayedAfter(h: Harness, a: seq<Record>, b: seq<Record>, env: Env)
    requires Ready(h) && IsSqrt(env.sqrt) && RecordsOk(a, h.model) && RecordsOk(b, h.model) && Played(h, a, env).Ok?
    ensures var middle := Played(h, a, env).value;
      && Ready(middle) && RecordsOk(b, middle.model)
      && Start(middle, b) == middle.(processedRecords := h.processedRecords + |a| + |b|)
  {}

  lemma PlayedComposes(h: Harness, a: seq<Record>, b: seq<Record>, env: Env)
    requires Ready(h) && IsSqrt(env.sqrt) && Precedes(a, b)
    requires RecordsOk(a + b, h.model) && RecordsOk(a, h.model) && RecordsOk(b, h.model)
    ensures Played(h, a, env).Err? ==> Played(h, a + b, env).Err?
    ensures Played(h, a, env).Ok? ==>
      var middle := Played(h, a, env).value;
      Ready(middle) && RecordsOk(b, middle.model) && Played(h, a + b, env) == Played(middle, b, env)
  {
    AdmittedCompose(h, a, b, env);
    StartJoined(h, a, b);
    if Played(h, a, env).Ok? {
      PlayedAfter(h, a, b, env);
    }
  }

  /** The joined chunk and the first part succeed or fail together with the second, once admitted. */
  lemma AdmittedChunks(h: Harness, a: seq<Record>, b: seq<Record>, env: Env)
    requires HarnessValid(h) && Typed(h) && IsSqrt(env.sqrt) && Precedes(a, b)
    requires Admitted(h, a + b) && Admitted(h, a) && RecordsOk(b, h.model)
    ensures ReplayChunk(h, a, env).Err? ==> ReplayChunk(h, a + b, env).Err?
    ensures ReplayChunk(h, a, env).Ok? ==>
      var middle := ReplayChunk(h, a, env).value;
      && (ReplayChunk(h, a + b, env).Ok? <==> ReplayChunk(middle, b, env).Ok?)
      && (ReplayChunk(h, a + b, env).Ok? ==> ReplayChunk(h, a + b, env) == ReplayChunk(middle, b, env))
  {
    PlayedIsChunk(h, a + b, env);
    PlayedIsChunk(h, a, env);
    PlayedComposes(h, a, b, env);
    if Played(h, a, env).Ok? {
      AdmissionSplits(h, a, b);
      AdmissionAfter(h, a, b, env);
      PlayedIsChunk(Played(h, a, env).value, b, env);
    }
  }

  /**
   Chunked replay composes: when every event time of `a` is before every event time of `b`, replaying
   the joined chunk from a valid harness succeeds exactly when replaying `a` and then `b` does, and
   commits the same harness, counters, latencies and digest included.
   */
  lemma ChunksCompose(h: Harness, a: seq<Record>, b: seq<Record>, env: Env)
    requires HarnessValid(h) && Typed(h) && IsSqrt(env.sqrt) && Precedes(a, b)
    ensures ReplayChunk(h, a + b, env).Ok? <==>
      ReplayChunk(h, a, env).Ok? && ReplayChunk(ReplayChunk(h, a, env).value, b, env).Ok?
    ensures ReplayChunk(h, a + b, env).Ok? ==>
      ReplayChunk(h, a + b, env) == ReplayChunk(ReplayChunk(h, a, env).value, b, env)
  {
    AdmissionSplits(h, a, b);
    if Admitted(h, a + b) {
      AdmittedChunks(h, a, b, env);
    } else {
      NotAdmitted(h, a, b, env);
    }
  }

  lemma NotAdmitted(h: Harness, a: seq<Record>, b: seq<Record>, env: Env)
    requires HarnessValid(h) && Typed(h) && IsSqrt(env.sqrt) && !Admitted(h, a + b)
    ensures ReplayChunk(h, a + b, env).Err?
    ensures ReplayChunk(h, a, env).Ok? ==> ReplayChunk(ReplayChunk(h, a, env).value, b, env).Err?
  {
    ChunkValid(h, a + b, env);
    AdmissionSplits(h, a, b);
    if ReplayChunk(h, a, env).Ok? {
      AdmissionAfter(h, a, b, env);
      ChunkValid(h, a, env);
      ChunkValid(ReplayChunk(h, a, env).value, b, env);
    }
  }
}
