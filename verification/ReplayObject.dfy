/**
 The mutable replay harness, which owns a bandit and a ledger: events update them and the counters in place
 on a clone, and a chunk is committed only after every event and the final validation succeeded.
 */
module ReplayObject {
  import opened Errors
  import opened Reals
  import opened Cholesky
  import opened RidgeBandit
  import opened LinUcb
  import opened LedgerObject
  import opened Events = Replay
  import opened ReplayReport
  import DelayedOutcome
  import Digest
  import Ledger
  import ReplayComposition
  import ReplayInvariants

  /** The result of an operation together with the state it should leave on success. */
  ghost predicate Follows(step: Result<Harness>, result: Result<()>, after: Harness) {
    match step
    case Ok(next) => result == Ok(()) && after == next
    case Err(e) => result == Err(e)
  }

  class DecisionReplayHarness {
    const env: Env
    const config: ReplayConfig
    var model: StableBandit
    var ledger: DecisionLedger
    var currentGeneration: nat
    var cumulativeReward: real
    var approximateRegret: real
    var baselineCumulativeReward: real
    var perArmPulls: seq<nat>
    var latencies: seq<nat>
    var expired: nat
    var duplicateFeedback: nat
    var rejected: nat
    var generationTransitions: nat
    var driftEvents: nat
    var missingFeedback: nat
    var processedRecords: nat
    var digest: Digest.Word

    function View(): Harness
      reads this, model, ledger
    {
      Harness(config, model.View(), ledger.View(), currentGeneration, cumulativeReward, approximateRegret,
              baselineCumulativeReward, perArmPulls, latencies, expired, duplicateFeedback, rejected,
              generationTransitions, driftEvents, missingFeedback, processedRecords, digest)
    }

    /** The owned objects are valid and every arm has a pull counter. */
    ghost predicate Usable()
      reads this, model, ledger
    {
      model.Valid() && model.sqrt == env.sqrt && ledger.Valid() && |perArmPulls| == model.armCount
    }

    constructor (config: ReplayConfig, model: StableBandit, ledger: DecisionLedger, env: Env)
      ensures this.env == env && this.config == config && this.model == model && this.ledger == ledger
      ensures View() == Harness(config, model.View(), ledger.View(), config.modelGeneration, 0.0, 0.0, 0.0,
                                seq(model.armCount, _ => 0), [], 0, 0, 0, 0, 0, 0, 0, Digest.OFFSET_BASIS)
    {
      this.env, this.config, this.model, this.ledger := env, config, model, ledger;
      currentGeneration := config.modelGeneration;
      cumulativeReward, approximateRegret, baselineCumulativeReward := 0.0, 0.0, 0.0;
      perArmPulls, latencies := seq(model.armCount, _ => 0), [];
      expired, duplicateFeedback, rejected, generationTransitions, driftEvents := 0, 0, 0, 0, 0;
      missingFeedback, processedRecords, digest := 0, 0, Digest.OFFSET_BASIS;
    }

    /** `DecisionReplayHarness::new` takes the bandit over and builds the ledger. */
    static method New(model: StableBandit, config: ReplayConfig, env: Env) returns (r: Result<DecisionReplayHarness>)
      requires model.Valid() && model.sqrt == env.sqrt
      ensures r.Ok? ==> fresh(r.value) && fresh(r.value.ledger) && r.value.model == model && r.value.env == env
      ensures r.Ok? ==> r.value.Usable() && ReplayInvariants.NewHarness(model.View(), config) == Ok(r.value.View())
      ensures r.Err? ==> ReplayInvariants.NewHarness(model.View(), config) == Err(r.error)
    {
      if model.armCount == 0 || model.featureCount == 0 {
        return Err(InvalidState(InvalidReplayState));
      }
      if config.maxPending == 0 || config.maxCompleted == 0 {
        return Err(InvalidState(LedgerFailure(InvalidLedgerCapacity)));
      }
      var ledger := DecisionLedger.New(Ledger.LedgerConfig(
        config.maxPending, config.maxCompleted, Ledger.DEFAULT_MAX_CONTEXT_BYTES, Ledger.DEFAULT_MAX_ACTION_BYTES));
      var harness := new DecisionReplayHarness(config, model, ledger.value, env);
      r := Ok(harness);
    }

    /** `clone`: fresh copies of the bandit and the ledger, and the same counters. */
    method Clone() returns (copy: DecisionReplayHarness)
      requires Usable()
      ensures fresh(copy) && fresh(copy.model) && fresh(copy.ledger) && copy.env == env && copy.config == config
      ensures copy.Usable() && copy.View() == View()
    {
      var bandit := new StableBandit(model.View(), model.sqrt);
      var book := new DecisionLedger.FromState(ledger.View());
      copy := new DecisionReplayHarness(config, bandit, book, env);
      copy.AdoptCounters(this);
    }

    /** `*self = next`: takes over the objects and counters of another harness. */
    method Adopt(next: DecisionReplayHarness)
      requires next.config == config && next != this
      modifies this
      ensures View() == next.View() && model == next.model && ledger == next.ledger
    {
      model, ledger := next.model, next.ledger;
      AdoptCounters(next);
    }

    method AdoptCounters(next: DecisionReplayHarness)
      requires next != this
      modifies this
      ensures View() == next.View().(config := config, model := old(model).View(), ledger := old(ledger).View())
      ensures model == old(model) && ledger == old(ledger)
    {
      AdoptFigures(next);
      AdoptCounts(next);
    }

    method AdoptFigures(next: DecisionReplayHarness)
      requires next != this
      modifies this`currentGeneration, this`cumulativeReward, this`approximateRegret, this`baselineCumulativeReward,
        this`perArmPulls, this`latencies
      ensures currentGeneration == next.currentGeneration && cumulativeReward == next.cumulativeReward
      ensures approximateRegret == next.approximateRegret && baselineCumulativeReward == next.baselineCumulativeReward
      ensures perArmPulls == next.perArmPulls && latencies == next.latencies
    {
      currentGeneration, cumulativeReward := next.currentGeneration, next.cumulativeReward;
      approximateRegret, baselineCumulativeReward := next.approximateRegret, next.baselineCumulativeReward;
      perArmPulls, latencies := next.perArmPulls, next.latencies;
    }

    method AdoptCounts(next: DecisionReplayHarness)
      requires next != this
      modifies this`expired, this`duplicateFeedback, this`rejected, this`generationTransitions,
        this`driftEvents, this`missingFeedback, this`processedRecords, this`digest
      ensures expired == next.expired && duplicateFeedback == next.duplicateFeedback && rejected == next.rejected
      ensures generationTransitions == next.generationTransitions && driftEvents == next.driftEvents
      ensures missingFeedback == next.missingFeedback && processedRecords == next.processedRecords
      ensures digest == next.digest
    {
      expired, duplicateFeedback, rejected := next.expired, next.duplicateFeedback, next.rejected;
      generationTransitions, driftEvents := next.generationTransitions, next.driftEvents;
      missingFeedback, processedRecords, digest := next.missingFeedback, next.processedRecords, next.digest;
    }

    method CountRejected() returns (r: Result<()>)
      modifies this`rejected
      ensures Follows(Reject(old(View())), r, View())
    {
      var n := CheckedIncrement(rejected);
      match n
      case Err(e) => r := Err(e);
      case Ok(value) =>
        rejected := value;
        r := Ok(());
    }

    /** A later generation resets the model. */
    method EnterGeneration(generation: nat) returns (r: Result<()>)
      requires Usable()
      modifies this`currentGeneration, this`generationTransitions, model
      ensures Usable()
      ensures Follows(Events.EnterGeneration(old(View()), generation), r, View())
    {
      if generation > currentGeneration {
        model.Reset();
        currentGeneration := generation;
        var n := CheckedIncrement(generationTransitions);
        if n.Err? {
          return Err(n.error);
        }
        generationTransitions := n.value;
      }
      r := Ok(());
    }

    /** A drift mark resets the model. */
    method EnterDrift(drift: bool) returns (r: Result<()>)
      requires Usable()
      modifies this`driftEvents, model
      ensures Usable()
      ensures Follows(Events.EnterDrift(old(View()), drift), r, View())
    {
      if drift {
        model.Reset();
        var n := CheckedIncrement(driftEvents);
        if n.Err? {
          return Err(n.error);
        }
        driftEvents := n.value;
      }
      r := Ok(());
    }

    /** Registers the decision in the ledger; only a new registration reaches the digest. */
    method RegisterDecision(record: Record) returns (r: Result<()>)
      requires Usable()
      modifies this`digest, this`missingFeedback, ledger
      ensures Usable()
      ensures Follows(Events.RegisterDecision(old(View()), record, env), r, View())
    {
      if record.timestamp + config.maxFeedbackDelay > U64_MAX {
        return Err(InvalidState(ExpiryOverflow));
      }
      ghost var before := View();
      var decision := Ledger.Decision(record.decisionId, record.context, record.selectedArm, record.timestamp,
                                      record.timestamp + config.maxFeedbackDelay, record.generation);
      var reply := ledger.Register(decision);
      RegisterCases(before, record, env, ledger.View(), reply);
      if reply.Rejected? {
        return Err(InvalidState(LedgerFailure(reply.error)));
      }
      assert View() == before.(ledger := ledger.View());
      if reply == Ledger.Receipt(Ledger.Registered) {
        r := RecordNew(record);
      } else {
        r := Ok(());
      }
    }

    /** Digests a new registration and counts it when it will have no feedback. */
    method RecordNew(record: Record) returns (r: Result<()>)
      modifies this`digest, this`missingFeedback
      ensures Follows(Recorded(old(View()), record, env), r, View())
    {
      digest := Digest.MixLoop(digest, RecordBytes(record, DECISION_MARKER, env.bits));
      if record.outcomeTime.None? {
        var n := CheckedIncrement(missingFeedback);
        if n.Err? {
          return Err(n.error);
        }
        missingFeedback := n.value;
      }
      r := Ok(());
    }

    method ReplayDecision(record: Record) returns (r: Result<()>)
      requires Usable()
      modifies this, model, ledger
      ensures model == old(model) && ledger == old(ledger) && Usable()
      ensures Follows(DecisionStep(old(View()), record, env), r, View())
    {
      if record.schemaHash != config.schemaHash || record.generation < currentGeneration {
        r := CountRejected();
        return;
      }
      r := EnterGeneration(record.generation);
      if r.Err? {
        return;
      }
      r := EnterDrift(record.drift);
      if r.Err? {
        return;
      }
      r := CheckChoice(record);
    }

    /** The recorded arm must be the one the model chooses; only then the decision is registered. */
    method CheckChoice(record: Record) returns (r: Result<()>)
      requires Usable()
      modifies this`rejected, this`digest, this`missingFeedback, ledger
      ensures Usable()
      ensures Follows(Events.CheckChoice(old(View()), record, env), r, View())
    {
      var selected := model.SelectDeterministic(record.context);
      if selected.Err? {
        return Err(selected.error);
      }
      if selected.value != record.selectedArm {
        r := CountRejected();
      } else {
        r := RegisterDecision(record);
      }
    }

    /** The accepted outcome: the new totals are computed and checked before ledger and model change. */
    method Accept(record: Record) returns (r: Result<()>)
      requires Usable()
      requires record.outcomeTime.Some? && record.reward.Some? && record.timestamp <= record.outcomeTime.value
      requires record.selectedArm < model.armCount
      modifies this`cumulativeReward, this`baselineCumulativeReward, this`approximateRegret, this`perArmPulls,
        this`latencies, this`digest, model, ledger
      ensures Usable() && (r.Err? ==> View() == old(View()))
      ensures Follows(Events.Accept(old(View()), record, env), r, View())
    {
      ghost var before := View();
      var nextPulls := CheckedIncrement(perArmPulls[record.selectedArm]);
      if nextPulls.Err? {
        return Err(nextPulls.error);
      }
      if |latencies| >= config.maxRecords {
        return Err(InvalidState(LatencyCapacityExceeded));
      }
      r := Apply(record);
      EnteredCases(before, record, env, ledger.View(), model.View(), r);
      if r.Ok? {
        assert View() == before.(ledger := ledger.View(), model := model.View());
        Enter(record, nextPulls.value);
      }
    }

    /** The joint update of the owned ledger and bandit. */
    method Apply(record: Record) returns (r: Result<()>)
      requires Usable()
      requires record.outcomeTime.Some? && record.reward.Some? && record.selectedArm < model.armCount
      modifies model, ledger
      ensures Usable()
      ensures match Events.ApplyContextualOutcome(old(ledger.View()), old(model.View()), OutcomeOf(record), env.sqrt)
        case Ok(pair) => r == Ok(()) && ledger.View() == pair.0 && model.View() == pair.1
        case Err(e) => r == Err(e) && ledger.View() == old(ledger.View()) && model.View() == old(model.View())
    {
      var outcome := Ledger.Outcome(record.decisionId, record.selectedArm, record.reward.value,
                                    record.outcomeTime.value, record.generation);
      r := DelayedOutcome.ApplyContextualOutcome(ledger, model, outcome);
    }

    /** Enters an accepted outcome in the totals, the latencies and the digest. */
    method Enter(record: Record, pulls: nat)
      requires record.outcomeTime.Some? && record.reward.Some? && record.timestamp <= record.outcomeTime.value
      requires record.selectedArm < |perArmPulls|
      modifies this`cumulativeReward, this`baselineCumulativeReward, this`approximateRegret, this`perArmPulls,
        this`latencies, this`digest
      ensures View() == Entered(old(View()), record, pulls, env)
    {
      EnterRewards(record, record.reward.value);
      perArmPulls := perArmPulls[record.selectedArm := pulls];
      latencies := latencies + [record.outcomeTime.value - record.timestamp];
      digest := Digest.MixLoop(digest, RecordBytes(record, OUTCOME_MARKER, env.bits));
    }

    /** The three totals of an accepted reward; a missing baseline or optimum adds nothing. */
    method EnterRewards(record: Record, reward: real)
      modifies this`cumulativeReward, this`baselineCumulativeReward, this`approximateRegret
      ensures cumulativeReward == old(cumulativeReward) + reward
      ensures baselineCumulativeReward
        == old(baselineCumulativeReward) + if record.baselineReward.None? then 0.0 else record.baselineReward.value
      ensures approximateRegret == old(approximateRegret)
        + if record.optimalReward.None? then 0.0 else Max(record.optimalReward.value - reward, 0.0)
    {
      cumulativeReward := cumulativeReward + reward;
      if record.baselineReward.Some? {
        baselineCumulativeReward := baselineCumulativeReward + record.baselineReward.value;
      }
      if record.optimalReward.Some? {
        approximateRegret := approximateRegret + Max(record.optimalReward.value - reward, 0.0);
      }
    }

    /** Sweeps every decision that expired before `now` and counts them. */
    method Expire(now: nat) returns (r: Result<()>)
      requires Usable()
      modifies this`expired, ledger
      ensures Usable()
      ensures Follows(SweepExpired(old(View()), now), r, View())
    {
      ghost var swept := Ledger.ExpiredIds(ledger.View(), now);
      var ids := ledger.ClearExpired(now);
      AscendingCount(ids, swept);
      if expired + |ids| > U64_MAX {
        return Err(InvalidState(CounterOverflow));
      }
      expired := expired + |ids|;
      r := Ok(());
    }

    method ReplayOutcome(record: Record) returns (r: Result<()>)
      requires Usable() && RecordOk(record, model.View())
      modifies this, model, ledger
      ensures model == old(model) && ledger == old(ledger) && Usable()
      ensures Follows(OutcomeStep(old(View()), record, env), r, View())
    {
      if record.outcomeTime.None? {
        return Ok(());
      }
      if record.reward.None? || record.generation != currentGeneration {
        r := CountRejected();
        return;
      }
      if record.decisionId in ledger.completed {
        r := CountDuplicate();
        return;
      }
      if record.decisionId !in ledger.pending {
        r := CountRejected();
        return;
      }
      r := ReplayPending(record);
    }

    /** The outcome of a pending decision: too late, not the registered one, or accepted. */
    method ReplayPending(record: Record) returns (r: Result<()>)
      requires Usable() && RecordOk(record, model.View())
      requires record.outcomeTime.Some? && record.reward.Some? && record.generation == currentGeneration
      requires record.decisionId in ledger.pending && record.decisionId !in ledger.completed
      modifies this, model, ledger
      ensures model == old(model) && ledger == old(ledger) && Usable()
      ensures Follows(OutcomeStep(old(View()), record, env), r, View())
    {
      if record.outcomeTime.value > ledger.pending[record.decisionId].expiresAt {
        r := Expire(record.outcomeTime.value);
        return;
      }
      if !Matches(record, ledger.pending[record.decisionId]) {
        r := CountRejected();
        return;
      }
      r := Accept(record);
    }

    method CountDuplicate() returns (r: Result<()>)
      modifies this`duplicateFeedback
      ensures Follows(Events.CountDuplicate(old(View())), r, View())
    {
      var n := CheckedIncrement(duplicateFeedback);
      match n
      case Err(e) => r := Err(e);
      case Ok(value) =>
        duplicateFeedback := value;
        r := Ok(());
    }

    /** Builds the events of the chunk, sorts them by (time, kind, index) and replays them in that order. */
    method ReplayInPlace(records: seq<Record>) returns (r: Result<()>)
      requires Usable() && RecordsOk(records, model.View())
      modifies this, model, ledger
      ensures model == old(model) && ledger == old(ledger) && Usable()
      ensures Follows(Events.ReplayInPlace(old(View()), records, env), r, View())
    {
      var events := CollectEvents(records);
      events := SortEvents(events);
      EventsIndexed(records);
      for i := 0 to |events|
        invariant model == old(model) && ledger == old(ledger)
        invariant Usable() && RecordsOk(records, model.View()) && Indexed(events[i..], |records|)
        invariant Events.ReplayInPlace(old(View()), records, env) == RunEvents(View(), records, events[i..], env)
      {
        EventKeepsShape(View(), records, events[i], env);
        assert events[i..][0] == events[i] && events[i..][1..] == events[i + 1..];
        if events[i].kind == 0 {
          r := ReplayDecision(records[events[i].index]);
        } else {
          r := ReplayOutcome(records[events[i].index]);
        }
        if r.Err? {
          return;
        }
      }
      r := Ok(());
    }

    /** `validate_state`. */
    method ValidateState() returns (r: Result<()>)
      requires Usable()
      ensures r == if HarnessValid(View()) then Ok(()) else Err(InvalidState(InvalidReplayState))
    {
      if config.maxRecords == 0 || config.maxPending == 0 || config.maxCompleted == 0 ||
         |config.schemaHash| == 0 || |config.schemaHash| > 128 ||
         currentGeneration < config.modelGeneration || processedRecords > config.maxRecords ||
         |perArmPulls| != model.armCount || |latencies| > config.maxRecords {
        return Err(InvalidState(InvalidReplayState));
      }
      var total := 0;
      for i := 0 to |perArmPulls|
        invariant total == TotalPulls(perArmPulls[..i])
      {
        total := total + perArmPulls[i];
        assert perArmPulls[..i + 1][..i] == perArmPulls[..i];
      }
      assert perArmPulls[..|perArmPulls|] == perArmPulls;
      if total > U64_MAX || total < model.samplesSeen || total != |ledger.completed| {
        return Err(InvalidState(InvalidReplayState));
      }
      var modelOk := StableBandit.Validate(model.View(), env.sqrt);
      var ledgerOk := LedgerObject.Validate(ledger.View());
      r := if modelOk.Ok? && ledgerOk then Ok(()) else Err(InvalidState(InvalidReplayState));
    }

    /** The capacity check, then every record, before any event is replayed. */
    method CheckAdmission(records: seq<Record>) returns (r: Result<nat>)
      ensures r == Admit(View(), records)
    {
      var processed := processedRecords + |records|;
      if processed > U64_MAX {
        return Err(InvalidState(CounterOverflow));
      }
      if processed > config.maxRecords {
        return Err(InvalidState(ReplayCapacityExceeded));
      }
      var valid := ValidateAll(records, model.View());
      match valid
      case Err(e) => r := Err(e);
      case Ok(_) => r := Ok(processed);
    }

    /** The clone on which a chunk is replayed, with the records already counted. */
    method Prepare(records: seq<Record>, processed: nat) returns (next: DecisionReplayHarness)
      requires Usable() && processed == processedRecords + |records|
      ensures fresh(next) && fresh(next.model) && fresh(next.ledger) && next.env == env && next.config == config
      ensures next.Usable() && next.View() == Start(View(), records)
    {
      next := Clone();
      next.processedRecords := processed;
    }

    /** Replays the chunk on a clone and validates the outcome; this harness is not touched. */
    method Attempt(records: seq<Record>, processed: nat) returns (r: Result<()>, next: DecisionReplayHarness)
      requires Usable() && RecordsOk(records, model.View()) && processed == processedRecords + |records|
      ensures fresh(next) && fresh(next.model) && fresh(next.ledger) && next.config == config && next.env == env
      ensures r.Ok? ==> next.Usable()
      ensures Follows(Checked(Events.ReplayInPlace(Start(View(), records), records, env)), r, next.View())
    {
      next := Prepare(records, processed);
      r := next.ReplayInPlace(records);
      if r.Ok? {
        r := next.ValidateState();
      }
    }

    /** `replay`: commits the whole chunk and reports, or leaves the harness exactly as it was. */
    method Replay(records: seq<Record>) returns (r: Result<Report>)
      requires Usable()
      modifies this
      ensures match ReplayChunk(old(View()), records, env)
        case Ok(next) => r == Ok(ReportOf(next)) && View() == next && Usable()
        case Err(e) => r == Err(e) && View() == old(View()) && model == old(model) && ledger == old(ledger)
    {
      var admitted := CheckAdmission(records);
      match admitted
      case Err(e) => r := Err(e);
      case Ok(processed) =>
        var done, next := Attempt(records, processed);
        match done {
          case Err(e) => r := Err(e);
          case Ok(_) =>
            var report := next.MakeReport();
            Adopt(next);
            r := Ok(report);
        }
    }

    /** `report`. */
    method MakeReport() returns (report: Report)
      ensures report == ReportOf(View())
    {
      var summary := SummariseLatencies(latencies);
      report := Report(cumulativeReward, approximateRegret, baselineCumulativeReward,
                       cumulativeReward - baselineCumulativeReward, perArmPulls, |ledger.pending|, |ledger.completed|,
                       expired, missingFeedback, duplicateFeedback, rejected, generationTransitions, driftEvents,
                       summary, digest);
    }
  }

  // ---- events ----

  /** The loop that pushes each record's decision event and, if there is one, its outcome event. */
  method CollectEvents(records: seq<Record>) returns (events: seq<Event>)
    ensures events == EventsOf(records)
  {
    events := [];
    for index := 0 to |records|
      invariant events == EventsOf(records[..index])
    {
      assert records[..index + 1][..index] == records[..index];
      events := events + [Event(records[index].timestamp, 0, index)];
      if records[index].outcomeTime.Some? {
        events := events + [Event(records[index].outcomeTime.value, 1, index)];
      }
    }
    assert records[..|records|] == records;
  }

  /** `sort_by_key` as an insertion sort; any sort gives the same list, by `ReplayComposition.SortedUnique`. */
  method SortEvents(events: seq<Event>) returns (sorted: seq<Event>)
    ensures sorted == Sort(events)
    ensures ReplayComposition.Sorted(sorted) && multiset(sorted) == multiset(events)
  {
    ReplayComposition.SortSound(events);
    sorted := [];
    for i := 0 to |events|
      invariant sorted == Sort(events[..i])
    {
      assert events[..i + 1][..i] == events[..i];
      sorted := InsertEvent(sorted, events[i]);
    }
    assert events[..|events|] == events;
  }

  /** Moves left past everything that is not smaller. */
  method InsertEvent(sorted: seq<Event>, e: Event) returns (r: seq<Event>)
    ensures r == Insert(sorted, e)
  {
    var k := |sorted|;
    assert sorted[..k] == sorted && Insert(sorted[..k], e) + sorted[k..] == Insert(sorted, e);
    while k > 0 && !Before(sorted[k - 1], e)
      invariant 0 <= k <= |sorted|
      invariant Insert(sorted[..k], e) + sorted[k..] == Insert(sorted, e)
    {
      assert sorted[..k][..k - 1] == sorted[..k - 1] && sorted[k - 1..] == [sorted[k - 1]] + sorted[k..];
      k := k - 1;
    }
    r := sorted[..k] + [e] + sorted[k..];
  }

  // ---- records ----

  /** Every record is checked in turn; the first bad one decides the error. */
  method ValidateAll(records: seq<Record>, model: Stable) returns (r: Result<()>)
    ensures r == ValidateRecords(records, model, |records|)
  {
    for i := 0 to |records|
      invariant ValidateRecords(records, model, i).Ok?
    {
      var valid := ValidateRecord(records[i], model.featureCount, model.armCount);
      if valid.Err? {
        FirstInvalid(records, model, i, |records|);
        return Err(valid.error);
      }
    }
    r := Ok(());
  }

  /** The validation loop stops at the first bad record. */
  lemma {:induction false} FirstInvalid(records: seq<Record>, model: Stable, i: nat, k: nat)
    requires i < k <= |records| && ValidateRecords(records, model, i).Ok?
    requires !RecordOk(records[i], model)
    ensures ValidateRecords(records, model, k).Err?
    ensures ValidateRecords(records, model, k).error == ValidateRecord(records[i], model.featureCount, model.armCount).error
  {
    if k == i + 1 {
    } else {
      FirstInvalid(records, model, i, k - 1);
    }
  }

  // ---- the report ----

  /** `latency_summary`: sorts a copy, folds the sum, and picks the entries. */
  method SummariseLatencies(latencies: seq<nat>) returns (r: Option<LatencySummary>)
    ensures r == Summary(latencies)
  {
    if latencies == [] {
      return None;
    }
    var sorted := SortLatencies(latencies);
    SortSound(latencies);
    var sum := 0;
    for i := 0 to |sorted|
      invariant sum == Sum(sorted[..i])
    {
      assert sorted[..i + 1][..i] == sorted[..i];
      sum := sum + sorted[i];
    }
    assert sorted[..|sorted|] == sorted;
    r := Some(LatencySummary(|sorted|, sorted[0], sorted[|sorted| - 1], Average(sum, |sorted|), sorted[Rank95(|sorted|)]));
  }

  /** `sort_unstable` as an insertion sort; any sort gives the same list, by `ReplayReport.AscendingUnique`. */
  method SortLatencies(latencies: seq<nat>) returns (sorted: seq<nat>)
    ensures sorted == SortNats(latencies)
    ensures ReplayReport.Ascending(sorted) && multiset(sorted) == multiset(latencies)
  {
    ReplayReport.SortSound(latencies);
    sorted := [];
    for i := 0 to |latencies|
      invariant sorted == SortNats(latencies[..i])
    {
      assert latencies[..i + 1][..i] == latencies[..i];
      sorted := InsertNat(sorted, latencies[i]);
    }
    assert latencies[..|latencies|] == latencies;
  }

  // ---- the ledger's replies ----

  /** A strictly ascending list has one entry per member. */
  lemma {:induction false} AscendingCount(ids: seq<nat>, members: set<nat>)
    requires LedgerObject.Ascending(ids) && forall id :: id in ids <==> id in members
    ensures |ids| == |members|
  {
    if ids == [] {
      assert members == {};
    } else {
      var n := |ids| - 1;
      assert ids[n] in members;
      forall id ensures id in ids[..n] <==> id in members - {ids[n]} {
        if id in ids && id != ids[n] {
          var i :| 0 <= i < |ids| && ids[i] == id;
          assert ids[..n][i] == id;
        }
      }
      AscendingCount(ids[..n], members - {ids[n]});
    }
  }

  /** What a ledger reply means for a decision that can be registered. */
  lemma RegisterCases(h: Harness, r: Record, env: Env, ledger: Ledger.LedgerState, reply: Ledger.Reply)
    requires r.timestamp + h.config.maxFeedbackDelay <= U64_MAX
    requires (ledger, reply) == Ledger.Register(h.ledger, DecisionOf(h.config, r))
    ensures var step := Events.RegisterDecision(h, r, env);
      && (reply.Rejected? ==> step == Err(InvalidState(LedgerFailure(reply.error))))
      && (!reply.Rejected? && reply != Ledger.Receipt(Ledger.Registered) ==> step == Ok(h) && ledger == h.ledger)
      && (reply == Ledger.Receipt(Ledger.Registered) ==>
            step == Recorded(h.(ledger := ledger), r, env))
  {}

  /** The digest and the missing-feedback counter after a new registration. */
  ghost function Recorded(h: Harness, r: Record, env: Env): Result<Harness> {
    if r.outcomeTime.None? && h.missingFeedback >= U64_MAX then Err(InvalidState(CounterOverflow))
    else Ok(h.(digest := Digest.Mix(h.digest, RecordBytes(r, DECISION_MARKER, env.bits)),
               missingFeedback := h.missingFeedback + if r.outcomeTime.None? then 1 else 0))
  }

  /** The totals, latencies and digest after an accepted outcome. */
  ghost function Entered(h: Harness, r: Record, pulls: nat, env: Env): Harness
    requires r.outcomeTime.Some? && r.reward.Some? && r.timestamp <= r.outcomeTime.value && r.selectedArm < |h.perArmPulls|
  {
    h.(cumulativeReward := h.cumulativeReward + r.reward.value,
       baselineCumulativeReward := h.baselineCumulativeReward
         + if r.baselineReward.None? then 0.0 else r.baselineReward.value,
       approximateRegret := h.approximateRegret
         + if r.optimalReward.None? then 0.0 else Max(r.optimalReward.value - r.reward.value, 0.0),
       perArmPulls := h.perArmPulls[r.selectedArm := pulls],
       latencies := h.latencies + [r.outcomeTime.value - r.timestamp],
       digest := Digest.Mix(h.digest, RecordBytes(r, OUTCOME_MARKER, env.bits)))
  }

  /** What the joint update makes of an outcome that passed the two checks. */
  lemma EnteredCases(
    h: Harness, r: Record, env: Env, ledger: Ledger.LedgerState, model: Stable, applied: Result<()>)
    requires Ready(h) && IsSqrt(env.sqrt)
    requires r.outcomeTime.Some? && r.reward.Some? && r.timestamp <= r.outcomeTime.value && r.selectedArm < h.model.armCount
    requires h.perArmPulls[r.selectedArm] < U64_MAX && |h.latencies| < h.config.maxRecords
    requires match Events.ApplyContextualOutcome(h.ledger, h.model, OutcomeOf(r), env.sqrt)
             case Ok(pair) => applied == Ok(()) && ledger == pair.0 && model == pair.1
             case Err(e) => applied == Err(e) && ledger == h.ledger && model == h.model
    ensures match applied
            case Err(e) => Events.Accept(h, r, env) == Err(e) && h.(ledger := ledger, model := model) == h
            case Ok(_) =>
              Events.Accept(h, r, env)
                == Ok(Entered(h.(ledger := ledger, model := model), r, h.perArmPulls[r.selectedArm] + 1, env))
  {
    SettledCases(h, r, env, Events.ApplyContextualOutcome(h.ledger, h.model, OutcomeOf(r), env.sqrt));
  }

  /** The bookkeeping in two steps: first the joint update, then the totals. */
  lemma SettledCases(h: Harness, r: Record, env: Env, applied: Result<(Ledger.LedgerState, Stable)>)
    requires r.outcomeTime.Some? && r.reward.Some? && r.timestamp <= r.outcomeTime.value && r.selectedArm < |h.perArmPulls|
    requires h.perArmPulls[r.selectedArm] < U64_MAX && |h.latencies| < h.config.maxRecords
    ensures var step := Settle(h, r, applied, Digest.Mix(h.digest, RecordBytes(r, OUTCOME_MARKER, env.bits)));
            match applied
            case Err(e) => step == Err(e)
            case Ok(pair) =>
              step == Ok(Entered(h.(ledger := pair.0, model := pair.1), r, h.perArmPulls[r.selectedArm] + 1, env))
  {}
}
