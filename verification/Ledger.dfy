/**
 The decision ledger: bounded pending decisions and completed tombstones.
 Contexts are real vectors and actions are arm indices, the instance the replay harness uses.
 */
module Ledger {
  import opened Errors

  // ---- values ----

  datatype LedgerConfig = LedgerConfig(maxPending: nat, maxCompleted: nat, maxContextBytes: nat, maxActionBytes: nat)

  datatype Decision = Decision(
    id: nat, context: seq<real>, action: nat, createdAt: nat, expiresAt: nat, modelGeneration: nat)

  datatype Outcome = Outcome(decisionId: nat, action: nat, reward: real, observedAt: nat, modelGeneration: nat)

  datatype Completed = Completed(decision: Decision, reward: real, observedAt: nat)

  datatype LedgerState = LedgerState(
    config: LedgerConfig, pending: map<nat, Decision>, completed: map<nat, Completed>)

  datatype Status = Registered | PendingReplay | CompletedReplay

  datatype Reply =
    | Receipt(status: Status)
    | Applied
    | Rejected(error: LedgerError)
    | Cleared(ids: set<nat>)

  const DEFAULT_MAX_CONTEXT_BYTES: nat := 1024 * 1024
  const DEFAULT_MAX_ACTION_BYTES: nat := 64 * 1024
  const WORD_BYTES: nat := 8

  predicate ContextFits(config: LedgerConfig, context: seq<real>) {
    |context| * WORD_BYTES <= config.maxContextBytes
  }

  predicate ActionFits(config: LedgerConfig) {
    WORD_BYTES <= config.maxActionBytes
  }

  // ---- transitions ----

  predicate ConfigPositive(c: LedgerConfig) {
    c.maxPending > 0 && c.maxCompleted > 0 && c.maxContextBytes > 0 && c.maxActionBytes > 0
  }

  function Empty(config: LedgerConfig): LedgerState {
    LedgerState(config, map[], map[])
  }

  function Register(l: LedgerState, d: Decision): (LedgerState, Reply) {
    if d.expiresAt < d.createdAt then (l, Rejected(InvalidTimeRange))
    else if !ContextFits(l.config, d.context) then (l, Rejected(ValueTooLarge))
    else if !ActionFits(l.config) then (l, Rejected(ValueTooLarge))
    else if d.id in l.pending then
      (l, if l.pending[d.id] == d then Receipt(PendingReplay) else Rejected(DecisionConflict))
    else if d.id in l.completed then
      (l, if l.completed[d.id].decision == d then Receipt(CompletedReplay) else Rejected(DecisionConflict))
    else if |l.pending| >= l.config.maxPending then (l, Rejected(PendingCapacityExceeded))
    else (l.(pending := l.pending[d.id := d]), Receipt(Registered))
  }

  function ApplyFeedback(l: LedgerState, o: Outcome): (LedgerState, Reply) {
    if !ActionFits(l.config) then (l, Rejected(ValueTooLarge))
    else if o.decisionId in l.completed then (l, Rejected(DuplicateFeedback))
    else if o.decisionId !in l.pending then (l, Rejected(UnknownDecision))
    else
      var d := l.pending[o.decisionId];
      if o.observedAt < d.createdAt then (l, Rejected(FeedbackBeforeDecision))
      else if o.observedAt > d.expiresAt then (l, Rejected(FeedbackExpired))
      else if o.modelGeneration != d.modelGeneration then (l, Rejected(GenerationMismatch))
      else if o.action != d.action then (l, Rejected(ActionMismatch))
      else if |l.completed| >= l.config.maxCompleted then (l, Rejected(CompletedCapacityExceeded))
      else (l.(pending := l.pending - {o.decisionId},
               completed := l.completed[o.decisionId := Completed(d, o.reward, o.observedAt)]), Applied)
  }

  function ExpiredIds(l: LedgerState, now: nat): set<nat> {
    set id | id in l.pending && l.pending[id].expiresAt < now
  }

  function ObservedBefore(l: LedgerState, before: nat): set<nat> {
    set id | id in l.completed && l.completed[id].observedAt < before
  }

  function ClearExpired(l: LedgerState, now: nat): (LedgerState, Reply) {
    (l.(pending := l.pending - ExpiredIds(l, now)), Cleared(ExpiredIds(l, now)))
  }

  function ClearCompletedBefore(l: LedgerState, before: nat): (LedgerState, Reply) {
    (l.(completed := l.completed - ObservedBefore(l, before)), Cleared(ObservedBefore(l, before)))
  }

  // ---- the structural invariant ----

  predicate DecisionOk(config: LedgerConfig, id: nat, d: Decision) {
    d.id == id && d.createdAt <= d.expiresAt && ContextFits(config, d.context) && ActionFits(config)
  }

  predicate CompletedOk(config: LedgerConfig, id: nat, c: Completed) {
    DecisionOk(config, id, c.decision) && c.decision.createdAt <= c.observedAt <= c.decision.expiresAt
  }

  /** What `validate_structure` accepts. */
  predicate LedgerValid(l: LedgerState) {
    && ConfigPositive(l.config)
    && |l.pending| <= l.config.maxPending && |l.completed| <= l.config.maxCompleted
    && (forall id :: id in l.pending ==> DecisionOk(l.config, id, l.pending[id]) && id !in l.completed)
    && (forall id :: id in l.completed ==> CompletedOk(l.config, id, l.completed[id]))
  }

  // ---- one call ----

  datatype Call =
    | CallRegister(decision: Decision)
    | CallFeedback(outcome: Outcome)
    | CallClearExpired(now: nat)
    | CallClearCompleted(before: nat)

  function Step(l: LedgerState, call: Call): (LedgerState, Reply) {
    match call
    case CallRegister(d) => Register(l, d)
    case CallFeedback(o) => ApplyFeedback(l, o)
    case CallClearExpired(now) => ClearExpired(l, now)
    case CallClearCompleted(before) => ClearCompletedBefore(l, before)
  }

  /** Where an identifier stands. */
  datatype Standing = Absent | Waiting(decision: Decision) | Done(tombstone: Completed)

  function StandingOf(l: LedgerState, id: nat): Standing {
    if id in l.pending then Waiting(l.pending[id])
    else if id in l.completed then Done(l.completed[id])
    else Absent
  }

  /** The only moves an identifier can make, each tied to the call that makes it. */
  ghost predicate LegalMove(call: Call, reply: Reply, id: nat, before: Standing, after: Standing) {
    if reply == Receipt(Registered) && call.CallRegister? && call.decision.id == id then
      before == Absent && after == Waiting(call.decision)
    else if reply == Applied && call.CallFeedback? && call.outcome.decisionId == id then
      && before.Waiting?
      && before.decision.createdAt <= call.outcome.observedAt <= before.decision.expiresAt
      && before.decision.modelGeneration == call.outcome.modelGeneration
      && before.decision.action == call.outcome.action
      && after == Done(Completed(before.decision, call.outcome.reward, call.outcome.observedAt))
    else if reply.Cleared? && call.CallClearExpired? && id in reply.ids then
      before.Waiting? && before.decision.expiresAt < call.now && after == Absent
    else if reply.Cleared? && call.CallClearCompleted? && id in reply.ids then
      before.Done? && before.tombstone.observedAt < call.before && after == Absent
    else after == before
  }

  /** Removing keys counts what it removes. */
  lemma RemoveCount<V>(m: map<nat, V>, ids: set<nat>)
    requires ids <= m.Keys
    ensures |m - ids| == |m| - |ids|
  {
    assert (m - ids).Keys == m.Keys - ids;
    assert |m.Keys| == |m| && |(m - ids).Keys| == |m - ids|;
  }

  lemma RegisterValid(l: LedgerState, d: Decision)
    requires LedgerValid(l)
    ensures LedgerValid(Register(l, d).0) && Register(l, d).0.config == l.config
  {}

  lemma FeedbackValid(l: LedgerState, o: Outcome)
    requires LedgerValid(l)
    ensures LedgerValid(ApplyFeedback(l, o).0) && ApplyFeedback(l, o).0.config == l.config
  {
    if o.decisionId in l.pending { RemoveCount(l.pending, {o.decisionId}); }
  }

  lemma ClearValid(l: LedgerState, when: nat)
    requires LedgerValid(l)
    ensures LedgerValid(ClearExpired(l, when).0) && LedgerValid(ClearCompletedBefore(l, when).0)
  {
    RemoveCount(l.pending, ExpiredIds(l, when));
    RemoveCount(l.completed, ObservedBefore(l, when));
  }

  lemma StepValid(l: LedgerState, call: Call)
    requires LedgerValid(l)
    ensures LedgerValid(Step(l, call).0) && Step(l, call).0.config == l.config
  {
    match call
    case CallRegister(d) => RegisterValid(l, d);
    case CallFeedback(o) => FeedbackValid(l, o);
    case CallClearExpired(now) => ClearValid(l, now);
    case CallClearCompleted(before) => ClearValid(l, before);
  }

  /** Every call keeps the invariant, moves identifiers only legally, and changes nothing when it fails. */
  lemma StepLegal(l: LedgerState, call: Call, id: nat)
    requires LedgerValid(l)
    ensures LedgerValid(Step(l, call).0) && Step(l, call).0.config == l.config
    ensures LegalMove(call, Step(l, call).1, id, StandingOf(l, id), StandingOf(Step(l, call).0, id))
    ensures Step(l, call).1.Rejected? ==> Step(l, call).0 == l
  {
    StepValid(l, call);
    match call
    case CallRegister(d) => RegisterLegal(l, d, id);
    case CallFeedback(o) => FeedbackLegal(l, o, id);
    case CallClearExpired(now) => ClearExpiredLegal(l, now, id);
    case CallClearCompleted(before) => ClearCompletedLegal(l, before, id);
  }

  lemma RegisterLegal(l: LedgerState, d: Decision, id: nat)
    requires LedgerValid(l)
    ensures var (next, reply) := Register(l, d);
      LegalMove(CallRegister(d), reply, id, StandingOf(l, id), StandingOf(next, id)) && (reply.Rejected? ==> next == l)
  {}

  lemma FeedbackLegal(l: LedgerState, o: Outcome, id: nat)
    requires LedgerValid(l)
    ensures var (next, reply) := ApplyFeedback(l, o);
      LegalMove(CallFeedback(o), reply, id, StandingOf(l, id), StandingOf(next, id)) && (reply.Rejected? ==> next == l)
  {}

  lemma ClearExpiredLegal(l: LedgerState, now: nat, id: nat)
    requires LedgerValid(l)
    ensures var (next, reply) := ClearExpired(l, now);
      LegalMove(CallClearExpired(now), reply, id, StandingOf(l, id), StandingOf(next, id)) && !reply.Rejected?
  {}

  lemma ClearCompletedLegal(l: LedgerState, before: nat, id: nat)
    requires LedgerValid(l)
    ensures var (next, reply) := ClearCompletedBefore(l, before);
      LegalMove(CallClearCompleted(before), reply, id, StandingOf(l, id), StandingOf(next, id)) && !reply.Rejected?
  {}

  /**
   A sweep is complete: of the pending decisions exactly those that expire at `when` or later remain, of the
   tombstones exactly those observed then or later, and the reply names the others.
   */
  lemma SweepComplete(l: LedgerState, when: nat, id: nat)
    ensures var (next, reply) := ClearExpired(l, when);
      && next == l.(pending := next.pending) && reply.Cleared?
      && (id in next.pending <==> id in l.pending && l.pending[id].expiresAt >= when)
      && (id in next.pending ==> next.pending[id] == l.pending[id])
      && (id in reply.ids <==> id in l.pending && l.pending[id].expiresAt < when)
    ensures var (next, reply) := ClearCompletedBefore(l, when);
      && next == l.(completed := next.completed) && reply.Cleared?
      && (id in next.completed <==> id in l.completed && l.completed[id].observedAt >= when)
      && (id in next.completed ==> next.completed[id] == l.completed[id])
      && (id in reply.ids <==> id in l.completed && l.completed[id].observedAt < when)
  {}

  /** Exactly which calls are accepted, in terms of where the identifier stands. */
  lemma AcceptanceExact(l: LedgerState, d: Decision, o: Outcome)
    requires LedgerValid(l)
    ensures Register(l, d).1 == Receipt(Registered) <==>
      && StandingOf(l, d.id) == Absent && |l.pending| < l.config.maxPending
      && d.createdAt <= d.expiresAt && ContextFits(l.config, d.context) && ActionFits(l.config)
    ensures Register(l, d).1 == Receipt(PendingReplay) <==> StandingOf(l, d.id) == Waiting(d)
    ensures Register(l, d).1 == Receipt(CompletedReplay) <==>
      StandingOf(l, d.id).Done? && StandingOf(l, d.id).tombstone.decision == d
    ensures ApplyFeedback(l, o).1 == Applied <==>
      && StandingOf(l, o.decisionId).Waiting? && |l.completed| < l.config.maxCompleted
      && var p := StandingOf(l, o.decisionId).decision;
        p.createdAt <= o.observedAt <= p.expiresAt && p.modelGeneration == o.modelGeneration && p.action == o.action
  {}

  // ---- whole runs ----

  datatype Event = Event(call: Call, reply: Reply)

  /** The ledger after a sequence of calls. */
  function Run(l: LedgerState, calls: seq<Call>): LedgerState {
    if calls == [] then l else Step(Run(l, calls[..|calls| - 1]), calls[|calls| - 1]).0
  }

  /** The replies of a run, call by call. */
  function Replies(l: LedgerState, calls: seq<Call>): (r: seq<Reply>)
    ensures |r| == |calls|
  {
    if calls == [] then [] else
      var n := |calls| - 1;
      Replies(l, calls[..n]) + [Step(Run(l, calls[..n]), calls[n]).1]
  }

  predicate RegisteredBy(call: Call, reply: Reply, id: nat) {
    call.CallRegister? && call.decision.id == id && reply == Receipt(Registered)
  }

  predicate FeedbackBy(call: Call, reply: Reply, id: nat) {
    call.CallFeedback? && call.outcome.decisionId == id && reply == Applied
  }

  predicate ExpiredBy(call: Call, reply: Reply, id: nat) {
    call.CallClearExpired? && reply.Cleared? && id in reply.ids
  }

  predicate ForgottenBy(call: Call, reply: Reply, id: nat) {
    call.CallClearCompleted? && reply.Cleared? && id in reply.ids
  }

  datatype Tally = Tally(registered: nat, fedBack: nat, expired: nat, forgotten: nat)

  /** How often each kind of move happened to one identifier over a run. */
  function Count(l: LedgerState, calls: seq<Call>, id: nat): Tally {
    if calls == [] then Tally(0, 0, 0, 0) else
      var n := |calls| - 1;
      var t := Count(l, calls[..n], id);
      var call, reply := calls[n], Step(Run(l, calls[..n]), calls[n]).1;
      Tally(t.registered + (if RegisteredBy(call, reply, id) then 1 else 0),
            t.fedBack + (if FeedbackBy(call, reply, id) then 1 else 0),
            t.expired + (if ExpiredBy(call, reply, id) then 1 else 0),
            t.forgotten + (if ForgottenBy(call, reply, id) then 1 else 0))
  }

  /**
   Over every run from an empty ledger the state stays valid, and for each identifier every
   registration is accounted for: still pending, expired by an explicit sweep, or answered by exactly
   one accepted feedback, whose tombstone is still there or was explicitly forgotten.
   */
  lemma {:induction false} LifeCycle(config: LedgerConfig, calls: seq<Call>, id: nat)
    requires ConfigPositive(config)
    ensures var l := Run(Empty(config), calls); var t := Count(Empty(config), calls, id);
      && LedgerValid(l) && l.config == config
      && t.registered == t.fedBack + t.expired + (if id in l.pending then 1 else 0)
      && t.fedBack == t.forgotten + (if id in l.completed then 1 else 0)
  {
    if calls == [] {
    } else {
      var n := |calls| - 1;
      LifeCycle(config, calls[..n], id);
      var l := Run(Empty(config), calls[..n]);
      StepLegal(l, calls[n], id);
    }
  }

  /** Call `i` registered `d`, and nothing since has swept or forgotten it. */
  ghost predicate RegisteredAt(calls: seq<Call>, replies: seq<Reply>, i: nat, d: Decision) {
    && |replies| == |calls| && i < |calls|
    && calls[i] == CallRegister(d) && replies[i] == Receipt(Registered)
    && forall k :: i < k < |calls| ==>
        !ExpiredBy(calls[k], replies[k], d.id) && !ForgottenBy(calls[k], replies[k], d.id)
  }

  /** Call `j` is the accepted feedback that produced the tombstone `c`. */
  ghost predicate FedBackAt(calls: seq<Call>, replies: seq<Reply>, j: nat, c: Completed) {
    && |replies| == |calls| && j < |calls| && replies[j] == Applied
    && calls[j] == CallFeedback(Outcome(c.decision.id, c.decision.action, c.reward, c.observedAt, c.decision.modelGeneration))
  }

  lemma RegisteredLater(calls: seq<Call>, replies: seq<Reply>, i: nat, d: Decision)
    requires |calls| == |replies| > 0
    requires var n := |calls| - 1;
      && RegisteredAt(calls[..n], replies[..n], i, d)
      && !ExpiredBy(calls[n], replies[n], d.id) && !ForgottenBy(calls[n], replies[n], d.id)
    ensures RegisteredAt(calls, replies, i, d)
  {
    var n := |calls| - 1;
    forall k | i < k < n ensures !ExpiredBy(calls[k], replies[k], d.id) && !ForgottenBy(calls[k], replies[k], d.id) {
      assert calls[..n][k] == calls[k] && replies[..n][k] == replies[k];
    }
  }

  /** A pending decision is exactly what its last registration supplied. */
  lemma {:induction false} PendingProvenance(config: LedgerConfig, calls: seq<Call>, id: nat) returns (i: nat)
    requires ConfigPositive(config) && id in Run(Empty(config), calls).pending
    ensures RegisteredAt(calls, Replies(Empty(config), calls), i, Run(Empty(config), calls).pending[id])
    ensures Run(Empty(config), calls).pending[id].id == id
  {
    var n, start := |calls| - 1, Empty(config);
    var l := Run(start, calls[..n]);
    LifeCycle(config, calls[..n], id);
    StepLegal(l, calls[n], id);
    assert Replies(start, calls)[..n] == Replies(start, calls[..n]);
    if id in l.pending {
      i := PendingProvenance(config, calls[..n], id);
      RegisteredLater(calls, Replies(start, calls), i, l.pending[id]);
    } else {
      i := n;
    }
  }

  /**
   A tombstone carries exactly the facts of the registration it answers: some call registered its
   decision, a later accepted feedback supplied its reward and time, and nothing cleared it since.
   */
  lemma {:induction false} TombstoneProvenance(config: LedgerConfig, calls: seq<Call>, id: nat) returns (i: nat, j: nat)
    requires ConfigPositive(config) && id in Run(Empty(config), calls).completed
    ensures i < j
    ensures RegisteredAt(calls, Replies(Empty(config), calls), i, Run(Empty(config), calls).completed[id].decision)
    ensures FedBackAt(calls, Replies(Empty(config), calls), j, Run(Empty(config), calls).completed[id])
    ensures Run(Empty(config), calls).completed[id].decision.id == id
  {
    var n, start := |calls| - 1, Empty(config);
    var l := Run(start, calls[..n]);
    LifeCycle(config, calls[..n], id);
    StepLegal(l, calls[n], id);
    assert Replies(start, calls)[..n] == Replies(start, calls[..n]);
    if id in l.completed {
      i, j := TombstoneProvenance(config, calls[..n], id);
      RegisteredLater(calls, Replies(start, calls), i, l.completed[id].decision);
    } else {
      i := PendingProvenance(config, calls[..n], id);
      RegisteredLater(calls, Replies(start, calls), i, l.pending[id]);
      j := n;
    }
  }
}
