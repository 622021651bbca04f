/** The retained event summary tells the truth about the trace: when it started, how often and how strongly it occurred. */
module ConsensusEvents {
  import opened Names
  import opened DriftLevels
  import opened Consensus
  import opened ConsensusTraces

  function Higher(a: Level, b: Level): Level {
    if Rank(b) > Rank(a) then b else a
  }

  /** How many windows after position `from` recorded or merged an occurrence. */
  function Occurrences(c: Config, trace: seq<Window>, from: nat): nat
    requires Run(c, trace).Ok?
  {
    if |trace| <= from then 0
    else
      RunInit(c, trace);
      Occurrences(c, trace[..|trace| - 1], from) + if Occurred(c, trace) then 1 else 0
  }

  /** The highest raw level among those windows. */
  function Peak(c: Config, trace: seq<Window>, from: nat): Level
    requires Run(c, trace).Ok?
  {
    if |trace| <= from then NoDrift
    else
      RunInit(c, trace);
      var before := Peak(c, trace[..|trace| - 1], from);
      if Occurred(c, trace) && KindOf(c, trace).Raw? then Higher(before, KindOf(c, trace).level) else before
  }

  /** The last window that recorded or merged an occurrence. */
  function LastOccurrence(c: Config, trace: seq<Window>): nat
    requires Run(c, trace).Ok?
  {
    if trace == [] then 0
    else
      RunInit(c, trace);
      if Occurred(c, trace) then |trace| else LastOccurrence(c, trace[..|trace| - 1])
  }

  lemma RunInit(c: Config, trace: seq<Window>)
    requires trace != [] && Run(c, trace).Ok?
    ensures Run(c, trace[..|trace| - 1]).Ok?
  {}

  // ---- one window ----

  /** What a recorded occurrence of level `level` does to the summary. */
  ghost predicate Tells(f: State, next: State, recorded: Recorded, level: Level, generation: nat) {
    && next.lastEvent.Some?
    && var e := next.lastEvent.value;
      && e.lastWindow == f.windowsSeen && e.generation == generation
      && (recorded == Fresh ==> e.firstWindow == f.windowsSeen && e.occurrences == 1 && e.peakLevel == level)
      && (recorded == Merged ==>
            && f.lastEvent.Some? && e.firstWindow == f.lastEvent.value.firstWindow
            && e.occurrences == f.lastEvent.value.occurrences + 1
            && e.peakLevel == Higher(f.lastEvent.value.peakLevel, level))
  }

  lemma RecordTells(s: State, level: Level, names: seq<Name>, generation: nat)
    requires RecordEvent(s, level, names, generation).Ok?
    ensures var (next, recorded) := RecordEvent(s, level, names, generation).value;
      Tells(s, next, recorded, level, generation)
  {}

  lemma LevelTells(s: State, raw: Level, allowed: bool, names: seq<Name>, generation: nat)
    requires OnLevel(s, raw, allowed, names, generation).Ok?
    ensures var m := OnLevel(s, raw, allowed, names, generation).value;
      && (m.recorded.Some? ==> raw != NoDrift && Tells(s, m.state, m.recorded.value, raw, generation))
      && (m.recorded.None? ==> m.state.lastEvent == s.lastEvent)
  {
    match raw
    case Drift =>
      var t := s.(clearStreak := 0, warningStreak := 0, driftStreak := s.driftStreak + 1, activeLevel := Drift);
      if allowed && RecordEvent(t, Drift, names, generation).Ok? { RecordTells(t, Drift, names, generation); }
    case Warning =>
      var t := s.(clearStreak := 0, driftStreak := 0, warningStreak := s.warningStreak + 1, activeLevel := Warning);
      if allowed && RecordEvent(t, Warning, names, generation).Ok? { RecordTells(t, Warning, names, generation); }
    case NoDrift =>
  }

  lemma DecideTells(f: State, votes: seq<Vote>, generation: nat)
    requires Decide(f, votes, generation).Ok?
    ensures var m := Decide(f, votes, generation).value;
      && (m.recorded.Some? ==>
            && !Warming(f) && !Incomplete(f.config, votes)
            && Tells(f, m.state, m.recorded.value, RawLevel(f.config, votes), generation))
      && (m.recorded.None? ==> m.state.lastEvent == f.lastEvent)
  {
    if !(Warming(f) || Incomplete(f.config, votes)) {
      LevelTells(CoolDown(f), RawLevel(f.config, votes), f.cooldownRemaining == 0, Triggered(votes), generation);
    }
  }

  /** The last window of a run, in terms of the trace. */
  lemma LastTells(c: Config, trace: seq<Window>)
    requires trace != [] && Run(c, trace).Ok?
    ensures Run(c, trace[..|trace| - 1]).Ok?
    ensures var before, after, r := Run(c, trace[..|trace| - 1]).value.lastEvent, Run(c, trace).value.lastEvent, LastResult(c, trace);
      && (!Occurred(c, trace) ==> after == before)
      && (Occurred(c, trace) ==>
            && after.Some? && KindOf(c, trace).Raw? && after.value.lastWindow == |trace|
            && after.value.generation == LastGeneration(trace)
            && (r.newEvent ==>
                  after.value.firstWindow == |trace| && after.value.occurrences == 1 && after.value.peakLevel == KindOf(c, trace).level)
            && (!r.newEvent ==>
                  && before.Some? && after.value.firstWindow == before.value.firstWindow
                  && after.value.occurrences == before.value.occurrences + 1
                  && after.value.peakLevel == Higher(before.value.peakLevel, KindOf(c, trace).level)))
  {
    LastUpdate(c, trace);
    var last := trace[|trace| - 1];
    var s := Run(c, trace[..|trace| - 1]).value;
    RunAgrees(c, trace[..|trace| - 1]);
    OpenAgrees(c, trace, s);
    DecideTells(Open(s, last.generation).value, last.votes, last.generation);
  }

  // ---- the summary ----

  /** What a summary `e` says about a trace when it is exact. */
  ghost predicate Exact(c: Config, trace: seq<Window>, e: Summary)
    requires Run(c, trace).Ok?
  {
    && 0 < e.firstWindow <= e.lastWindow <= |trace|
    && EndsInNewEvent(c, trace[..e.firstWindow], e.eventId)
    && e.lastWindow == LastOccurrence(c, trace)
    && e.occurrences == Occurrences(c, trace, e.firstWindow - 1)
    && e.peakLevel == Peak(c, trace, e.firstWindow - 1)
  }

  /**
   After every trace the retained summary is exact: it started with a window that recorded a new event under
   its identifier, and since then its occurrence count, last window and peak level are those of the trace.
   */
  lemma {:induction false} SummaryTrue(c: Config, trace: seq<Window>)
    requires Run(c, trace).Ok? && Run(c, trace).value.lastEvent.Some?
    ensures Exact(c, trace, Run(c, trace).value.lastEvent.value)
  {
    if trace == [] {
    } else {
      LastTells(c, trace);
      LastTick(c, trace);
      UpdateRecords(c, trace);
      if LastResult(c, trace).newEvent {
        assert trace[..|trace|] == trace;
      } else {
        SummaryTrue(c, trace[..|trace| - 1]);
        ExactKept(c, trace, trace[..|trace| - 1]);
      }
    }
  }

  /** A window that records no new event keeps an exact summary exact. */
  lemma ExactKept(c: Config, trace: seq<Window>, init: seq<Window>)
    requires trace != [] && Run(c, trace).Ok? && Run(c, trace).value.lastEvent.Some? && !LastResult(c, trace).newEvent
    requires init == trace[..|trace| - 1] && Run(c, init).Ok? && Run(c, init).value.lastEvent.Some?
    requires Exact(c, init, Run(c, init).value.lastEvent.value)
    ensures Exact(c, trace, Run(c, trace).value.lastEvent.value)
  {
    SummaryMoves(c, trace);
    SummaryCarries(c, trace, init, Run(c, init).value.lastEvent.value, Run(c, trace).value.lastEvent.value);
  }

  lemma SummaryCarries(c: Config, trace: seq<Window>, init: seq<Window>, before: Summary, e: Summary)
    requires trace != [] && Run(c, trace).Ok? && init == trace[..|trace| - 1] && Run(c, init).Ok? && Exact(c, init, before)
    requires e.firstWindow == before.firstWindow && e.eventId == before.eventId
    requires !Occurred(c, trace) ==> e == before
    requires Occurred(c, trace) ==>
      && KindOf(c, trace).Raw? && e.lastWindow == |trace| && e.occurrences == before.occurrences + 1
      && e.peakLevel == Higher(before.peakLevel, KindOf(c, trace).level)
    ensures Exact(c, trace, e)
  {
    FoldsCarry(c, trace, init, e.firstWindow - 1);
    StartCarries(c, trace, init, e.firstWindow, e.eventId);
  }

  lemma StartCarries(c: Config, trace: seq<Window>, init: seq<Window>, first: nat, id: nat)
    requires trace != [] && init == trace[..|trace| - 1] && first <= |init| && EndsInNewEvent(c, init[..first], id)
    ensures EndsInNewEvent(c, trace[..first], id)
  {
    assert init[..first] == trace[..first];
  }

  lemma FoldsCarry(c: Config, trace: seq<Window>, init: seq<Window>, from: nat)
    requires from < |trace| && Run(c, trace).Ok? && init == trace[..|trace| - 1] && Run(c, init).Ok?
    ensures LastOccurrence(c, trace) == if Occurred(c, trace) then |trace| else LastOccurrence(c, init)
    ensures Occurrences(c, trace, from) == Occurrences(c, init, from) + if Occurred(c, trace) then 1 else 0
    ensures Peak(c, trace, from) ==
      if Occurred(c, trace) && KindOf(c, trace).Raw? then Higher(Peak(c, init, from), KindOf(c, trace).level)
      else Peak(c, init, from)
  {}

  /** The folds over the windows since `from`, with the last window split off. */
  lemma FoldsLast(c: Config, trace: seq<Window>, from: nat)
    requires from < |trace| && Run(c, trace).Ok?
    ensures Run(c, trace[..|trace| - 1]).Ok?
    ensures var init := trace[..|trace| - 1];
      && (!Occurred(c, trace) ==>
            && LastOccurrence(c, trace) == LastOccurrence(c, init)
            && Occurrences(c, trace, from) == Occurrences(c, init, from) && Peak(c, trace, from) == Peak(c, init, from))
      && (Occurred(c, trace) && KindOf(c, trace).Raw? ==>
            && LastOccurrence(c, trace) == |trace|
            && Occurrences(c, trace, from) == Occurrences(c, init, from) + 1
            && Peak(c, trace, from) == Higher(Peak(c, init, from), KindOf(c, trace).level))
  {
    RunInit(c, trace);
  }

  /** Without a new event the summary stays, or one occurrence is merged into it. */
  lemma SummaryMoves(c: Config, trace: seq<Window>)
    requires trace != [] && Run(c, trace).Ok? && Run(c, trace).value.lastEvent.Some? && !LastResult(c, trace).newEvent
    ensures Run(c, trace[..|trace| - 1]).Ok? && Run(c, trace[..|trace| - 1]).value.lastEvent.Some?
    ensures var before, e := Run(c, trace[..|trace| - 1]).value.lastEvent.value, Run(c, trace).value.lastEvent.value;
      && e.firstWindow == before.firstWindow && e.eventId == before.eventId
      && (!Occurred(c, trace) ==> e == before)
      && (Occurred(c, trace) ==>
            && KindOf(c, trace).Raw? && e.lastWindow == |trace| && e.occurrences == before.occurrences + 1
            && e.peakLevel == Higher(before.peakLevel, KindOf(c, trace).level))
  {
    LastTells(c, trace);
    LastTick(c, trace);
    UpdateRecords(c, trace);
  }

  lemma UpdateRecords(c: Config, trace: seq<Window>)
    requires trace != [] && Run(c, trace).Ok? && Run(c, trace[..|trace| - 1]).Ok?
    ensures LastResult(c, trace).mergedEvent ==>
      && Run(c, trace[..|trace| - 1]).value.lastEvent.Some? && Run(c, trace).value.lastEvent.Some?
      && Run(c, trace).value.lastEvent.value.eventId == Run(c, trace[..|trace| - 1]).value.lastEvent.value.eventId
      && !LastResult(c, trace).newEvent
  {
    LastUpdate(c, trace);
    var last := trace[|trace| - 1];
    UpdateDoes(Run(c, trace[..|trace| - 1]).value, last.votes, last.generation);
  }

  /** Window `k` recorded an occurrence at raw level Drift. */
  ghost predicate DriftOccurrence(c: Config, trace: seq<Window>, k: nat) {
    && 0 < k <= |trace| && Run(c, trace[..k]).Ok?
    && Occurred(c, trace[..k]) && KindOf(c, trace[..k]) == Raw(Drift)
  }

  lemma {:induction false} PeakFold(c: Config, trace: seq<Window>, from: nat)
    requires Run(c, trace).Ok?
    ensures Peak(c, trace, from) == Drift <==> DriftSince(c, trace, from)
  {
    if |trace| <= from {
    } else {
      RunInit(c, trace);
      PeakFold(c, trace[..|trace| - 1], from);
      PeakLast(c, trace, from);
      DriftSinceLast(c, trace, from, trace[..|trace| - 1]);
    }
  }

  lemma PeakLast(c: Config, trace: seq<Window>, from: nat)
    requires from < |trace| && Run(c, trace).Ok?
    ensures Run(c, trace[..|trace| - 1]).Ok?
    ensures Peak(c, trace, from) == Drift <==>
      Peak(c, trace[..|trace| - 1], from) == Drift || (Occurred(c, trace) && KindOf(c, trace) == Raw(Drift))
  {
    LastTells(c, trace);
    FoldsLast(c, trace, from);
  }

  /** Some window after position `from` recorded an occurrence at raw level Drift. */
  ghost predicate DriftSince(c: Config, trace: seq<Window>, from: nat) {
    exists k: nat :: k > from && DriftOccurrence(c, trace, k)
  }

  lemma DriftOccurrenceBefore(c: Config, trace: seq<Window>, k: nat)
    requires k < |trace|
    ensures DriftOccurrence(c, trace, k) <==> DriftOccurrence(c, trace[..|trace| - 1], k)
  {
    if k > 0 { assert trace[..|trace| - 1][..k] == trace[..k]; }
  }

  lemma DriftSinceLast(c: Config, trace: seq<Window>, from: nat, init: seq<Window>)
    requires from < |trace| && Run(c, trace).Ok? && init == trace[..|trace| - 1]
    ensures DriftSince(c, trace, from) <==>
      DriftSince(c, init, from) || (Occurred(c, trace) && KindOf(c, trace) == Raw(Drift))
  {
    DriftAtEnd(c, trace);
    forall k: nat | k > from && DriftOccurrence(c, init, k) ensures DriftOccurrence(c, trace, k) {
      DriftOccurrenceBefore(c, trace, k);
    }
    forall k: nat | k > from && k < |trace| && DriftOccurrence(c, trace, k) ensures DriftOccurrence(c, init, k) {
      DriftOccurrenceBefore(c, trace, k);
    }
  }

  lemma DriftAtEnd(c: Config, trace: seq<Window>)
    requires trace != [] && Run(c, trace).Ok?
    ensures DriftOccurrence(c, trace, |trace|) <==> Occurred(c, trace) && KindOf(c, trace) == Raw(Drift)
  {
    assert trace[..|trace|] == trace;
  }

  /** The peak of the retained event is Drift exactly when one of its occurrences was, and Warning otherwise. */
  lemma PeakMeaning(c: Config, trace: seq<Window>)
    requires Run(c, trace).Ok? && Run(c, trace).value.lastEvent.Some?
    ensures var e := Run(c, trace).value.lastEvent.value;
      && (e.peakLevel == Drift || e.peakLevel == Warning)
      && e.firstWindow > 0 && (e.peakLevel == Drift <==> DriftSince(c, trace, e.firstWindow - 1))
  {
    var e := Run(c, trace).value.lastEvent.value;
    SummaryTrue(c, trace);
    RunAgrees(c, trace);
    PeakFold(c, trace, e.firstWindow - 1);
  }
}
