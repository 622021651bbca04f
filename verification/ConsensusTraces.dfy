/**
 Guarantees of the drift consensus over whole traces of accepted vote windows, stated through
 functions of the trace alone: which windows count, and how long they have agreed.
 */
module ConsensusTraces {
  import opened Errors
  import opened Names
  import opened Consensus
  import opened DriftLevels

  datatype Window = Window(votes: seq<Vote>, generation: nat)

  /** The state after a trace, or the first error. */
  function Run(c: Config, trace: seq<Window>): Result<State> {
    if trace == [] then New(c) else
      var last := trace[|trace| - 1];
      match Run(c, trace[..|trace| - 1])
      case Err(e) => Err(e)
      case Ok(s) =>
        match Update(s, last.votes, last.generation)
        case Err(e) => Err(e)
        case Ok(pair) => Ok(pair.0)
  }

  // ---- what a trace says by itself ----

  /** The last two windows belong to different generations. */
  predicate Boundary(trace: seq<Window>)
    requires trace != []
  {
    |trace| > 1 && trace[|trace| - 2].generation != trace[|trace| - 1].generation
  }

  /** How many windows at the end of the trace share its last generation. */
  function GenerationRun(trace: seq<Window>): nat {
    if trace == [] then 0
    else if Boundary(trace) then 1
    else 1 + GenerationRun(trace[..|trace| - 1])
  }

  /** Warming or incomplete windows are skipped; the others have a raw level. */
  datatype Kind = Skipped | Raw(level: Level)

  function KindOf(c: Config, trace: seq<Window>): Kind
    requires trace != []
  {
    var votes := trace[|trace| - 1].votes;
    if GenerationRun(trace) <= c.warmingWindows || Incomplete(c, votes) then Skipped else Raw(RawLevel(c, votes))
  }

  /** The number of unbroken windows of raw level `level` at the end of the trace, in one generation. */
  function Streak(c: Config, trace: seq<Window>, level: Level): nat {
    if trace == [] || KindOf(c, trace) != Raw(level) then 0
    else if Boundary(trace) then 1
    else 1 + Streak(c, trace[..|trace| - 1], level)
  }

  /** The number of stable windows since the last change window of this generation. */
  function Calm(c: Config, trace: seq<Window>): nat {
    if trace == [] then 0 else
      var before := if Boundary(trace) then 0 else Calm(c, trace[..|trace| - 1]);
      match KindOf(c, trace)
      case Skipped => before
      case Raw(level) => if level == NoDrift then before + 1 else 0
  }

  /** The level before the last window, forgotten at a generation boundary. */
  function LevelBefore(c: Config, trace: seq<Window>): Level
    requires trace != []
    decreases |trace|, 0
  {
    if Boundary(trace) then NoDrift else LevelAfter(c, trace[..|trace| - 1])
  }

  /** The hysteresis rule on traces. */
  function LevelAfter(c: Config, trace: seq<Window>): Level
    decreases |trace|, 1
  {
    if trace == [] then NoDrift else
      var before := LevelBefore(c, trace);
      if Streak(c, trace, Drift) >= c.confirmationWindows then Drift
      else if before == NoDrift && Streak(c, trace, Warning) >= c.confirmationWindows then Warning
      else if KindOf(c, trace) == Raw(NoDrift) && Calm(c, trace) >= c.clearWindows then NoDrift
      else before
  }

  // ---- the effect of one accepted window ----

  /** What the level logic does to the counters, read off the raw level. */
  ghost predicate Tracks(f: State, next: State, kind: Kind) {
    match kind
    case Skipped =>
      next.driftStreak == 0 && next.warningStreak == 0 && next.clearStreak == f.clearStreak && next.activeLevel == f.activeLevel
    case Raw(level) =>
      match level
      case Drift =>
        && next.driftStreak == f.driftStreak + 1 && next.warningStreak == 0 && next.clearStreak == 0
        && next.activeLevel == if next.driftStreak >= f.config.confirmationWindows then Drift else f.activeLevel
      case Warning =>
        && next.driftStreak == 0 && next.warningStreak == f.warningStreak + 1 && next.clearStreak == 0
        && next.activeLevel ==
          if f.activeLevel == NoDrift && next.warningStreak >= f.config.confirmationWindows then Warning else f.activeLevel
      case NoDrift =>
        && next.driftStreak == 0 && next.warningStreak == 0
        && (if f.activeLevel != NoDrift && f.clearStreak + 1 >= f.config.clearWindows
            then next.activeLevel == NoDrift && next.clearStreak == 0
            else next.activeLevel == f.activeLevel && next.clearStreak == f.clearStreak + 1)
  }

  /** What a window does to the event record. */
  ghost predicate Records(f: State, next: State, r: WindowResult) {
    && !(r.newEvent && r.mergedEvent)
    && (r.newEvent || r.mergedEvent ==> f.cooldownRemaining == 0 && next.cooldownRemaining == f.config.cooldownWindows)
    && (r.newEvent || r.mergedEvent ==> next.lastEvent.Some? && Ascending(next.lastEvent.value.detectors))
    && (!(r.newEvent || r.mergedEvent) ==>
          next.lastEvent == f.lastEvent && next.cooldownRemaining == if f.cooldownRemaining > 0 then f.cooldownRemaining - 1 else 0)
    && (r.newEvent ==> next.lastEvent.value.eventId == f.nextEventId && next.nextEventId == f.nextEventId + 1)
    && (!r.newEvent ==> next.nextEventId == f.nextEventId)
    && (r.mergedEvent ==> f.lastEvent.Some? && next.lastEvent.value.eventId == f.lastEvent.value.eventId)
  }

  lemma RecordDoes(s: State, level: Level, detectors: seq<Name>, generation: nat)
    requires RecordEvent(s, level, detectors, generation).Ok?
    ensures var (next, recorded) := RecordEvent(s, level, detectors, generation).value;
      && next == s.(lastEvent := next.lastEvent, nextEventId := next.nextEventId, cooldownRemaining := s.config.cooldownWindows)
      && next.lastEvent.Some? && Ascending(next.lastEvent.value.detectors)
      && (recorded == Fresh ==> next.lastEvent.value.eventId == s.nextEventId && next.nextEventId == s.nextEventId + 1)
      && (recorded == Merged ==>
            && next.nextEventId == s.nextEventId && s.lastEvent.Some?
            && next.lastEvent.value.eventId == s.lastEvent.value.eventId)
  {
    var names := if CanMerge(s, generation) then s.lastEvent.value.detectors + detectors else detectors;
    CollectAscending(names);
    assert Ascending(Take(Collect(names), s.config.maxDetectors));
  }

  lemma LevelDoes(f: State, raw: Level, names: seq<Name>, generation: nat)
    requires f.config.confirmationWindows > 0
    requires OnLevel(CoolDown(f), raw, f.cooldownRemaining == 0, names, generation).Ok?
    ensures var m := OnLevel(CoolDown(f), raw, f.cooldownRemaining == 0, names, generation).value;
      && Tracks(f, m.state, Raw(raw))
      && m.state.windowsSeen == f.windowsSeen && m.state.generationWindows == f.generationWindows
      && m.state.activeGeneration == f.activeGeneration && m.state.config == f.config
  {
    var s := CoolDown(f);
    var allowed := f.cooldownRemaining == 0;
    match raw
    case Drift =>
      var t := s.(clearStreak := 0, warningStreak := 0, driftStreak := s.driftStreak + 1, activeLevel := Drift);
      if allowed && RecordEvent(t, Drift, names, generation).Ok? { RecordDoes(t, Drift, names, generation); }
    case Warning =>
      var t := s.(clearStreak := 0, driftStreak := 0, warningStreak := s.warningStreak + 1, activeLevel := Warning);
      if allowed && RecordEvent(t, Warning, names, generation).Ok? { RecordDoes(t, Warning, names, generation); }
    case NoDrift =>
  }

  lemma LevelRecords(f: State, raw: Level, names: seq<Name>, generation: nat)
    requires OnLevel(CoolDown(f), raw, f.cooldownRemaining == 0, names, generation).Ok?
    ensures var m := OnLevel(CoolDown(f), raw, f.cooldownRemaining == 0, names, generation).value;
      RecordsMove(f, m)
  {
    var s := CoolDown(f);
    var allowed := f.cooldownRemaining == 0;
    match raw
    case Drift =>
      var t := s.(clearStreak := 0, warningStreak := 0, driftStreak := s.driftStreak + 1, activeLevel := Drift);
      if allowed && RecordEvent(t, Drift, names, generation).Ok? { RecordDoes(t, Drift, names, generation); }
    case Warning =>
      var t := s.(clearStreak := 0, driftStreak := 0, warningStreak := s.warningStreak + 1, activeLevel := Warning);
      if allowed && RecordEvent(t, Warning, names, generation).Ok? { RecordDoes(t, Warning, names, generation); }
    case NoDrift =>
  }

  ghost predicate RecordsMove(f: State, m: Move) {
    && (m.recorded.Some? ==>
          && f.cooldownRemaining == 0 && m.state.cooldownRemaining == f.config.cooldownWindows
          && m.state.lastEvent.Some? && Ascending(m.state.lastEvent.value.detectors))
    && (m.recorded.None? ==>
          && m.state.lastEvent == f.lastEvent
          && m.state.cooldownRemaining == if f.cooldownRemaining > 0 then f.cooldownRemaining - 1 else 0)
    && (m.recorded == Some(Fresh) ==>
          m.state.lastEvent.value.eventId == f.nextEventId && m.state.nextEventId == f.nextEventId + 1)
    && (m.recorded != Some(Fresh) ==> m.state.nextEventId == f.nextEventId)
    && (m.recorded == Some(Merged) ==>
          f.lastEvent.Some? && m.state.lastEvent.value.eventId == f.lastEvent.value.eventId)
  }

  ghost predicate SameWindow(f: State, next: State) {
    && next.windowsSeen == f.windowsSeen && next.generationWindows == f.generationWindows
    && next.activeGeneration == f.activeGeneration && next.config == f.config
  }

  lemma DecideDoes(f: State, votes: seq<Vote>, generation: nat)
    requires f.config.confirmationWindows > 0 && Decide(f, votes, generation).Ok?
    ensures var m := Decide(f, votes, generation).value;
      && SameWindow(f, m.state) && RecordsMove(f, m)
      && Tracks(f, m.state, if Warming(f) || Incomplete(f.config, votes) then Skipped else Raw(RawLevel(f.config, votes)))
  {
    if !(Warming(f) || Incomplete(f.config, votes)) {
      LevelDoes(f, RawLevel(f.config, votes), Triggered(votes), generation);
      LevelRecords(f, RawLevel(f.config, votes), Triggered(votes), generation);
    }
  }

  /** One accepted window, from the state `f` that entering the window produced. */
  lemma UpdateDoes(s: State, votes: seq<Vote>, generation: nat)
    requires s.config.confirmationWindows > 0 && Update(s, votes, generation).Ok?
    ensures Open(s, generation).Ok?
    ensures var f := Open(s, generation).value;
      var (next, r) := Update(s, votes, generation).value;
      && SameWindow(f, next) && Records(f, next, r)
      && Tracks(f, next, if Warming(f) || Incomplete(f.config, votes) then Skipped else Raw(RawLevel(f.config, votes)))
  {
    DecideDoes(Open(s, generation).value, votes, generation);
  }

  // ---- the machine agrees with the trace ----

  ghost predicate Agrees(c: Config, trace: seq<Window>, s: State) {
    && StateValid(s) && s.config == c
    && s.windowsSeen == |trace| && s.generationWindows == GenerationRun(trace)
    && s.activeGeneration == (if trace == [] then None else Some(trace[|trace| - 1].generation))
    && s.driftStreak == Streak(c, trace, Drift) && s.warningStreak == Streak(c, trace, Warning)
    && s.activeLevel == LevelAfter(c, trace)
    && s.clearStreak <= Calm(c, trace) && (s.activeLevel != NoDrift ==> s.clearStreak == Calm(c, trace))
  }

  lemma StepAgrees(c: Config, trace: seq<Window>, s: State)
    requires trace != [] && Agrees(c, trace[..|trace| - 1], s)
    requires Update(s, trace[|trace| - 1].votes, trace[|trace| - 1].generation).Ok?
    ensures Agrees(c, trace, Update(s, trace[|trace| - 1].votes, trace[|trace| - 1].generation).value.0)
  {
    var last := trace[|trace| - 1];
    UpdateKeeps(s, last.votes, last.generation);
    UpdateDoes(s, last.votes, last.generation);
    OpenAgrees(c, trace, s);
    TracksAgree(c, trace, Open(s, last.generation).value, Update(s, last.votes, last.generation).value.0);
  }

  /** What entering the last window leaves of the state before it. */
  ghost predicate EnteredAgrees(c: Config, trace: seq<Window>, f: State)
    requires trace != []
  {
    var init := trace[..|trace| - 1];
    && f.config == c && f.windowsSeen == |trace| && f.generationWindows == GenerationRun(trace)
    && f.activeGeneration == Some(trace[|trace| - 1].generation)
    && f.driftStreak == (if Boundary(trace) then 0 else Streak(c, init, Drift))
    && f.warningStreak == (if Boundary(trace) then 0 else Streak(c, init, Warning))
    && f.activeLevel == LevelBefore(c, trace)
    && var calm := if Boundary(trace) then 0 else Calm(c, init);
       f.clearStreak <= calm && (f.activeLevel != NoDrift ==> f.clearStreak == calm)
  }

  lemma OpenAgrees(c: Config, trace: seq<Window>, s: State)
    requires trace != [] && Agrees(c, trace[..|trace| - 1], s) && Open(s, trace[|trace| - 1].generation).Ok?
    ensures EnteredAgrees(c, trace, Open(s, trace[|trace| - 1].generation).value)
  {
    assert GenerationChanged(s, trace[|trace| - 1].generation) == Boundary(trace);
  }

  lemma TracksAgree(c: Config, trace: seq<Window>, f: State, next: State)
    requires trace != [] && EnteredAgrees(c, trace, f) && StateValid(next) && next.config == c
    requires SameWindow(f, next) && Tracks(f, next, KindOf(c, trace))
    ensures Agrees(c, trace, next)
  {}

  /**
   After every trace of accepted windows the whole dynamic state is what the trace says: streaks,
   generation length, and the hysteretic level; and the validated invariant holds.
   */
  lemma {:induction false} RunAgrees(c: Config, trace: seq<Window>)
    requires Run(c, trace).Ok?
    ensures Agrees(c, trace, Run(c, trace).value)
  {
    if trace == [] {
    } else {
      RunAgrees(c, trace[..|trace| - 1]);
      StepAgrees(c, trace, Run(c, trace[..|trace| - 1]).value);
    }
  }

  // ---- confirmation and hysteresis ----

  function LastGeneration(trace: seq<Window>): nat
    requires trace != []
  {
    trace[|trace| - 1].generation
  }

  /** Window `k` (counting from one) belongs to `generation` and has kind `kind`. */
  ghost predicate IsKind(c: Config, trace: seq<Window>, k: int, kind: Kind, generation: nat) {
    0 < k <= |trace| && KindOf(c, trace[..k]) == kind && trace[k - 1].generation == generation
  }

  /** The last `n` windows are of one generation and each has raw level `level`. */
  ghost predicate Unanimous(c: Config, trace: seq<Window>, level: Level, n: nat) {
    && n <= |trace|
    && (trace != [] ==>
          forall k :: |trace| - n < k <= |trace| ==> IsKind(c, trace, k, Raw(level), LastGeneration(trace)))
  }

  lemma IsKindPrefix(c: Config, trace: seq<Window>, k: int, kind: Kind, generation: nat)
    requires trace != [] && k < |trace|
    ensures IsKind(c, trace[..|trace| - 1], k, kind, generation) <==> IsKind(c, trace, k, kind, generation)
  {
    if 0 < k { assert trace[..|trace| - 1][..k] == trace[..k]; }
  }

  lemma IsKindLast(c: Config, trace: seq<Window>, kind: Kind)
    requires trace != []
    ensures IsKind(c, trace, |trace|, kind, LastGeneration(trace)) <==> KindOf(c, trace) == kind
  {
    assert trace[..|trace|] == trace;
  }

  /** A streak of at least `n` is exactly `n` unanimous windows in one generation. */
  lemma {:induction false} StreakMeans(c: Config, trace: seq<Window>, level: Level, n: nat)
    ensures Streak(c, trace, level) >= n <==> Unanimous(c, trace, level, n)
  {
    if n == 0 || trace == [] {
    } else {
      var init, g := trace[..|trace| - 1], LastGeneration(trace);
      StreakMeans(c, init, level, n - 1);
      IsKindLast(c, trace, Raw(level));
      if Streak(c, trace, level) >= n { UnanimousExtends(c, trace, level, n); }
      if Unanimous(c, trace, level, n) && n > 1 {
        assert IsKind(c, trace, |trace| - 1, Raw(level), g);
        UnanimousShrinks(c, trace, level, n);
      }
    }
  }

  lemma UnanimousExtends(c: Config, trace: seq<Window>, level: Level, n: nat)
    requires trace != [] && n > 0 && Unanimous(c, trace[..|trace| - 1], level, n - 1)
    requires n > 1 ==> LastGeneration(trace[..|trace| - 1]) == LastGeneration(trace)
    ensures KindOf(c, trace) == Raw(level) ==> Unanimous(c, trace, level, n)
  {
    var init, g := trace[..|trace| - 1], LastGeneration(trace);
    IsKindLast(c, trace, Raw(level));
    forall k | |trace| - n < k < |trace| ensures IsKind(c, trace, k, Raw(level), g) {
      assert IsKind(c, init, k, Raw(level), LastGeneration(init));
      IsKindPrefix(c, trace, k, Raw(level), g);
    }
  }

  lemma UnanimousShrinks(c: Config, trace: seq<Window>, level: Level, n: nat)
    requires trace != [] && n > 1 && Unanimous(c, trace, level, n)
    ensures Unanimous(c, trace[..|trace| - 1], level, n - 1)
    ensures LastGeneration(trace[..|trace| - 1]) == LastGeneration(trace)
  {
    var init, g := trace[..|trace| - 1], LastGeneration(trace);
    assert IsKind(c, trace, |trace| - 1, Raw(level), g);
    forall k | |trace| - n < k < |trace| ensures IsKind(c, init, k, Raw(level), g) {
      assert IsKind(c, trace, k, Raw(level), g);
      IsKindPrefix(c, trace, k, Raw(level), g);
    }
  }

  /** The level after a trace, in the terms a caller can observe. */
  lemma LevelsOfRun(c: Config, trace: seq<Window>)
    requires trace != [] && Run(c, trace).Ok?
    ensures Run(c, trace[..|trace| - 1]).Ok?
    ensures Run(c, trace).value.activeLevel == LevelAfter(c, trace)
    ensures Run(c, trace[..|trace| - 1]).value.activeLevel == LevelAfter(c, trace[..|trace| - 1])
  {
    RunAgrees(c, trace);
    RunAgrees(c, trace[..|trace| - 1]);
  }

  /** The level steps of the trace functions, each with its exact condition. */
  lemma StepsOnTraces(c: Config, trace: seq<Window>)
    requires trace != [] && c.confirmationWindows > 0
    ensures var before, after := LevelAfter(c, trace[..|trace| - 1]), LevelAfter(c, trace);
      && (before != Drift ==> (after == Drift <==> Unanimous(c, trace, Drift, c.confirmationWindows)))
      && (before == NoDrift ==> (after == Warning <==> Unanimous(c, trace, Warning, c.confirmationWindows)))
      && (after == Warning && before != Warning ==>
            Unanimous(c, trace, Warning, c.confirmationWindows) && (before == NoDrift || Boundary(trace)))
      && (before == Drift ==>
            (after == Warning <==> Boundary(trace) && c.confirmationWindows == 1 && KindOf(c, trace) == Raw(Warning)))
    ensures Unanimous(c, trace, Drift, c.confirmationWindows) ==> LevelAfter(c, trace) == Drift
  {
    StreakMeans(c, trace, Drift, c.confirmationWindows);
    StreakMeans(c, trace, Warning, c.confirmationWindows);
    if Boundary(trace) { BoundaryStreak(c, trace, Warning); }
  }

  /** A generation boundary cuts every streak to one, and its window counts only without warming. */
  lemma BoundaryStreak(c: Config, trace: seq<Window>, level: Level)
    requires trace != [] && Boundary(trace)
    ensures Streak(c, trace, level) == if KindOf(c, trace) == Raw(level) then 1 else 0
    ensures KindOf(c, trace).Raw? ==> c.warmingWindows == 0
  {}

  /**
   Confirmation: the level becomes Drift, or Warning from no drift, exactly at the end of at least
   `confirmationWindows` unbroken, complete, non-warming windows of one generation with that raw level.
   */
  lemma Confirmation(c: Config, trace: seq<Window>)
    requires trace != [] && Run(c, trace).Ok?
    ensures Run(c, trace[..|trace| - 1]).Ok?
    ensures var before, after := Run(c, trace[..|trace| - 1]).value.activeLevel, Run(c, trace).value.activeLevel;
      && (before != Drift ==> (after == Drift <==> Unanimous(c, trace, Drift, c.confirmationWindows)))
      && (before == NoDrift ==> (after == Warning <==> Unanimous(c, trace, Warning, c.confirmationWindows)))
      && (after == Warning && before != Warning ==>
            Unanimous(c, trace, Warning, c.confirmationWindows) && (before == NoDrift || Boundary(trace)))
    ensures Unanimous(c, trace, Drift, c.confirmationWindows) ==> Run(c, trace).value.activeLevel == Drift
  {
    LevelsOfRun(c, trace);
    RunAgrees(c, trace);
    StepsOnTraces(c, trace);
  }

  // ---- clearing ----

  /** Window `k` belongs to `generation` and does not report a change. */
  ghost predicate Quiet(c: Config, trace: seq<Window>, k: int, generation: nat) {
    IsKind(c, trace, k, Skipped, generation) || IsKind(c, trace, k, Raw(NoDrift), generation)
  }

  /** How many of the windows after position `from` are complete and stable. */
  function StableCount(c: Config, trace: seq<Window>, from: nat): nat {
    if |trace| <= from then 0
    else StableCount(c, trace[..|trace| - 1], from) + if KindOf(c, trace) == Raw(NoDrift) then 1 else 0
  }

  /** The calm counter counts the stable windows of a stretch of one generation without change windows. */
  lemma {:induction false} CalmMeans(c: Config, trace: seq<Window>) returns (from: nat)
    requires trace != []
    ensures from <= |trace| && StableCount(c, trace, from) == Calm(c, trace)
    ensures forall k :: from < k <= |trace| ==> Quiet(c, trace, k, LastGeneration(trace))
  {
    var kind, g := KindOf(c, trace), LastGeneration(trace);
    IsKindLast(c, trace, kind);
    if kind == Raw(Drift) || kind == Raw(Warning) {
      from := |trace|;
    } else if Boundary(trace) || |trace| == 1 {
      from := |trace| - 1;
      assert StableCount(c, trace[..|trace| - 1], from) == 0;
    } else {
      var init := trace[..|trace| - 1];
      from := CalmMeans(c, init);
      forall k | from < k < |trace| ensures Quiet(c, trace, k, g) {
        assert Quiet(c, init, k, LastGeneration(init));
        IsKindPrefix(c, trace, k, Skipped, g);
        IsKindPrefix(c, trace, k, Raw(NoDrift), g);
      }
    }
  }

  /** The trace ends, in one generation and without a change window after `from`, in at least `n` stable windows. */
  ghost predicate CalmStretch(c: Config, trace: seq<Window>, from: nat, n: nat)
    requires trace != []
  {
    && from <= |trace| && StableCount(c, trace, from) >= n
    && forall k :: from < k <= |trace| ==> Quiet(c, trace, k, LastGeneration(trace))
  }

  /** No stretch without change windows holds more stable windows than the calm counter. */
  lemma {:induction false} StretchBelowCalm(c: Config, trace: seq<Window>, from: nat)
    requires trace != [] && CalmStretch(c, trace, from, 0)
    ensures StableCount(c, trace, from) <= Calm(c, trace)
  {
    if from == |trace| {
      assert StableCount(c, trace, from) == 0;
    } else {
      var init, g := trace[..|trace| - 1], LastGeneration(trace);
      assert Quiet(c, trace, |trace|, g);
      IsKindLast(c, trace, Skipped);
      IsKindLast(c, trace, Raw(NoDrift));
      if from == |trace| - 1 {
        assert StableCount(c, init, from) == 0;
      } else {
        assert Quiet(c, trace, |trace| - 1, g);
        forall k | from < k <= |init| ensures Quiet(c, init, k, LastGeneration(init)) {
          assert Quiet(c, trace, k, g);
          IsKindPrefix(c, trace, k, Skipped, g);
          IsKindPrefix(c, trace, k, Raw(NoDrift), g);
        }
        StretchBelowCalm(c, init, from);
      }
    }
  }

  /**
   Clearing: without a generation change the level returns to no drift exactly on a complete stable
   window that ends a stretch, of one generation and without any change window, holding at least
   `clearWindows` complete stable windows.
   */
  lemma Clearing(c: Config, trace: seq<Window>)
    requires trace != [] && Run(c, trace).Ok? && !Boundary(trace)
    requires Run(c, trace[..|trace| - 1]).Ok? && Run(c, trace[..|trace| - 1]).value.activeLevel != NoDrift
    ensures Run(c, trace).value.activeLevel == NoDrift <==>
      KindOf(c, trace) == Raw(NoDrift) && exists from :: CalmStretch(c, trace, from, c.clearWindows)
  {
    LevelsOfRun(c, trace);
    RunAgrees(c, trace);
    var calm := CalmMeans(c, trace);
    if Calm(c, trace) >= c.clearWindows { assert CalmStretch(c, trace, calm, c.clearWindows); }
    forall from | CalmStretch(c, trace, from, c.clearWindows) ensures Calm(c, trace) >= c.clearWindows {
      StretchBelowCalm(c, trace, from);
    }
  }

  // ---- events ----

  /** The result of the last window of a trace. */
  function LastResult(c: Config, trace: seq<Window>): WindowResult
    requires trace != [] && Run(c, trace).Ok?
  {
    var last := trace[|trace| - 1];
    Update(Run(c, trace[..|trace| - 1]).value, last.votes, last.generation).value.1
  }

  predicate Occurred(c: Config, trace: seq<Window>)
    requires trace != [] && Run(c, trace).Ok?
  {
    LastResult(c, trace).newEvent || LastResult(c, trace).mergedEvent
  }

  /** What the last window did to cooldown and identifiers, given the state before it. */
  ghost predicate Ticked(s: State, next: State, r: WindowResult, boundary: bool, cooldown: nat) {
    && (r.newEvent || r.mergedEvent ==> (boundary || s.cooldownRemaining == 0) && next.cooldownRemaining == cooldown)
    && (!boundary ==> next.cooldownRemaining + 1 >= s.cooldownRemaining)
    && s.nextEventId <= next.nextEventId
    && (r.newEvent ==> next.lastEvent.Some? && next.lastEvent.value.eventId == s.nextEventId < next.nextEventId)
  }

  lemma LastTick(c: Config, trace: seq<Window>)
    requires trace != [] && Run(c, trace).Ok?
    ensures Run(c, trace[..|trace| - 1]).Ok?
    ensures Ticked(Run(c, trace[..|trace| - 1]).value, Run(c, trace).value, LastResult(c, trace), Boundary(trace), c.cooldownWindows)
  {
    LastUpdate(c, trace);
    var last := trace[|trace| - 1];
    UpdateTicks(Run(c, trace[..|trace| - 1]).value, last.votes, last.generation);
  }

  /** The last step of a run, and how the machine sees its generation boundary. */
  lemma LastUpdate(c: Config, trace: seq<Window>)
    requires trace != [] && Run(c, trace).Ok?
    ensures var init, last := Run(c, trace[..|trace| - 1]), trace[|trace| - 1];
      && init.Ok? && init.value.config == c && c.confirmationWindows > 0
      && GenerationChanged(init.value, last.generation) == Boundary(trace)
      && Update(init.value, last.votes, last.generation) == Ok((Run(c, trace).value, LastResult(c, trace)))
  {
    RunAgrees(c, trace[..|trace| - 1]);
  }

  lemma UpdateTicks(s: State, votes: seq<Vote>, generation: nat)
    requires s.config.confirmationWindows > 0 && Update(s, votes, generation).Ok?
    ensures var (next, r) := Update(s, votes, generation).value;
      Ticked(s, next, r, GenerationChanged(s, generation), s.config.cooldownWindows)
  {
    UpdateDoes(s, votes, generation);
  }

  /** The trace ends in an occurrence. */
  ghost predicate EndsInEvent(c: Config, trace: seq<Window>) {
    trace != [] && Run(c, trace).Ok? && Occurred(c, trace)
  }

  /** After an occurrence the cooldown runs down by one per window of the same generation. */
  lemma {:induction false} CooldownLeft(c: Config, trace: seq<Window>, i: nat)
    requires i <= |trace| && Run(c, trace).Ok? && EndsInEvent(c, trace[..i])
    requires GenerationRun(trace) > |trace| - i
    ensures Run(c, trace).value.cooldownRemaining + (|trace| - i) >= c.cooldownWindows
  {
    LastTick(c, trace);
    if i == |trace| {
      assert trace[..i] == trace;
    } else {
      assert trace[..|trace| - 1][..i] == trace[..i];
      CooldownLeft(c, trace[..|trace| - 1], i);
    }
  }

  /**
   Spacing: within one generation two recorded or merged occurrences are at least
   `cooldownWindows + 1` windows apart.
   */
  lemma Spacing(c: Config, trace: seq<Window>, i: nat)
    requires i < |trace| && EndsInEvent(c, trace) && EndsInEvent(c, trace[..i])
    requires GenerationRun(trace) > |trace| - i
    ensures |trace| - i >= c.cooldownWindows + 1
  {
    OccursWhenCool(c, trace);
    assert trace[..|trace| - 1][..i] == trace[..i];
    CooldownLeft(c, trace[..|trace| - 1], i);
  }

  /** Away from a generation boundary an occurrence needs the cooldown to have run out. */
  lemma OccursWhenCool(c: Config, trace: seq<Window>)
    requires EndsInEvent(c, trace) && !Boundary(trace)
    ensures Run(c, trace[..|trace| - 1]).Ok? && Run(c, trace[..|trace| - 1]).value.cooldownRemaining == 0
  {
    LastTick(c, trace);
  }

  lemma {:induction false} NextIdGrows(c: Config, trace: seq<Window>, i: nat)
    requires i <= |trace| && Run(c, trace).Ok? && Run(c, trace[..i]).Ok?
    ensures Run(c, trace[..i]).value.nextEventId <= Run(c, trace).value.nextEventId
  {
    if i == |trace| {
      assert trace[..i] == trace;
    } else {
      LastTick(c, trace);
      assert trace[..|trace| - 1][..i] == trace[..i];
      NextIdGrows(c, trace[..|trace| - 1], i);
    }
  }

  /** The trace ends in a new event, whose identifier is the one returned. */
  ghost predicate EndsInNewEvent(c: Config, trace: seq<Window>, id: nat) {
    && trace != [] && Run(c, trace).Ok? && LastResult(c, trace).newEvent
    && Run(c, trace).value.lastEvent.Some? && Run(c, trace).value.lastEvent.value.eventId == id
  }

  /** The identifiers of new events strictly increase along every trace. */
  lemma EventIdsIncrease(c: Config, trace: seq<Window>, i: nat, earlier: nat, later: nat)
    requires i < |trace| && EndsInNewEvent(c, trace, later) && EndsInNewEvent(c, trace[..i], earlier)
    ensures earlier < later
  {
    NewEventTakesNext(c, trace, later);
    NewEventTakesNext(c, trace[..i], earlier);
    assert trace[..|trace| - 1][..i] == trace[..i];
    NextIdGrows(c, trace[..|trace| - 1], i);
  }

  /** A new event takes the identifier that was next and moves the next one past it. */
  lemma NewEventTakesNext(c: Config, trace: seq<Window>, id: nat)
    requires EndsInNewEvent(c, trace, id)
    ensures Run(c, trace[..|trace| - 1]).Ok?
    ensures Run(c, trace[..|trace| - 1]).value.nextEventId == id < Run(c, trace).value.nextEventId
  {
    LastTick(c, trace);
  }

  /** After every trace the retained detectors are sorted, free of duplicates and bounded. */
  lemma {:induction false} DetectorsOrdered(c: Config, trace: seq<Window>)
    requires Run(c, trace).Ok? && Run(c, trace).value.lastEvent.Some?
    ensures Ascending(Run(c, trace).value.lastEvent.value.detectors)
    ensures |Run(c, trace).value.lastEvent.value.detectors| <= c.maxDetectors
  {
    RunAgrees(c, trace);
    if trace == [] {
    } else {
      var n := |trace| - 1;
      var s := Run(c, trace[..n]).value;
      RunAgrees(c, trace[..n]);
      UpdateDoes(s, trace[n].votes, trace[n].generation);
      if s.lastEvent.Some? { DetectorsOrdered(c, trace[..n]); }
    }
  }
}
