/** The drift consensus as a value: one vote window is one transition. */
module Consensus {
  import opened Errors
  import opened Names
  import opened DriftLevels

  datatype Vote = Vote(detector: Name, level: Level, available: bool)

  datatype Config = Config(
    minimumWarningVotes: nat, minimumDriftVotes: nat, confirmationWindows: nat, clearWindows: nat,
    cooldownWindows: nat, eventMergeHorizon: nat, warmingWindows: nat, maxDetectors: nat)

  datatype Summary = Summary(
    eventId: nat, firstWindow: nat, lastWindow: nat, peakLevel: Level, detectors: seq<Name>,
    occurrences: nat, generation: nat)

  datatype State = State(
    config: Config, windowsSeen: nat, generationWindows: nat, activeGeneration: Option<nat>,
    activeLevel: Level, warningStreak: nat, driftStreak: nat, clearStreak: nat,
    cooldownRemaining: nat, nextEventId: nat, lastEvent: Option<Summary>)

  datatype WindowResult = WindowResult(
    level: Level, warningVotes: nat, driftVotes: nat, availableDetectors: nat, triggered: seq<Name>,
    consecutiveWindows: nat, clearStreak: nat, cooldownRemaining: nat, warming: bool, incomplete: bool,
    generationChanged: bool, newEvent: bool, mergedEvent: bool, event: Option<Summary>)

  const MAX_DETECTOR_NAME_BYTES: nat := 128

  // ---- configuration and votes ----

  function ConfigResult(c: Config): Result<()> {
    if c.maxDetectors == 0 || c.maxDetectors > 128 then Err(InvalidCapacity(c.maxDetectors))
    else if c.minimumWarningVotes == 0 || c.minimumWarningVotes > c.maxDetectors || c.minimumDriftVotes == 0
      || c.minimumDriftVotes > c.maxDetectors || c.minimumWarningVotes > c.minimumDriftVotes
    then Err(InvalidState(VoteThresholds))
    else if c.confirmationWindows == 0 || c.clearWindows == 0 then Err(InvalidState(WindowCounts))
    else Ok(())
  }

  predicate NameOk(n: Name) {
    0 < |n| <= MAX_DETECTOR_NAME_BYTES
  }

  function VoteResult(v: Vote): Result<()> {
    if !NameOk(v.detector) then Err(InvalidState(DetectorNameLength))
    else if !v.available && v.level != NoDrift then Err(InvalidState(UnavailableDetectorVoted))
    else Ok(())
  }

  /** The validation loop over the first `k` votes: each vote well formed, no detector twice. */
  function VotesTo(votes: seq<Vote>, k: nat): (r: Result<()>)
    requires k <= |votes|
    ensures r.Ok? <==>
      && (forall i :: 0 <= i < k ==> VoteResult(votes[i]).Ok?)
      && (forall i, j :: 0 <= i < j < k ==> votes[i].detector != votes[j].detector)
  {
    if k == 0 then Ok(()) else
      match VotesTo(votes, k - 1)
      case Err(e) => Err(e)
      case Ok(_) =>
        match VoteResult(votes[k - 1])
        case Err(e) => Err(e)
        case Ok(_) =>
          if exists i :: 0 <= i < k - 1 && votes[i].detector == votes[k - 1].detector
          then Err(InvalidState(DuplicateDetector)) else Ok(())
  }

  function ValidateVotes(c: Config, votes: seq<Vote>): Result<()> {
    if |votes| > c.maxDetectors then Err(InvalidCapacity(|votes|)) else VotesTo(votes, |votes|)
  }

  function CountAvailable(votes: seq<Vote>): nat {
    if votes == [] then 0 else
      CountAvailable(votes[..|votes| - 1]) + if votes[|votes| - 1].available then 1 else 0
  }

  function CountDrift(votes: seq<Vote>): nat {
    if votes == [] then 0 else
      CountDrift(votes[..|votes| - 1]) +
        if votes[|votes| - 1].available && votes[|votes| - 1].level == Drift then 1 else 0
  }

  /** The names of the available detectors that vote Warning or Drift, in vote order. */
  function Triggered(votes: seq<Vote>): (r: seq<Name>)
    ensures forall n :: n in r ==> exists i :: 0 <= i < |votes| && votes[i].detector == n
  {
    if votes == [] then [] else
      var last := votes[|votes| - 1];
      Triggered(votes[..|votes| - 1]) + if last.available && IsChange(last.level) then [last.detector] else []
  }

  function RawLevel(c: Config, votes: seq<Vote>): Level {
    if CountDrift(votes) >= c.minimumDriftVotes then Drift
    else if |Triggered(votes)| >= c.minimumWarningVotes then Warning
    else NoDrift
  }

  predicate Incomplete(c: Config, votes: seq<Vote>) {
    CountAvailable(votes) < c.minimumWarningVotes
  }

  // ---- events ----

  datatype Recorded = Fresh | Merged

  predicate CanMerge(s: State, generation: nat) {
    && s.lastEvent.Some? && s.lastEvent.value.generation == generation
    && (if s.windowsSeen >= s.lastEvent.value.lastWindow then s.windowsSeen - s.lastEvent.value.lastWindow else 0)
         <= s.config.eventMergeHorizon
  }

  /** `record_event`: merges into the last event or starts a new one; both restart the cooldown. */
  function RecordEvent(s: State, level: Level, detectors: seq<Name>, generation: nat): Result<(State, Recorded)> {
    if CanMerge(s, generation) then
      var e := s.lastEvent.value;
      match CheckedIncrement(e.occurrences)
      case Err(error) => Err(error)
      case Ok(n) =>
        var merged := e.(lastWindow := s.windowsSeen, occurrences := n,
                         peakLevel := if Rank(level) > Rank(e.peakLevel) then level else e.peakLevel,
                         detectors := Take(Collect(e.detectors + detectors), s.config.maxDetectors));
        Ok((s.(lastEvent := Some(merged), cooldownRemaining := s.config.cooldownWindows), Merged))
    else
      match CheckedIncrement(s.nextEventId)
      case Err(error) => Err(error)
      case Ok(next) =>
        var created := Summary(s.nextEventId, s.windowsSeen, s.windowsSeen, level,
                             Take(Collect(detectors), s.config.maxDetectors), 1, generation);
        Ok((s.(lastEvent := Some(created), nextEventId := next, cooldownRemaining := s.config.cooldownWindows), Fresh))
  }

  // ---- one window ----

  function New(c: Config): Result<State> {
    match ConfigResult(c)
    case Err(e) => Err(e)
    case Ok(_) => Ok(State(c, 0, 0, None, NoDrift, 0, 0, 0, 0, 1, None))
  }

  function Reset(s: State): State {
    State(s.config, 0, 0, None, NoDrift, 0, 0, 0, 0, 1, None)
  }

  predicate GenerationChanged(s: State, generation: nat) {
    s.activeGeneration.Some? && s.activeGeneration.value != generation
  }

  function Forget(s: State): State {
    s.(generationWindows := 0, activeLevel := NoDrift, warningStreak := 0, driftStreak := 0,
       clearStreak := 0, cooldownRemaining := 0)
  }

  /** The window counters, after forgetting the old generation if it changed. */
  function Open(s: State, generation: nat): Result<State> {
    match CheckedIncrement(s.windowsSeen)
    case Err(e) => Err(e)
    case Ok(windows) =>
      var f := if GenerationChanged(s, generation) then Forget(s) else s;
      match CheckedIncrement(f.generationWindows)
      case Err(e) => Err(e)
      case Ok(inGeneration) =>
        Ok(f.(activeGeneration := Some(generation), windowsSeen := windows, generationWindows := inGeneration))
  }

  /** The state after the level logic, and what happened to the event record. */
  datatype Move = Move(state: State, consecutive: nat, recorded: Option<Recorded>)

  function Announce(s: State, level: Level, allowed: bool, detectors: seq<Name>, generation: nat, consecutive: nat): Result<Move> {
    var raised := s.(activeLevel := level);
    if !allowed then Ok(Move(raised, consecutive, None))
    else
      match RecordEvent(raised, level, detectors, generation)
      case Err(e) => Err(e)
      case Ok(pair) => Ok(Move(pair.0, consecutive, Some(pair.1)))
  }

  function OnDrift(s: State, allowed: bool, detectors: seq<Name>, generation: nat): Result<Move> {
    match CheckedIncrement(s.driftStreak)
    case Err(e) => Err(e)
    case Ok(n) =>
      var t := s.(clearStreak := 0, warningStreak := 0, driftStreak := n);
      if n >= s.config.confirmationWindows &&
         (s.activeLevel != Drift || (s.config.confirmationWindows > 0 && n % s.config.confirmationWindows == 0))
      then Announce(t, Drift, allowed, detectors, generation, n)
      else Ok(Move(t, n, None))
  }

  function OnWarning(s: State, allowed: bool, detectors: seq<Name>, generation: nat): Result<Move> {
    match CheckedIncrement(s.warningStreak)
    case Err(e) => Err(e)
    case Ok(n) =>
      var t := s.(clearStreak := 0, driftStreak := 0, warningStreak := n);
      if s.activeLevel == NoDrift && n >= s.config.confirmationWindows
      then Announce(t, Warning, allowed, detectors, generation, n)
      else Ok(Move(t, n, None))
  }

  function OnStable(s: State): Result<Move> {
    match CheckedIncrement(s.clearStreak)
    case Err(e) => Err(e)
    case Ok(n) =>
      var t := s.(warningStreak := 0, driftStreak := 0, clearStreak := n);
      if s.activeLevel != NoDrift && n >= s.config.clearWindows
      then Ok(Move(t.(activeLevel := NoDrift, clearStreak := 0), n, None))
      else Ok(Move(t, n, None))
  }

  predicate Warming(entered: State) {
    entered.generationWindows <= entered.config.warmingWindows
  }

  function CoolDown(s: State): State {
    if s.cooldownRemaining > 0 then s.(cooldownRemaining := s.cooldownRemaining - 1) else s
  }

  function Decide(entered: State, votes: seq<Vote>, generation: nat): Result<Move> {
    var s, allowed := CoolDown(entered), entered.cooldownRemaining == 0;
    if Warming(entered) || Incomplete(entered.config, votes) then
      Ok(Move(s.(warningStreak := 0, driftStreak := 0), 0, None))
    else
      OnLevel(s, RawLevel(entered.config, votes), allowed, Triggered(votes), generation)
  }

  function OnLevel(s: State, raw: Level, allowed: bool, detectors: seq<Name>, generation: nat): Result<Move> {
    match raw
    case Drift => OnDrift(s, allowed, detectors, generation)
    case Warning => OnWarning(s, allowed, detectors, generation)
    case NoDrift => OnStable(s)
  }

  function ResultOf(m: Move, votes: seq<Vote>, warming: bool, incomplete: bool, generationChanged: bool): WindowResult {
    WindowResult(m.state.activeLevel, |Triggered(votes)|, CountDrift(votes), CountAvailable(votes), Triggered(votes),
                 m.consecutive, m.state.clearStreak, m.state.cooldownRemaining, warming, incomplete,
                 generationChanged, m.recorded == Some(Fresh), m.recorded == Some(Merged), m.state.lastEvent)
  }

  /** `update_inner` on a scratch copy. */
  function Inner(s: State, votes: seq<Vote>, generation: nat): Result<(State, WindowResult)> {
    match Open(s, generation)
    case Err(e) => Err(e)
    case Ok(entered) =>
      match Decide(entered, votes, generation)
      case Err(e) => Err(e)
      case Ok(m) =>
        Ok((m.state, ResultOf(m, votes, Warming(entered), Incomplete(s.config, votes), GenerationChanged(s, generation))))
  }

  /** `update`: the state to commit and the window's result, or the error that changes nothing. */
  function Update(s: State, votes: seq<Vote>, generation: nat): Result<(State, WindowResult)> {
    match ValidateVotes(s.config, votes)
    case Err(e) => Err(e)
    case Ok(_) => Inner(s, votes, generation)
  }

  // ---- the validated invariant ----

  predicate SummaryOk(s: State, e: Summary) {
    && e.eventId < s.nextEventId && 0 < e.firstWindow <= e.lastWindow <= s.windowsSeen
    && e.occurrences > 0 && e.peakLevel != NoDrift
    && |e.detectors| <= s.config.maxDetectors
    && (forall i :: 0 <= i < |e.detectors| ==> NameOk(e.detectors[i]))
    && (forall i, j :: 0 <= i < j < |e.detectors| ==> e.detectors[i] != e.detectors[j])
  }

  /** What `validate_state` accepts. */
  predicate StateValid(s: State) {
    && ConfigResult(s.config).Ok?
    && s.generationWindows <= s.windowsSeen
    && s.warningStreak <= s.generationWindows && s.driftStreak <= s.generationWindows
    && s.clearStreak <= s.generationWindows
    && s.cooldownRemaining <= s.config.cooldownWindows
    && s.nextEventId > 0
    && (s.activeGeneration.None? ==> s.generationWindows == 0)
    && (s.lastEvent.Some? ==> SummaryOk(s, s.lastEvent.value))
  }

  lemma TakeCollectOk(names: seq<Name>, limit: nat)
    requires forall n :: n in names ==> NameOk(n)
    ensures var r := Take(Collect(names), limit);
      && Ascending(r) && |r| <= limit
      && (forall i :: 0 <= i < |r| ==> NameOk(r[i]))
      && (forall i, j :: 0 <= i < j < |r| ==> r[i] != r[j])
  {
    var r := Take(Collect(names), limit);
    CollectAscending(names);
    AscendingDistinct(Collect(names));
    forall i | 0 <= i < |r| ensures NameOk(r[i]) {
      assert r[i] in Collect(names);
    }
  }

  /** Recording keeps the summary well formed, sorts its detectors and restarts the cooldown. */
  lemma RecordKeeps(s: State, level: Level, detectors: seq<Name>, generation: nat)
    requires StateValid(s) && s.windowsSeen > 0 && level != NoDrift && forall n :: n in detectors ==> NameOk(n)
    requires RecordEvent(s, level, detectors, generation).Ok?
    ensures var next := RecordEvent(s, level, detectors, generation).value.0;
      && StateValid(next) && next.lastEvent.Some? && Ascending(next.lastEvent.value.detectors)
      && next == s.(lastEvent := next.lastEvent, nextEventId := next.nextEventId, cooldownRemaining := s.config.cooldownWindows)
  {
    if CanMerge(s, generation) {
      TakeCollectOk(s.lastEvent.value.detectors + detectors, s.config.maxDetectors);
    } else {
      TakeCollectOk(detectors, s.config.maxDetectors);
    }
  }

  lemma OpenKeeps(s: State, generation: nat)
    requires StateValid(s) && Open(s, generation).Ok?
    ensures var o := Open(s, generation).value;
      && StateValid(o) && o.windowsSeen > 0 && o.activeGeneration == Some(generation)
      && o.generationWindows > o.warningStreak && o.generationWindows > o.driftStreak && o.generationWindows > o.clearStreak
  {}

  lemma AnnounceKeeps(s: State, level: Level, allowed: bool, detectors: seq<Name>, generation: nat, consecutive: nat)
    requires StateValid(s) && s.windowsSeen > 0 && level != NoDrift && forall n :: n in detectors ==> NameOk(n)
    requires Announce(s, level, allowed, detectors, generation, consecutive).Ok?
    ensures StateValid(Announce(s, level, allowed, detectors, generation, consecutive).value.state)
  {
    if allowed { RecordKeeps(s.(activeLevel := level), level, detectors, generation); }
  }

  lemma DriftKeeps(s: State, allowed: bool, names: seq<Name>, generation: nat)
    requires StateValid(s) && s.windowsSeen > 0 && forall n :: n in names ==> NameOk(n)
    requires s.generationWindows > s.driftStreak && OnDrift(s, allowed, names, generation).Ok?
    ensures StateValid(OnDrift(s, allowed, names, generation).value.state)
  {
    var t := s.(clearStreak := 0, warningStreak := 0, driftStreak := s.driftStreak + 1);
    StreaksKeep(s, t);
    if Announce(t, Drift, allowed, names, generation, t.driftStreak).Ok? {
      AnnounceKeeps(t, Drift, allowed, names, generation, t.driftStreak);
    }
  }

  lemma WarningKeeps(s: State, allowed: bool, names: seq<Name>, generation: nat)
    requires StateValid(s) && s.windowsSeen > 0 && forall n :: n in names ==> NameOk(n)
    requires s.generationWindows > s.warningStreak && OnWarning(s, allowed, names, generation).Ok?
    ensures StateValid(OnWarning(s, allowed, names, generation).value.state)
  {
    var t := s.(clearStreak := 0, driftStreak := 0, warningStreak := s.warningStreak + 1);
    StreaksKeep(s, t);
    if Announce(t, Warning, allowed, names, generation, t.warningStreak).Ok? {
      AnnounceKeeps(t, Warning, allowed, names, generation, t.warningStreak);
    }
  }

  lemma StableKeeps(s: State)
    requires StateValid(s) && s.generationWindows > s.clearStreak && OnStable(s).Ok?
    ensures StateValid(OnStable(s).value.state)
  {
    StreaksKeep(s, OnStable(s).value.state);
  }

  /** Moving the streaks within the windows of the generation keeps the invariant. */
  lemma StreaksKeep(s: State, t: State)
    requires StateValid(s)
    requires t == s.(clearStreak := t.clearStreak, warningStreak := t.warningStreak, driftStreak := t.driftStreak,
                     activeLevel := t.activeLevel)
    requires t.clearStreak <= s.generationWindows && t.warningStreak <= s.generationWindows && t.driftStreak <= s.generationWindows
    ensures StateValid(t)
  {
    assert s.lastEvent.Some? ==> SummaryOk(t, s.lastEvent.value);
  }

  lemma LevelKeeps(s: State, raw: Level, allowed: bool, names: seq<Name>, generation: nat)
    requires StateValid(s) && s.windowsSeen > 0 && forall n :: n in names ==> NameOk(n)
    requires s.generationWindows > s.warningStreak && s.generationWindows > s.driftStreak && s.generationWindows > s.clearStreak
    requires OnLevel(s, raw, allowed, names, generation).Ok?
    ensures StateValid(OnLevel(s, raw, allowed, names, generation).value.state)
  {
    match raw
    case Drift => DriftKeeps(s, allowed, names, generation);
    case Warning => WarningKeeps(s, allowed, names, generation);
    case NoDrift => StableKeeps(s);
  }

  lemma DecideKeeps(o: State, votes: seq<Vote>, generation: nat)
    requires StateValid(o) && o.windowsSeen > 0 && forall n :: n in Triggered(votes) ==> NameOk(n)
    requires o.generationWindows > o.warningStreak && o.generationWindows > o.driftStreak && o.generationWindows > o.clearStreak
    requires Decide(o, votes, generation).Ok?
    ensures StateValid(Decide(o, votes, generation).value.state)
  {
    if !(Warming(o) || Incomplete(o.config, votes)) {
      LevelKeeps(CoolDown(o), RawLevel(o.config, votes), o.cooldownRemaining == 0, Triggered(votes), generation);
    }
  }

  lemma TriggeredNamesOk(votes: seq<Vote>)
    requires VotesTo(votes, |votes|).Ok?
    ensures forall n :: n in Triggered(votes) ==> NameOk(n)
  {}

  /** The validated invariant is preserved by every successful update, from any state that meets it. */
  lemma UpdateKeeps(s: State, votes: seq<Vote>, generation: nat)
    requires StateValid(s) && Update(s, votes, generation).Ok?
    ensures StateValid(Update(s, votes, generation).value.0)
    ensures Update(s, votes, generation).value.0.config == s.config
  {
    TriggeredNamesOk(votes);
    OpenKeeps(s, generation);
    DecideKeeps(Open(s, generation).value, votes, generation);
  }
}
