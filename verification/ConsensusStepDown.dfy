/** The one way the consensus steps from Drift to Warning, and the configurations that allow it. */
module ConsensusStepDown {
  import opened Errors
  import opened DriftLevels
  import opened Consensus
  import opened ConsensusTraces

  /** The last window of an accepted trace takes the level from Drift to Warning. */
  ghost predicate StepsDown(c: Config, trace: seq<Window>) {
    && trace != [] && Run(c, trace).Ok? && Run(c, trace[..|trace| - 1]).Ok?
    && Run(c, trace[..|trace| - 1]).value.activeLevel == Drift && Run(c, trace).value.activeLevel == Warning
  }

  /**
   From Drift the last window leads to Warning exactly when it starts a new generation, a single window
   confirms, and it is a complete, non-warming window of raw level Warning; so without warming windows only.
   */
  lemma DriftToWarning(c: Config, trace: seq<Window>)
    requires trace != [] && Run(c, trace).Ok? && Run(c, trace[..|trace| - 1]).Ok?
    requires Run(c, trace[..|trace| - 1]).value.activeLevel == Drift
    ensures Run(c, trace).value.activeLevel == Warning <==>
      Boundary(trace) && c.confirmationWindows == 1 && KindOf(c, trace) == Raw(Warning)
    ensures Run(c, trace).value.activeLevel == Warning ==> c.warmingWindows == 0
  {
    LevelsOfRun(c, trace);
    RunAgrees(c, trace);
    StepsOnTraces(c, trace);
    if Boundary(trace) { BoundaryStreak(c, trace, Warning); }
  }

  // ---- votes that reach a level ----

  /** `n` detectors with one-byte names, all voting `level`. */
  function Ballot(n: nat, level: Level): (votes: seq<Vote>)
    ensures |votes| == n && forall i :: 0 <= i < n ==> votes[i] == Vote([i], level, true)
  {
    if n == 0 then [] else Ballot(n - 1, level) + [Vote([n - 1], level, true)]
  }

  lemma {:induction false} BallotCounts(n: nat, level: Level)
    ensures CountAvailable(Ballot(n, level)) == n
    ensures CountDrift(Ballot(n, level)) == if level == Drift then n else 0
    ensures |Triggered(Ballot(n, level))| == if IsChange(level) then n else 0
  {
    if n == 0 {
    } else {
      BallotCounts(n - 1, level);
      assert Ballot(n, level)[..n - 1] == Ballot(n - 1, level);
    }
  }

  lemma BallotOk(c: Config, n: nat, level: Level)
    requires n <= c.maxDetectors
    ensures ValidateVotes(c, Ballot(n, level)).Ok?
  {
    forall i | 0 <= i < n ensures VoteResult(Ballot(n, level)[i]).Ok? {}
    forall i, j | 0 <= i < j < n ensures Ballot(n, level)[i].detector != Ballot(n, level)[j].detector {
      assert [i][0] != [j][0];
    }
  }

  // ---- the two windows ----

  /** In a fresh consensus enough drift votes reach Drift at once. */
  lemma FirstDrift(c: Config, votes: seq<Vote>)
    requires ConfigResult(c).Ok? && c.confirmationWindows == 1 && c.warmingWindows == 0
    requires ValidateVotes(c, votes).Ok? && !Incomplete(c, votes) && RawLevel(c, votes) == Drift
    ensures Update(New(c).value, votes, 0).Ok?
    ensures var s := Update(New(c).value, votes, 0).value.0;
      && s.config == c && s.activeLevel == Drift && s.activeGeneration == Some(0)
      && s.windowsSeen == 1 && s.nextEventId == 2 && s.lastEvent.Some? && s.lastEvent.value.generation == 0
  {
    var entered := Open(New(c).value, 0).value;
    assert Decide(entered, votes, 0) == OnDrift(entered, true, Triggered(votes), 0);
  }

  /** In a new generation enough warning votes reach Warning at once. */
  lemma ThenWarning(c: Config, s: State, votes: seq<Vote>)
    requires ConfigResult(c).Ok? && c.confirmationWindows == 1 && c.warmingWindows == 0
    requires s.config == c && s.activeGeneration == Some(0) && s.windowsSeen == 1 && s.nextEventId == 2
    requires s.lastEvent.Some? && s.lastEvent.value.generation == 0
    requires ValidateVotes(c, votes).Ok? && !Incomplete(c, votes) && RawLevel(c, votes) == Warning
    ensures Update(s, votes, 1).Ok?
    ensures Update(s, votes, 1).value.0.activeLevel == Warning
  {
    var entered := Open(s, 1).value;
    assert entered.activeLevel == NoDrift && entered.warningStreak == 0 && entered.cooldownRemaining == 0;
    assert Decide(entered, votes, 1) == OnWarning(entered, true, Triggered(votes), 1);
  }

  lemma RunSnoc(c: Config, trace: seq<Window>, w: Window)
    requires Run(c, trace).Ok? && Update(Run(c, trace).value, w.votes, w.generation).Ok?
    ensures Run(c, trace + [w]) == Ok(Update(Run(c, trace).value, w.votes, w.generation).value.0)
  {
    assert (trace + [w])[..|trace|] == trace;
  }

  lemma PairStepsDown(c: Config, drift: seq<Vote>, warning: seq<Vote>)
    requires ConfigResult(c).Ok? && c.confirmationWindows == 1 && c.warmingWindows == 0
    requires ValidateVotes(c, drift).Ok? && !Incomplete(c, drift) && RawLevel(c, drift) == Drift
    requires ValidateVotes(c, warning).Ok? && !Incomplete(c, warning) && RawLevel(c, warning) == Warning
    ensures StepsDown(c, [Window(drift, 0), Window(warning, 1)])
  {
    var first, second := Window(drift, 0), Window(warning, 1);
    FirstDrift(c, drift);
    RunSnoc(c, [], first);
    assert [] + [first] == [first] && [first] + [second] == [first, second] && [first, second][..1] == [first];
    ThenWarning(c, Run(c, [first]).value, warning);
    RunSnoc(c, [first], second);
  }

  lemma BallotReaches(c: Config, n: nat, level: Level)
    requires c.minimumWarningVotes <= n && c.minimumDriftVotes > 0
    requires level == Warning || (level == Drift && c.minimumDriftVotes <= n)
    ensures !Incomplete(c, Ballot(n, level)) && RawLevel(c, Ballot(n, level)) == level
  {
    BallotCounts(n, level);
  }

  /** Two windows that step down: a unanimous drift window, then a warning window of the next generation. */
  function Descent(c: Config): seq<Window> {
    [Window(Ballot(c.minimumDriftVotes, Drift), 0), Window(Ballot(c.minimumWarningVotes, Warning), 1)]
  }

  /**
   A valid configuration admits a step from Drift to Warning on some trace if and only if a single window
   confirms and no window is warming. The default, with two confirming windows and one warming, never does.
   */
  lemma StepDownConfigurations(c: Config)
    requires ConfigResult(c).Ok?
    ensures (exists trace :: StepsDown(c, trace)) <==> c.confirmationWindows == 1 && c.warmingWindows == 0
  {
    if c.confirmationWindows == 1 && c.warmingWindows == 0 {
      BallotOk(c, c.minimumDriftVotes, Drift);
      BallotReaches(c, c.minimumDriftVotes, Drift);
      BallotOk(c, c.minimumWarningVotes, Warning);
      BallotReaches(c, c.minimumWarningVotes, Warning);
      PairStepsDown(c, Ballot(c.minimumDriftVotes, Drift), Ballot(c.minimumWarningVotes, Warning));
      assert StepsDown(c, Descent(c));
    }
    forall trace | StepsDown(c, trace) ensures c.confirmationWindows == 1 && c.warmingWindows == 0 {
      DriftToWarning(c, trace);
    }
  }
}
