/**
 What a vote window says, counted on sets of votes: its raw level, whether it counts at all, and so
 when whole traces confirm and clear a level.
 */
module ConsensusVotes {
  import opened Names
  import opened DriftLevels
  import opened Consensus
  import opened ConsensusTraces

  // ---- the votes of one window ----

  ghost function AvailableVotes(votes: seq<Vote>): set<nat> {
    set i: nat | i < |votes| && votes[i].available
  }

  ghost function DriftVotes(votes: seq<Vote>): set<nat> {
    set i: nat | i < |votes| && votes[i].available && votes[i].level == Drift
  }

  ghost function ChangeVotes(votes: seq<Vote>): set<nat> {
    set i: nat | i < |votes| && votes[i].available && votes[i].level != NoDrift
  }

  /** The index sets with the last vote split off. */
  lemma LastVote(votes: seq<Vote>)
    requires votes != []
    ensures var n := |votes| - 1;
      var init, last := votes[..n], votes[n];
      && AvailableVotes(votes) == AvailableVotes(init) + (if last.available then {n} else {})
      && DriftVotes(votes) == DriftVotes(init) + (if last.available && last.level == Drift then {n} else {})
      && ChangeVotes(votes) == ChangeVotes(init) + (if last.available && last.level != NoDrift then {n} else {})
  {}

  /** The counters are the sizes of the index sets. */
  lemma {:induction false} CountsAreSizes(votes: seq<Vote>)
    ensures CountAvailable(votes) == |AvailableVotes(votes)|
    ensures CountDrift(votes) == |DriftVotes(votes)|
    ensures |Triggered(votes)| == |ChangeVotes(votes)|
  {
    if votes == [] {
      assert AvailableVotes(votes) == {} && DriftVotes(votes) == {} && ChangeVotes(votes) == {};
    } else {
      CountsAreSizes(votes[..|votes| - 1]);
      LastVote(votes);
    }
  }

  /** The triggered names are those of the available detectors that vote for a change. */
  lemma {:induction false} TriggeredMeaning(votes: seq<Vote>, name: Name)
    ensures name in Triggered(votes) <==> exists i :: i in ChangeVotes(votes) && votes[i].detector == name
  {
    if votes == [] {
    } else {
      var n := |votes| - 1;
      TriggeredMeaning(votes[..n], name);
      LastVote(votes);
      forall i | i in ChangeVotes(votes[..n]) ensures i in ChangeVotes(votes) && votes[..n][i] == votes[i] {}
      if n in ChangeVotes(votes) && votes[n].detector == name { assert name in [votes[n].detector]; }
    }
  }

  /** The level of a window by its votes, and whether enough detectors were available. */
  lemma RawLevelMeaning(c: Config, votes: seq<Vote>)
    ensures RawLevel(c, votes) == Drift <==> |DriftVotes(votes)| >= c.minimumDriftVotes
    ensures RawLevel(c, votes) == Warning <==>
      |DriftVotes(votes)| < c.minimumDriftVotes && |ChangeVotes(votes)| >= c.minimumWarningVotes
    ensures Incomplete(c, votes) <==> |AvailableVotes(votes)| < c.minimumWarningVotes
  {
    CountsAreSizes(votes);
  }

  // ---- one window of a trace ----

  /** The last `n` windows share the generation of the last one. */
  predicate SameGeneration(trace: seq<Window>, n: nat) {
    n <= |trace| && forall k :: |trace| - n <= k < |trace| ==> trace[k].generation == trace[|trace| - 1].generation
  }

  lemma {:induction false} GenerationRunMeaning(trace: seq<Window>, n: nat)
    ensures GenerationRun(trace) >= n <==> SameGeneration(trace, n)
  {
    if trace == [] || n == 0 {
    } else {
      var init := trace[..|trace| - 1];
      GenerationRunMeaning(init, n - 1);
      if n > 1 && |trace| > 1 { assert trace[|trace| - 2].generation == init[|init| - 1].generation; }
    }
  }

  /** The last window counts: it is past the warming windows of its generation and enough detectors were available. */
  ghost predicate Counts(c: Config, trace: seq<Window>)
    requires trace != []
  {
    SameGeneration(trace, c.warmingWindows + 1) && |AvailableVotes(trace[|trace| - 1].votes)| >= c.minimumWarningVotes
  }

  /** The last window counts and its votes reach exactly `level`. */
  ghost predicate Reaches(c: Config, trace: seq<Window>, level: Level)
    requires trace != []
  {
    var votes := trace[|trace| - 1].votes;
    && Counts(c, trace)
    && match level
       case Drift => |DriftVotes(votes)| >= c.minimumDriftVotes
       case Warning => |DriftVotes(votes)| < c.minimumDriftVotes && |ChangeVotes(votes)| >= c.minimumWarningVotes
       case NoDrift => |DriftVotes(votes)| < c.minimumDriftVotes && |ChangeVotes(votes)| < c.minimumWarningVotes
  }

  lemma KindMeaning(c: Config, trace: seq<Window>)
    requires trace != []
    ensures KindOf(c, trace) == Skipped <==> !Counts(c, trace)
    ensures forall level :: KindOf(c, trace) == Raw(level) <==> Reaches(c, trace, level)
  {
    RawLevelMeaning(c, trace[|trace| - 1].votes);
    GenerationRunMeaning(trace, c.warmingWindows + 1);
    forall level ensures KindOf(c, trace) == Raw(level) <==> Reaches(c, trace, level) {
      assert level == Drift || level == Warning || level == NoDrift;
    }
  }

  // ---- confirmation and clearing ----

  /** Window `k`, counted from one, reaches `level`. */
  ghost predicate ReachesAt(c: Config, trace: seq<Window>, k: nat, level: Level) {
    0 < k <= |trace| && Reaches(c, trace[..k], level)
  }

  /** Each of the last `n` windows, all of one generation, reaches `level`. */
  ghost predicate Confirmed(c: Config, trace: seq<Window>, level: Level, n: nat) {
    SameGeneration(trace, n) && forall k: nat :: |trace| - n < k <= |trace| ==> ReachesAt(c, trace, k, level)
  }

  lemma ConfirmedMeans(c: Config, trace: seq<Window>, level: Level, n: nat)
    ensures Confirmed(c, trace, level, n) <==> Unanimous(c, trace, level, n)
  {
    if n <= |trace| && trace != [] {
      forall k: nat | |trace| - n < k <= |trace|
        ensures IsKind(c, trace, k, Raw(level), LastGeneration(trace))
           <==> ReachesAt(c, trace, k, level) && trace[k - 1].generation == LastGeneration(trace)
      {
        KindMeaning(c, trace[..k]);
      }
      if Confirmed(c, trace, level, n) {
        forall k | |trace| - n < k <= |trace| ensures IsKind(c, trace, k, Raw(level), LastGeneration(trace)) {
          assert ReachesAt(c, trace, k, level);
        }
      }
      if Unanimous(c, trace, level, n) {
        forall k | |trace| - n <= k < |trace| ensures trace[k].generation == LastGeneration(trace) {
          assert IsKind(c, trace, k + 1, Raw(level), LastGeneration(trace));
        }
        forall k: nat | |trace| - n < k <= |trace| ensures ReachesAt(c, trace, k, level) {
          assert IsKind(c, trace, k, Raw(level), LastGeneration(trace));
        }
      }
    }
  }

  /**
   Confirmation by votes: the level becomes Drift, or Warning from no drift, exactly when each of the last
   `confirmationWindows` windows of one generation is past its warming windows, has enough available
   detectors and has the votes for that level.
   */
  lemma ConfirmationByVotes(c: Config, trace: seq<Window>)
    requires trace != [] && Run(c, trace).Ok?
    ensures Run(c, trace[..|trace| - 1]).Ok?
    ensures var before, after := Run(c, trace[..|trace| - 1]).value.activeLevel, Run(c, trace).value.activeLevel;
      && (before != Drift ==> (after == Drift <==> Confirmed(c, trace, Drift, c.confirmationWindows)))
      && (before == NoDrift ==> (after == Warning <==> Confirmed(c, trace, Warning, c.confirmationWindows)))
    ensures Confirmed(c, trace, Drift, c.confirmationWindows) ==> Run(c, trace).value.activeLevel == Drift
  {
    Confirmation(c, trace);
    ConfirmedMeans(c, trace, Drift, c.confirmationWindows);
    ConfirmedMeans(c, trace, Warning, c.confirmationWindows);
  }

  /** The positions after `from` whose windows count and reach no change. */
  ghost function StableWindows(c: Config, trace: seq<Window>, from: nat): set<nat> {
    set k: nat | from < k <= |trace| && ReachesAt(c, trace, k, NoDrift)
  }

  lemma {:induction false} StableCountMeaning(c: Config, trace: seq<Window>, from: nat)
    ensures StableCount(c, trace, from) == |StableWindows(c, trace, from)|
  {
    if |trace| <= from {
      assert StableWindows(c, trace, from) == {};
    } else {
      var n := |trace|;
      var init := trace[..n - 1];
      StableCountMeaning(c, init, from);
      KindMeaning(c, trace);
      StableWindowsLast(c, trace, from);
      assert n !in StableWindows(c, init, from);
    }
  }

  lemma StableWindowsLast(c: Config, trace: seq<Window>, from: nat)
    requires from < |trace|
    ensures StableWindows(c, trace, from)
      == StableWindows(c, trace[..|trace| - 1], from) + (if Reaches(c, trace, NoDrift) then {|trace|} else {})
  {
    var n := |trace|;
    var init := trace[..n - 1];
    assert trace[..n] == trace;
    forall k: nat | 0 < k < n ensures ReachesAt(c, trace, k, NoDrift) <==> ReachesAt(c, init, k, NoDrift) {
      assert init[..k] == trace[..k];
    }
  }

  /** Since position `from` the trace stays in one generation, no window reaches a change, and at least `n` are stable. */
  ghost predicate CalmSince(c: Config, trace: seq<Window>, from: nat, n: nat)
    requires from <= |trace|
  {
    && SameGeneration(trace, |trace| - from) && |StableWindows(c, trace, from)| >= n
    && forall k: nat :: from < k <= |trace| ==> !ReachesAt(c, trace, k, Drift) && !ReachesAt(c, trace, k, Warning)
  }

  lemma CalmSinceMeans(c: Config, trace: seq<Window>, from: nat, n: nat)
    requires trace != [] && from <= |trace|
    ensures CalmSince(c, trace, from, n) <==> CalmStretch(c, trace, from, n)
  {
    StableCountMeaning(c, trace, from);
    forall k: nat | from < k <= |trace|
      ensures Quiet(c, trace, k, LastGeneration(trace))
        <==> trace[k - 1].generation == LastGeneration(trace) && !ReachesAt(c, trace, k, Drift) && !ReachesAt(c, trace, k, Warning)
    {
      KindMeaning(c, trace[..k]);
    }
    if CalmStretch(c, trace, from, n) {
      forall k | from <= k < |trace| ensures trace[k].generation == LastGeneration(trace) {
        assert Quiet(c, trace, k + 1, LastGeneration(trace));
      }
      forall k: nat | from < k <= |trace| ensures !ReachesAt(c, trace, k, Drift) && !ReachesAt(c, trace, k, Warning) {
        assert Quiet(c, trace, k, LastGeneration(trace));
      }
    }
    if CalmSince(c, trace, from, n) {
      forall k | from < k <= |trace| ensures Quiet(c, trace, k, LastGeneration(trace)) {
        assert trace[k - 1].generation == LastGeneration(trace);
        assert !ReachesAt(c, trace, k, Drift) && !ReachesAt(c, trace, k, Warning);
      }
    }
  }

  /** Clearing by votes: exactly at a stable window that ends a calm stretch holding `clearWindows` stable windows. */
  lemma ClearingByVotes(c: Config, trace: seq<Window>)
    requires trace != [] && Run(c, trace).Ok? && !Boundary(trace)
    requires Run(c, trace[..|trace| - 1]).Ok? && Run(c, trace[..|trace| - 1]).value.activeLevel != NoDrift
    ensures Run(c, trace).value.activeLevel == NoDrift <==>
      Reaches(c, trace, NoDrift) && exists from: nat :: from <= |trace| && CalmSince(c, trace, from, c.clearWindows)
  {
    Clearing(c, trace);
    KindMeaning(c, trace);
    forall from: nat | from <= |trace|
      ensures CalmSince(c, trace, from, c.clearWindows) <==> CalmStretch(c, trace, from, c.clearWindows)
    {
      CalmSinceMeans(c, trace, from, c.clearWindows);
    }
  }

  // ---- the reported window ----

  /** What the report of the last window of a trace says. */
  lemma ResultMeaning(c: Config, trace: seq<Window>)
    requires trace != [] && Run(c, trace).Ok?
    ensures Run(c, trace[..|trace| - 1]).Ok?
    ensures var r, votes, s := LastResult(c, trace), trace[|trace| - 1].votes, Run(c, trace).value;
      && r.warningVotes == |r.triggered| == |ChangeVotes(votes)| && r.driftVotes == |DriftVotes(votes)|
      && r.availableDetectors == |AvailableVotes(votes)|
      && (forall name :: name in r.triggered <==> exists i :: i in ChangeVotes(votes) && votes[i].detector == name)
      && (r.warming <==> !SameGeneration(trace, c.warmingWindows + 1))
      && (r.incomplete <==> |AvailableVotes(votes)| < c.minimumWarningVotes)
      && (r.generationChanged <==> |trace| > 1 && trace[|trace| - 2].generation != LastGeneration(trace))
      && r.level == s.activeLevel && r.clearStreak == s.clearStreak && r.cooldownRemaining == s.cooldownRemaining
      && r.event == s.lastEvent
      && r.consecutiveWindows == match KindOf(c, trace)
                                 case Skipped => 0
                                 case Raw(level) =>
                                   if level != NoDrift then Streak(c, trace, level)
                                   else if Boundary(trace) then 1
                                   else Run(c, trace[..|trace| - 1]).value.clearStreak + 1
  {
    var last := trace[|trace| - 1];
    var s := Run(c, trace[..|trace| - 1]).value;
    LastUpdate(c, trace);
    RunAgrees(c, trace);
    RunAgrees(c, trace[..|trace| - 1]);
    OpenAgrees(c, trace, s);
    CountsAreSizes(last.votes);
    RawLevelMeaning(c, last.votes);
    GenerationRunMeaning(trace, c.warmingWindows + 1);
    forall name ensures name in Triggered(last.votes)
      <==> exists i :: i in ChangeVotes(last.votes) && last.votes[i].detector == name
    {
      TriggeredMeaning(last.votes, name);
    }
    DecideCounts(Open(s, last.generation).value, last.votes, last.generation);
  }

  lemma DecideCounts(f: State, votes: seq<Vote>, generation: nat)
    requires Decide(f, votes, generation).Ok?
    ensures var m := Decide(f, votes, generation).value;
      && (Warming(f) || Incomplete(f.config, votes) ==> m.consecutive == 0)
      && (!(Warming(f) || Incomplete(f.config, votes)) ==>
            match RawLevel(f.config, votes)
            case Drift => m.consecutive == m.state.driftStreak
            case Warning => m.consecutive == m.state.warningStreak
            case NoDrift => m.consecutive == f.clearStreak + 1)
  {}
}
