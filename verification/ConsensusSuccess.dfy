/** Which traces the consensus accepts: all those of well-formed windows, short of the 64-bit window counter. */
module ConsensusSuccess {
  import opened Errors
  import opened Names
  import opened DriftLevels
  import opened Consensus
  import opened ConsensusTraces

  /** A window the validation lets through. */
  predicate WellFormed(c: Config, votes: seq<Vote>) {
    && |votes| <= c.maxDetectors
    && (forall i :: 0 <= i < |votes| ==>
          && 0 < |votes[i].detector| <= 128 && (!votes[i].available ==> votes[i].level == NoDrift))
    && (forall i, j :: 0 <= i < j < |votes| ==> votes[i].detector != votes[j].detector)
  }

  lemma ValidationMeaning(c: Config, votes: seq<Vote>)
    ensures ValidateVotes(c, votes).Ok? <==> WellFormed(c, votes)
  {
    assert forall i :: 0 <= i < |votes| ==>
      (VoteResult(votes[i]).Ok? <==> 0 < |votes[i].detector| <= 128 && (!votes[i].available ==> votes[i].level == NoDrift));
  }

  /** No counter runs ahead of the windows seen. */
  predicate Counted(s: State) {
    && StateValid(s) && s.nextEventId <= s.windowsSeen + 1
    && (s.lastEvent.Some? ==> s.lastEvent.value.occurrences <= s.windowsSeen)
  }

  /** Entering a window leaves every other counter behind the windows seen. */
  lemma OpenCounted(s: State, generation: nat)
    requires Counted(s) && s.windowsSeen + 1 < U64_MAX
    ensures Open(s, generation).Ok?
    ensures var f := Open(s, generation).value;
      && f.windowsSeen == s.windowsSeen + 1 && f.config == s.config
      && f.driftStreak < f.windowsSeen && f.warningStreak < f.windowsSeen && f.clearStreak < f.windowsSeen
      && f.nextEventId <= f.windowsSeen
      && (f.lastEvent.Some? ==> f.lastEvent.value.occurrences < f.windowsSeen)
  {}

  lemma RecordCounted(s: State, level: Level, names: seq<Name>, generation: nat)
    requires s.windowsSeen < U64_MAX && 0 < s.windowsSeen && s.nextEventId <= s.windowsSeen
    requires s.lastEvent.Some? ==> s.lastEvent.value.occurrences < s.windowsSeen
    ensures RecordEvent(s, level, names, generation).Ok?
    ensures var next := RecordEvent(s, level, names, generation).value.0;
      && next.windowsSeen == s.windowsSeen && next.nextEventId <= s.windowsSeen + 1
      && (next.lastEvent.Some? ==> next.lastEvent.value.occurrences <= s.windowsSeen)
  {}

  lemma AnnounceCounted(s: State, level: Level, allowed: bool, names: seq<Name>, generation: nat, n: nat)
    requires s.windowsSeen < U64_MAX && 0 < s.windowsSeen && s.nextEventId <= s.windowsSeen
    requires s.lastEvent.Some? ==> s.lastEvent.value.occurrences < s.windowsSeen
    ensures Announce(s, level, allowed, names, generation, n).Ok?
    ensures var next := Announce(s, level, allowed, names, generation, n).value.state;
      && next.windowsSeen == s.windowsSeen && next.nextEventId <= s.windowsSeen + 1
      && (next.lastEvent.Some? ==> next.lastEvent.value.occurrences <= s.windowsSeen)
  {
    RecordCounted(s.(activeLevel := level), level, names, generation);
  }

  lemma LevelCounted(s: State, raw: Level, allowed: bool, names: seq<Name>, generation: nat)
    requires s.windowsSeen < U64_MAX && s.nextEventId <= s.windowsSeen
    requires s.driftStreak < s.windowsSeen && s.warningStreak < s.windowsSeen && s.clearStreak < s.windowsSeen
    requires s.lastEvent.Some? ==> s.lastEvent.value.occurrences < s.windowsSeen
    ensures OnLevel(s, raw, allowed, names, generation).Ok?
    ensures var next := OnLevel(s, raw, allowed, names, generation).value.state;
      && next.windowsSeen == s.windowsSeen && next.nextEventId <= s.windowsSeen + 1
      && (next.lastEvent.Some? ==> next.lastEvent.value.occurrences <= s.windowsSeen)
  {
    match raw
    case Drift =>
      var t := s.(clearStreak := 0, warningStreak := 0, driftStreak := s.driftStreak + 1);
      AnnounceCounted(t, Drift, allowed, names, generation, t.driftStreak);
    case Warning =>
      var t := s.(clearStreak := 0, driftStreak := 0, warningStreak := s.warningStreak + 1);
      AnnounceCounted(t, Warning, allowed, names, generation, t.warningStreak);
    case NoDrift =>
  }

  /** Below the window counter's limit a well-formed window is always accepted. */
  lemma UpdateSucceeds(s: State, votes: seq<Vote>, generation: nat)
    requires Counted(s) && s.windowsSeen + 1 < U64_MAX && WellFormed(s.config, votes)
    ensures Update(s, votes, generation).Ok? && Counted(Update(s, votes, generation).value.0)
    ensures Update(s, votes, generation).value.0.windowsSeen == s.windowsSeen + 1
  {
    ValidationMeaning(s.config, votes);
    OpenCounted(s, generation);
    var f := Open(s, generation).value;
    LevelCounted(CoolDown(f), RawLevel(f.config, votes), f.cooldownRemaining == 0, Triggered(votes), generation);
    UpdateKeeps(s, votes, generation);
  }

  /**
   A trace shorter than the counter's limit is accepted exactly when the configuration is valid and every window is
   well formed: no other error can ever stop it.
   */
  lemma {:induction false} RunSucceeds(c: Config, trace: seq<Window>)
    requires |trace| < U64_MAX
    ensures Run(c, trace).Ok? <==> ConfigResult(c).Ok? && forall k :: 0 <= k < |trace| ==> WellFormed(c, trace[k].votes)
    ensures Run(c, trace).Ok? ==> Counted(Run(c, trace).value) && Run(c, trace).value.windowsSeen == |trace|
  {
    if trace == [] {
    } else {
      var n := |trace| - 1;
      RunSucceeds(c, trace[..n]);
      assert trace == trace[..n] + [trace[n]];
      if Run(c, trace[..n]).Ok? {
        RunAgrees(c, trace[..n]);
        ValidationMeaning(c, trace[n].votes);
        if WellFormed(c, trace[n].votes) { UpdateSucceeds(Run(c, trace[..n]).value, trace[n].votes, trace[n].generation); }
      }
    }
  }
}
