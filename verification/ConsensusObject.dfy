/** The mutable consensus object: the inner update runs on a scratch copy that is then committed. */
module ConsensusObject {
  import opened Errors
  import opened Names
  import opened Consensus
  import opened DriftLevels

  class DriftConsensus {
    const config: Config
    var windowsSeen: nat
    var generationWindows: nat
    var activeGeneration: Option<nat>
    var activeLevel: Level
    var warningStreak: nat
    var driftStreak: nat
    var clearStreak: nat
    var cooldownRemaining: nat
    var nextEventId: nat
    var lastEvent: Option<Summary>

    function View(): State
      reads this
    {
      State(config, windowsSeen, generationWindows, activeGeneration, activeLevel, warningStreak, driftStreak,
            clearStreak, cooldownRemaining, nextEventId, lastEvent)
    }

    constructor (s: State)
      ensures View() == s
    {
      config, windowsSeen, generationWindows := s.config, s.windowsSeen, s.generationWindows;
      activeGeneration, activeLevel := s.activeGeneration, s.activeLevel;
      warningStreak, driftStreak, clearStreak := s.warningStreak, s.driftStreak, s.clearStreak;
      cooldownRemaining, nextEventId, lastEvent := s.cooldownRemaining, s.nextEventId, s.lastEvent;
    }

    /** `DriftConsensus::new`. */
    static method New(c: Config) returns (r: Result<DriftConsensus>)
      ensures r.Ok? ==> fresh(r.value) && Consensus.New(c) == Ok(r.value.View()) && StateValid(r.value.View())
      ensures r.Err? ==> Consensus.New(c) == Err(r.error)
      ensures r.Ok? <==> 0 < c.minimumWarningVotes <= c.minimumDriftVotes <= c.maxDetectors <= 128 && c.confirmationWindows > 0 && c.clearWindows > 0
    {
      match ConfigResult(c)
      case Err(e) => r := Err(e);
      case Ok(_) =>
        var consensus := new DriftConsensus(State(c, 0, 0, None, NoDrift, 0, 0, 0, 0, 1, None));
        r := Ok(consensus);
    }

    method Adopt(s: State)
      requires s.config == config
      modifies this
      ensures View() == s
    {
      windowsSeen, generationWindows := s.windowsSeen, s.generationWindows;
      activeGeneration, activeLevel := s.activeGeneration, s.activeLevel;
      warningStreak, driftStreak, clearStreak := s.warningStreak, s.driftStreak, s.clearStreak;
      cooldownRemaining, nextEventId, lastEvent := s.cooldownRemaining, s.nextEventId, s.lastEvent;
    }

    /** `reset`: everything but the configuration returns to its initial value. */
    method Reset()
      modifies this
      ensures View() == Consensus.Reset(old(View()))
      ensures ConfigResult(config).Ok? ==> Consensus.New(config) == Ok(View())
    {
      windowsSeen, generationWindows, activeGeneration, activeLevel := 0, 0, None, NoDrift;
      warningStreak, driftStreak, clearStreak := 0, 0, 0;
      cooldownRemaining, nextEventId, lastEvent := 0, 1, None;
    }

    /** `record_event`. */
    method RecordEvent(level: Level, detectors: seq<Name>, generation: nat) returns (r: Result<Recorded>)
      modifies this`lastEvent, this`nextEventId, this`cooldownRemaining
      ensures match Consensus.RecordEvent(old(View()), level, detectors, generation)
        case Ok(pair) => r == Ok(pair.1) && View() == pair.0
        case Err(e) => r == Err(e)
    {
      if CanMerge(View(), generation) {
        var event := lastEvent.value;
        var occurrences := CheckedIncrement(event.occurrences);
        if occurrences.Err? {
          return Err(occurrences.error);
        }
        var peak := if Rank(level) > Rank(event.peakLevel) then level else event.peakLevel;
        var merged := Take(Collect(event.detectors + detectors), config.maxDetectors);
        lastEvent := Some(event.(lastWindow := windowsSeen, occurrences := occurrences.value,
                                 peakLevel := peak, detectors := merged));
        cooldownRemaining := config.cooldownWindows;
        return Ok(Merged);
      }
      var eventId := nextEventId;
      var next := CheckedIncrement(nextEventId);
      if next.Err? {
        return Err(next.error);
      }
      nextEventId := next.value;
      lastEvent := Some(Summary(eventId, windowsSeen, windowsSeen, level,
                                Take(Collect(detectors), config.maxDetectors), 1, generation));
      cooldownRemaining := config.cooldownWindows;
      r := Ok(Fresh);
    }

    /** Enters the window: forgets the old generation, then counts the window. */
    method EnterWindow(generation: nat) returns (r: Result<()>)
      modifies this
      ensures match Open(old(View()), generation)
        case Ok(s) => r == Ok(()) && View() == s
        case Err(e) => r == Err(e)
    {
      var nextWindows := CheckedIncrement(windowsSeen);
      if nextWindows.Err? {
        return Err(nextWindows.error);
      }
      if GenerationChanged(View(), generation) {
        generationWindows, activeLevel := 0, NoDrift;
        warningStreak, driftStreak, clearStreak, cooldownRemaining := 0, 0, 0, 0;
      }
      activeGeneration := Some(generation);
      windowsSeen := nextWindows.value;
      var inGeneration := CheckedIncrement(generationWindows);
      if inGeneration.Err? {
        return Err(inGeneration.error);
      }
      generationWindows := inGeneration.value;
      r := Ok(());
    }

    /** The level logic for one complete window. */
    method ApplyLevel(raw: Level, allowed: bool, detectors: seq<Name>, generation: nat)
      returns (r: Result<(nat, Option<Recorded>)>)
      modifies this
      ensures match OnLevel(old(View()), raw, allowed, detectors, generation)
        case Ok(m) => r == Ok((m.consecutive, m.recorded)) && View() == m.state
        case Err(e) => r == Err(e)
    {
      match raw
      case Drift =>
        clearStreak, warningStreak := 0, 0;
        var streak := CheckedIncrement(driftStreak);
        if streak.Err? {
          return Err(streak.error);
        }
        driftStreak := streak.value;
        if driftStreak >= config.confirmationWindows &&
           (activeLevel != Drift || (config.confirmationWindows > 0 && driftStreak % config.confirmationWindows == 0)) {
          activeLevel := Drift;
          if allowed {
            var recorded := RecordEvent(Drift, detectors, generation);
            match recorded
            case Err(e) => return Err(e);
            case Ok(kind) => return Ok((driftStreak, Some(kind)));
          }
        }
        r := Ok((driftStreak, None));
      case Warning =>
        clearStreak, driftStreak := 0, 0;
        var streak := CheckedIncrement(warningStreak);
        if streak.Err? {
          return Err(streak.error);
        }
        warningStreak := streak.value;
        if activeLevel == NoDrift && warningStreak >= config.confirmationWindows {
          activeLevel := Warning;
          if allowed {
            var recorded := RecordEvent(Warning, detectors, generation);
            match recorded
            case Err(e) => return Err(e);
            case Ok(kind) => return Ok((warningStreak, Some(kind)));
          }
        }
        r := Ok((warningStreak, None));
      case NoDrift =>
        warningStreak, driftStreak := 0, 0;
        var streak := CheckedIncrement(clearStreak);
        if streak.Err? {
          return Err(streak.error);
        }
        clearStreak := streak.value;
        r := Ok((clearStreak, None));
        if activeLevel != NoDrift && clearStreak >= config.clearWindows {
          activeLevel, clearStreak := NoDrift, 0;
        }
    }

    /** `update_inner`. */
    method UpdateInner(votes: seq<Vote>, generation: nat) returns (r: Result<WindowResult>)
      modifies this
      ensures match Inner(old(View()), votes, generation)
        case Ok(pair) => r == Ok(pair.1) && View() == pair.0
        case Err(e) => r == Err(e)
    {
      var changed := GenerationChanged(View(), generation);
      var entered := EnterWindow(generation);
      if entered.Err? {
        return Err(entered.error);
      }
      ghost var start := View();
      var allowed := cooldownRemaining == 0;
      if cooldownRemaining > 0 {
        cooldownRemaining := cooldownRemaining - 1;
      }
      var warming := generationWindows <= config.warmingWindows;
      var incomplete := Incomplete(config, votes);
      if warming || incomplete {
        warningStreak, driftStreak := 0, 0;
        return Ok(ResultOf(Move(View(), 0, None), votes, warming, incomplete, changed));
      }
      assert View() == CoolDown(start);
      var applied := ApplyLevel(RawLevel(config, votes), allowed, Triggered(votes), generation);
      match applied
      case Err(e) => r := Err(e);
      case Ok(pair) => r := Ok(ResultOf(Move(View(), pair.0, pair.1), votes, false, false, changed));
    }

    /** `update`: all or nothing. */
    method Update(votes: seq<Vote>, generation: nat) returns (r: Result<WindowResult>)
      modifies this
      ensures match Consensus.Update(old(View()), votes, generation)
        case Ok(pair) => r == Ok(pair.1) && View() == pair.0
        case Err(e) => r == Err(e) && View() == old(View())
      ensures StateValid(old(View())) ==> StateValid(View())
    {
      if StateValid(View()) && Consensus.Update(View(), votes, generation).Ok? {
        UpdateKeeps(View(), votes, generation);
      }
      var valid := CheckVotes(config, votes);
      if valid.Err? {
        return Err(valid.error);
      }
      var next := new DriftConsensus(View());
      r := next.UpdateInner(votes, generation);
      if r.Ok? {
        Adopt(next.View());
      }
    }
  }

  /** The vote validation loop with its set of seen names. */
  method CheckVotes(config: Config, votes: seq<Vote>) returns (r: Result<()>)
    ensures r == ValidateVotes(config, votes)
  {
    if |votes| > config.maxDetectors {
      return Err(InvalidCapacity(|votes|));
    }
    var names: set<Name> := {};
    for i := 0 to |votes|
      invariant VotesTo(votes, i).Ok?
      invariant forall n :: n in names <==> exists k :: 0 <= k < i && votes[k].detector == n
    {
      var vote := VoteResult(votes[i]);
      if vote.Err? {
        FirstBadVote(votes, i, |votes|);
        return vote;
      }
      if votes[i].detector in names {
        FirstBadVote(votes, i, |votes|);
        return Err(InvalidState(DuplicateDetector));
      }
      names := names + {votes[i].detector};
    }
    r := Ok(());
  }

  /** The loop stops with the error of the first bad vote. */
  lemma {:induction false} FirstBadVote(votes: seq<Vote>, i: nat, k: nat)
    requires i < k <= |votes| && VotesTo(votes, i).Ok? && VotesTo(votes, i + 1).Err?
    ensures VotesTo(votes, k) == VotesTo(votes, i + 1)
  {
    if k == i + 1 {
    } else {
      FirstBadVote(votes, i, k - 1);
    }
  }
}
