/**
 When a window records a drift event, when it merges into the last one instead, and which detectors the
 event names: each exactly, in terms of the trace.
 */
module ConsensusOccurrences {
  import opened Errors
  import opened Names
  import opened DriftLevels
  import opened Consensus
  import opened ConsensusTraces
  import opened ConsensusEvents
  import opened ConsensusVotes

  // ---- when an occurrence is recorded ----

  /**
   The last window announces its level: confirmed drift that is new, or whose streak completes another round of
   confirmation, or a confirmed warning from no drift.
   */
  predicate Announces(c: Config, trace: seq<Window>)
    requires trace != []
  {
    if KindOf(c, trace) == Raw(Drift) then
      && Streak(c, trace, Drift) >= c.confirmationWindows
      && (LevelBefore(c, trace) != Drift || (c.confirmationWindows > 0 && Streak(c, trace, Drift) % c.confirmationWindows == 0))
    else
      && KindOf(c, trace) == Raw(Warning) && LevelBefore(c, trace) == NoDrift
      && Streak(c, trace, Warning) >= c.confirmationWindows
  }

  /** The cooldown still running after the trace: what is left since the last occurrence of this generation. */
  function Cooling(c: Config, trace: seq<Window>): nat
    requires Run(c, trace).Ok?
  {
    Left(c.cooldownWindows, trace, LastOccurrence(c, trace))
  }

  function Left(cooldown: nat, trace: seq<Window>, last: nat): nat {
    if last == 0 || last > |trace| || !SameGeneration(trace, |trace| - last + 1) || |trace| - last >= cooldown then 0
    else cooldown - (|trace| - last)
  }

  lemma {:induction false} LastOccurrenceBelow(c: Config, trace: seq<Window>)
    requires Run(c, trace).Ok?
    ensures LastOccurrence(c, trace) <= |trace|
  {
    if trace == [] {
    } else {
      RunInit(c, trace);
      LastOccurrenceBelow(c, trace[..|trace| - 1]);
    }
  }

  lemma DecideRecords(f: State, votes: seq<Vote>, generation: nat)
    requires Decide(f, votes, generation).Ok?
    ensures var m := Decide(f, votes, generation).value;
      var announces :=
        && !Warming(f) && !Incomplete(f.config, votes)
        && match RawLevel(f.config, votes)
           case Drift =>
             && m.state.driftStreak >= f.config.confirmationWindows
             && (f.activeLevel != Drift
                 || (f.config.confirmationWindows > 0 && m.state.driftStreak % f.config.confirmationWindows == 0))
           case Warning => f.activeLevel == NoDrift && m.state.warningStreak >= f.config.confirmationWindows
           case NoDrift => false;
      && (m.recorded.Some? <==> announces && f.cooldownRemaining == 0)
      && (m.recorded.Some? ==> (m.recorded.value == Merged <==> CanMerge(f, generation)))
      && m.state.cooldownRemaining ==
           if m.recorded.Some? then f.config.cooldownWindows
           else if f.cooldownRemaining > 0 then f.cooldownRemaining - 1 else 0
  {}

  /** The last window of a run: recorded exactly when it announces and the cooldown had run out. */
  lemma LastRecords(c: Config, trace: seq<Window>)
    requires trace != [] && Run(c, trace).Ok?
    ensures Run(c, trace[..|trace| - 1]).Ok?
    ensures var before, after := Run(c, trace[..|trace| - 1]).value, Run(c, trace).value;
      var cooldown := if Boundary(trace) then 0 else before.cooldownRemaining;
      && (Occurred(c, trace) <==> Announces(c, trace) && cooldown == 0)
      && after.cooldownRemaining == (if Occurred(c, trace) then c.cooldownWindows else if cooldown > 0 then cooldown - 1 else 0)
      && (Occurred(c, trace) ==>
            (LastResult(c, trace).mergedEvent <==>
              && before.lastEvent.Some? && before.lastEvent.value.generation == LastGeneration(trace)
              && |trace| <= before.lastEvent.value.lastWindow + c.eventMergeHorizon))
  {
    var last := trace[|trace| - 1];
    var s := Run(c, trace[..|trace| - 1]).value;
    LastUpdate(c, trace);
    RunAgrees(c, trace);
    RunAgrees(c, trace[..|trace| - 1]);
    OpenAgrees(c, trace, s);
    DecideRecords(Open(s, last.generation).value, last.votes, last.generation);
  }

  lemma {:induction false} CooldownExact(c: Config, trace: seq<Window>)
    requires Run(c, trace).Ok?
    ensures Run(c, trace).value.cooldownRemaining == Cooling(c, trace)
  {
    if trace == [] {
    } else {
      var init := trace[..|trace| - 1];
      LastRecords(c, trace);
      CooldownExact(c, init);
      LastOccurrenceBelow(c, init);
      var last := LastOccurrence(c, init);
      if !Occurred(c, trace) && last > 0 {
        SameGenerationLast(trace, |trace| - last + 1);
      }
    }
  }

  lemma SameGenerationLast(trace: seq<Window>, n: nat)
    requires 2 <= n <= |trace|
    ensures SameGeneration(trace, n) <==> !Boundary(trace) && SameGeneration(trace[..|trace| - 1], n - 1)
  {
    var init := trace[..|trace| - 1];
    if SameGeneration(trace, n) {
      assert trace[|trace| - 2].generation == trace[|trace| - 1].generation;
    }
    if !Boundary(trace) && SameGeneration(init, n - 1) {
      forall k | |trace| - n <= k < |trace| ensures trace[k].generation == trace[|trace| - 1].generation {
        if k < |init| { assert init[k].generation == init[|init| - 1].generation; }
      }
    }
  }

  /** No occurrence, the last one being at `last`, lies within the last `cooldown` windows of the trace's generation. */
  predicate Cooled(trace: seq<Window>, last: nat, cooldown: nat) {
    0 < last <= |trace| && SameGeneration(trace, |trace| - last + 1) ==> |trace| - last > cooldown
  }

  /**
   A window records an occurrence exactly when it announces its level and no occurrence lies within the last
   `cooldownWindows` windows of its own generation.
   */
  lemma OccurrenceExact(c: Config, trace: seq<Window>, init: seq<Window>)
    requires trace != [] && Run(c, trace).Ok? && init == trace[..|trace| - 1]
    ensures Run(c, init).Ok? && LastOccurrence(c, init) <= |init|
    ensures Occurred(c, trace) <==> Announces(c, trace) && Cooled(trace, LastOccurrence(c, init), c.cooldownWindows)
  {
    LastRecords(c, trace);
    CooldownExact(c, init);
    LastOccurrenceBelow(c, init);
    CooledMeans(c, trace, init, LastOccurrence(c, init));
  }

  /** The cooldown a window finds has run out exactly when the last occurrence of its generation is far enough back. */
  lemma CooledMeans(c: Config, trace: seq<Window>, init: seq<Window>, last: nat)
    requires trace != [] && init == trace[..|trace| - 1] && last <= |init|
    ensures (if Boundary(trace) then 0 else Left(c.cooldownWindows, init, last)) == 0 <==>
      Cooled(trace, last, c.cooldownWindows)
  {
    if last > 0 { SameGenerationLast(trace, |trace| - last + 1); }
  }

  // ---- when an occurrence merges ----

  /** The retained event is there exactly after an occurrence, and dated by it. */
  lemma {:induction false} LastEventDated(c: Config, trace: seq<Window>)
    requires Run(c, trace).Ok?
    ensures LastOccurrence(c, trace) <= |trace|
    ensures var event, last := Run(c, trace).value.lastEvent, LastOccurrence(c, trace);
      && (event.Some? <==> last > 0)
      && (last > 0 ==> event.value.lastWindow == last && event.value.generation == trace[last - 1].generation)
  {
    if trace == [] {
    } else {
      LastTells(c, trace);
      LastEventDated(c, trace[..|trace| - 1]);
    }
  }

  /** The last occurrence, at `last`, has the trace's generation and is at most `horizon` windows back. */
  predicate Near(trace: seq<Window>, last: nat, horizon: nat) {
    0 < last <= |trace| && trace[last - 1].generation == trace[|trace| - 1].generation && |trace| - last <= horizon
  }

  /**
   An occurrence is merged into the last event exactly when that event's last window has the same generation and
   is at most `eventMergeHorizon` windows back; otherwise it is a new event.
   */
  lemma MergeExact(c: Config, trace: seq<Window>, init: seq<Window>)
    requires trace != [] && Run(c, trace).Ok? && Occurred(c, trace) && init == trace[..|trace| - 1]
    ensures Run(c, init).Ok?
    ensures LastResult(c, trace).newEvent <==> !LastResult(c, trace).mergedEvent
    ensures LastResult(c, trace).mergedEvent <==> Near(trace, LastOccurrence(c, init), c.eventMergeHorizon)
  {
    LastRecords(c, trace);
    LastEventDated(c, init);
    NewOrMerged(c, trace);
  }

  lemma NewOrMerged(c: Config, trace: seq<Window>)
    requires trace != [] && Run(c, trace).Ok? && Occurred(c, trace)
    ensures LastResult(c, trace).newEvent <==> !LastResult(c, trace).mergedEvent
  {
    LastUpdate(c, trace);
  }

  // ---- which detectors an event names ----

  /** The names triggered in the windows after `from` that recorded an occurrence, in order. */
  function Named(c: Config, trace: seq<Window>, from: nat): seq<Name>
    requires Run(c, trace).Ok?
  {
    if |trace| <= from then []
    else
      RunInit(c, trace);
      Named(c, trace[..|trace| - 1], from) + if Occurred(c, trace) then Triggered(trace[|trace| - 1].votes) else []
  }

  lemma DecideNames(f: State, votes: seq<Vote>, generation: nat)
    requires Decide(f, votes, generation).Ok?
    ensures var m := Decide(f, votes, generation).value;
      && (m.recorded == Some(Fresh) ==>
            m.state.lastEvent.Some? && m.state.lastEvent.value.detectors == Smallest(Triggered(votes), f.config.maxDetectors))
      && (m.recorded == Some(Merged) ==>
            && m.state.lastEvent.Some? && f.lastEvent.Some?
            && m.state.lastEvent.value.detectors
               == Smallest(f.lastEvent.value.detectors + Triggered(votes), f.config.maxDetectors))
  {}

  lemma LastNames(c: Config, trace: seq<Window>)
    requires trace != [] && Run(c, trace).Ok? && Occurred(c, trace)
    ensures Run(c, trace[..|trace| - 1]).Ok? && Run(c, trace).value.lastEvent.Some?
    ensures var before, e, names := Run(c, trace[..|trace| - 1]).value.lastEvent, Run(c, trace).value.lastEvent.value, Triggered(trace[|trace| - 1].votes);
      && (LastResult(c, trace).newEvent ==> e.detectors == Smallest(names, c.maxDetectors))
      && (!LastResult(c, trace).newEvent ==>
            before.Some? && e.detectors == Smallest(before.value.detectors + names, c.maxDetectors))
  {
    var last := trace[|trace| - 1];
    var s := Run(c, trace[..|trace| - 1]).value;
    LastUpdate(c, trace);
    RunAgrees(c, trace[..|trace| - 1]);
    OpenAgrees(c, trace, s);
    DecideNames(Open(s, last.generation).value, last.votes, last.generation);
  }

  /**
   After every trace the retained event names exactly the smallest `maxDetectors` of all names triggered by its
   occurrences: truncating after each of them loses nothing that truncating once would keep.
   */
  lemma {:induction false} DetectorsExact(c: Config, trace: seq<Window>)
    requires Run(c, trace).Ok? && Run(c, trace).value.lastEvent.Some?
    ensures var e := Run(c, trace).value.lastEvent.value;
      0 < e.firstWindow && e.detectors == Smallest(Named(c, trace, e.firstWindow - 1), c.maxDetectors)
  {
    SummaryTrue(c, trace);
    if trace == [] {
    } else if LastResult(c, trace).newEvent {
      NamesFresh(c, trace);
    } else {
      SummaryMoves(c, trace);
      DetectorsExact(c, trace[..|trace| - 1]);
      NamesMoved(c, trace, Run(c, trace).value.lastEvent.value.firstWindow - 1);
    }
  }

  /** A new event names what its own window triggered. */
  lemma NamesFresh(c: Config, trace: seq<Window>)
    requires trace != [] && Run(c, trace).Ok? && LastResult(c, trace).newEvent
    ensures Run(c, trace).value.lastEvent.Some? && Run(c, trace).value.lastEvent.value.firstWindow == |trace|
    ensures Run(c, trace).value.lastEvent.value.detectors == Smallest(Named(c, trace, |trace| - 1), c.maxDetectors)
  {
    LastTells(c, trace);
    LastNames(c, trace);
    NamedFrom(c, trace);
  }

  lemma NamesMoved(c: Config, trace: seq<Window>, from: nat)
    requires from < |trace| && Run(c, trace).Ok? && Run(c, trace).value.lastEvent.Some? && !LastResult(c, trace).newEvent
    requires Run(c, trace[..|trace| - 1]).Ok? && Run(c, trace[..|trace| - 1]).value.lastEvent.Some?
    requires Run(c, trace[..|trace| - 1]).value.lastEvent.value.detectors
      == Smallest(Named(c, trace[..|trace| - 1], from), c.maxDetectors)
    ensures Run(c, trace).value.lastEvent.value.detectors == Smallest(Named(c, trace, from), c.maxDetectors)
  {
    NamedLast(c, trace, from);
    NamesKept(c, trace, Named(c, trace[..|trace| - 1], from), Named(c, trace, from));
  }

  /** The detectors named after a window that merges, or records nothing. */
  lemma NamesKept(c: Config, trace: seq<Window>, init: seq<Name>, named: seq<Name>)
    requires trace != [] && Run(c, trace).Ok? && Run(c, trace).value.lastEvent.Some? && !LastResult(c, trace).newEvent
    requires Run(c, trace[..|trace| - 1]).Ok? && Run(c, trace[..|trace| - 1]).value.lastEvent.Some?
    requires Run(c, trace[..|trace| - 1]).value.lastEvent.value.detectors == Smallest(init, c.maxDetectors)
    requires named == if Occurred(c, trace) then init + Triggered(trace[|trace| - 1].votes) else init
    ensures Run(c, trace).value.lastEvent.value.detectors == Smallest(named, c.maxDetectors)
  {
    if Occurred(c, trace) {
      NamesMerged(c, trace, init);
    } else {
      NothingMoves(c, trace);
    }
  }

  lemma NamesMerged(c: Config, trace: seq<Window>, names: seq<Name>)
    requires trace != [] && Run(c, trace).Ok? && Occurred(c, trace) && !LastResult(c, trace).newEvent
    requires Run(c, trace[..|trace| - 1]).Ok? && Run(c, trace[..|trace| - 1]).value.lastEvent.Some?
    requires Run(c, trace[..|trace| - 1]).value.lastEvent.value.detectors == Smallest(names, c.maxDetectors)
    ensures Run(c, trace).value.lastEvent.Some?
    ensures Run(c, trace).value.lastEvent.value.detectors
      == Smallest(names + Triggered(trace[|trace| - 1].votes), c.maxDetectors)
  {
    LastNames(c, trace);
    SmallestAgain(names, Triggered(trace[|trace| - 1].votes), c.maxDetectors);
  }

  lemma NothingMoves(c: Config, trace: seq<Window>)
    requires trace != [] && Run(c, trace).Ok? && Run(c, trace[..|trace| - 1]).Ok? && !Occurred(c, trace)
    ensures Run(c, trace).value.lastEvent == Run(c, trace[..|trace| - 1]).value.lastEvent
  {
    LastTells(c, trace);
  }

  lemma NamedLast(c: Config, trace: seq<Window>, from: nat)
    requires from < |trace| && Run(c, trace).Ok?
    ensures Run(c, trace[..|trace| - 1]).Ok?
    ensures Named(c, trace, from)
      == if Occurred(c, trace) then Named(c, trace[..|trace| - 1], from) + Triggered(trace[|trace| - 1].votes)
         else Named(c, trace[..|trace| - 1], from)
  {
    RunInit(c, trace);
    var init := Named(c, trace[..|trace| - 1], from);
    assert init + [] == init;
  }

  lemma NamedFrom(c: Config, trace: seq<Window>)
    requires trace != [] && Run(c, trace).Ok? && Occurred(c, trace)
    ensures Named(c, trace, |trace| - 1) == Triggered(trace[|trace| - 1].votes)
  {
    RunInit(c, trace);
    assert Named(c, trace[..|trace| - 1], |trace| - 1) == [];
  }
}
