/** In which order a chunk's events are replayed. */
module ReplayOrder {
  import opened Errors
  import opened Replay
  import opened ReplayComposition

  /** Every record contributes its decision event and, if it has an outcome, its outcome event: each once, no others. */
  lemma {:induction false} EventsMeaning(records: seq<Record>, e: Event)
    ensures multiset(EventsOf(records))[e] ==
      if e.index < |records| && e.kind == 0 && e.time == records[e.index].timestamp then 1
      else if e.index < |records| && e.kind == 1 && records[e.index].outcomeTime == Some(e.time) then 1
      else 0
  {
    if records == [] {
    } else {
      var n := |records| - 1;
      EventsMeaning(records[..n], e);
      var last := RecordEvents(records[n], n);
      assert multiset(last)[e] == if e.index == n && ((e.kind == 0 && e.time == records[n].timestamp)
                                     || (e.kind == 1 && records[n].outcomeTime == Some(e.time))) then 1 else 0;
    }
  }

  /** Event `a` is to be replayed before `b`. */
  predicate Precedes(a: Event, b: Event) {
    || a.time < b.time
    || (a.time == b.time && a.kind == 0 && b.kind == 1)
    || (a.time == b.time && a.kind == b.kind && a.index < b.index)
  }

  /**
   The replayed list holds exactly the chunk's events, each once, in the order of their times; at equal times every
   decision comes before every outcome, and events of one kind in the order of their records.
   */
  lemma ReplayedInOrder(records: seq<Record>, i: nat, j: nat)
    requires i < j < |Sort(EventsOf(records))|
    ensures multiset(Sort(EventsOf(records))) == multiset(EventsOf(records))
    ensures Precedes(Sort(EventsOf(records))[i], Sort(EventsOf(records))[j])
  {
    var events := Sort(EventsOf(records));
    SortSound(EventsOf(records));
    var a, b := events[i], events[j];
    Twice(events, i, j);
    EventsMeaning(records, a);
    EventsMeaning(records, b);
    assert a in multiset(events) && b in multiset(events);
  }

  /** Equal entries at two positions count twice. */
  lemma Twice(events: seq<Event>, i: nat, j: nat)
    requires i < j < |events|
    ensures events[i] == events[j] ==> multiset(events)[events[i]] >= 2
  {
    assert events == events[..j] + [events[j]] + events[j + 1..];
    assert events[..j][i] == events[i];
    assert events[i] in multiset(events[..j]);
  }

  /** A record's outcome is never replayed before its own decision. */
  lemma DecisionBeforeOutcome(records: seq<Record>, i: nat, j: nat)
    requires i < |Sort(EventsOf(records))| && j < |Sort(EventsOf(records))|
    requires var events := Sort(EventsOf(records));
      events[i].kind == 0 && events[j].kind == 1 && events[i].index == events[j].index
    requires forall k :: 0 <= k < |records| && records[k].outcomeTime.Some? ==> records[k].timestamp <= records[k].outcomeTime.value
    ensures i < j
  {
    EventDated(records, i);
    EventDated(records, j);
    if j < i { ReplayedInOrder(records, j, i); }
  }

  /** Each replayed event carries the time of its record. */
  lemma EventDated(records: seq<Record>, i: nat)
    requires i < |Sort(EventsOf(records))|
    ensures var e := Sort(EventsOf(records))[i];
      && e.index < |records|
      && (e.kind == 0 ==> e.time == records[e.index].timestamp)
      && (e.kind == 1 ==> records[e.index].outcomeTime == Some(e.time))
  {
    var events := Sort(EventsOf(records));
    SortSound(EventsOf(records));
    EventsMeaning(records, events[i]);
    assert events[i] in multiset(events);
  }
}
