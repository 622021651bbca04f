/** What a replay reports: figures copied from the harness, and the order statistics of its latencies. */
module ReplayReport {
  import opened Errors
  import opened Cholesky
  import opened RidgeBandit
  import opened Replay
  import opened ReplayInvariants
  import Digest

  datatype LatencySummary = LatencySummary(count: nat, min: nat, max: nat, mean: real, p95: nat)

  datatype Report = Report(
    cumulativeReward: real, approximateRegret: real, baselineCumulativeReward: real, rewardOverBaseline: real,
    perArmPulls: seq<nat>, pending: nat, completed: nat, expired: nat, missingFeedback: nat, duplicateFeedback: nat,
    rejected: nat, generationTransitions: nat, driftEvents: nat, feedbackLatency: Option<LatencySummary>,
    digest: Digest.Word)

  // ---- sorting the latencies ----

  function InsertNat(xs: seq<nat>, x: nat): seq<nat> {
    if xs == [] || xs[|xs| - 1] <= x then xs + [x] else InsertNat(xs[..|xs| - 1], x) + [xs[|xs| - 1]]
  }

  function SortNats(xs: seq<nat>): seq<nat> {
    if xs == [] then [] else InsertNat(SortNats(xs[..|xs| - 1]), xs[|xs| - 1])
  }

  predicate Ascending(xs: seq<nat>) {
    forall i, j :: 0 <= i < j < |xs| ==> xs[i] <= xs[j]
  }

  lemma {:induction false} InsertSound(xs: seq<nat>, x: nat)
    requires Ascending(xs)
    ensures multiset(InsertNat(xs, x)) == multiset(xs) + multiset{x}
    ensures Ascending(InsertNat(xs, x))
  {
    if xs == [] || xs[|xs| - 1] <= x {
      assert xs + [x] == InsertNat(xs, x);
    } else {
      var n := |xs| - 1;
      InsertSound(xs[..n], x);
      assert xs == xs[..n] + [xs[n]];
      var r := InsertNat(xs[..n], x);
      forall i | 0 <= i < |r| ensures r[i] <= xs[n] {
        assert r[i] in multiset(r);
        if r[i] != x {
          assert r[i] in multiset(xs[..n]);
        }
      }
    }
  }

  lemma {:induction false} SortSound(xs: seq<nat>)
    ensures Ascending(SortNats(xs)) && multiset(SortNats(xs)) == multiset(xs) && |SortNats(xs)| == |xs|
  {
    if xs == [] {
    } else {
      var n := |xs| - 1;
      SortSound(xs[..n]);
      InsertSound(SortNats(xs[..n]), xs[n]);
      assert xs == xs[..n] + [xs[n]];
    }
    assert |SortNats(xs)| == |multiset(SortNats(xs))| == |multiset(xs)| == |xs|;
  }

  // ---- the summary ----

  function Sum(xs: seq<nat>): nat {
    if xs == [] then 0 else Sum(xs[..|xs| - 1]) + xs[|xs| - 1]
  }

  /** The rank of the 95th percentile: 95 hundredths of the last index, rounded up. */
  function Rank95(count: nat): (rank: nat)
    requires count > 0
    ensures rank < count && 100 * rank >= 95 * (count - 1)
    ensures rank > 0 ==> 100 * (rank - 1) < 95 * (count - 1)
  {
    ((count - 1) * 95 + 99) / 100
  }

  function Average(sum: nat, count: nat): real
    requires count > 0
  {
    sum as real / count as real
  }

  function Summary(latencies: seq<nat>): Option<LatencySummary> {
    if latencies == [] then None
    else
      SortSound(latencies);
      var sorted := SortNats(latencies);
      Some(LatencySummary(|sorted|, sorted[0], sorted[|sorted| - 1], Average(Sum(sorted), |sorted|),
                          sorted[Rank95(|sorted|)]))
  }

  function ReportOf(h: Harness): Report {
    Report(h.cumulativeReward, h.approximateRegret, h.baselineCumulativeReward,
           h.cumulativeReward - h.baselineCumulativeReward, h.perArmPulls,
           |h.ledger.pending|, |h.ledger.completed|, h.expired, h.missingFeedback, h.duplicateFeedback, h.rejected,
           h.generationTransitions, h.driftEvents, Summary(h.latencies), h.digest)
  }

  /** How many entries are at most `bound`. */
  function CountAtMost(xs: seq<nat>, bound: nat): nat {
    if xs == [] then 0 else CountAtMost(xs[..|xs| - 1], bound) + if xs[|xs| - 1] <= bound then 1 else 0
  }

  lemma {:induction false} CountConcat(a: seq<nat>, b: seq<nat>, bound: nat)
    ensures CountAtMost(a + b, bound) == CountAtMost(a, bound) + CountAtMost(b, bound) && Sum(a + b) == Sum(a) + Sum(b)
  {
    if b == [] {
      assert a + b == a;
    } else {
      var n := |b| - 1;
      CountConcat(a, b[..n], bound);
      assert (a + b)[..|a + b| - 1] == a + b[..n];
    }
  }

  lemma CountMiddle(a: seq<nat>, x: nat, b: seq<nat>, bound: nat)
    ensures CountAtMost(a + [x] + b, bound) == CountAtMost(a + b, bound) + if x <= bound then 1 else 0
    ensures Sum(a + [x] + b) == Sum(a + b) + x
  {
    CountConcat(a, b, bound);
    CountConcat(a + [x], b, bound);
    assert (a + [x])[..|a|] == a;
  }

  lemma DropMiddle(a: seq<nat>, x: nat, b: seq<nat>)
    ensures multiset(a + b) == multiset(a + [x] + b) - multiset{x}
  {
    assert multiset(a + [x] + b) == multiset(a) + multiset{x} + multiset(b);
  }

  lemma SameRest(p: seq<nat>, x: nat, a: seq<nat>, b: seq<nat>)
    requires multiset(p + [x]) == multiset(a + [x] + b)
    ensures multiset(p) == multiset(a + b)
  {
    assert multiset(p + [x]) == multiset(p) + multiset{x};
    DropMiddle(a, x, b);
  }

  /** Counts and sums do not depend on the order of the entries. */
  lemma {:induction false} CountPermuted(p: seq<nat>, q: seq<nat>, bound: nat)
    requires multiset(p) == multiset(q)
    ensures CountAtMost(p, bound) == CountAtMost(q, bound) && Sum(p) == Sum(q)
  {
    if p == [] {
      assert |q| == |multiset(q)| == 0;
    } else {
      var n := |p| - 1;
      assert p == p[..n] + [p[n]];
      assert p[n] in multiset(q);
      var i :| 0 <= i < |q| && q[i] == p[n];
      assert q == q[..i] + [p[n]] + q[i + 1..];
      SameRest(p[..n], p[n], q[..i], q[i + 1..]);
      CountPermuted(p[..n], q[..i] + q[i + 1..], bound);
      CountMiddle(q[..i], p[n], q[i + 1..], bound);
    }
  }

  lemma {:induction false} AllAtMost(xs: seq<nat>, bound: nat)
    requires forall i :: 0 <= i < |xs| ==> xs[i] <= bound
    ensures CountAtMost(xs, bound) == |xs|
  {
    if xs == [] {
    } else {
      AllAtMost(xs[..|xs| - 1], bound);
    }
  }

  /** The first and last of a sorted arrangement are its extremes. */
  lemma Extremes(latencies: seq<nat>)
    requires latencies != []
    ensures var sorted := SortNats(latencies);
      && |sorted| == |latencies| && (forall x :: x in sorted <==> x in latencies)
      && forall x :: x in latencies ==> sorted[0] <= x <= sorted[|sorted| - 1]
  {
    var sorted := SortNats(latencies);
    SortSound(latencies);
    SameMembers(sorted, latencies);
    forall x | x in latencies ensures sorted[0] <= x <= sorted[|sorted| - 1] {
      var i :| 0 <= i < |sorted| && sorted[i] == x;
    }
  }

  /** In a sorted arrangement the entry of a rank covers that many entries and itself. */
  lemma RankCovers(sorted: seq<nat>, latencies: seq<nat>, rank: nat)
    requires Ascending(sorted) && multiset(sorted) == multiset(latencies) && rank < |sorted|
    ensures CountAtMost(latencies, sorted[rank]) >= rank + 1
  {
    var first, rest := sorted[..rank + 1], sorted[rank + 1..];
    assert first + rest == sorted;
    CountPermuted(sorted, latencies, sorted[rank]);
    AllAtMost(first, sorted[rank]);
    CountConcat(first, rest, sorted[rank]);
  }

  lemma {:induction false} NoneAtMost(xs: seq<nat>, bound: nat)
    requires forall i :: 0 <= i < |xs| ==> xs[i] > bound
    ensures CountAtMost(xs, bound) == 0
  {
    if xs == [] {
    } else {
      NoneAtMost(xs[..|xs| - 1], bound);
    }
  }

  lemma {:induction false} CountBounded(xs: seq<nat>, bound: nat)
    ensures CountAtMost(xs, bound) <= |xs|
  {
    if xs == [] {
    } else {
      CountBounded(xs[..|xs| - 1], bound);
    }
  }

  /** Fewer entries than the rank and one lie below the entry of a rank. */
  lemma RankReached(sorted: seq<nat>, latencies: seq<nat>, rank: nat, bound: nat)
    requires Ascending(sorted) && multiset(sorted) == multiset(latencies) && rank < |sorted| && bound < sorted[rank]
    ensures CountAtMost(latencies, bound) <= rank
  {
    var first, rest := sorted[..rank], sorted[rank..];
    assert first + rest == sorted;
    CountPermuted(sorted, latencies, bound);
    CountBounded(first, bound);
    NoneAtMost(rest, bound);
    CountConcat(first, rest, bound);
  }

  /**
   The summary in terms of the recorded latencies: attained minimum and maximum, and the smallest latency that covers
   more entries than the rank, the smallest number not below 95 hundredths of all entries but one.
   */
  lemma SummaryMeaning(latencies: seq<nat>)
    requires latencies != []
    ensures var s, rank := Summary(latencies).value, Rank95(|latencies|);
      && s.count == |latencies| && s.min in latencies && s.max in latencies && s.p95 in latencies
      && (forall x :: x in latencies ==> s.min <= x <= s.max)
      && CountAtMost(latencies, s.p95) > rank
      && forall bound: nat :: bound < s.p95 ==> CountAtMost(latencies, bound) <= rank
  {
    var s, rank := Summary(latencies).value, Rank95(|latencies|);
    SortSound(latencies);
    Extremes(latencies);
    RankCovers(SortNats(latencies), latencies, rank);
    forall bound: nat | bound < s.p95 ensures CountAtMost(latencies, bound) <= rank {
      RankReached(SortNats(latencies), latencies, rank, bound);
    }
  }

  /** The mean is the sum of the latencies over their number. */
  lemma SummaryMean(latencies: seq<nat>)
    requires latencies != []
    ensures Times(Summary(latencies).value.mean, |latencies|) == Sum(latencies) as real
  {
    SummaryAverages(latencies);
    AverageMeaning(Sum(latencies), |latencies|, Summary(latencies).value.mean);
  }

  function Times(mean: real, count: nat): real {
    mean * count as real
  }

  lemma SummaryAverages(latencies: seq<nat>)
    requires latencies != []
    ensures Summary(latencies).value.mean == Average(Sum(latencies), |latencies|)
  {
    SortSound(latencies);
    CountPermuted(SortNats(latencies), latencies, 0);
  }

  lemma AverageMeaning(sum: nat, count: nat, mean: real)
    requires count > 0 && mean == Average(sum, count)
    ensures Times(mean, count) == sum as real
  {}

  /** The summary depends on the recorded latencies only, not on their order. */
  lemma SummaryOrderFree(p: seq<nat>, q: seq<nat>)
    requires multiset(p) == multiset(q)
    ensures Summary(p) == Summary(q)
  {
    assert |p| == |multiset(p)| == |multiset(q)| == |q|;
    SortSound(p);
    SortSound(q);
    AscendingUnique(SortNats(p), SortNats(q));
  }

  lemma {:induction false} AscendingUnique(a: seq<nat>, b: seq<nat>)
    requires Ascending(a) && Ascending(b) && multiset(a) == multiset(b)
    ensures a == b
  {
    assert |a| == |multiset(a)| == |multiset(b)| == |b|;
    if a == [] {
    } else {
      var m, n := |a| - 1, |b| - 1;
      LastsAgree(a, b);
      assert a == a[..m] + [a[m]] && b == b[..n] + [a[m]];
      SameInit(a[..m], a[m], b[..n]);
      AscendingUnique(a[..m], b[..n]);
    }
  }

  lemma SameInit(p: seq<nat>, x: nat, q: seq<nat>)
    requires multiset(p + [x]) == multiset(q + [x])
    ensures multiset(p) == multiset(q)
  {
    assert multiset(p + [x]) == multiset(p) + multiset{x};
    assert multiset(q + [x]) == multiset(q) + multiset{x};
    assert multiset(p) == multiset(p + [x]) - multiset{x};
  }

  lemma LastsAgree(a: seq<nat>, b: seq<nat>)
    requires Ascending(a) && Ascending(b) && multiset(a) == multiset(b) && a != [] && b != []
    ensures a[|a| - 1] == b[|b| - 1]
  {
    assert a[|a| - 1] in multiset(b) && b[|b| - 1] in multiset(a);
    var i :| 0 <= i < |b| && b[i] == a[|a| - 1];
    var j :| 0 <= j < |a| && a[j] == b[|b| - 1];
  }

  lemma SameMembers(a: seq<nat>, b: seq<nat>)
    requires multiset(a) == multiset(b)
    ensures forall x :: x in a <==> x in b
  {
    forall x ensures x in a <==> x in b {
      assert x in a <==> x in multiset(a);
      assert x in b <==> x in multiset(b);
    }
  }

  // ---- the report of a history ----

  /**
   After every history from a new harness the report adds up: its pending, completed and expired decisions are those
   ever registered, its pulls and its latencies are as many as its completed decisions, and its reward over the
   baseline is the difference of the two totals.
   */
  lemma HistoryReport(model: Stable, config: ReplayConfig, chunks: seq<seq<Record>>, env: Env)
    requires StableValid(model) && model.samplesSeen == 0 && NewHarness(model, config).Ok? && IsSqrt(env.sqrt)
    requires 0 < config.maxRecords <= U64_MAX && config.maxCompleted <= U64_MAX && 0 < |config.schemaHash| <= 128
    ensures HarnessValid(NewHarness(model, config).value) && Typed(NewHarness(model, config).value)
    ensures var start := NewHarness(model, config).value;
      var h := ReplayAll(start, chunks, env);
      var report := ReportOf(h);
      && report.rejected == h.rejected && report.duplicateFeedback == h.duplicateFeedback
      && report.missingFeedback == h.missingFeedback && report.digest == h.digest
      && report.generationTransitions == h.generationTransitions && report.driftEvents == h.driftEvents
      && report.perArmPulls == h.perArmPulls && report.cumulativeReward == h.cumulativeReward
      && report.approximateRegret == h.approximateRegret && report.baselineCumulativeReward == h.baselineCumulativeReward
      && report.pending + report.completed + report.expired == AllRegistrations(start, chunks, env)
      && |report.perArmPulls| == model.armCount && TotalPulls(report.perArmPulls) == report.completed
      && (report.feedbackLatency.None? <==> report.completed == 0)
      && (report.completed > 0 ==> report.feedbackLatency.value.count == report.completed)
      && report.rewardOverBaseline + report.baselineCumulativeReward == report.cumulativeReward
      && report.approximateRegret >= 0.0
  {
    HistoryConserves(model, config, chunks, env);
    HistoryShape(NewHarness(model, config).value, chunks, env);
    var latencies := ReplayAll(NewHarness(model, config).value, chunks, env).latencies;
    SortSound(latencies);
  }

  lemma {:induction false} HistoryShape(h: Harness, chunks: seq<seq<Record>>, env: Env)
    requires HarnessValid(h) && Typed(h) && IsSqrt(env.sqrt)
    ensures |ReplayAll(h, chunks, env).perArmPulls| == |h.perArmPulls|
    ensures ReplayAll(h, chunks, env).config == h.config
  {
    if chunks == [] {
    } else {
      HistoryShape(h, chunks[..|chunks| - 1], env);
      ChunkShape(ReplayAll(h, chunks[..|chunks| - 1], env), chunks[|chunks| - 1], env);
    }
  }

  lemma ChunkShape(h: Harness, records: seq<Record>, env: Env)
    requires HarnessValid(h) && Typed(h) && IsSqrt(env.sqrt)
    ensures |Commit(h, records, env).perArmPulls| == |h.perArmPulls| && Commit(h, records, env).config == h.config
  {
    CommitIs(h, records, env);
    ChunkValid(h, records, env);
  }
}
