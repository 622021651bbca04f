/**
 The adaptive-window drift detector as a value. The Hoeffding bound is the parameter `bound`: a
 function of the two part sizes, the window size and the significance level.
 */
module Adwin {
  import opened Errors
  import opened Reals
  import opened DriftLevels

  type Bound = (nat, nat, nat, real) -> real

  datatype Config = Config(delta: real, warningDelta: real, maxWindow: nat, minSamples: nat)

  datatype Detector = Detector(config: Config, window: seq<real>, total: real, samples: nat, level: Level)

  /** A split of the window, the level it raises and the distance of the two means. */
  datatype Split = Split(k: nat, level: Level, diff: real)

  /** What the source assumes of `hoeffding_bound`: positive, and not increasing in the significance level. */
  ghost predicate IsBound(bound: Bound) {
    && (forall n0: nat, n1: nat, n: nat, delta: real ::
          n0 > 0 && n1 > 0 && 0.0 < delta < 1.0 ==> bound(n0, n1, n, delta) > 0.0)
    && (forall n0: nat, n1: nat, n: nat, low: real, high: real ::
          n0 > 0 && n1 > 0 && 0.0 < low <= high < 1.0 ==> bound(n0, n1, n, high) <= bound(n0, n1, n, low))
  }

  function ConfigResult(c: Config): Result<()> {
    if c.delta <= 0.0 || c.delta >= 1.0 then Err(InvalidSignificanceLevel(c.delta))
    else if c.warningDelta <= 0.0 || c.warningDelta >= 1.0 then Err(InvalidSignificanceLevel(c.warningDelta))
    else if c.warningDelta < c.delta then Err(InvalidParameter(c.warningDelta))
    else if c.maxWindow == 0 then Err(InvalidCapacity(c.maxWindow))
    else if c.minSamples == 0 then Err(InvalidParameter(0.0))
    else Ok(())
  }

  // ---- naive definitions on the window ----

  /** The sum from the oldest value on. */
  function Sum(s: seq<real>): real {
    if s == [] then 0.0 else Sum(s[..|s| - 1]) + s[|s| - 1]
  }

  function Average(sum: real, count: nat): real
    requires count > 0
  {
    sum / count as real
  }

  function Mean(s: seq<real>): real
    requires s != []
  {
    Average(Sum(s), |s|)
  }

  function Distance(x: real, y: real): real {
    Abs(x - y)
  }

  /** The distance between the means of the `k` oldest values and of the rest. */
  function Gap(w: seq<real>, k: nat): real
    requires 0 < k < |w|
  {
    Distance(Mean(w[..k]), Mean(w[k..]))
  }

  predicate Beats(bound: Bound, w: seq<real>, delta: real, k: nat)
    requires 0 < k < |w|
  {
    Gap(w, k) > bound(k, |w| - k, |w|, delta)
  }

  /** The smallest split from `k` on that beats the bound, if there is one. */
  function FirstFrom(bound: Bound, w: seq<real>, delta: real, k: nat): Option<nat>
    requires 0 < k
    decreases |w| - k
  {
    if k >= |w| then None
    else if Beats(bound, w, delta, k) then Some(k)
    else FirstFrom(bound, w, delta, k + 1)
  }

  function First(bound: Bound, w: seq<real>, delta: real): Option<nat> {
    FirstFrom(bound, w, delta, 1)
  }

  lemma {:induction false} FirstFromMeaning(bound: Bound, w: seq<real>, delta: real, k: nat)
    requires 0 < k
    ensures var r := FirstFrom(bound, w, delta, k);
            && (r.Some? ==> k <= r.value < |w| && Beats(bound, w, delta, r.value)
                            && forall j :: k <= j < r.value ==> !Beats(bound, w, delta, j))
            && (r.None? ==> forall j :: k <= j < |w| ==> !Beats(bound, w, delta, j))
    decreases |w| - k
  {
    if k >= |w| || Beats(bound, w, delta, k) {
    } else {
      FirstFromMeaning(bound, w, delta, k + 1);
    }
  }

  /** Two separate searches: drift first, and a warning only when nothing beats the drift bound. */
  function Verdict(bound: Bound, c: Config, w: seq<real>): Option<Split> {
    FirstFromMeaning(bound, w, c.delta, 1);
    FirstFromMeaning(bound, w, c.warningDelta, 1);
    match First(bound, w, c.delta)
    case Some(k) => Some(Split(k, Drift, Gap(w, k)))
    case None =>
      match First(bound, w, c.warningDelta)
      case Some(k) => Some(Split(k, Warning, Gap(w, k)))
      case None => None
  }

  // ---- the detector ----

  function New(c: Config): Result<Detector> {
    match ConfigResult(c)
    case Err(e) => Err(e)
    case Ok(_) => Ok(Detector(c, [], 0.0, 0, NoDrift))
  }

  function Reset(d: Detector): Detector {
    d.(window := [], total := 0.0, samples := 0, level := NoDrift)
  }

  /** The window with `value` appended, and its oldest value evicted when it was full. */
  function Slide(w: seq<real>, value: real, maxWindow: nat): seq<real> {
    if |w| == maxWindow && w != [] then w[1..] + [value] else w + [value]
  }

  /** The incremental total after `Slide`. */
  function SlideTotal(d: Detector, value: real): real {
    if |d.window| == d.config.maxWindow && d.window != [] then d.total + value - d.window[0] else d.total + value
  }

  /** Whether detection is attempted on the grown window. */
  predicate Gate(c: Config, samples: nat, w: seq<real>) {
    samples >= c.minSamples && |w| >= 2
  }

  /** Applies a verdict to the grown detector: drift drops the old part, a warning keeps the window. */
  function Conclude(d: Detector, verdict: Option<Split>): Detector
    requires verdict.Some? ==> verdict.value.k <= |d.window|
  {
    match verdict
    case None => d.(level := NoDrift)
    case Some(s) =>
      if s.level == Drift then
        d.(window := d.window[s.k..], total := d.total - Sum(d.window[..s.k]), level := Drift)
      else d.(level := s.level)
  }

  function Grown(d: Detector, value: real): Detector {
    d.(window := Slide(d.window, value, d.config.maxWindow), total := SlideTotal(d, value), samples := d.samples + 1)
  }

  function Update(bound: Bound, d: Detector, value: real): Result<Detector> {
    match CheckedIncrement(d.samples)
    case Err(e) => Err(e)
    case Ok(_) =>
      var g := Grown(d, value);
      if Gate(g.config, g.samples, g.window) then
        FirstFromMeaning(bound, g.window, g.config.delta, 1);
        FirstFromMeaning(bound, g.window, g.config.warningDelta, 1);
        Ok(Conclude(g, Verdict(bound, g.config, g.window)))
      else Ok(g.(level := NoDrift))
  }

  /** Everything the detector keeps but the exactness of its running total. */
  predicate Shaped(d: Detector) {
    && ConfigResult(d.config).Ok?
    && |d.window| <= d.config.maxWindow
    && |d.window| <= d.samples <= U64_MAX
    && (d.samples < d.config.minSamples ==> d.level == NoDrift)
  }

  /** The running total minus the sum it stands for. */
  function Offset(d: Detector): real {
    d.total - Sum(d.window)
  }

  predicate Valid(d: Detector) {
    Shaped(d) && Offset(d) == 0.0
  }

  // ---- sums ----

  lemma {:induction false} SumConcat(a: seq<real>, b: seq<real>)
    ensures Sum(a + b) == Sum(a) + Sum(b)
  {
    if b == [] {
      assert a + b == a;
    } else {
      var n := |b| - 1;
      SumConcat(a, b[..n]);
      assert (a + b)[..|a + b| - 1] == a + b[..n];
    }
  }

  lemma SumFront(w: seq<real>)
    requires w != []
    ensures Sum(w) == w[0] + Sum(w[1..])
  {
    SumConcat([w[0]], w[1..]);
    assert [w[0]] + w[1..] == w && [w[0]][..0] == [];
  }

  /** Prefix sums and slice means agree: what the scan computes from one pass of sums is the naive gap. */
  lemma PrefixGap(w: seq<real>, k: nat)
    requires 0 < k < |w|
    ensures Gap(w, k) == Distance(Average(Sum(w[..k]), k), Average(Sum(w) - Sum(w[..k]), |w| - k))
  {
    SumConcat(w[..k], w[k..]);
    assert w[..k] + w[k..] == w;
    assert Sum(w[k..]) == Sum(w) - Sum(w[..k]);
  }

  lemma SlideSum(w: seq<real>, value: real, maxWindow: nat)
    ensures Sum(Slide(w, value, maxWindow))
         == if |w| == maxWindow && w != [] then Sum(w) + value - w[0] else Sum(w) + value
  {
    if |w| == maxWindow && w != [] {
      SumFront(w);
      assert (w[1..] + [value])[..|w| - 1] == w[1..];
    } else {
      assert (w + [value])[..|w|] == w;
    }
  }

  // ---- one update ----

  /** An update drops some part of the grown window from its old end, and the same part's sum from the total. */
  lemma UpdateDrops(bound: Bound, d: Detector, value: real) returns (k: nat)
    requires Update(bound, d, value).Ok?
    ensures var after := Update(bound, d, value).value;
            var w := Slide(d.window, value, d.config.maxWindow);
            && k <= |w| && after.window == w[k..] && after.total == SlideTotal(d, value) - Sum(w[..k])
            && after.samples == d.samples + 1 && after.config == d.config
  {
    var g := Grown(d, value);
    FirstFromMeaning(bound, g.window, g.config.delta, 1);
    FirstFromMeaning(bound, g.window, g.config.warningDelta, 1);
    k := if Update(bound, d, value).value.level == Drift then First(bound, g.window, g.config.delta).value else 0;
    assert g.window[0..] == g.window && g.window[..0] == [];
  }

  /** The distance of the incremental total from the sum it stands for never changes in an update. */
  lemma OffsetKept(bound: Bound, d: Detector, value: real)
    requires Update(bound, d, value).Ok?
    ensures Offset(Update(bound, d, value).value) == Offset(d)
  {
    var k := UpdateDrops(bound, d, value);
    SlideSum(d.window, value, d.config.maxWindow);
    var w := Slide(d.window, value, d.config.maxWindow);
    SumConcat(w[..k], w[k..]);
    assert w[..k] + w[k..] == w;
  }

  /** Every valid detector stays valid, and an update fails only when the sample counter is full. */
  lemma UpdateKeeps(bound: Bound, d: Detector, value: real)
    requires Shaped(d)
    ensures Update(bound, d, value).Ok? <==> d.samples < U64_MAX
    ensures Update(bound, d, value).Ok? ==> Shaped(Update(bound, d, value).value)
    ensures Valid(d) && Update(bound, d, value).Ok? ==> Valid(Update(bound, d, value).value)
  {
    if Update(bound, d, value).Ok? {
      OffsetKept(bound, d, value);
      var k := UpdateDrops(bound, d, value);
    }
  }

  /**
   What one update reports and drops: Drift exactly when the gate is open and some split of the grown
   window beats the drift bound, and then the part before the smallest such split is gone; Warning
   exactly when none does but some split beats the warning bound, with the window untrimmed.
   */
  lemma UpdateMeaning(bound: Bound, d: Detector, value: real)
    requires Update(bound, d, value).Ok?
    ensures var after := Update(bound, d, value).value;
            var w := Slide(d.window, value, d.config.maxWindow);
            var gate := Gate(d.config, d.samples + 1, w);
            && (after.level == Drift <==> gate && exists k :: 0 < k < |w| && Beats(bound, w, d.config.delta, k))
            && (after.level == Drift ==> exists k :: (
                  && 0 < k < |w| && Beats(bound, w, d.config.delta, k)
                  && (forall j :: 0 < j < k ==> !Beats(bound, w, d.config.delta, j)) && after.window == w[k..]))
            && (after.level == Warning <==>
                  && gate && (forall k :: 0 < k < |w| ==> !Beats(bound, w, d.config.delta, k))
                  && exists k :: 0 < k < |w| && Beats(bound, w, d.config.warningDelta, k))
            && (after.level != Drift ==> after.window == w)
            && after.samples == d.samples + 1 && after.config == d.config
  {
    var g := Grown(d, value);
    FirstFromMeaning(bound, g.window, g.config.delta, 1);
    FirstFromMeaning(bound, g.window, g.config.warningDelta, 1);
  }

  lemma AverageMeaning(sum: real, count: nat, mean: real)
    requires count > 0 && mean * count as real == sum
    ensures Average(sum, count) == mean
  {
    var n := count as real;
    assert mean * n / n == mean;
  }

  /**
   A split beats the bound exactly when the means of the older and of the newer part lie further apart than the
   bound for the two part sizes, the window size and the significance level.
   */
  lemma BeatsMeaning(bound: Bound, w: seq<real>, delta: real, k: nat, older: real, newer: real)
    requires 0 < k < |w| && older * k as real == Sum(w[..k]) && newer * (|w| - k) as real == Sum(w[k..])
    ensures Beats(bound, w, delta, k) <==>
      older - newer > bound(k, |w| - k, |w|, delta) || newer - older > bound(k, |w| - k, |w|, delta)
  {
    AverageMeaning(Sum(w[..k]), k, older);
    AverageMeaning(Sum(w[k..]), |w| - k, newer);
  }

  /** Some split of the window beats the bound. */
  ghost predicate SomeBeats(bound: Bound, w: seq<real>, delta: real) {
    exists k :: 0 < k < |w| && Beats(bound, w, delta, k)
  }

  /**
   The update from the first `minSamples` observations on: a full window first loses its oldest value; with at least
   two values, Drift exactly when some split beats the bound for `delta`, Warning exactly when none does but some
   beats the bound for `warningDelta`; before that, no level and no trimming.
   */
  lemma UpdateOpens(bound: Bound, d: Detector, value: real)
    requires Update(bound, d, value).Ok? && Shaped(d)
    ensures var after := Update(bound, d, value).value;
            var w := if |d.window| == d.config.maxWindow then d.window[1..] + [value] else d.window + [value];
            var open := d.samples + 1 >= d.config.minSamples && |w| >= 2;
            && (after.level == Drift <==> open && SomeBeats(bound, w, d.config.delta))
            && (after.level == Warning <==>
                  open && !SomeBeats(bound, w, d.config.delta) && SomeBeats(bound, w, d.config.warningDelta))
            && (after.level != Drift ==> after.window == w)
  {
    UpdateMeaning(bound, d, value);
  }

  /** With a bound that does not increase in delta, silence means no split beats either bound. */
  lemma SilenceMeans(bound: Bound, d: Detector, value: real)
    requires IsBound(bound) && Shaped(d) && Update(bound, d, value).Ok?
    ensures var w := Slide(d.window, value, d.config.maxWindow);
            Update(bound, d, value).value.level == NoDrift <==>
              (Gate(d.config, d.samples + 1, w) ==>
                 forall k :: 0 < k < |w| ==> !Beats(bound, w, d.config.warningDelta, k))
    ensures d.config.warningDelta == d.config.delta ==> Update(bound, d, value).value.level != Warning
  {
    UpdateMeaning(bound, d, value);
    var w := Slide(d.window, value, d.config.maxWindow);
    forall k | 0 < k < |w| && Beats(bound, w, d.config.delta, k)
      ensures Beats(bound, w, d.config.warningDelta, k)
    {
      assert bound(k, |w| - k, |w|, d.config.warningDelta) <= bound(k, |w| - k, |w|, d.config.delta);
    }
  }
}
