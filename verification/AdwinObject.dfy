/** The mutable adaptive-window detector: deque, incremental total and the prefix-sum scan. */
module AdwinObject {
  import opened Errors
  import opened DriftLevels
  import opened Adwin
  import AdwinPortable

  class AdwinDetector {
    const config: Config
    const bound: Bound
    var window: seq<real>
    var total: real
    var samples: nat
    var currentLevel: Level

    function View(): Detector
      reads this
    {
      Detector(config, window, total, samples, currentLevel)
    }

    constructor (d: Detector, bound: Bound)
      ensures View() == d && this.bound == bound
    {
      config, window, total, samples, currentLevel := d.config, d.window, d.total, d.samples, d.level;
      this.bound := bound;
    }

    /** `Adwin::new`. */
    static method New(c: Config, bound: Bound) returns (r: Result<AdwinDetector>)
      ensures r.Ok? ==> fresh(r.value) && r.value.bound == bound && Adwin.New(c) == Ok(r.value.View())
      ensures r.Err? ==> Adwin.New(c) == Err(r.error)
      ensures r.Ok? <==> 0.0 < c.delta <= c.warningDelta < 1.0 && c.maxWindow > 0 && c.minSamples > 0
    {
      match ConfigResult(c)
      case Err(e) => r := Err(e);
      case Ok(_) =>
        var detector := new AdwinDetector(Detector(c, [], 0.0, 0, NoDrift), bound);
        r := Ok(detector);
    }

    /** `check_splits`: one pass that returns at the first drift and remembers the first warning. */
    method CheckSplits() returns (best: Option<Split>)
      ensures best == Verdict(bound, config, window)
    {
      var n := |window|;
      if n < 2 {
        return None;
      }
      var prefix := PrefixSums(window);
      best := None;
      for k := 1 to n
        invariant First(bound, window, config.delta) == FirstFrom(bound, window, config.delta, k)
        invariant best.None? ==>
                    First(bound, window, config.warningDelta) == FirstFrom(bound, window, config.warningDelta, k)
        invariant best.Some? ==>
                    && First(bound, window, config.warningDelta) == Some(best.value.k) && 0 < best.value.k < n
                    && best == Some(Split(best.value.k, Warning, Gap(window, best.value.k)))
      {
        var diff := SplitGap(window, prefix, k);
        if diff > bound(k, n - k, n, config.delta) {
          return Some(Split(k, Drift, diff));
        }
        if diff > bound(k, n - k, n, config.warningDelta) && best.None? {
          best := Some(Split(k, Warning, diff));
        }
      }
    }

    /** `trim_front`: pops up to `count` values from the old end. */
    method TrimFront(count: nat)
      modifies this`window, this`total
      ensures var dropped := if count <= |old(window)| then count else |old(window)|;
              window == old(window)[dropped..] && total == old(total) - Sum(old(window)[..dropped])
    {
      assert window[0..] == window;
      for i := 0 to count
        invariant var dropped := if i <= |old(window)| then i else |old(window)|;
                  window == old(window)[dropped..] && total == old(total) - Sum(old(window)[..dropped])
      {
        if window != [] {
          assert old(window)[..i + 1][..i] == old(window)[..i];
          total := total - window[0];
          window := window[1..];
        }
      }
    }

    /** Takes the value in, evicting the oldest one from a full window. */
    method Grow(value: real) returns (r: Result<()>)
      modifies this`window, this`total, this`samples
      ensures match CheckedIncrement(old(samples))
        case Err(e) => r == Err(e) && View() == old(View())
        case Ok(_) => r == Ok(()) && View() == Grown(old(View()), value)
    {
      var nextSamples := CheckedIncrement(samples);
      if nextSamples.Err? {
        return Err(nextSamples.error);
      }
      var nextTotal := total + value;
      if |window| == config.maxWindow && window != [] {
        nextTotal := nextTotal - window[0];
        window := window[1..];
      }
      samples := nextSamples.value;
      window := window + [value];
      total := nextTotal;
      r := Ok(());
    }

    /** Checks the splits, and trims the window when the verdict is a drift. */
    method Judge()
      modifies this`window, this`total, this`currentLevel
      ensures var verdict := Verdict(bound, config, old(window));
              && (verdict.Some? ==> verdict.value.k <= |old(window)|)
              && View() == Conclude(old(View()), verdict)
    {
      FirstFromMeaning(bound, window, config.delta, 1);
      FirstFromMeaning(bound, window, config.warningDelta, 1);
      var split := CheckSplits();
      if split.Some? {
        if split.value.level == Drift {
          TrimFront(split.value.k);
        }
        currentLevel := split.value.level;
      } else {
        currentLevel := NoDrift;
      }
    }

    /** `update`: an error changes nothing; otherwise the new state and level are those of the transition. */
    method Update(value: real) returns (r: Result<Level>)
      modifies this
      ensures match Adwin.Update(bound, old(View()), value)
        case Err(e) => r == Err(e) && View() == old(View())
        case Ok(after) => r == Ok(after.level) && View() == after
    {
      var grown := Grow(value);
      if grown.Err? {
        return Err(grown.error);
      }
      if samples < config.minSamples || |window| < 2 {
        currentLevel := NoDrift;
        return Ok(NoDrift);
      }
      Judge();
      r := Ok(currentLevel);
    }

    method Clear()
      modifies this
      ensures View() == Reset(old(View()))
      ensures ConfigResult(config).Ok? ==> Adwin.New(config) == Ok(View())
    {
      window, total, samples, currentLevel := [], 0.0, 0, NoDrift;
    }

    /** `window_mean`: with an exact total, the naive mean. */
    method WindowMean() returns (mean: real)
      ensures window == [] ==> mean == 0.0
      ensures window != [] && Adwin.Valid(View()) ==> mean == Mean(window)
    {
      if window == [] {
        return 0.0;
      }
      mean := Average(total, |window|);
    }

    /** `restore_state_v1`. */
    static method Restore(c: Config, p: AdwinPortable.Portable, bound: Bound) returns (r: Result<AdwinDetector>)
      ensures r.Ok? ==> fresh(r.value) && r.value.bound == bound && AdwinPortable.Restore(c, p) == Ok(r.value.View())
      ensures r.Err? ==> AdwinPortable.Restore(c, p) == Err(r.error)
    {
      var valid := ValidatePortable(p);
      if valid.Err? {
        return Err(valid.error);
      }
      if c != AdwinPortable.ConfigOf(p) {
        return Err(InvalidState(PortableConfigMismatch));
      }
      var detector := new AdwinDetector(Detector(c, p.window, p.total, p.samples, p.level), bound);
      r := Ok(detector);
    }
  }

  /** The distance of the two means of split `k`, from the prefix sums alone. */
  method SplitGap(ghost w: seq<real>, prefix: seq<real>, k: nat) returns (diff: real)
    requires 0 < k < |w| && |prefix| == |w| + 1
    requires forall j :: 0 <= j <= |w| ==> prefix[j] == Sum(w[..j])
    ensures diff == Gap(w, k)
  {
    var n := |prefix| - 1;
    assert w[..n] == w;
    PrefixGap(w, k);
    diff := Distance(Average(prefix[k], k), Average(prefix[n] - prefix[k], n - k));
  }

  /** The prefix sums of the window, `prefix[k]` being the sum of its `k` oldest values. */
  method PrefixSums(w: seq<real>) returns (prefix: seq<real>)
    ensures |prefix| == |w| + 1
    ensures forall k :: 0 <= k <= |w| ==> prefix[k] == Sum(w[..k])
  {
    prefix := [0.0];
    var acc := 0.0;
    for i := 0 to |w|
      invariant |prefix| == i + 1 && acc == Sum(w[..i])
      invariant forall k :: 0 <= k <= i ==> prefix[k] == Sum(w[..k])
    {
      assert w[..i + 1][..i] == w[..i];
      acc := acc + w[i];
      prefix := prefix + [acc];
    }
  }

  /** `AdwinPortableStateV1::validate_state` with its recomputation loop. */
  method ValidatePortable(p: AdwinPortable.Portable) returns (r: Result<()>)
    ensures r == AdwinPortable.Validate(p)
  {
    if p.version != AdwinPortable.PORTABLE_VERSION {
      return Err(IncompatibleStateVersion(AdwinPortable.PORTABLE_VERSION, p.version));
    }
    match Adwin.New(AdwinPortable.ConfigOf(p))
    case Err(e) => return Err(e);
    case Ok(_) =>
    if |p.window| > p.maxWindow {
      return Err(InvalidState(PortableWindowTooLong));
    }
    if p.samples < |p.window| {
      return Err(InvalidState(PortableSamplesTooFew));
    }
    var recomputed := 0.0;
    for i := 0 to |p.window|
      invariant recomputed == Sum(p.window[..i])
    {
      assert p.window[..i + 1][..i] == p.window[..i];
      recomputed := recomputed + p.window[i];
    }
    assert p.window[..|p.window|] == p.window;
    if Distance(recomputed, p.total) > AdwinPortable.Tolerance(recomputed, p.total) {
      return Err(InvalidState(PortableTotalMismatch));
    }
    if p.samples < p.minSamples && p.level != NoDrift {
      return Err(InvalidState(PortableLevelTooEarly));
    }
    r := Ok(());
  }
}
