/** The portable state of the detector: export, validation, restore, and what a restored detector does later. */
module AdwinPortable {
  import opened Errors
  import opened Reals
  import opened DriftLevels
  import opened Adwin
  import opened AdwinRuns

  const PORTABLE_VERSION: nat := 1

  datatype Portable = Portable(
    version: nat, delta: real, warningDelta: real, maxWindow: nat, minSamples: nat,
    window: seq<real>, total: real, samples: nat, level: Level)

  function Export(d: Detector): Portable {
    Portable(PORTABLE_VERSION, d.config.delta, d.config.warningDelta, d.config.maxWindow, d.config.minSamples,
             d.window, d.total, d.samples, d.level)
  }

  function ConfigOf(p: Portable): Config {
    Config(p.delta, p.warningDelta, p.maxWindow, p.minSamples)
  }

  /** How far the stored total may be from the recomputed sum. */
  function Tolerance(recomputed: real, total: real): real {
    0.0000000001 * Max(Max(Abs(recomputed), Abs(total)), 1.0)
  }

  function Validate(p: Portable): Result<()> {
    if p.version != PORTABLE_VERSION then Err(IncompatibleStateVersion(PORTABLE_VERSION, p.version))
    else
      match New(ConfigOf(p))
      case Err(e) => Err(e)
      case Ok(_) =>
        if |p.window| > p.maxWindow then Err(InvalidState(PortableWindowTooLong))
        else if p.samples < |p.window| then Err(InvalidState(PortableSamplesTooFew))
        else if Distance(Sum(p.window), p.total) > Tolerance(Sum(p.window), p.total) then
          Err(InvalidState(PortableTotalMismatch))
        else if p.samples < p.minSamples && p.level != NoDrift then Err(InvalidState(PortableLevelTooEarly))
        else Ok(())
  }

  function Restore(c: Config, p: Portable): Result<Detector> {
    match Validate(p)
    case Err(e) => Err(e)
    case Ok(_) =>
      if c != ConfigOf(p) then Err(InvalidState(PortableConfigMismatch))
      else
        match New(c)
        case Err(e) => Err(e)
        case Ok(_) => Ok(Detector(c, p.window, p.total, p.samples, p.level))
  }

  /** An export is accepted exactly when the detector has its shape and its total is within the tolerance. */
  lemma AcceptedExports(d: Detector)
    requires d.samples <= U64_MAX
    ensures Validate(Export(d)).Ok? <==>
              Shaped(d) && Abs(Offset(d)) <= Tolerance(Sum(d.window), d.total)
  {}

  /**
   Every reachable state exports to one the validator accepts, and restoring it under the same
   configuration, and no other, gives back the same detector, so every further run is the same.
   */
  lemma ReachableRoundTrip(bound: Bound, c: Config, ops: seq<Op>, more: seq<Op>)
    requires ConfigResult(c).Ok?
    ensures var d := Run(bound, New(c).value, ops);
            && Validate(Export(d)).Ok?
            && Restore(c, Export(d)) == Ok(d)
            && Run(bound, Restore(c, Export(d)).value, more) == Run(bound, New(c).value, ops + more)
    ensures forall other :: Restore(other, Export(Run(bound, New(c).value, ops))).Ok? ==> other == c
  {
    var d := Run(bound, New(c).value, ops);
    WindowIsSuffix(bound, c, ops);
    AcceptedExports(d);
    assert ConfigOf(Export(d)) == c;
    RunConcat(bound, New(c).value, ops, more);
  }

  lemma {:induction false} RunConcat(bound: Bound, d: Detector, a: seq<Op>, b: seq<Op>)
    ensures Run(bound, Run(bound, d, a), b) == Run(bound, d, a + b)
  {
    if b == [] {
      assert a + b == a;
    } else {
      RunConcat(bound, d, a, b[..|b| - 1]);
      assert (a + b)[..|a + b| - 1] == a + b[..|b| - 1];
    }
  }

  /** The other way: whatever a restored detector exports is the state it came from. */
  lemma ExportRestore(c: Config, p: Portable)
    requires p.samples <= U64_MAX
    ensures Restore(c, p).Ok? <==> Validate(p).Ok? && c == ConfigOf(p)
    ensures Restore(c, p).Ok? ==> Export(Restore(c, p).value) == p && Shaped(Restore(c, p).value)
  {}

  /**
   A state accepted with an inexact total decides exactly as one with the exact total: same levels,
   windows and counts after every run; only the totals differ, by the offset imported.
   */
  lemma InexactTotalHarmless(bound: Bound, c: Config, p: Portable, ops: seq<Op>)
    requires p.samples <= U64_MAX && Restore(c, p).Ok?
    ensures Restore(c, p.(total := Sum(p.window))).Ok?
    ensures var a := Run(bound, Restore(c, p).value, ops);
            var b := Run(bound, Restore(c, p.(total := Sum(p.window))).value, ops);
            && a.level == b.level && a.window == b.window && a.samples == b.samples
            && a.total - b.total == if Clear in ops then 0.0 else p.total - Sum(p.window)
  {
    var d := Restore(c, p).value;
    var exact := p.(total := Sum(p.window));
    assert ConfigOf(exact) == c;
    assert Restore(c, exact) == Ok(d.(total := Sum(p.window)));
    TotalUnread(bound, d, Sum(p.window), ops);
    RunOffset(bound, d, ops);
    RunOffset(bound, d.(total := Sum(p.window)), ops);
  }

  // ---- acceptance is not inductive for imported totals ----

  /** The detector, and every detector it can become, exports to an accepted state. */
  ghost predicate AlwaysAccepted(bound: Bound, d: Detector) {
    forall ops: seq<Op> :: Validate(Export(Run(bound, d, ops))).Ok?
  }

  /**
   The relative tolerance lets an import through whose later exports are refused: one huge value with a
   total that is off by ten, evicted from a window of one.
   */
  lemma AcceptanceNotInductive(bound: Bound)
    ensures var d := Detector(Config(0.1, 0.1, 1, 1), [1000000000000.0], 1000000000010.0, 1, NoDrift);
            Validate(Export(d)).Ok? && !Validate(Export(Run(bound, d, [Observe(0.0)]))).Ok?
  {}

  function Zeros(n: nat): (ops: seq<Op>)
    ensures |ops| == n && Clear !in ops
  {
    seq(n, _ => Observe(0.0))
  }

  lemma {:induction false} ZeroStream(start: seq<real>, n: nat)
    requires |start| + n <= U64_MAX
    ensures Stream(start, Zeros(n)) == start + seq(n, _ => 0.0)
  {
    if n == 0 {
    } else {
      ZeroStream(start, n - 1);
      assert Zeros(n)[..n - 1] == Zeros(n - 1);
    }
  }

  lemma ShortSuffix(w: seq<real>, start: seq<real>, n: nat)
    requires IsSuffix(w, start + seq(n, _ => 0.0)) && |w| <= n
    ensures Sum(w) == 0.0
  {
    var stream := start + seq(n, _ => 0.0);
    forall i | 0 <= i < |w| ensures w[i] == 0.0 {
      assert w[i] == stream[|stream| - |w| + i];
    }
    ConstantSum(w, 0.0);
  }

  /** A stream that the detector's window could have come from. */
  lemma Backstory(d: Detector) returns (start: seq<real>)
    requires Shaped(d)
    ensures |start| == d.samples && IsSuffix(d.window, start)
  {
    start := seq(d.samples - |d.window|, _ => 0.0) + d.window;
  }

  /** As many zeros as the window can hold flush everything else out of it. */
  lemma ZerosFlush(bound: Bound, d: Detector)
    requires Shaped(d) && d.samples + d.config.maxWindow <= U64_MAX
    ensures var after := Run(bound, d, Zeros(d.config.maxWindow));
            Shaped(after) && Sum(after.window) == 0.0 && after.total == Offset(d)
  {
    var n := d.config.maxWindow;
    var start := Backstory(d);
    RunFrom(bound, d, start, Zeros(n));
    ZeroStream(start, n);
    ShortSuffix(Run(bound, d, Zeros(n)).window, start, n);
    RunOffset(bound, d, Zeros(n));
  }

  /**
   An accepted detector keeps exporting accepted states whatever it is fed, if its total is at most the
   absolute tolerance away from the window's sum; and only then, when there is room to refill the window.
   */
  lemma AlwaysAcceptedIff(bound: Bound, d: Detector)
    requires d.samples <= U64_MAX && Validate(Export(d)).Ok?
    ensures Abs(Offset(d)) <= 0.0000000001 ==> AlwaysAccepted(bound, d)
    ensures d.samples + d.config.maxWindow <= U64_MAX ==>
              (AlwaysAccepted(bound, d) <==> Abs(Offset(d)) <= 0.0000000001)
  {
    AcceptedExports(d);
    if Abs(Offset(d)) <= 0.0000000001 {
      forall ops: seq<Op> ensures Validate(Export(Run(bound, d, ops))).Ok? {
        var start := Backstory(d);
        RunFrom(bound, d, start, ops);
        RunOffset(bound, d, ops);
        AcceptedExports(Run(bound, d, ops));
      }
    } else if d.samples + d.config.maxWindow <= U64_MAX {
      ZerosFlush(bound, d);
      var after := Run(bound, d, Zeros(d.config.maxWindow));
      AcceptedExports(after);
      assert Tolerance(0.0, after.total) < Abs(after.total);
      assert !Validate(Export(after)).Ok?;
    }
  }
}
