/** Whole runs of the adaptive-window detector: the window as a suffix of the stream, and stationary streams. */
module AdwinRuns {
  import opened Errors
  import opened DriftLevels
  import opened Adwin

  datatype Op = Observe(value: real) | Clear

  /** One call; a failing update leaves the detector as it was. */
  function Apply(bound: Bound, d: Detector, op: Op): Detector {
    match op
    case Clear => Reset(d)
    case Observe(value) =>
      match Update(bound, d, value)
      case Err(_) => d
      case Ok(after) => after
  }

  function Run(bound: Bound, d: Detector, ops: seq<Op>): Detector {
    if ops == [] then d else Apply(bound, Run(bound, d, ops[..|ops| - 1]), ops[|ops| - 1])
  }

  /** The observations accepted since the last reset, after those in `start`. */
  function Stream(start: seq<real>, ops: seq<Op>): seq<real> {
    if ops == [] then start
    else
      var before := Stream(start, ops[..|ops| - 1]);
      match ops[|ops| - 1]
      case Clear => []
      case Observe(value) => if |before| >= U64_MAX then before else before + [value]
  }

  ghost predicate IsSuffix(w: seq<real>, stream: seq<real>) {
    |w| <= |stream| && w == stream[|stream| - |w|..]
  }

  lemma SlideSuffix(w: seq<real>, stream: seq<real>, value: real, maxWindow: nat)
    requires IsSuffix(w, stream)
    ensures IsSuffix(Slide(w, value, maxWindow), stream + [value])
  {
    var next := stream + [value];
    if |w| == maxWindow && w != [] {
      assert w[1..] == stream[|stream| - |w| + 1..];
      assert w[1..] + [value] == next[|next| - |w|..];
    } else {
      assert w + [value] == next[|next| - |w| - 1..];
    }
  }

  lemma UpdateSuffix(bound: Bound, d: Detector, stream: seq<real>, value: real)
    requires Shaped(d) && IsSuffix(d.window, stream) && Update(bound, d, value).Ok?
    ensures IsSuffix(Update(bound, d, value).value.window, stream + [value])
  {
    var k := UpdateDrops(bound, d, value);
    SlideSuffix(d.window, stream, value, d.config.maxWindow);
    SuffixOfSuffix(Slide(d.window, value, d.config.maxWindow), k, stream + [value]);
  }

  lemma SuffixOfSuffix(w: seq<real>, k: nat, stream: seq<real>)
    requires IsSuffix(w, stream) && k <= |w|
    ensures IsSuffix(w[k..], stream)
  {
    assert w[k..] == stream[|stream| - |w| + k..];
  }

  lemma {:induction false} RunFrom(bound: Bound, d: Detector, start: seq<real>, ops: seq<Op>)
    requires Shaped(d) && d.samples == |start| && IsSuffix(d.window, start)
    ensures var after := Run(bound, d, ops);
            var stream := Stream(start, ops);
            && Shaped(after) && after.config == d.config
            && after.samples == |stream| && IsSuffix(after.window, stream)
    ensures Valid(d) ==> Valid(Run(bound, d, ops))
  {
    if ops == [] {
    } else {
      var n := |ops| - 1;
      RunFrom(bound, d, start, ops[..n]);
      var before := Run(bound, d, ops[..n]);
      match ops[n]
      case Clear =>
      case Observe(value) =>
        UpdateKeeps(bound, before, value);
        if before.samples < U64_MAX {
          UpdateSuffix(bound, before, Stream(start, ops[..n]), value);
        }
    }
  }

  /**
   After any run the window is a contiguous suffix of the observations accepted since the last reset, no
   longer than `max_window`, and the total is its sum.
   */
  lemma WindowIsSuffix(bound: Bound, c: Config, ops: seq<Op>)
    requires ConfigResult(c).Ok?
    ensures var d := Run(bound, New(c).value, ops);
            var stream := Stream([], ops);
            && Valid(d) && d.config == c
            && |d.window| <= c.maxWindow
            && |d.window| <= |stream| && d.window == stream[|stream| - |d.window|..]
            && d.total == Sum(d.window) && d.samples == |stream|
  {
    RunFrom(bound, New(c).value, [], ops);
  }

  // ---- stationary streams ----

  predicate AllAre(w: seq<real>, x: real) {
    forall i :: 0 <= i < |w| ==> w[i] == x
  }

  lemma {:induction false} ConstantSum(w: seq<real>, x: real)
    requires AllAre(w, x)
    ensures Sum(w) == x * |w| as real
  {
    if w == [] {
    } else {
      ConstantSum(w[..|w| - 1], x);
    }
  }

  lemma ConstantMean(w: seq<real>, x: real)
    requires AllAre(w, x) && w != []
    ensures Mean(w) == x
  {
    ConstantSum(w, x);
    Cancel(x, |w| as real);
  }

  lemma Cancel(x: real, n: real)
    requires n > 0.0
    ensures x * n / n == x
  {}

  lemma ConstantUpdate(bound: Bound, d: Detector, x: real)
    requires IsBound(bound) && Shaped(d) && AllAre(d.window, x) && Update(bound, d, x).Ok?
    ensures var after := Update(bound, d, x).value;
            after.level == NoDrift && after.window == Slide(d.window, x, d.config.maxWindow) && AllAre(after.window, x)
  {
    UpdateMeaning(bound, d, x);
    var w := Slide(d.window, x, d.config.maxWindow);
    forall k, delta | 0 < k < |w| && 0.0 < delta < 1.0 ensures !Beats(bound, w, delta, k) {
      ConstantMean(w[..k], x);
      ConstantMean(w[k..], x);
      assert bound(k, |w| - k, |w|, delta) > 0.0;
    }
  }

  /** A stream that repeats one value never raises a level, and the window keeps all that fits. */
  lemma {:induction false} ConstantStreamQuiet(bound: Bound, c: Config, x: real, ops: seq<Op>)
    requires IsBound(bound) && ConfigResult(c).Ok?
    requires forall i :: 0 <= i < |ops| ==> ops[i] == Observe(x) || ops[i] == Clear
    ensures var d := Run(bound, New(c).value, ops);
            && d.level == NoDrift && AllAre(d.window, x)
            && |d.window| == if d.samples <= c.maxWindow then d.samples else c.maxWindow
  {
    if ops == [] {
    } else {
      var n := |ops| - 1;
      ConstantStreamQuiet(bound, c, x, ops[..n]);
      WindowIsSuffix(bound, c, ops[..n]);
      var before := Run(bound, New(c).value, ops[..n]);
      if ops[n].Observe? && before.samples < U64_MAX {
        ConstantUpdate(bound, before, x);
        UpdateMeaning(bound, before, x);
      }
    }
  }

  // ---- the running total ----

  /** Decisions never read the running total: detectors that differ only in it stay so, step for step. */
  lemma {:induction false} TotalUnread(bound: Bound, d: Detector, total: real, ops: seq<Op>)
    ensures var a := Run(bound, d, ops);
            var b := Run(bound, d.(total := total), ops);
            a.(total := b.total) == b
  {
    if ops == [] {
    } else {
      TotalUnread(bound, d, total, ops[..|ops| - 1]);
    }
  }

  /** Without a reset the offset of the total stays what it was; a reset clears it. */
  lemma {:induction false} RunOffset(bound: Bound, d: Detector, ops: seq<Op>)
    ensures Offset(Run(bound, d, ops)) == if Clear in ops then 0.0 else Offset(d)
  {
    if ops == [] {
    } else {
      var n := |ops| - 1;
      RunOffset(bound, d, ops[..n]);
      assert ops == ops[..n] + [ops[n]];
      var before := Run(bound, d, ops[..n]);
      match ops[n]
      case Clear =>
      case Observe(value) =>
        if Update(bound, before, value).Ok? { OffsetKept(bound, before, value); }
    }
  }
}
