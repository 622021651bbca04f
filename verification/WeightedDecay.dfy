/**
 The exponentially decayed weighted mean. The power function of the platform is the parameter `pow`;
 `IsPower` says what it must do on the bases 1 - alpha that occur.
 */
module WeightedDecay {
  import opened Errors
  import opened Weighted

  datatype DecayState = DecayState(alpha: real, totalWeight: real, mean: real, samplesSeen: nat)

  /** Exponent one is the base, a sum of exponents multiplies, and the value stays in [0, 1]. */
  predicate PowerAt(pow: (real, real) -> real, base: real, u: real, v: real) {
    pow(base, 1.0) == base && pow(base, u + v) == pow(base, u) * pow(base, v) && 0.0 <= pow(base, u) <= 1.0
  }

  /** The laws hold at every base in [0, 1) and all positive exponents. */
  ghost predicate IsPower(pow: (real, real) -> real) {
    forall base: real, u: real, v: real ::
      0.0 <= base < 1.0 && u > 0.0 && v > 0.0 ==> PowerAt(pow, base, u, v)
  }

  function New(alpha: real): Result<DecayState> {
    if 0.0 < alpha <= 1.0 then Ok(DecayState(alpha, 0.0, 0.0, 0)) else Err(InvalidParameter(alpha))
  }

  function DecayedMean(s: DecayState, value: real, decay: real): real {
    if s.totalWeight == 0.0 then value else s.mean + (1.0 - decay) * (value - s.mean)
  }

  function Update(pow: (real, real) -> real, s: DecayState, value: real, weight: real): Result<DecayState> {
    match ValidateWeight(weight)
    case Err(e) => Err(e)
    case Ok(_) =>
      if weight == 0.0 then Ok(s)
      else
        match CheckedIncrement(s.samplesSeen)
        case Err(e) => Err(e)
        case Ok(n) =>
          Ok(DecayState(s.alpha, s.totalWeight + weight, DecayedMean(s, value, pow(1.0 - s.alpha, weight)), n))
  }

  /** What `validate_state` accepts. */
  predicate Valid(s: DecayState) {
    && 0.0 < s.alpha <= 1.0 && s.totalWeight >= 0.0
    && (s.samplesSeen == 0 <==> s.totalWeight == 0.0) && s.samplesSeen <= U64_MAX
  }

  function Value(s: DecayState): Option<real> {
    if s.totalWeight > 0.0 then Some(s.mean) else None
  }

  function Run(pow: (real, real) -> real, s: DecayState, xs: seq<Sample>): DecayState {
    if xs == [] then s
    else
      var before := Run(pow, s, xs[..|xs| - 1]);
      match Update(pow, before, xs[|xs| - 1].value, xs[|xs| - 1].weight)
      case Ok(after) => after
      case Err(_) => before
  }

  lemma {:induction false} RunValid(pow: (real, real) -> real, s: DecayState, xs: seq<Sample>)
    requires Valid(s)
    ensures Valid(Run(pow, s, xs)) && Run(pow, s, xs).alpha == s.alpha
    ensures Run(pow, s, xs).samplesSeen == s.samplesSeen + |Accepted(s.samplesSeen, xs)|
  {
    if xs == [] {
    } else {
      RunValid(pow, s, xs[..|xs| - 1]);
    }
  }

  /**
   One update exactly: a negative weight is refused, a zero weight changes nothing, and otherwise, while the counter has
   room, the distance to the new value shrinks to the weight's power of 1 - alpha; the first value is taken over.
   */
  lemma UpdateExact(pow: (real, real) -> real, s: DecayState, value: real, weight: real)
    requires Valid(s)
    ensures var r := Update(pow, s, value, weight);
            && (weight < 0.0 ==> r == Err(InvalidParameter(weight)))
            && (weight == 0.0 ==> r == Ok(s))
            && (weight > 0.0 ==> (r.Ok? <==> s.samplesSeen < U64_MAX))
            && (weight > 0.0 && r.Ok? ==>
                  && r.value.alpha == s.alpha && r.value.totalWeight == s.totalWeight + weight
                  && r.value.samplesSeen == s.samplesSeen + 1
                  && r.value.mean - value == if s.samplesSeen == 0 then 0.0 else pow(1.0 - s.alpha, weight) * (s.mean - value))
  {
    var p := pow(1.0 - s.alpha, weight);
    assert s.mean + (1.0 - p) * (value - s.mean) - value == p * (s.mean - value);
  }

  /** A new mean accepts exactly alpha in (0, 1]; it has no value before the first accepted sample, and then that one. */
  lemma RunFromNew(pow: (real, real) -> real, alpha: real, xs: seq<Sample>)
    ensures New(alpha).Ok? <==> 0.0 < alpha <= 1.0
    ensures New(alpha).Ok? ==>
      var accepted, value := Accepted(0, xs), Value(Run(pow, New(alpha).value, xs));
      && (value.None? <==> accepted == [])
      && (|accepted| == 1 ==> value == Some(accepted[0].value))
  {
    if New(alpha).Ok? {
      RunValid(pow, New(alpha).value, xs);
      if |Accepted(0, xs)| == 1 { FirstValue(pow, New(alpha).value, xs); }
    }
  }

  lemma {:induction false} FirstValue(pow: (real, real) -> real, s: DecayState, xs: seq<Sample>)
    requires Valid(s) && s.samplesSeen == 0 && |Accepted(0, xs)| == 1
    ensures Run(pow, s, xs).mean == Accepted(0, xs)[0].value
  {
    var n := |xs| - 1;
    RunValid(pow, s, xs[..n]);
    UpdateExact(pow, Run(pow, s, xs[..n]), xs[n].value, xs[n].weight);
    if |Accepted(0, xs[..n])| == 1 {
      FirstValue(pow, s, xs[..n]);
    }
  }

  /** Two updates with one value decay as one update with the summed weight. */
  lemma WeightsAdd(pow: (real, real) -> real, s: DecayState, value: real, u: real, v: real)
    requires IsPower(pow) && Valid(s) && u > 0.0 && v > 0.0 && s.samplesSeen + 2 <= U64_MAX
    ensures var first := Update(pow, s, value, u);
            && first.Ok? && Update(pow, first.value, value, v).Ok? && Update(pow, s, value, u + v).Ok?
            && var twice := Update(pow, first.value, value, v).value;
               var once := Update(pow, s, value, u + v).value;
               once == twice.(samplesSeen := s.samplesSeen + 1) && twice.samplesSeen == s.samplesSeen + 2
  {
    if s.totalWeight > 0.0 {
      assert PowerAt(pow, 1.0 - s.alpha, u, v);
      Compose(s.mean, value, pow(1.0 - s.alpha, u), pow(1.0 - s.alpha, v));
    }
  }

  lemma Compose(mean: real, value: real, p: real, q: real)
    ensures var next := mean + (1.0 - p) * (value - mean);
            next + (1.0 - q) * (value - next) == mean + (1.0 - p * q) * (value - mean)
  {}

  /** One update of integer weight n gives the mean of n unit updates, whatever the platform's fractional powers. */
  lemma {:induction false} WeightIsRepetition(pow: (real, real) -> real, s: DecayState, value: real, n: nat)
    requires IsPower(pow) && Valid(s) && n > 0 && s.samplesSeen + n <= U64_MAX
    ensures var repeated := Run(pow, s, Units(value, n));
            && Update(pow, s, value, n as real).Ok?
            && Update(pow, s, value, n as real).value == repeated.(samplesSeen := s.samplesSeen + 1)
            && repeated.samplesSeen == s.samplesSeen + n
  {
    assert Units(value, n)[..n - 1] == Units(value, n - 1);
    if n == 1 {
      assert Run(pow, s, Units(value, 0)) == s;
    } else {
      WeightIsRepetition(pow, s, value, n - 1);
      WeightsAdd(pow, s, value, (n - 1) as real, 1.0);
    }
  }

  // ---- the closed form ----

  function Power(base: real, n: nat): real {
    if n == 0 then 1.0 else Power(base, n - 1) * base
  }

  lemma {:induction false} PowerOfNat(pow: (real, real) -> real, base: real, n: nat)
    requires IsPower(pow) && 0.0 <= base < 1.0 && n > 0
    ensures pow(base, n as real) == Power(base, n)
  {
    if n > 1 {
      PowerOfNat(pow, base, n - 1);
      assert PowerAt(pow, base, (n - 1) as real, 1.0);
    } else {
      assert PowerAt(pow, base, 1.0, 1.0);
      assert Power(base, 1) == Power(base, 0) * base;
    }
  }

  /** An update of integer weight n on a started mean smooths by 1 - (1 - alpha)^n. */
  lemma EffectiveSmoothing(pow: (real, real) -> real, s: DecayState, value: real, n: nat)
    requires IsPower(pow) && Valid(s) && n > 0 && s.totalWeight > 0.0 && s.samplesSeen < U64_MAX
    ensures Update(pow, s, value, n as real).Ok?
    ensures var after := Update(pow, s, value, n as real).value;
            after.mean - value == Power(1.0 - s.alpha, n) * (s.mean - value)
  {
    PowerOfNat(pow, 1.0 - s.alpha, n);
    var p := Power(1.0 - s.alpha, n);
    assert s.mean + (1.0 - p) * (value - s.mean) - value == p * (s.mean - value);
  }

  lemma Between(lo: real, hi: real, mean: real, value: real, p: real)
    requires lo <= mean <= hi && lo <= value <= hi && 0.0 <= p <= 1.0
    ensures lo <= mean + (1.0 - p) * (value - mean) <= hi
  {
    assert mean + (1.0 - p) * (value - mean) == p * mean + (1.0 - p) * value;
    SameSign(p, mean - lo);
    SameSign(1.0 - p, value - lo);
    SameSign(p, hi - mean);
    SameSign(1.0 - p, hi - value);
  }

  predicate InRange(s: DecayState, lo: real, hi: real) {
    s.totalWeight > 0.0 ==> lo <= s.mean <= hi
  }

  lemma UpdateInRange(pow: (real, real) -> real, s: DecayState, x: Sample, lo: real, hi: real)
    requires IsPower(pow) && Valid(s) && InRange(s, lo, hi) && (x.weight > 0.0 ==> lo <= x.value <= hi)
    ensures var r := Update(pow, s, x.value, x.weight); r.Ok? ==> InRange(r.value, lo, hi)
  {
    if x.weight > 0.0 && s.totalWeight > 0.0 {
      assert PowerAt(pow, 1.0 - s.alpha, x.weight, 1.0);
      Between(lo, hi, s.mean, x.value, pow(1.0 - s.alpha, x.weight));
    }
  }

  /** The decayed mean never leaves the range of the values it has seen. */
  lemma {:induction false} StaysInRange(pow: (real, real) -> real, s: DecayState, xs: seq<Sample>, lo: real, hi: real)
    requires IsPower(pow) && Valid(s) && InRange(s, lo, hi)
    requires forall i :: 0 <= i < |xs| && xs[i].weight > 0.0 ==> lo <= xs[i].value <= hi
    ensures InRange(Run(pow, s, xs), lo, hi)
  {
    if xs == [] {
    } else {
      var n := |xs| - 1;
      StaysInRange(pow, s, xs[..n], lo, hi);
      RunValid(pow, s, xs[..n]);
      UpdateInRange(pow, Run(pow, s, xs[..n]), xs[n], lo, hi);
    }
  }
}
