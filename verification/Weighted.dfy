/** The one-pass weighted mean and variance, and the two-pass definitions they must equal. */
module Weighted {
  import opened Errors
  import opened Reals

  datatype Sample = Sample(value: real, weight: real)

  datatype MeanState = MeanState(totalWeight: real, mean: real, samplesSeen: nat)

  datatype VarianceState = VarianceState(totalWeight: real, mean: real, m2: real, samplesSeen: nat)

  function ValidateWeight(weight: real): Result<()> {
    if weight < 0.0 then Err(InvalidParameter(weight)) else Ok(())
  }

  function NextMean(totalWeight: real, mean: real, value: real, weight: real): real
    requires totalWeight >= 0.0 && weight > 0.0
  {
    mean + (value - mean) * (weight / (totalWeight + weight))
  }

  function UpdateMean(s: MeanState, value: real, weight: real): Result<MeanState>
    requires s.totalWeight >= 0.0
  {
    match ValidateWeight(weight)
    case Err(e) => Err(e)
    case Ok(_) =>
      if weight == 0.0 then Ok(s)
      else
        match CheckedIncrement(s.samplesSeen)
        case Err(e) => Err(e)
        case Ok(n) => Ok(MeanState(s.totalWeight + weight, NextMean(s.totalWeight, s.mean, value, weight), n))
  }

  /** The last steps of the variance update, given the new mean and the unclamped new spread. */
  function CommitVariance(s: VarianceState, weight: real, mean: real, m2: real): Result<VarianceState> {
    var total := s.totalWeight + weight;
    if m2 < -EPSILON * (if total >= 1.0 then total else 1.0) then Err(InvalidState(NegativeSpread))
    else
      match CheckedIncrement(s.samplesSeen)
      case Err(e) => Err(e)
      case Ok(n) => Ok(VarianceState(total, mean, if m2 >= 0.0 then m2 else 0.0, n))
  }

  function SpreadStep(weight: real, value: real, mean: real, nextMean: real): real {
    weight * (value - mean) * (value - nextMean)
  }

  function UpdateVariance(s: VarianceState, value: real, weight: real): Result<VarianceState>
    requires s.totalWeight >= 0.0
  {
    match ValidateWeight(weight)
    case Err(e) => Err(e)
    case Ok(_) =>
      if weight == 0.0 then Ok(s)
      else
        var mean := NextMean(s.totalWeight, s.mean, value, weight);
        CommitVariance(s, weight, mean, s.m2 + SpreadStep(weight, value, s.mean, mean))
  }

  /** What `validate_state` accepts. */
  predicate MeanValid(s: MeanState) {
    s.totalWeight >= 0.0 && (s.samplesSeen == 0 <==> s.totalWeight == 0.0) && s.samplesSeen <= U64_MAX
  }

  predicate VarianceValid(s: VarianceState) {
    MeanValid(MeanOf(s)) && s.m2 >= 0.0
  }

  function MeanOf(s: VarianceState): MeanState {
    MeanState(s.totalWeight, s.mean, s.samplesSeen)
  }

  /** `value()`: nothing before a positive weight is seen. */
  function MeanValue(s: MeanState): Option<real> {
    if s.totalWeight > 0.0 then Some(s.mean) else None
  }

  /** The population variance. */
  function VarianceValue(s: VarianceState): Option<real> {
    if s.totalWeight > 0.0 then Some(Ratio(s.m2, s.totalWeight)) else None
  }

  function Ratio(a: real, b: real): real {
    if b == 0.0 then 0.0 else a / b
  }

  // ---- one update ----

  lemma NextMeanLaw(total: real, mean: real, value: real, weight: real)
    requires total >= 0.0 && weight > 0.0
    ensures (total + weight) * NextMean(total, mean, value, weight) == total * mean + weight * value
  {
    var next := total + weight;
    var ratio := weight / next;
    assert next * ratio == weight;
    assert next * ((value - mean) * ratio) == (value - mean) * weight;
    assert next * (mean + (value - mean) * ratio) == next * mean + (value - mean) * weight;
  }

  lemma SpreadStepLaw(total: real, mean: real, value: real, weight: real, next: real)
    requires (total + weight) * next == total * mean + weight * value
    ensures (total + weight) * next * next + SpreadStep(weight, value, mean, next)
         == total * mean * mean + weight * value * value
  {
    assert (total + weight) * next * next == (total * mean + weight * value) * next;
    assert (total + weight) * next * mean == (total * mean + weight * value) * mean;
  }

  lemma SpreadStepNonNegative(total: real, mean: real, value: real, weight: real, next: real)
    requires total >= 0.0 && weight > 0.0 && (total + weight) * next == total * mean + weight * value
    ensures SpreadStep(weight, value, mean, next) >= 0.0
  {
    var d, y := value - mean, value - next;
    assert (total + weight) * y == total * d;
    if d >= 0.0 {
      SameSign(total, d);
      Divides(total + weight, y);
      SameSign(weight, d);
    } else {
      SameSign(total, -d);
      Divides(total + weight, -y);
      SameSign(weight, -d);
    }
    SameSign(weight * d, y);
  }

  lemma Divides(a: real, b: real)
    requires a > 0.0 && a * b >= 0.0
    ensures b >= 0.0
  {}

  lemma SameSign(a: real, b: real)
    requires (a >= 0.0 && b >= 0.0) || (a <= 0.0 && b <= 0.0)
    ensures a * b >= 0.0
  {}

  /** Total weight, weighted sum and weighted sum of squares. */
  datatype Moments = Moments(weight: real, first: real, second: real)

  const NONE: Moments := Moments(0.0, 0.0, 0.0)

  function Plus(a: Moments, b: Moments): Moments {
    Moments(a.weight + b.weight, a.first + b.first, a.second + b.second)
  }

  function OfSample(x: Sample): Moments {
    Moments(x.weight, x.weight * x.value, x.weight * x.value * x.value)
  }

  /** The moments of the samples a state stands for. */
  function OfState(s: VarianceState): Moments {
    Moments(s.totalWeight, s.totalWeight * s.mean, s.totalWeight * s.mean * s.mean + s.m2)
  }

  /**
   One positive-weight update fails only when the sample counter is full: the negative-spread error cannot
   be reached and the clamp at zero changes nothing. The three moments grow by the sample's own.
   */
  lemma UpdateAddsMoments(s: VarianceState, value: real, weight: real)
    requires VarianceValid(s) && weight > 0.0
    ensures s.samplesSeen == U64_MAX ==> UpdateVariance(s, value, weight) == Err(InvalidState(CounterOverflow))
    ensures s.samplesSeen < U64_MAX ==>
              && UpdateVariance(s, value, weight).Ok?
              && var after := UpdateVariance(s, value, weight).value;
                 && VarianceValid(after) && after.m2 >= s.m2
                 && after.samplesSeen == s.samplesSeen + 1
                 && OfState(after) == Plus(OfState(s), OfSample(Sample(value, weight)))
  {
    var mean := NextMean(s.totalWeight, s.mean, value, weight);
    NextMeanLaw(s.totalWeight, s.mean, value, weight);
    SpreadStepLaw(s.totalWeight, s.mean, value, weight, mean);
    SpreadStepNonNegative(s.totalWeight, s.mean, value, weight, mean);
    CommitAccepts(s, weight, mean, s.m2 + SpreadStep(weight, value, s.mean, mean));
  }

  /** A spread that is not negative is committed as it is, if the counter has room. */
  lemma CommitAccepts(s: VarianceState, weight: real, mean: real, m2: real)
    requires m2 >= 0.0
    ensures CommitVariance(s, weight, mean, m2)
         == if s.samplesSeen >= U64_MAX then Err(InvalidState(CounterOverflow))
            else Ok(VarianceState(s.totalWeight + weight, mean, m2, s.samplesSeen + 1))
  {}

  /** Both updates refuse a negative weight, ignore a zero one, and take every positive one while the counter has room. */
  lemma UpdatesExact(s: VarianceState, value: real, weight: real)
    requires VarianceValid(s)
    ensures weight < 0.0 ==>
              && UpdateVariance(s, value, weight) == Err(InvalidParameter(weight))
              && UpdateMean(MeanOf(s), value, weight) == Err(InvalidParameter(weight))
    ensures weight == 0.0 ==> UpdateVariance(s, value, weight) == Ok(s) && UpdateMean(MeanOf(s), value, weight) == Ok(MeanOf(s))
    ensures weight > 0.0 ==>
              && (UpdateVariance(s, value, weight).Ok? <==> s.samplesSeen < U64_MAX)
              && (UpdateMean(MeanOf(s), value, weight).Ok? <==> s.samplesSeen < U64_MAX)
  {
    if weight > 0.0 { UpdateAddsMoments(s, value, weight); }
  }

  /** The mean accumulator and the mean inside the variance accumulator move together, errors included. */
  lemma MeanAgrees(s: VarianceState, value: real, weight: real)
    requires VarianceValid(s)
    ensures UpdateMean(MeanOf(s), value, weight)
         == match UpdateVariance(s, value, weight)
            case Ok(after) => Ok(MeanOf(after))
            case Err(e) => Err(e)
  {
    if weight > 0.0 {
      UpdateAddsMoments(s, value, weight);
    }
  }

  // ---- streams ----

  /** The sums of the two-pass definitions. */
  function Total(xs: seq<Sample>): Moments {
    if xs == [] then NONE else Plus(Total(xs[..|xs| - 1]), OfSample(xs[|xs| - 1]))
  }

  /** The weighted sum of squared distances from `center`. */
  function Spread(xs: seq<Sample>, center: real): real {
    if xs == [] then 0.0
    else
      var x := xs[|xs| - 1];
      Spread(xs[..|xs| - 1], center) + SpreadTerm(x, center)
  }

  /** The samples that reach the accumulator: those of positive weight, while the counter has room. */
  function Accepted(seen: nat, xs: seq<Sample>): seq<Sample> {
    if xs == [] then []
    else
      var before := Accepted(seen, xs[..|xs| - 1]);
      if xs[|xs| - 1].weight > 0.0 && seen + |before| < U64_MAX then before + [xs[|xs| - 1]] else before
  }

  /** A failing update leaves the state as it was. */
  function RunVariance(s: VarianceState, xs: seq<Sample>): (r: VarianceState)
    requires s.totalWeight >= 0.0
    ensures r.totalWeight >= 0.0
  {
    if xs == [] then s
    else
      var before := RunVariance(s, xs[..|xs| - 1]);
      match UpdateVariance(before, xs[|xs| - 1].value, xs[|xs| - 1].weight)
      case Ok(after) => after
      case Err(_) => before
  }

  lemma TotalSnoc(xs: seq<Sample>, x: Sample)
    ensures Total(xs + [x]) == Plus(Total(xs), OfSample(x))
  {
    assert (xs + [x])[..|xs|] == xs;
  }

  lemma PlusAssociative(a: Moments, b: Moments, c: Moments)
    ensures Plus(Plus(a, b), c) == Plus(a, Plus(b, c))
  {}

  /** From any valid state, a stream adds exactly the moments of its accepted samples. */
  lemma {:induction false} RunAddsMoments(s: VarianceState, xs: seq<Sample>)
    requires VarianceValid(s)
    ensures var after := RunVariance(s, xs);
            var acc := Accepted(s.samplesSeen, xs);
            && VarianceValid(after) && after.samplesSeen == s.samplesSeen + |acc|
            && OfState(after) == Plus(OfState(s), Total(acc))
  {
    if xs == [] {
    } else {
      var n := |xs| - 1;
      var before := RunVariance(s, xs[..n]);
      var acc := Accepted(s.samplesSeen, xs[..n]);
      RunAddsMoments(s, xs[..n]);
      if xs[n].weight > 0.0 {
        UpdateAddsMoments(before, xs[n].value, xs[n].weight);
        TotalSnoc(acc, xs[n]);
        PlusAssociative(OfState(s), Total(acc), OfSample(xs[n]));
      }
    }
  }

  /** The spread about `c` from the moments. */
  function About(m: Moments, c: real): real {
    m.second - 2.0 * c * m.first + c * c * m.weight
  }

  function SpreadTerm(x: Sample, c: real): real {
    x.weight * (x.value - c) * (x.value - c)
  }

  lemma AboutStep(m: Moments, x: Sample, c: real)
    ensures About(Plus(m, OfSample(x)), c) == About(m, c) + SpreadTerm(x, c)
  {}

  lemma {:induction false} SpreadExpands(xs: seq<Sample>, c: real)
    ensures Spread(xs, c) == About(Total(xs), c)
  {
    if xs == [] {
    } else {
      var n := |xs| - 1;
      SpreadExpands(xs[..n], c);
      AboutStep(Total(xs[..n]), xs[n], c);
    }
  }

  lemma AboutMean(s: VarianceState)
    ensures About(OfState(s), s.mean) == s.m2
  {}

  lemma PlusNone(m: Moments)
    ensures Plus(NONE, m) == m
  {}

  /** A state that has seen nothing; its mean is never read. `new` and `reset` give such a state. */
  predicate Fresh(s: VarianceState) {
    s.totalWeight == 0.0 && s.m2 == 0.0 && s.samplesSeen == 0
  }

  lemma FreshNone(s: VarianceState)
    requires Fresh(s)
    ensures OfState(s) == NONE && VarianceValid(s)
  {}

  lemma FreshMoments(s: VarianceState, xs: seq<Sample>)
    requires Fresh(s)
    ensures OfState(RunVariance(s, xs)) == Total(Accepted(0, xs))
  {
    FreshNone(s);
    RunAddsMoments(s, xs);
    PlusNone(Total(Accepted(0, xs)));
  }

  lemma StateIsTwoPass(s: VarianceState, acc: seq<Sample>)
    requires OfState(s) == Total(acc)
    ensures s.totalWeight == Total(acc).weight && s.totalWeight * s.mean == Total(acc).first
    ensures s.m2 == Spread(acc, s.mean)
  {
    SpreadExpands(acc, s.mean);
    AboutMean(s);
  }

  /**
   After any stream the one-pass variance equals the two-pass definition over the accepted samples: the mean
   times the total weight is the weighted sum, and m2 is the weighted sum of squared distances from that mean.
   */
  lemma VarianceIsTwoPass(start: VarianceState, xs: seq<Sample>)
    requires Fresh(start)
    ensures var s := RunVariance(start, xs);
            var acc := Accepted(0, xs);
            && s.samplesSeen == |acc| && s.totalWeight == Total(acc).weight
            && s.totalWeight * s.mean == Total(acc).first
            && s.m2 == Spread(acc, s.mean) >= 0.0
  {
    FreshMoments(start, xs);
    RunAddsMoments(start, xs);
    StateIsTwoPass(RunVariance(start, xs), Accepted(0, xs));
  }

  lemma AboutPlus(m: Moments, n: Moments, c: real)
    ensures About(Plus(m, n), c) == About(m, c) + About(n, c)
  {}

  lemma AboutNothing(s: VarianceState, c: real)
    requires s.totalWeight == 0.0
    ensures About(OfState(s), c) == s.m2
  {}

  /**
   The validator also accepts an empty state with a positive m2. From such a state the spread stays too large by
   exactly that m2, so the two-pass equation holds after a stream if and only if the imported m2 was zero.
   */
  lemma ImportedSpread(start: VarianceState, xs: seq<Sample>)
    requires VarianceValid(start) && start.samplesSeen == 0
    ensures var s := RunVariance(start, xs);
            && s.m2 == start.m2 + Spread(Accepted(0, xs), s.mean)
            && (s.m2 == Spread(Accepted(0, xs), s.mean) <==> start.m2 == 0.0)
  {
    RunAddsMoments(start, xs);
    var s := RunVariance(start, xs);
    var acc := Accepted(0, xs);
    AboutPlus(OfState(start), Total(acc), s.mean);
    AboutNothing(start, s.mean);
    SpreadExpands(acc, s.mean);
    AboutMean(s);
  }

  /** Such a state is accepted, and any first sample then leaves it a positive m2 where the two passes give 0. */
  lemma ImportedSpreadHappens(m2: real, x: Sample)
    requires m2 > 0.0 && x.weight > 0.0
    ensures var start := VarianceState(0.0, 0.0, m2, 0);
            && VarianceValid(start)
            && RunVariance(start, [x]) == VarianceState(x.weight, x.value, m2, 1)
            && Spread(Accepted(0, [x]), x.value) == 0.0
  {
    var start := VarianceState(0.0, 0.0, m2, 0);
    assert [x][..0] == [];
    FirstMean(x.value, x.weight);
    assert RunVariance(start, []) == start && Accepted(0, []) == [] && Spread([], x.value) == 0.0;
    assert Accepted(0, [x]) == [] + [x] == [x];
    assert SpreadTerm(x, x.value) == 0.0;
  }

  /** The first sample becomes the mean and adds no spread. */
  lemma FirstMean(value: real, weight: real)
    requires weight > 0.0
    ensures NextMean(0.0, 0.0, value, weight) == value && SpreadStep(weight, value, 0.0, value) == 0.0
  {
    assert weight / (0.0 + weight) == 1.0;
  }

  /** No other center has a smaller weighted sum of squares: m2 is the least spread of the stream. */
  lemma MeanMinimisesSpread(start: VarianceState, xs: seq<Sample>, center: real)
    requires Fresh(start)
    ensures var s := RunVariance(start, xs);
            && Spread(Accepted(0, xs), center) >= s.m2
            && (s.totalWeight > 0.0 && Spread(Accepted(0, xs), center) == s.m2 ==> center == s.mean)
  {
    FreshMoments(start, xs);
    SpreadExpands(Accepted(0, xs), center);
    LeastAtMean(RunVariance(start, xs), center);
  }

  lemma LeastAtMean(s: VarianceState, center: real)
    requires s.totalWeight >= 0.0
    ensures About(OfState(s), center) >= s.m2
    ensures s.totalWeight > 0.0 && About(OfState(s), center) == s.m2 ==> center == s.mean
  {
    var excess := Excess(s, center, center - s.mean);
  }

  /** How much the spread about another centre exceeds the one about the mean. */
  lemma Excess(s: VarianceState, center: real, d: real) returns (excess: real)
    requires s.totalWeight >= 0.0 && center == s.mean + d
    ensures About(OfState(s), center) == s.m2 + excess && excess >= 0.0
    ensures s.totalWeight > 0.0 && d != 0.0 ==> excess > 0.0
  {
    var e := if d >= 0.0 then d else -d;
    excess := ScaledSquare(s.totalWeight, e);
    AboutShift(s, center, d, e, excess);
  }

  lemma AboutShift(s: VarianceState, center: real, d: real, e: real, excess: real)
    requires center == s.mean + d && (e == d || e == -d) && excess == s.totalWeight * e * e
    ensures About(OfState(s), center) == s.m2 + excess
  {}

  lemma ScaledSquare(a: real, e: real) returns (t: real)
    requires a >= 0.0 && e >= 0.0
    ensures t == a * e * e && t >= 0.0
    ensures a > 0.0 && e > 0.0 ==> t > 0.0
  {
    var f := a * e;
    t := f * e;
    SameSign(a, e);
    SameSign(f, e);
    if a > 0.0 && e > 0.0 {
      Positive(a, e);
      Positive(f, e);
    }
  }

  lemma Positive(a: real, b: real)
    requires a > 0.0 && b > 0.0
    ensures a * b > 0.0
  {}

  // ---- order and repetition ----

  /** States with the same positive weight and moments have the same mean and spread. */
  lemma MomentsDetermine(a: VarianceState, b: VarianceState)
    requires OfState(a) == OfState(b) && a.totalWeight > 0.0
    ensures a.totalWeight == b.totalWeight && a.mean == b.mean && a.m2 == b.m2
  {
    assert a.totalWeight * (a.mean - b.mean) == 0.0;
    if a.mean != b.mean { NoZeroProduct(a.totalWeight, a.mean - b.mean); }
  }

  lemma NoZeroProduct(a: real, d: real)
    requires a > 0.0 && d != 0.0
    ensures a * d != 0.0
  {}

  lemma {:induction false} TotalConcat(a: seq<Sample>, b: seq<Sample>)
    ensures Total(a + b) == Plus(Total(a), Total(b))
  {
    if b == [] {
      assert a + b == a;
    } else {
      var n := |b| - 1;
      TotalConcat(a, b[..n]);
      assert (a + b)[..|a + b| - 1] == a + b[..n];
    }
  }

  lemma MiddleTotal(a: seq<Sample>, x: Sample, b: seq<Sample>)
    ensures Total(a + [x] + b) == Plus(Total(a + b), OfSample(x))
  {
    TotalConcat(a, b);
    TotalConcat(a + [x], b);
    TotalSnoc(a, x);
    PlusSwap(Total(a), OfSample(x), Total(b));
  }

  lemma PlusSwap(a: Moments, b: Moments, c: Moments)
    ensures Plus(Plus(a, b), c) == Plus(Plus(a, c), b)
  {}

  lemma SameRest(p: seq<Sample>, q: seq<Sample>, i: nat)
    requires multiset(p) == multiset(q) && p != [] && i < |q| && q[i] == p[|p| - 1]
    ensures multiset(p[..|p| - 1]) == multiset(q[..i] + q[i + 1..])
  {
    assert p == p[..|p| - 1] + [q[i]] && q == q[..i] + [q[i]] + q[i + 1..];
    assert multiset(p[..|p| - 1]) == multiset(p) - multiset{q[i]};
    assert multiset(q[..i] + q[i + 1..]) == multiset(q) - multiset{q[i]};
  }

  /** The sums do not depend on the order of the samples. */
  lemma {:induction false} TotalPermuted(p: seq<Sample>, q: seq<Sample>)
    requires multiset(p) == multiset(q)
    ensures Total(p) == Total(q)
  {
    if p == [] {
      assert |q| == |multiset(q)| == 0;
    } else {
      var n := |p| - 1;
      assert p == p[..n] + [p[n]];
      assert p[n] in multiset(q);
      var i :| 0 <= i < |q| && q[i] == p[n];
      assert q == q[..i] + [p[n]] + q[i + 1..];
      MiddleTotal(q[..i], p[n], q[i + 1..]);
      SameRest(p, q, i);
      TotalPermuted(p[..n], q[..i] + q[i + 1..]);
    }
  }

  lemma {:induction false} AcceptedMembers(seen: nat, xs: seq<Sample>, x: Sample)
    requires seen + |xs| <= U64_MAX
    ensures |Accepted(seen, xs)| <= |xs|
    ensures multiset(Accepted(seen, xs))[x] == if x.weight > 0.0 then multiset(xs)[x] else 0
  {
    if xs == [] {
    } else {
      var n := |xs| - 1;
      AcceptedMembers(seen, xs[..n], x);
      assert xs == xs[..n] + [xs[n]];
    }
  }

  lemma AcceptedPermuted(p: seq<Sample>, q: seq<Sample>)
    requires multiset(p) == multiset(q) && |p| <= U64_MAX
    ensures multiset(Accepted(0, p)) == multiset(Accepted(0, q)) && |Accepted(0, p)| == |Accepted(0, q)|
  {
    assert |p| == |multiset(p)| == |multiset(q)| == |q|;
    var a, b := Accepted(0, p), Accepted(0, q);
    forall x ensures multiset(a)[x] == multiset(b)[x] {
      AcceptedMembers(0, p, x);
      AcceptedMembers(0, q, x);
    }
    assert multiset(a) == multiset(b);
    assert |a| == |multiset(a)| == |multiset(b)| == |b|;
  }

  /** The order of the samples never matters, rejected and zero-weight ones included. */
  lemma OrderIrrelevant(start: VarianceState, p: seq<Sample>, q: seq<Sample>)
    requires Fresh(start) && multiset(p) == multiset(q) && |p| <= U64_MAX
    ensures RunVariance(start, p) == RunVariance(start, q)
  {
    AcceptedPermuted(p, q);
    if Accepted(0, p) == [] {
      RunUntouched(start, p);
      RunUntouched(start, q);
    } else {
      TotalPermuted(Accepted(0, p), Accepted(0, q));
      FreshMoments(start, p);
      FreshMoments(start, q);
      RunAddsMoments(start, p);
      RunAddsMoments(start, q);
      MomentsDetermine(RunVariance(start, p), RunVariance(start, q));
    }
  }

  lemma {:induction false} RunUntouched(s: VarianceState, xs: seq<Sample>)
    requires VarianceValid(s) && Accepted(s.samplesSeen, xs) == []
    ensures RunVariance(s, xs) == s
  {
    if xs == [] {
    } else {
      var n := |xs| - 1;
      RunUntouched(s, xs[..n]);
      if xs[n].weight > 0.0 { UpdateAddsMoments(s, xs[n].value, xs[n].weight); }
    }
  }

  function Units(value: real, n: nat): (xs: seq<Sample>)
    ensures |xs| == n
  {
    seq(n, _ => Sample(value, 1.0))
  }

  lemma {:induction false} UnitTotal(seen: nat, value: real, n: nat)
    requires seen + n <= U64_MAX
    ensures Accepted(seen, Units(value, n)) == Units(value, n)
    ensures Total(Units(value, n)) == OfSample(Sample(value, n as real))
  {
    if n == 0 {
    } else {
      UnitTotal(seen, value, n - 1);
      assert Units(value, n)[..n - 1] == Units(value, n - 1);
      UnitStep(value, (n - 1) as real);
    }
  }

  lemma UnitStep(value: real, weight: real)
    ensures Plus(OfSample(Sample(value, weight)), OfSample(Sample(value, 1.0))) == OfSample(Sample(value, weight + 1.0))
  {}

  /** One update of integer weight n gives the weight, mean and spread of n unit updates. */
  lemma WeightIsRepetition(s: VarianceState, value: real, n: nat)
    requires VarianceValid(s) && n > 0 && s.samplesSeen + n <= U64_MAX
    ensures var repeated := RunVariance(s, Units(value, n));
            && UpdateVariance(s, value, n as real).Ok?
            && var once := UpdateVariance(s, value, n as real).value;
               && once.totalWeight == repeated.totalWeight && once.mean == repeated.mean && once.m2 == repeated.m2
               && once.samplesSeen == s.samplesSeen + 1 && repeated.samplesSeen == s.samplesSeen + n
  {
    UpdateAddsMoments(s, value, n as real);
    RunAddsMoments(s, Units(value, n));
    UnitTotal(s.samplesSeen, value, n);
    MomentsDetermine(UpdateVariance(s, value, n as real).value, RunVariance(s, Units(value, n)));
  }

  // ---- the mean accumulator ----

  function RunMean(s: MeanState, xs: seq<Sample>): (r: MeanState)
    requires s.totalWeight >= 0.0
    ensures r.totalWeight >= 0.0
  {
    if xs == [] then s
    else
      var before := RunMean(s, xs[..|xs| - 1]);
      match UpdateMean(before, xs[|xs| - 1].value, xs[|xs| - 1].weight)
      case Ok(after) => after
      case Err(_) => before
  }

  /** The mean accumulator and the mean inside the variance accumulator are the same after every stream. */
  lemma {:induction false} RunMeanAgrees(s: VarianceState, xs: seq<Sample>)
    requires VarianceValid(s)
    ensures RunMean(MeanOf(s), xs) == MeanOf(RunVariance(s, xs))
  {
    if xs == [] {
    } else {
      var n := |xs| - 1;
      RunMeanAgrees(s, xs[..n]);
      RunAddsMoments(s, xs[..n]);
      MeanAgrees(RunVariance(s, xs[..n]), xs[n].value, xs[n].weight);
    }
  }

  lemma {:induction false} AcceptedWeight(seen: nat, xs: seq<Sample>)
    ensures var acc := Accepted(seen, xs); Total(acc).weight >= 0.0 && (acc == [] <==> Total(acc).weight == 0.0)
  {
    if xs == [] {
    } else {
      var n := |xs| - 1;
      AcceptedWeight(seen, xs[..n]);
      TotalSnoc(Accepted(seen, xs[..n]), xs[n]);
    }
  }

  /** `value()` of the mean is the weighted sum over the total weight, or nothing before a positive weight. */
  lemma MeanIsTwoPass(start: VarianceState, xs: seq<Sample>)
    requires Fresh(start)
    ensures var acc := Accepted(0, xs);
            MeanValue(RunMean(MeanOf(start), xs))
            == if acc == [] then None else Some(Ratio(Total(acc).first, Total(acc).weight))
  {
    RunMeanAgrees(start, xs);
    FreshMoments(start, xs);
    AcceptedWeight(0, xs);
    StateRatio(RunVariance(start, xs));
  }

  /** `value()` of the variance is the mean squared distance from the weighted mean. */
  lemma VarianceValueIsTwoPass(start: VarianceState, xs: seq<Sample>)
    requires Fresh(start)
    ensures var acc := Accepted(0, xs);
            VarianceValue(RunVariance(start, xs))
            == if acc == [] then None
               else Some(Ratio(Spread(acc, Ratio(Total(acc).first, Total(acc).weight)), Total(acc).weight))
  {
    FreshMoments(start, xs);
    AcceptedWeight(0, xs);
    StateRatio(RunVariance(start, xs));
    VarianceIsTwoPass(start, xs);
  }

  lemma StateRatio(s: VarianceState)
    ensures s.totalWeight > 0.0 ==> s.mean == Ratio(OfState(s).first, OfState(s).weight)
  {
    if s.totalWeight > 0.0 { Quotient(s.totalWeight, s.mean, s.totalWeight * s.mean); }
  }

  lemma Quotient(a: real, b: real, c: real)
    requires a > 0.0 && a * b == c
    ensures b == c / a
  {}
}
