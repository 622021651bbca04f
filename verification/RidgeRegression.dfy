/**
 What the per-arm state means: after any run the arm's matrix and vector are those of the ridge
 regression over the samples the arm accepted since the last reset, and the weights that scoring
 solves for are the one minimiser of the penalised squared loss.
 */
module RidgeRegression {
  import opened LinearAlgebra
  import opened Cholesky
  import opened RidgeBandit

  datatype Sample = Sample(context: Vec, reward: real)

  ghost predicate Sized(samples: seq<Sample>, d: nat) {
    forall t :: 0 <= t < |samples| ==> |samples[t].context| == d
  }

  /** The samples one arm has accepted since the last reset. */
  ghost function Accepted(s: Stable, ops: seq<Op>, sqrt: real -> real, arm: nat): (r: seq<Sample>)
    requires StableValid(s) && IsSqrt(sqrt)
    ensures Sized(r, s.featureCount)
  {
    if ops == [] then [] else
      var init := ops[..|ops| - 1];
      var prior := Accepted(s, init, sqrt, arm);
      match ops[|ops| - 1]
      case Reset => []
      case Update(target, context, reward) =>
        if target == arm && StableUpdate(StableRun(s, init, sqrt).0, target, context, reward, sqrt).1.Ok?
        then prior + [Sample(context, reward)] else prior
  }

  /** `sum_t (x_t . y)^2` */
  ghost function SquareSum(samples: seq<Sample>, y: Vec): real
    requires Sized(samples, |y|)
  {
    if samples == [] then 0.0 else
      var last := samples[|samples| - 1];
      SquareSum(samples[..|samples| - 1], y) + Sq(Dot(last.context, y))
  }

  /** `sum_t r_t * (x_t . y)` */
  ghost function RewardSum(samples: seq<Sample>, y: Vec): real
    requires Sized(samples, |y|)
  {
    if samples == [] then 0.0 else
      var last := samples[|samples| - 1];
      RewardSum(samples[..|samples| - 1], y) + last.reward * Dot(last.context, y)
  }

  ghost function RewardSquares(samples: seq<Sample>): real {
    if samples == [] then 0.0 else
      RewardSquares(samples[..|samples| - 1]) + Sq(samples[|samples| - 1].reward)
  }

  /** The squared prediction errors of the weights `y`. */
  ghost function ErrorSum(samples: seq<Sample>, y: Vec): real
    requires Sized(samples, |y|)
  {
    if samples == [] then 0.0 else
      var last := samples[|samples| - 1];
      ErrorSum(samples[..|samples| - 1], y) + Sq(last.reward - Dot(last.context, y))
  }

  /** Ridge loss: unit penalty on the weights plus the squared errors. */
  ghost function Loss(samples: seq<Sample>, y: Vec): real
    requires Sized(samples, |y|)
  {
    Dot(y, y) + ErrorSum(samples, y)
  }

  lemma {:induction false} ErrorExpansion(samples: seq<Sample>, y: Vec)
    requires Sized(samples, |y|)
    ensures ErrorSum(samples, y) == SquareSum(samples, y) - 2.0 * RewardSum(samples, y) + RewardSquares(samples)
  {
    if samples == [] {
    } else {
      ErrorExpansion(samples[..|samples| - 1], y);
      var r, t := samples[|samples| - 1].reward, Dot(samples[|samples| - 1].context, y);
      assert (r - t) * (r - t) == r * r - 2.0 * (r * t) + t * t;
    }
  }

  /** Along `y`, the matrix acts as `I + sum x x^T` and the vector as `sum r x`. */
  ghost predicate Forms(a: Mat, b: Vec, samples: seq<Sample>, y: Vec) {
    && Square(a, |y|) && |b| == |y| && Sized(samples, |y|)
    && Quad(a, y) == Dot(y, y) + SquareSum(samples, y)
    && Dot(b, y) == RewardSum(samples, y)
  }

  ghost predicate FormsAt(a: Mat, b: Vec, samples: seq<Sample>, d: nat, y: Vec) {
    |y| == d ==> Forms(a, b, samples, y)
  }

  /** An arm's matrix and vector are the ridge statistics of `samples`. */
  ghost predicate Summarises(a: Mat, b: Vec, samples: seq<Sample>, d: nat) {
    && Square(a, d) && |b| == d && Sized(samples, d)
    && forall y: Vec :: FormsAt(a, b, samples, d, y)
  }

  lemma SummarisesFresh(d: nat)
    ensures Summarises(Identity(d), Zero(d), [], d)
  {
    forall y: Vec ensures FormsAt(Identity(d), Zero(d), [], d, y) {
      if |y| == d {
        ApplyIdentity(y);
        DotToVanish(Zero(d), y, 0, d);
      }
    }
  }

  lemma SumsNext(samples: seq<Sample>, sample: Sample, y: Vec)
    requires Sized(samples, |y|) && |sample.context| == |y|
    ensures SquareSum(samples + [sample], y) == SquareSum(samples, y) + Sq(Dot(sample.context, y))
    ensures RewardSum(samples + [sample], y) == RewardSum(samples, y) + sample.reward * Dot(sample.context, y)
  {
    assert (samples + [sample])[..|samples|] == samples;
  }

  lemma FormsNext(a: Mat, b: Vec, samples: seq<Sample>, sample: Sample, y: Vec)
    requires Forms(a, b, samples, y) && |sample.context| == |y|
    ensures Forms(RankOne(a, 1.0, sample.context), Add(b, Scale(sample.reward, sample.context)), samples + [sample], y)
  {
    SumsNext(samples, sample, y);
    QuadRankOne(a, sample.context, y);
    DotToLinear(b, sample.reward, sample.context, y, |y|);
  }

  lemma SummarisesNext(a: Mat, b: Vec, samples: seq<Sample>, sample: Sample, d: nat)
    requires Summarises(a, b, samples, d) && |sample.context| == d
    ensures Summarises(RankOne(a, 1.0, sample.context), Add(b, Scale(sample.reward, sample.context)),
                       samples + [sample], d)
  {
    var nextA, nextB := RankOne(a, 1.0, sample.context), Add(b, Scale(sample.reward, sample.context));
    forall y: Vec ensures FormsAt(nextA, nextB, samples + [sample], d, y) {
      assert FormsAt(a, b, samples, d, y);
      if |y| == d {
        FormsNext(a, b, samples, sample, y);
      }
    }
  }

  /** After every run from a fresh bandit each arm summarises exactly the samples it accepted. */
  lemma {:induction false} RunSummarises(c: Config, ops: seq<Op>, sqrt: real -> real, arm: nat)
    requires ConfigResult(c).Ok? && IsSqrt(sqrt) && arm < c.armCount
    ensures StableNew(c).Ok? && StableValid(StableNew(c).value)
    ensures var s := StableRun(StableNew(c).value, ops, sqrt).0;
      Summarises(s.aMatrices[arm], s.bVectors[arm], Accepted(StableNew(c).value, ops, sqrt, arm), c.featureCount)
  {
    var start := StableNew(c).value;
    IdentityRepresents(c.featureCount);
    SummarisesFresh(c.featureCount);
    if ops == [] {
    } else {
      var init := ops[..|ops| - 1];
      RunSummarises(c, init, sqrt, arm);
      var s := StableRun(start, init, sqrt).0;
      match ops[|ops| - 1]
      case Reset =>
      case Update(target, context, reward) =>
        if target == arm && |context| == c.featureCount {
          SummarisesNext(s.aMatrices[arm], s.bVectors[arm], Accepted(start, init, sqrt, arm),
                         Sample(context, reward), c.featureCount);
        }
    }
  }

  /** The samples all of the first `k` arms have accepted since the last reset. */
  ghost function AcceptedTotal(s: Stable, ops: seq<Op>, sqrt: real -> real, k: nat): nat
    requires StableValid(s) && IsSqrt(sqrt)
  {
    if k == 0 then 0 else AcceptedTotal(s, ops, sqrt, k - 1) + |Accepted(s, ops, sqrt, k - 1)|
  }

  lemma {:induction false} TotalAfter(s: Stable, ops: seq<Op>, sqrt: real -> real, k: nat)
    requires StableValid(s) && IsSqrt(sqrt) && ops != []
    ensures var init, op := ops[..|ops| - 1], ops[|ops| - 1];
      AcceptedTotal(s, ops, sqrt, k) ==
        if op.Reset? then 0
        else
          AcceptedTotal(s, init, sqrt, k) + (if op.arm < k && StableStep(StableRun(s, init, sqrt).0, op, sqrt).1.Ok? then 1 else 0)
  {
    if k == 0 {
    } else {
      TotalAfter(s, ops, sqrt, k - 1);
    }
  }

  /** The sample counter counts exactly the accepted samples of all arms since the last reset. */
  lemma {:induction false} RunCounts(c: Config, ops: seq<Op>, sqrt: real -> real)
    requires ConfigResult(c).Ok? && IsSqrt(sqrt)
    ensures StableNew(c).Ok? && StableValid(StableNew(c).value)
    ensures StableRun(StableNew(c).value, ops, sqrt).0.samplesSeen == AcceptedTotal(StableNew(c).value, ops, sqrt, c.armCount)
  {
    var start := StableNew(c).value;
    IdentityRepresents(c.featureCount);
    if ops == [] {
      NothingAccepted(start, sqrt, c.armCount);
    } else {
      RunCounts(c, ops[..|ops| - 1], sqrt);
      TotalAfter(start, ops, sqrt, c.armCount);
    }
  }

  lemma {:induction false} NothingAccepted(s: Stable, sqrt: real -> real, k: nat)
    requires StableValid(s) && IsSqrt(sqrt)
    ensures AcceptedTotal(s, [], sqrt, k) == 0
  {
    if k == 0 {
    } else {
      NothingAccepted(s, sqrt, k - 1);
    }
  }

  /** The curvature expansion around the solution of `A theta = b`. */
  lemma QuadShift(a: Mat, theta: Vec, e: Vec)
    requires Symmetric(a) && |theta| == |e| == |a|
    ensures Quad(a, Add(theta, Scale(1.0, e))) == Quad(a, theta) + 2.0 * Dot(Apply(a, theta), e) + Quad(a, e)
  {
    var y := Add(theta, Scale(1.0, e));
    ApplyLinear(a, theta, 1.0, e);
    DotLinearRight(y, Apply(a, theta), 1.0, Apply(a, e));
    DotToLinear(theta, 1.0, e, Apply(a, theta), |a|);
    DotToLinear(theta, 1.0, e, Apply(a, e), |a|);
    SelfAdjoint(a, theta, e);
    DotToComm(e, Apply(a, theta), |a|);
  }

  /** The excess loss of any weights over the solved ones is the curvature along the difference. */
  lemma ExcessLoss(a: Mat, b: Vec, samples: seq<Sample>, theta: Vec, y: Vec, e: Vec)
    requires Symmetric(a) && Summarises(a, b, samples, |a|)
    requires |theta| == |y| == |e| == |a| && Apply(a, theta) == b && y == Add(theta, Scale(1.0, e))
    ensures Loss(samples, y) == Loss(samples, theta) + Quad(a, e)
  {
    ErrorExpansion(samples, y);
    ErrorExpansion(samples, theta);
    QuadShift(a, theta, e);
    DotLinearRight(b, theta, 1.0, e);
    assert FormsAt(a, b, samples, |a|, y) && FormsAt(a, b, samples, |a|, theta);
  }

  /** The weights behind an arm's score are the unique minimiser of the ridge loss over its samples. */
  lemma SolvedWeightsOptimal(a: Mat, b: Vec, samples: seq<Sample>, lower: Mat, y: Vec)
    requires Symmetric(a) && Summarises(a, b, samples, |a|) && IsFactor(a, lower) && |y| == |a|
    ensures Loss(samples, Solve(lower, b)) <= Loss(samples, y)
    ensures Loss(samples, y) == Loss(samples, Solve(lower, b)) ==> y == Solve(lower, b)
  {
    var theta := Solve(lower, b);
    var e := Add(y, Scale(-1.0, theta));
    var back := Add(theta, Scale(1.0, e));
    forall i | 0 <= i < |y| ensures back[i] == y[i] {}
    SolveCorrect(a, lower, b);
    FactorPositive(a, lower);
    ExcessLoss(a, b, samples, theta, y, e);
    QuadNonNegative(a, e);
    if e == Zero(|a|) {
      ZeroDifference(y, theta);
    } else {
      assert Quad(a, e) > 0.0;
    }
  }
}
