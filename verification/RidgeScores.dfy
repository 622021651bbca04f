/**
 What a score is, without its formula: the prediction of the solved weights plus the one exploration bonus whose
 square is the scaled variance of the context; and which arm the bandits therefore choose.
 */
module RidgeScores {
  import opened Errors
  import opened LinearAlgebra
  import opened Cholesky
  import opened RidgeBandit
  import opened RidgeRegression
  import opened TieBreak

  /** A symmetric positive definite system has a solution. */
  lemma Solvable(a: Mat, rhs: Vec, sqrt: real -> real) returns (x: Vec)
    requires Ridge(a, |rhs|) && IsSqrt(sqrt)
    ensures |x| == |rhs| && Apply(a, x) == rhs
  {
    FactorIffPositive(a, sqrt);
    x := Solve(Factor(a, sqrt).value, rhs);
    SolveCorrect(a, Factor(a, sqrt).value, rhs);
  }

  // ---- one score ----

  /** The score adds to the prediction the non-negative root of the scaled variance. */
  predicate Adds(score: ArmScore, alpha: real, prediction: real, variance: real) {
    && score.exploitation == prediction
    && score.explorationBonus >= 0.0
    && score.explorationBonus * score.explorationBonus == alpha * alpha * variance
    && score.totalScore == score.exploitation + score.explorationBonus
  }

  /** `theta` solves for the arm's weights and `z` for the context; `score` is made of them. */
  predicate Prices(score: ArmScore, alpha: real, theta: Vec, z: Vec, context: Vec)
    requires |theta| == |z| == |context|
  {
    Adds(score, alpha, Dot(theta, context), Dot(context, z))
  }

  /** The stable score of an arm, for whatever vectors solve its two systems. */
  lemma ScoreMeaning(s: Stable, arm: nat, context: Vec, sqrt: real -> real, theta: Vec, z: Vec)
    requires StableValid(s) && IsSqrt(sqrt) && arm < s.armCount && |context| == |theta| == |z| == s.featureCount
    requires Apply(s.aMatrices[arm], theta) == s.bVectors[arm] && Apply(s.aMatrices[arm], z) == context
    ensures StableScore(s, arm, context, sqrt).Ok? && StableScore(s, arm, context, sqrt).value.arm == arm
    ensures Prices(StableScore(s, arm, context, sqrt).value, s.alpha, theta, z, context)
  {
    ScoreSolved(s, arm, context, sqrt, theta, z);
    VarianceNonNegative(s.aMatrices[arm], z, context);
    FormulaMeaning(arm, s.alpha, Dot(theta, context), Dot(context, z), sqrt);
  }

  lemma ScoreSolved(s: Stable, arm: nat, context: Vec, sqrt: real -> real, theta: Vec, z: Vec)
    requires StableValid(s) && IsSqrt(sqrt) && arm < s.armCount && |context| == |theta| == |z| == s.featureCount
    requires Apply(s.aMatrices[arm], theta) == s.bVectors[arm] && Apply(s.aMatrices[arm], z) == context
    ensures StableScore(s, arm, context, sqrt) == Ok(Score(arm, s.alpha, Dot(theta, context), Dot(context, z), sqrt))
  {
    SolutionIs(s.aMatrices[arm], s.bVectors[arm], theta, sqrt);
    SolutionIs(s.aMatrices[arm], context, z, sqrt);
  }

  /** The factorisation succeeds and the solve through it returns the solution. */
  lemma SolutionIs(a: Mat, rhs: Vec, x: Vec, sqrt: real -> real)
    requires Ridge(a, |rhs|) && |x| == |rhs| && Apply(a, x) == rhs && IsSqrt(sqrt)
    ensures FactorResult(a, sqrt).Ok? && Solve(FactorResult(a, sqrt).value, rhs) == x
  {
    FactorIffPositive(a, sqrt);
    SolveCorrect(a, Factor(a, sqrt).value, rhs);
  }

  lemma FormulaMeaning(arm: nat, alpha: real, exploitation: real, variance: real, sqrt: real -> real)
    requires IsSqrt(sqrt) && alpha > 0.0 && variance >= 0.0
    ensures Score(arm, alpha, exploitation, variance, sqrt).arm == arm
    ensures Adds(Score(arm, alpha, exploitation, variance, sqrt), alpha, exploitation, variance)
  {
    BonusSquare(alpha, sqrt(variance), variance);
  }

  lemma VarianceNonNegative(a: Mat, z: Vec, context: Vec)
    requires PositiveDefinite(a) && |z| == |context| == |a| && Apply(a, z) == context
    ensures Dot(context, z) >= 0.0
  {
    QuadNonNegative(a, z);
    DotToComm(context, z, |z|);
  }

  lemma BonusSquare(alpha: real, root: real, variance: real)
    requires alpha > 0.0 && root >= 0.0 && root * root == variance
    ensures alpha * root >= 0.0 && (alpha * root) * (alpha * root) == alpha * alpha * variance
  {
    assert (alpha * root) * (alpha * root) == alpha * alpha * (root * root);
  }

  /** The fast bandit's score is made of the solutions of the stable bandit's systems. */
  lemma FastScoreMeaning(f: Fast, s: Stable, arm: nat, context: Vec, sqrt: real -> real, theta: Vec, z: Vec)
    requires Refines(f, s) && IsSqrt(sqrt) && arm < s.armCount && |context| == |theta| == |z| == s.featureCount
    requires Apply(s.aMatrices[arm], theta) == s.bVectors[arm] && Apply(s.aMatrices[arm], z) == context
    ensures FastScore(f, arm, context, sqrt).arm == arm
    ensures Prices(FastScore(f, arm, context, sqrt), f.alpha, theta, z, context)
  {
    ScoresAgree(f, s, arm, context, sqrt);
    ScoreMeaning(s, arm, context, sqrt, theta, z);
  }

  // ---- the upper confidence bound of an arm ----

  /** `u` exceeds the prediction of the weights by the root of the scaled variance. */
  ghost predicate UpperBy(a: Mat, b: Vec, alpha: real, context: Vec, u: real, theta: Vec, z: Vec) {
    && Square(a, |context|) && |theta| == |z| == |b| == |context|
    && Apply(a, theta) == b && Apply(a, z) == context
    && u >= Dot(theta, context) && Sq(u - Dot(theta, context)) == alpha * alpha * Dot(context, z)
  }

  ghost predicate IsUpper(a: Mat, b: Vec, alpha: real, context: Vec, u: real) {
    exists theta: Vec, z: Vec :: UpperBy(a, b, alpha, context, u, theta, z)
  }

  ghost predicate IsUpperOf(s: Stable, arm: nat, context: Vec, u: real)
    requires StableValid(s) && arm < s.armCount
  {
    IsUpper(s.aMatrices[arm], s.bVectors[arm], s.alpha, context, u)
  }

  /** One bound per arm. */
  ghost predicate AreUppers(s: Stable, context: Vec, us: seq<real>)
    requires StableValid(s)
  {
    |us| == s.armCount && forall arm :: 0 <= arm < s.armCount ==> IsUpperOf(s, arm, context, us[arm])
  }

  lemma RootUnique(x: real, y: real)
    requires x >= 0.0 && y >= 0.0 && Sq(x) == Sq(y)
    ensures x == y
  {
    assert (x - y) * (x + y) == 0.0;
  }

  lemma UpperUnique(a: Mat, b: Vec, alpha: real, context: Vec, u: real, v: real)
    requires PositiveDefinite(a) && |context| == |a|
    requires IsUpper(a, b, alpha, context, u) && IsUpper(a, b, alpha, context, v)
    ensures u == v
  {
    var theta, z :| UpperBy(a, b, alpha, context, u, theta, z);
    var theta', z' :| UpperBy(a, b, alpha, context, v, theta', z');
    UniqueSolution(a, theta, theta');
    UniqueSolution(a, z, z');
    RootUnique(u - Dot(theta, context), v - Dot(theta, context));
  }

  lemma PricesUpper(a: Mat, b: Vec, alpha: real, context: Vec, score: ArmScore, theta: Vec, z: Vec)
    requires Square(a, |context|) && |theta| == |z| == |b| == |context| && Apply(a, theta) == b && Apply(a, z) == context
    requires Prices(score, alpha, theta, z, context)
    ensures IsUpper(a, b, alpha, context, score.totalScore)
  {
    assert score.totalScore - Dot(theta, context) == score.explorationBonus;
    assert UpperBy(a, b, alpha, context, score.totalScore, theta, z);
  }

  /** The total score of an arm is its upper confidence bound, and the only one. */
  lemma TotalIsUpper(s: Stable, arm: nat, context: Vec, sqrt: real -> real, u: real)
    requires StableValid(s) && IsSqrt(sqrt) && arm < s.armCount && |context| == s.featureCount
    ensures StableScore(s, arm, context, sqrt).Ok?
    ensures IsUpperOf(s, arm, context, u) <==> u == StableScore(s, arm, context, sqrt).value.totalScore
  {
    var a, b := s.aMatrices[arm], s.bVectors[arm];
    var theta := Solvable(a, b, sqrt);
    var z := Solvable(a, context, sqrt);
    ScoreMeaning(s, arm, context, sqrt, theta, z);
    var total := StableScore(s, arm, context, sqrt).value.totalScore;
    PricesUpper(a, b, s.alpha, context, StableScore(s, arm, context, sqrt).value, theta, z);
    if IsUpperOf(s, arm, context, u) { UpperUnique(a, b, s.alpha, context, u, total); }
  }

  lemma {:induction false} ScoreAt(s: Stable, context: Vec, sqrt: real -> real, k: nat, arm: nat)
    requires StableValid(s) && IsSqrt(sqrt) && arm < k <= s.armCount && |context| == s.featureCount
    ensures StableScore(s, arm, context, sqrt).Ok?
    ensures StableScores(s, context, sqrt, k)[arm] == StableScore(s, arm, context, sqrt).value
  {
    StableScoreOk(s, arm, context, sqrt);
    if arm == k - 1 {
    } else {
      ScoreAt(s, context, sqrt, k - 1, arm);
    }
  }

  /** The totals both selections run over are the upper confidence bounds of the arms. */
  lemma TotalsAreUppers(s: Stable, context: Vec, sqrt: real -> real, us: seq<real>)
    requires StableValid(s) && IsSqrt(sqrt) && |context| == s.featureCount
    ensures AreUppers(s, context, us) <==> us == Totals(StableScores(s, context, sqrt, s.armCount))
  {
    var totals := Totals(StableScores(s, context, sqrt, s.armCount));
    forall arm | 0 <= arm < s.armCount && |us| == s.armCount
      ensures IsUpperOf(s, arm, context, us[arm]) <==> us[arm] == totals[arm]
    {
      ScoreAt(s, context, sqrt, s.armCount, arm);
      TotalIsUpper(s, arm, context, sqrt, us[arm]);
    }
  }

  /** The stable bandit chooses the lowest-numbered arm of greatest upper confidence bound. */
  lemma ChoiceMeaning(s: Stable, context: Vec, sqrt: real -> real, us: seq<real>, arm: nat)
    requires StableValid(s) && IsSqrt(sqrt) && |context| == s.featureCount && AreUppers(s, context, us)
    ensures StableChoice(s, context, sqrt) == Ok(arm) <==> IsLowestBest(us, arm)
  {
    TotalsAreUppers(s, context, sqrt, us);
    if IsLowestBest(us, arm) { LowestBestUnique(us, arm, LowestBest(us)); }
  }

  /** The fast bandit chooses among the same bounds: those of the stable state it refines. */
  lemma FastChoiceMeaning(f: Fast, s: Stable, context: Vec, sqrt: real -> real, us: seq<real>)
    requires Refines(f, s) && IsSqrt(sqrt) && |context| == s.featureCount && AreUppers(s, context, us)
    ensures Totals(FastScores(f, context, sqrt, f.armCount)) == us
    ensures IsLowestBest(us, LowestBest(Totals(FastScores(f, context, sqrt, f.armCount))))
  {
    AllScoresAgree(f, s, context, sqrt, s.armCount);
    TotalsAreUppers(s, context, sqrt, us);
  }

  // ---- whole runs ----

  /** No weights have a smaller ridge loss over the samples. */
  ghost predicate IsMinimiser(samples: seq<Sample>, theta: Vec) {
    && Sized(samples, |theta|)
    && forall y: Vec :: |y| == |theta| ==> Loss(samples, theta) <= Loss(samples, y)
  }

  lemma MinimiserSolves(a: Mat, b: Vec, samples: seq<Sample>, theta: Vec, sqrt: real -> real)
    requires Ridge(a, |theta|) && Summarises(a, b, samples, |theta|) && IsMinimiser(samples, theta) && IsSqrt(sqrt)
    ensures Apply(a, theta) == b
  {
    FactorIffPositive(a, sqrt);
    var lower := Factor(a, sqrt).value;
    SolveCorrect(a, lower, b);
    SolvedWeightsOptimal(a, b, samples, lower, theta);
    assert Loss(samples, theta) <= Loss(samples, Solve(lower, b));
  }

  /**
   After every run of updates and resets from a fresh configuration both bandits score an arm by the prediction of
   the ridge minimiser over the samples the arm accepted since the last reset, plus the bonus of its matrix.
   */
  lemma RunScoreMeaning(c: Config, ops: seq<Op>, arm: nat, context: Vec, sqrt: real -> real, theta: Vec, z: Vec)
    requires ConfigResult(c).Ok? && IsSqrt(sqrt) && arm < c.armCount && |context| == |theta| == |z| == c.featureCount
    requires StableNew(c).Ok? && StableValid(StableNew(c).value)
    requires IsMinimiser(Accepted(StableNew(c).value, ops, sqrt, arm), theta)
    requires Apply(StableRun(StableNew(c).value, ops, sqrt).0.aMatrices[arm], z) == context
    ensures FastNew(c).Ok?
    ensures var score := FastScore(FastRun(FastNew(c).value, ops).0, arm, context, sqrt);
      && Prices(score, c.alpha, theta, z, context)
      && StableScore(StableRun(StableNew(c).value, ops, sqrt).0, arm, context, sqrt) == Ok(score)
  {
    var s := StableRun(StableNew(c).value, ops, sqrt).0;
    RunSummarises(c, ops, sqrt, arm);
    MinimiserSolves(s.aMatrices[arm], s.bVectors[arm], Accepted(StableNew(c).value, ops, sqrt, arm), theta, sqrt);
    ScoreMeaning(s, arm, context, sqrt, theta, z);
    RunScoresAgree(c, ops, arm, context, sqrt);
    RunKeepsAlpha(StableNew(c).value, ops, sqrt);
  }

  lemma {:induction false} RunKeepsAlpha(s: Stable, ops: seq<Op>, sqrt: real -> real)
    requires StableValid(s) && IsSqrt(sqrt)
    ensures StableRun(s, ops, sqrt).0.alpha == s.alpha
  {
    if ops == [] {
    } else {
      RunKeepsAlpha(s, ops[..|ops| - 1], sqrt);
    }
  }

  /** After every such run both bandits choose the lowest-numbered arm of greatest upper confidence bound. */
  lemma RunChoiceMeaning(c: Config, ops: seq<Op>, context: Vec, sqrt: real -> real, us: seq<real>, arm: nat)
    requires ConfigResult(c).Ok? && IsSqrt(sqrt) && |context| == c.featureCount
    requires StableNew(c).Ok? && StableValid(StableNew(c).value)
    requires AreUppers(StableRun(StableNew(c).value, ops, sqrt).0, context, us)
    ensures StableChoice(StableRun(StableNew(c).value, ops, sqrt).0, context, sqrt) == Ok(arm) <==> IsLowestBest(us, arm)
    ensures FastNew(c).Ok?
    ensures LowestBest(Totals(FastScores(FastRun(FastNew(c).value, ops).0, context, sqrt, c.armCount))) == arm
       <==> IsLowestBest(us, arm)
  {
    RunChoicesAgree(c, ops, context, sqrt);
    ChoiceMeaning(StableRun(StableNew(c).value, ops, sqrt).0, context, sqrt, us, arm);
  }
}
