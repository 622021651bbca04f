/**
 The two bandit objects. Every method is specified by the transition or score function of
 `RidgeBandit`; the square root routine is a parameter of the object.
 */
module LinUcb {
  import opened Errors
  import opened Reals
  import opened LinearAlgebra
  import opened Cholesky
  import opened CholeskyLoops
  import opened RidgeBandit
  import TieBreak

  class StableBandit {
    const sqrt: real -> real
    const armCount: nat
    const featureCount: nat
    const alpha: real
    var aMatrices: seq<Mat>
    var bVectors: seq<Vec>
    var samplesSeen: nat

    function View(): Stable
      reads this
    {
      Stable(armCount, featureCount, alpha, aMatrices, bVectors, samplesSeen)
    }

    ghost predicate Valid()
      reads this
    {
      StableValid(View()) && IsSqrt(sqrt)
    }

    constructor (s: Stable, sqrt: real -> real)
      requires StableValid(s) && IsSqrt(sqrt)
      ensures Valid() && View() == s && this.sqrt == sqrt
    {
      this.sqrt := sqrt;
      armCount, featureCount, alpha := s.armCount, s.featureCount, s.alpha;
      aMatrices, bVectors, samplesSeen := s.aMatrices, s.bVectors, s.samplesSeen;
    }

    /** `LinUcb::new`. */
    static method New(c: Config, sqrt: real -> real) returns (r: Result<StableBandit>)
      requires IsSqrt(sqrt)
      ensures r.Ok? <==> StableNew(c).Ok?
      ensures r.Ok? <==> c.armCount > 0 && c.featureCount > 0 && c.alpha > 0.0
      ensures r.Err? ==> StableNew(c) == Err(r.error)
      ensures r.Ok? ==> fresh(r.value) && r.value.Valid() && r.value.View() == StableNew(c).value && r.value.sqrt == sqrt
    {
      match ConfigResult(c)
      case Err(e) => r := Err(e);
      case Ok(_) =>
        IdentityRepresents(c.featureCount);
        var bandit := new StableBandit(StableNew(c).value, sqrt);
        r := Ok(bandit);
    }

    /** Accumulates the outer product and the reward, then commits if the factorisation still exists. */
    method Update(arm: nat, context: Vec, reward: real) returns (r: Result<()>)
      requires Valid()
      modifies this
      ensures Valid()
      ensures (View(), r) == StableUpdate(old(View()), arm, context, reward, sqrt)
    {
      ghost var before := View();
      var request := CheckRequest(armCount, featureCount, arm, context);
      if request.Err? {
        return request;
      }
      var nextA := AddOuterProduct(aMatrices[arm], context);
      var nextB := AddReward(bVectors[arm], context, reward);
      var nextSamples := CheckedIncrement(samplesSeen);
      if nextSamples.Err? {
        return Err(nextSamples.error);
      }
      var factor := CholeskyFactor(nextA, sqrt);
      if factor.Err? {
        return Err(factor.error);
      }
      aMatrices := aMatrices[arm := nextA];
      bVectors := bVectors[arm := nextB];
      samplesSeen := nextSamples.value;
      StableUpdateValid(before, arm, context, reward, sqrt);
      r := Ok(());
    }

    method Reset()
      requires Valid()
      modifies this
      ensures Valid() && View() == StableReset(old(View()))
      ensures alpha > 0.0 && armCount > 0 && featureCount > 0 ==> StableNew(Config(alpha, armCount, featureCount)) == Ok(View())
    {
      IdentityRepresents(featureCount);
      aMatrices := seq(armCount, _ => Identity(featureCount));
      bVectors := seq(armCount, _ => Zero(featureCount));
      samplesSeen := 0;
    }

    method ScoreArmValidated(arm: nat, context: Vec) returns (r: Result<ArmScore>)
      requires Valid() && arm < armCount && |context| == featureCount
      ensures r == StableScore(View(), arm, context, sqrt)
    {
      var factor := CholeskyFactor(aMatrices[arm], sqrt);
      match factor
      case Err(e) => r := Err(e);
      case Ok(lower) =>
        var score := ScoreFactored(lower, bVectors[arm], arm, alpha, context, sqrt);
        r := Ok(score);
    }

    method ScoreAll(context: Vec) returns (r: Result<seq<ArmScore>>)
      requires Valid()
      ensures |context| != featureCount ==> r == Err(DimensionMismatch(featureCount, |context|))
      ensures |context| == featureCount ==> r == Ok(StableScores(View(), context, sqrt, armCount))
    {
      if |context| != featureCount {
        return Err(DimensionMismatch(featureCount, |context|));
      }
      var scores := [];
      for arm := 0 to armCount
        invariant scores == StableScores(View(), context, sqrt, arm)
      {
        StableScoreOk(View(), arm, context, sqrt);
        var score := ScoreArmValidated(arm, context);
        scores := scores + [score.value];
      }
      r := Ok(scores);
    }

    method SelectDeterministic(context: Vec) returns (r: Result<nat>)
      requires Valid()
      ensures r == StableChoice(View(), context, sqrt)
    {
      var scores := ScoreAll(context);
      if scores.Err? {
        return Err(scores.error);
      }
      var arm := TieBreak.SelectDeterministic(Totals(scores.value));
      r := Ok(arm);
    }

    /** `select`: the tape holds the draws the generator makes for the ties of these scores. */
    method Select(context: Vec, tape: seq<nat>) returns (r: Result<nat>)
      requires Valid()
      requires |context| == featureCount ==>
        tape in TieBreak.Tapes(TieBreak.Bounds(Totals(StableScores(View(), context, sqrt, armCount)), armCount))
      ensures |context| != featureCount ==> r == Err(DimensionMismatch(featureCount, |context|))
      ensures |context| == featureCount ==>
        r == Ok(TieBreak.ScanTo(Totals(StableScores(View(), context, sqrt, armCount)), tape, armCount).arm)
    {
      var scores := ScoreAll(context);
      if scores.Err? {
        return Err(scores.error);
      }
      var arm, _ := TieBreak.Select(Totals(scores.value), tape);
      r := Ok(arm);
    }

    /** `select_with_scores`: the same arm as `select` on the same draws, plus the scores behind it. */
    method SelectWithScores(context: Vec, tape: seq<nat>) returns (r: Result<(nat, seq<ArmScore>)>)
      requires Valid()
      requires |context| == featureCount ==>
        tape in TieBreak.Tapes(TieBreak.Bounds(Totals(StableScores(View(), context, sqrt, armCount)), armCount))
      ensures |context| != featureCount ==> r == Err(DimensionMismatch(featureCount, |context|))
      ensures |context| == featureCount ==>
        r == Ok((TieBreak.ScanTo(Totals(StableScores(View(), context, sqrt, armCount)), tape, armCount).arm,
                 StableScores(View(), context, sqrt, armCount)))
    {
      var scores := ScoreAll(context);
      if scores.Err? {
        return Err(scores.error);
      }
      var arm, _ := TieBreak.SelectRandomTie(Totals(scores.value), tape);
      r := Ok((arm, scores.value));
    }

    /** `LinUcb::validate`, run on a state read from storage before it becomes an object. */
    static method Validate(s: Stable, sqrt: real -> real) returns (r: Result<()>)
      requires IsSqrt(sqrt)
      ensures r.Ok? <==> StableValid(s)
    {
      var config := ConfigResult(Config(s.alpha, s.armCount, s.featureCount));
      if config.Err? {
        return config;
      }
      if |s.aMatrices| != s.armCount || |s.bVectors| != s.armCount {
        return Err(InvalidState(ArmLengths));
      }
      for arm := 0 to s.armCount
        invariant Shaped(s.aMatrices[..arm], s.bVectors[..arm], arm, s.featureCount)
        invariant forall k :: 0 <= k < arm ==> Ridge(s.aMatrices[k], s.featureCount)
      {
        var matrix := s.aMatrices[arm];
        if |matrix| != s.featureCount || |s.bVectors[arm]| != s.featureCount ||
           exists i :: 0 <= i < |matrix| && |matrix[i]| != s.featureCount {
          return Err(InvalidState(ArmDimensions));
        }
        if exists i, j :: 0 <= j < i < |matrix| && matrix[i][j] != matrix[j][i] {
          return Err(InvalidState(NotSymmetric));
        }
        assert Symmetric(matrix);
        var factor := CholeskyFactor(matrix, sqrt);
        if factor.Err? {
          return Err(InvalidState(NotPositiveDefinite));
        }
      }
      assert s.aMatrices[..s.armCount] == s.aMatrices && s.bVectors[..s.armCount] == s.bVectors;
      r := Ok(());
    }
  }

  /** Two solves through the Cholesky factor; no inverse is formed. */
  method ScoreFactored(lower: Mat, b: Vec, arm: nat, alpha: real, context: Vec, sqrt: real -> real)
    returns (r: ArmScore)
    requires Square(lower, |context|) && Lower(lower, |context|) && |b| == |context|
    ensures r == Score(arm, alpha, Dot(Solve(lower, b), context), Dot(context, Solve(lower, context)), sqrt)
  {
    var theta := CholeskySolve(lower, b);
    var exploitation := CheckedDot(theta.value, context);
    var solved := CholeskySolve(lower, context);
    var quad := CheckedDot(context, solved.value);
    r := Score(arm, alpha, exploitation, quad, sqrt);
  }

  method AddOuterProduct(a: Mat, context: Vec) returns (next: Mat)
    requires Square(a, |context|)
    ensures next == RankOne(a, 1.0, context)
  {
    var d := |context|;
    ghost var target := RankOne(a, 1.0, context);
    next := a;
    for i := 0 to d
      invariant Square(next, d)
      invariant forall k :: 0 <= k < d ==> next[k] == if k < i then target[k] else a[k]
    {
      var row := next[i];
      for j := 0 to d
        invariant |row| == d
        invariant forall k :: 0 <= k < d ==> row[k] == if k < j then target[i][k] else a[i][k]
      {
        row := row[j := row[j] + context[i] * context[j]];
        assert row[j] == a[i][j] + 1.0 * context[i] * context[j];
      }
      assert row == target[i];
      next := next[i := row];
    }
    assert next == target;
  }

  method AddReward(b: Vec, context: Vec, reward: real) returns (next: Vec)
    requires |b| == |context|
    ensures next == Add(b, Scale(reward, context))
  {
    next := b;
    for i := 0 to |b|
      invariant |next| == |b|
      invariant forall k :: 0 <= k < |b| ==> next[k] == if k < i then b[k] + reward * context[k] else b[k]
    {
      next := next[i := next[i] + reward * context[i]];
    }
    ghost var target := Add(b, Scale(reward, context));
    assert forall k :: 0 <= k < |b| ==> next[k] == target[k];
  }

  class FastBandit {
    const sqrt: real -> real
    const armCount: nat
    const featureCount: nat
    const alpha: real
    var inverseMatrices: seq<Mat>
    var bVectors: seq<Vec>
    var samplesSeen: nat

    ghost function View(): Fast
      reads this
    {
      Fast(armCount, featureCount, alpha, inverseMatrices, bVectors, samplesSeen)
    }

    ghost predicate Valid()
      reads this
    {
      FastShaped(View()) && 0 < armCount && IsSqrt(sqrt)
    }

    constructor (f: Fast, sqrt: real -> real)
      requires FastShaped(f) && 0 < f.armCount && IsSqrt(sqrt)
      ensures Valid() && View() == f && this.sqrt == sqrt
    {
      this.sqrt := sqrt;
      armCount, featureCount, alpha := f.armCount, f.featureCount, f.alpha;
      inverseMatrices, bVectors, samplesSeen := f.inverseMatrices, f.bVectors, f.samplesSeen;
    }

    /** `LinUcbFast::new`. */
    static method New(c: Config, sqrt: real -> real) returns (r: Result<FastBandit>)
      requires IsSqrt(sqrt)
      ensures r.Ok? <==> FastNew(c).Ok?
      ensures r.Ok? <==> c.armCount > 0 && c.featureCount > 0 && c.alpha > 0.0
      ensures r.Err? ==> FastNew(c) == Err(r.error)
      ensures r.Ok? ==> fresh(r.value) && r.value.Valid() && r.value.View() == FastNew(c).value && r.value.sqrt == sqrt
    {
      match ConfigResult(c)
      case Err(e) => r := Err(e);
      case Ok(_) =>
        var bandit := new FastBandit(FastNew(c).value, sqrt);
        r := Ok(bandit);
    }

    /** `LinUcbFast::validate`, run on a state before it becomes an object. */
    static method Validate(f: Fast, sqrt: real -> real) returns (r: Result<()>)
      requires IsSqrt(sqrt)
      ensures r.Ok? <==> FastValid(f, sqrt)
    {
      var config := ConfigResult(Config(f.alpha, f.armCount, f.featureCount));
      if config.Err? {
        return config;
      }
      if |f.inverseMatrices| != f.armCount || |f.bVectors| != f.armCount {
        return Err(InvalidState(ArmLengths));
      }
      for arm := 0 to f.armCount
        invariant Shaped(f.inverseMatrices[..arm], f.bVectors[..arm], arm, f.featureCount)
        invariant forall k :: 0 <= k < arm ==>
          NearlySymmetric(f.inverseMatrices[k]) && FactorResult(f.inverseMatrices[k], sqrt).Ok?
      {
        var matrix := f.inverseMatrices[arm];
        if |matrix| != f.featureCount || |f.bVectors[arm]| != f.featureCount ||
           exists i :: 0 <= i < |matrix| && |matrix[i]| != f.featureCount {
          return Err(InvalidState(ArmDimensions));
        }
        if !NearlySymmetric(matrix) {
          return Err(InvalidState(NotSymmetric));
        }
        var factor := CholeskyFactor(matrix, sqrt);
        match factor
        case Err(e) => return Err(e);
        case Ok(_) =>
      }
      assert f.inverseMatrices[..f.armCount] == f.inverseMatrices && f.bVectors[..f.armCount] == f.bVectors;
      r := Ok(());
    }

    /** `LinUcbFast::from_linucb`: invert every arm's matrix through its Cholesky factor. */
    static method FromLinUcb(source: StableBandit) returns (r: FastBandit)
      requires source.Valid()
      ensures fresh(r) && r.Valid() && r.sqrt == source.sqrt
      ensures RidgeBandit.FromLinUcb(source.View(), source.sqrt) == Ok(r.View())
      ensures Refines(r.View(), source.View())
    {
      var inverses := [];
      FromLinUcbRefines(source.View(), source.sqrt);
      for arm := 0 to source.armCount
        invariant InvertArms(source.aMatrices, source.sqrt, arm) == Ok(inverses)
      {
        InvertArm(source.aMatrices[arm], source.sqrt);
        var lower := CholeskyFactor(source.aMatrices[arm], source.sqrt);
        var inverse := InverseFromCholesky(lower.value, source.aMatrices[arm]);
        inverses := inverses + [inverse];
      }
      r := new FastBandit(Fast(source.armCount, source.featureCount, source.alpha, inverses,
                               source.bVectors, source.samplesSeen), source.sqrt);
    }

    /** The Sherman-Morrison update with all of its guards. */
    method Update(arm: nat, context: Vec, reward: real) returns (r: Result<()>)
      requires Valid()
      modifies this
      ensures Valid()
      ensures (View(), r) == FastUpdate(old(View()), arm, context, reward)
    {
      var request := CheckRequest(armCount, featureCount, arm, context);
      if request.Err? {
        return request;
      }
      var nextInverse := DowndateInverse(inverseMatrices[arm], context);
      if nextInverse.Err? {
        return Err(nextInverse.error);
      }
      var nextB := AddReward(bVectors[arm], context, reward);
      var nextSamples := CheckedIncrement(samplesSeen);
      if nextSamples.Err? {
        return Err(nextSamples.error);
      }
      inverseMatrices := inverseMatrices[arm := nextInverse.value];
      bVectors := bVectors[arm := nextB];
      samplesSeen := nextSamples.value;
      r := Ok(());
    }

    method Reset()
      requires Valid()
      modifies this
      ensures Valid() && View() == FastReset(old(View()))
      ensures alpha > 0.0 && armCount > 0 && featureCount > 0 ==> FastNew(Config(alpha, armCount, featureCount)) == Ok(View())
    {
      inverseMatrices := seq(armCount, _ => Identity(featureCount));
      bVectors := seq(armCount, _ => Zero(featureCount));
      samplesSeen := 0;
    }

    method ScoreArmValidated(arm: nat, context: Vec) returns (r: ArmScore)
      requires Valid() && arm < armCount && |context| == featureCount
      ensures r == FastScore(View(), arm, context, sqrt)
    {
      var theta := CheckedMatrixVectorMul(inverseMatrices[arm], bVectors[arm]);
      var exploitation := CheckedDot(theta, context);
      var solved := CheckedMatrixVectorMul(inverseMatrices[arm], context);
      var variance := CheckedDot(context, solved);
      var bonus := alpha * sqrt(Max(variance, 0.0));
      r := ArmScore(arm, exploitation, bonus, exploitation + bonus);
    }

    method ScoreAll(context: Vec) returns (r: Result<seq<ArmScore>>)
      requires Valid()
      ensures |context| != featureCount ==> r == Err(DimensionMismatch(featureCount, |context|))
      ensures |context| == featureCount ==> r == Ok(FastScores(View(), context, sqrt, armCount))
    {
      if |context| != featureCount {
        return Err(DimensionMismatch(featureCount, |context|));
      }
      var scores := [];
      for arm := 0 to armCount
        invariant scores == FastScores(View(), context, sqrt, arm)
      {
        var score := ScoreArmValidated(arm, context);
        scores := scores + [score];
      }
      r := Ok(scores);
    }

    method SelectDeterministic(context: Vec) returns (r: Result<nat>)
      requires Valid()
      ensures |context| != featureCount ==> r == Err(DimensionMismatch(featureCount, |context|))
      ensures |context| == featureCount ==>
        r == Ok(TieBreak.LowestBest(Totals(FastScores(View(), context, sqrt, armCount))))
    {
      var scores := ScoreAll(context);
      if scores.Err? {
        return Err(scores.error);
      }
      var arm := TieBreak.SelectDeterministic(Totals(scores.value));
      r := Ok(arm);
    }

    /** `select`: the tape holds the draws the generator makes for the ties of these scores. */
    method Select(context: Vec, tape: seq<nat>) returns (r: Result<nat>)
      requires Valid()
      requires |context| == featureCount ==>
        tape in TieBreak.Tapes(TieBreak.Bounds(Totals(FastScores(View(), context, sqrt, armCount)), armCount))
      ensures |context| != featureCount ==> r == Err(DimensionMismatch(featureCount, |context|))
      ensures |context| == featureCount ==>
        r == Ok(TieBreak.ScanTo(Totals(FastScores(View(), context, sqrt, armCount)), tape, armCount).arm)
    {
      var scores := ScoreAll(context);
      if scores.Err? {
        return Err(scores.error);
      }
      var arm, _ := TieBreak.Select(Totals(scores.value), tape);
      r := Ok(arm);
    }
  }

  /** The new inverse of one arm: variance, denominator, entry loop, mirroring loop with its diagonal check. */
  method DowndateInverse(inverse: Mat, context: Vec) returns (r: Result<Mat>)
    requires Square(inverse, |context|)
    ensures r == FastInverse(inverse, context)
  {
    var d := |context|;
    var projected := CheckedMatrixVectorMul(inverse, context);
    var variance := CheckedDot(context, projected);
    var magnitude := 0.0;
    for i := 0 to d
      invariant magnitude == AbsSum(context, i)
    {
      magnitude := magnitude + Abs(context[i]);
    }
    if variance < -(RELATIVE_TOLERANCE * Max(magnitude, 1.0)) {
      return Err(InvalidState(NegativeVariance));
    }
    var denominator := 1.0 + variance;
    if denominator <= EPSILON {
      return Err(InvalidState(DenominatorNotPositive));
    }
    var next := SubtractOuterProduct(inverse, projected, denominator);
    r := MirrorUpper(next);
  }

  method SubtractOuterProduct(inverse: Mat, projected: Vec, denominator: real) returns (next: Mat)
    requires Square(inverse, |projected|) && denominator != 0.0
    ensures next == Downdate(inverse, projected, denominator)
  {
    var d := |projected|;
    ghost var target := Downdate(inverse, projected, denominator);
    next := inverse;
    for i := 0 to d
      invariant Square(next, d)
      invariant forall k :: 0 <= k < d ==> next[k] == if k < i then target[k] else inverse[k]
    {
      var row := next[i];
      for j := 0 to d
        invariant |row| == d
        invariant forall k :: 0 <= k < d ==> row[k] == if k < j then target[i][k] else inverse[i][k]
      {
        var adjustment := projected[i] * projected[j] / denominator;
        row := row[j := row[j] + -adjustment];
      }
      assert row == target[i];
      next := next[i := row];
    }
    assert next == target;
  }

  method MirrorUpper(m: Mat) returns (r: Result<Mat>)
    requires Square(m, |m|)
    ensures r == if PositiveDiagonal(Mirror(m)) then Ok(Mirror(m)) else Err(InvalidState(DiagonalNotPositive))
  {
    var n := |m|;
    ghost var target := Mirror(m);
    var next := m;
    for i := 0 to n
      invariant Square(next, n)
      invariant forall k :: 0 <= k < n ==> next[k] == if k < i then target[k] else m[k]
      invariant forall k :: 0 <= k < i ==> target[k][k] > 0.0
    {
      var row := next[i];
      for j := 0 to i
        invariant |row| == n
        invariant forall k :: 0 <= k < n ==> row[k] == if k < j then m[k][i] else m[i][k]
      {
        assert next[j][i] == m[j][i];
        row := row[j := next[j][i]];
      }
      assert row == target[i];
      next := next[i := row];
      if row[i] <= 0.0 {
        return Err(InvalidState(DiagonalNotPositive));
      }
    }
    assert next == target;
    r := Ok(next);
  }
}
