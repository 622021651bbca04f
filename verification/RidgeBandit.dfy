/**
 The two LinUCB representations as values, and their transitions.
 `Stable` keeps the ridge matrices, `Fast` keeps their inverses.
 */
module RidgeBandit {
  import opened Errors
  import opened Reals
  import opened LinearAlgebra
  import opened Cholesky
  import opened TieBreak

  datatype Config = Config(alpha: real, armCount: nat, featureCount: nat)

  datatype Stable = Stable(
    armCount: nat, featureCount: nat, alpha: real,
    aMatrices: seq<Mat>, bVectors: seq<Vec>, samplesSeen: nat)

  datatype Fast = Fast(
    armCount: nat, featureCount: nat, alpha: real,
    inverseMatrices: seq<Mat>, bVectors: seq<Vec>, samplesSeen: nat)

  datatype ArmScore = ArmScore(arm: nat, exploitation: real, explorationBonus: real, totalScore: real)

  function ConfigResult(c: Config): Result<()> {
    if c.armCount == 0 then Err(InvalidArmCount(c.armCount))
    else if c.featureCount == 0 then Err(InvalidFeatureCount(c.featureCount))
    else if c.alpha <= 0.0 then Err(InvalidParameter(c.alpha))
    else Ok(())
  }

  // ---- state invariants ----

  ghost predicate Shaped(matrices: seq<Mat>, vectors: seq<Vec>, arms: nat, d: nat) {
    && |matrices| == |vectors| == arms
    && (forall arm :: 0 <= arm < arms ==> Square(matrices[arm], d) && |vectors[arm]| == d)
  }

  /** One arm's matrix: symmetric and positive definite. */
  ghost predicate Ridge(a: Mat, d: nat) {
    0 < d && Square(a, d) && Symmetric(a) && PositiveDefinite(a)
  }

  /** What `LinUcb::validate` accepts. */
  ghost predicate StableValid(s: Stable) {
    && ConfigResult(Config(s.alpha, s.armCount, s.featureCount)).Ok?
    && Shaped(s.aMatrices, s.bVectors, s.armCount, s.featureCount)
    && (forall arm :: 0 <= arm < s.armCount ==> Ridge(s.aMatrices[arm], s.featureCount))
  }

  ghost predicate FastShaped(f: Fast) {
    Shaped(f.inverseMatrices, f.bVectors, f.armCount, f.featureCount)
  }

  /** The fast bandit represents the stable one: every cached matrix inverts the arm's ridge matrix. */
  ghost predicate Refines(f: Fast, s: Stable) {
    && StableValid(s) && FastShaped(f)
    && f.armCount == s.armCount && f.featureCount == s.featureCount && f.alpha == s.alpha
    && f.bVectors == s.bVectors && f.samplesSeen == s.samplesSeen
    && (forall arm :: 0 <= arm < s.armCount ==> Represents(f.inverseMatrices[arm], s.aMatrices[arm]))
  }

  ghost predicate Represents(inverse: Mat, a: Mat) {
    Symmetric(inverse) && Inverse(a, inverse) && Inverse(inverse, a)
  }

  // ---- construction, reset ----

  function StableNew(c: Config): Result<Stable> {
    match ConfigResult(c)
    case Err(e) => Err(e)
    case Ok(_) => Ok(StableReset(Stable(c.armCount, c.featureCount, c.alpha, [], [], 0)))
  }

  function StableReset(s: Stable): Stable {
    s.(aMatrices := seq(s.armCount, _ => Identity(s.featureCount)),
       bVectors := seq(s.armCount, _ => Zero(s.featureCount)), samplesSeen := 0)
  }

  function FastNew(c: Config): Result<Fast> {
    match ConfigResult(c)
    case Err(e) => Err(e)
    case Ok(_) => Ok(FastReset(Fast(c.armCount, c.featureCount, c.alpha, [], [], 0)))
  }

  function FastReset(f: Fast): Fast {
    f.(inverseMatrices := seq(f.armCount, _ => Identity(f.featureCount)),
       bVectors := seq(f.armCount, _ => Zero(f.featureCount)), samplesSeen := 0)
  }

  // ---- updates ----

  function CheckRequest(armCount: nat, featureCount: nat, arm: nat, context: Vec): Result<()> {
    if arm >= armCount then Err(InvalidArm(armCount, arm))
    else if |context| != featureCount then Err(DimensionMismatch(featureCount, |context|))
    else Ok(())
  }

  /** `LinUcb::update`: the new state (the old one on failure) and the result. */
  function StableUpdate(s: Stable, arm: nat, context: Vec, reward: real, sqrt: real -> real): (Stable, Result<()>)
    requires IsSqrt(sqrt) && Shaped(s.aMatrices, s.bVectors, s.armCount, s.featureCount)
  {
    match CheckRequest(s.armCount, s.featureCount, arm, context)
    case Err(e) => (s, Err(e))
    case Ok(_) =>
      var nextA := RankOne(s.aMatrices[arm], 1.0, context);
      var nextB := Add(s.bVectors[arm], Scale(reward, context));
      match CheckedIncrement(s.samplesSeen)
      case Err(e) => (s, Err(e))
      case Ok(nextSamples) =>
        match FactorResult(nextA, sqrt)
        case Err(e) => (s, Err(e))
        case Ok(_) =>
          (s.(aMatrices := s.aMatrices[arm := nextA],
              bVectors := s.bVectors[arm := nextB],
              samplesSeen := nextSamples), Ok(()))
  }

  const RELATIVE_TOLERANCE: real := 1.0 / 1000000000000.0

  function AbsSum(x: Vec, k: nat): real
    requires k <= |x|
  {
    if k == 0 then 0.0 else AbsSum(x, k - 1) + Abs(x[k - 1])
  }

  /** The mirroring pass: each entry below the diagonal is overwritten by the one above it. */
  function Mirror(m: Mat): (r: Mat)
    requires Square(m, |m|)
    ensures Square(r, |m|)
  {
    seq(|m|, i requires 0 <= i < |m| =>
      seq(|m|, j requires 0 <= j < |m| => if j < i then m[j][i] else m[i][j]))
  }

  /** The new inverse of `LinUcbFast::update`, with the three numeric guards as error paths. */
  function FastInverse(inverse: Mat, context: Vec): Result<Mat>
    requires Square(inverse, |context|)
  {
    var projected := Apply(inverse, context);
    var variance := Dot(context, projected);
    if variance < -(RELATIVE_TOLERANCE * Max(AbsSum(context, |context|), 1.0)) then
      Err(InvalidState(NegativeVariance))
    else
      var denominator := 1.0 + variance;
      if denominator <= EPSILON then Err(InvalidState(DenominatorNotPositive))
      else
        var next := Mirror(Downdate(inverse, projected, denominator));
        if PositiveDiagonal(next) then Ok(next) else Err(InvalidState(DiagonalNotPositive))
  }

  predicate PositiveDiagonal(m: Mat)
    requires Square(m, |m|)
  {
    forall i :: 0 <= i < |m| ==> m[i][i] > 0.0
  }

  /** Entry by entry, `inverse[i][j] + -(projected[i] * projected[j] / denominator)`. */
  function Downdate(inverse: Mat, projected: Vec, denominator: real): (r: Mat)
    requires Square(inverse, |projected|) && denominator != 0.0
    ensures Square(r, |projected|)
  {
    seq(|inverse|, i requires 0 <= i < |inverse| =>
      seq(|inverse|, j requires 0 <= j < |inverse| =>
        inverse[i][j] + -(projected[i] * projected[j] / denominator)))
  }

  /** `LinUcbFast::update`. */
  function FastUpdate(f: Fast, arm: nat, context: Vec, reward: real): (Fast, Result<()>)
    requires FastShaped(f)
  {
    match CheckRequest(f.armCount, f.featureCount, arm, context)
    case Err(e) => (f, Err(e))
    case Ok(_) =>
      match FastInverse(f.inverseMatrices[arm], context)
      case Err(e) => (f, Err(e))
      case Ok(nextInverse) =>
        var nextB := Add(f.bVectors[arm], Scale(reward, context));
        match CheckedIncrement(f.samplesSeen)
        case Err(e) => (f, Err(e))
        case Ok(nextSamples) =>
          (f.(inverseMatrices := f.inverseMatrices[arm := nextInverse],
              bVectors := f.bVectors[arm := nextB],
              samplesSeen := nextSamples), Ok(()))
  }

  // ---- scores ----

  function Score(arm: nat, alpha: real, exploitation: real, variance: real, sqrt: real -> real): ArmScore {
    var bonus := alpha * sqrt(if variance < 0.0 then 0.0 else variance);
    ArmScore(arm, exploitation, bonus, exploitation + bonus)
  }

  function StableScore(s: Stable, arm: nat, context: Vec, sqrt: real -> real): Result<ArmScore>
    requires IsSqrt(sqrt) && Shaped(s.aMatrices, s.bVectors, s.armCount, s.featureCount)
    requires arm < s.armCount && |context| == s.featureCount
  {
    match FactorResult(s.aMatrices[arm], sqrt)
    case Err(e) => Err(e)
    case Ok(lower) =>
      var theta := Solve(lower, s.bVectors[arm]);
      Ok(Score(arm, s.alpha, Dot(theta, context), Dot(context, Solve(lower, context)), sqrt))
  }

  function FastScore(f: Fast, arm: nat, context: Vec, sqrt: real -> real): ArmScore
    requires FastShaped(f) && arm < f.armCount && |context| == f.featureCount
  {
    var inverse := f.inverseMatrices[arm];
    var theta := Apply(inverse, f.bVectors[arm]);
    Score(arm, f.alpha, Dot(theta, context), Dot(context, Apply(inverse, context)), sqrt)
  }

  // ---- the identity starts every arm ----

  lemma IdentityRepresents(d: nat)
    ensures Symmetric(Identity(d)) && PositiveDefinite(Identity(d)) && Represents(Identity(d), Identity(d))
  {
    var id := Identity(d);
    forall x: Vec | |x| == d && x != Zero(d) ensures Quad(id, x) > 0.0 {
      ApplyIdentity(x);
      NonZeroEntry(x);
      DotSelf(x, d);
    }
    forall j | 0 <= j < d ensures Apply(id, Column(id, j)) == Basis(d, j) {
      ApplyIdentity(Basis(d, j));
      ApplyBasis(id, j);
      ApplyIdentity(Column(id, j));
    }
    InverseByColumns(id, id);
  }

  lemma ResetRefines(f: Fast, s: Stable)
    requires ConfigResult(Config(s.alpha, s.armCount, s.featureCount)).Ok?
    requires f.armCount == s.armCount && f.featureCount == s.featureCount && f.alpha == s.alpha
    ensures StableValid(StableReset(s)) && Refines(FastReset(f), StableReset(s))
  {
    IdentityRepresents(s.featureCount);
  }

  // ---- one update ----

  /** Over exact reals none of the guards of the fast update can fire on an inverse of a ridge matrix. */
  lemma GuardsUnreachable(inverse: Mat, context: Vec)
    requires Symmetric(inverse) && PositiveDefinite(inverse) && |context| == |inverse|
    ensures Quad(inverse, context) >= 0.0
    ensures 1.0 + Quad(inverse, context) >= 1.0 > EPSILON
    ensures var next := Downdate(inverse, Apply(inverse, context), 1.0 + Quad(inverse, context));
      Mirror(next) == next == RankOne(inverse, -1.0 / (1.0 + Quad(inverse, context)), Apply(inverse, context))
  {
    QuadNonNegative(inverse, context);
    DowndateRankOne(inverse, Apply(inverse, context), 1.0 + Quad(inverse, context));
  }

  lemma DowndateRankOne(inverse: Mat, p: Vec, denominator: real)
    requires Symmetric(inverse) && |p| == |inverse| && denominator > 0.0
    ensures var next := Downdate(inverse, p, denominator);
      Mirror(next) == next == RankOne(inverse, -1.0 / denominator, p)
  {
    var next, other := Downdate(inverse, p, denominator), RankOne(inverse, -1.0 / denominator, p);
    forall i, j | 0 <= i < |p| && 0 <= j < |p|
      ensures next[i][j] == other[i][j] == next[j][i]
    {
      Quotient(p[i], p[j], denominator);
      Quotient(p[j], p[i], denominator);
    }
    var mirrored := Mirror(next);
    forall i | 0 <= i < |p| ensures next[i] == other[i] {
      assert forall j :: 0 <= j < |p| ==> next[i][j] == other[i][j];
    }
    forall i | 0 <= i < |p| ensures mirrored[i] == next[i] {
      assert forall j :: 0 <= j < |p| ==> mirrored[i][j] == next[i][j];
    }
  }

  lemma Quotient(p: real, q: real, d: real)
    requires d > 0.0
    ensures -(p * q / d) == -1.0 / d * p * q == -(q * p / d)
  {
    assert p * q / d == (1.0 / d) * p * q;
    assert -1.0 / d == -(1.0 / d);
  }

  lemma RidgeStep(a: Mat, context: Vec, sqrt: real -> real)
    requires Ridge(a, |context|) && IsSqrt(sqrt)
    ensures Ridge(RankOne(a, 1.0, context), |context|)
    ensures FactorResult(RankOne(a, 1.0, context), sqrt).Ok?
  {
    RankOneSymmetric(a, 1.0, context);
    RankOnePositive(a, context);
    FactorIffPositive(RankOne(a, 1.0, context), sqrt);
  }

  lemma PositiveHasDiagonal(m: Mat)
    requires PositiveDefinite(m)
    ensures PositiveDiagonal(m)
  {
    forall i | 0 <= i < |m| ensures m[i][i] > 0.0 {
      DiagonalPositive(m, i);
    }
  }

  /** The downdated inverse inverts the updated ridge matrix. */
  lemma DowndateInverts(inverse: Mat, a: Mat, context: Vec, c: real)
    requires Ridge(a, |context|) && Represents(inverse, a)
    requires c * (1.0 + Quad(inverse, context)) == -1.0
    ensures Represents(RankOne(inverse, c, Apply(inverse, context)), RankOne(a, 1.0, context))
    ensures PositiveDiagonal(RankOne(inverse, c, Apply(inverse, context)))
  {
    var nextA, next := RankOne(a, 1.0, context), RankOne(inverse, c, Apply(inverse, context));
    ShermanMorrison(a, inverse, context, c);
    RankOneSymmetric(inverse, c, Apply(inverse, context));
    RankOnePositive(a, context);
    RankOneSymmetric(a, 1.0, context);
    InverseTwoSided(nextA, next);
    InversePositive(nextA, next);
    PositiveHasDiagonal(next);
  }

  /** The inverse of a ridge matrix meets what the guards ask for. */
  lemma RidgeGuards(inverse: Mat, a: Mat, context: Vec)
    requires Ridge(a, |context|) && Represents(inverse, a)
    ensures Quad(inverse, context) >= 0.0
    ensures Mirror(Downdate(inverse, Apply(inverse, context), 1.0 + Quad(inverse, context)))
      == RankOne(inverse, -1.0 / (1.0 + Quad(inverse, context)), Apply(inverse, context))
  {
    InversePositive(a, inverse);
    GuardsUnreachable(inverse, context);
  }

  /** The fast update of an arm's inverse succeeds and inverts the arm's new ridge matrix. */
  lemma InverseStep(inverse: Mat, a: Mat, context: Vec)
    requires Ridge(a, |context|) && Represents(inverse, a)
    ensures FastInverse(inverse, context).Ok?
    ensures Represents(FastInverse(inverse, context).value, RankOne(a, 1.0, context))
  {
    var d := 1.0 + Quad(inverse, context);
    RidgeGuards(inverse, a, context);
    ReciprocalCancels(d);
    DowndateInverts(inverse, a, context, -1.0 / d);
    FastInverseOk(inverse, context, RankOne(inverse, -1.0 / d, Apply(inverse, context)));
  }

  lemma FastInverseOk(inverse: Mat, context: Vec, next: Mat)
    requires Square(inverse, |context|) && Quad(inverse, context) >= 0.0
    requires Square(next, |next|) && PositiveDiagonal(next)
    requires Mirror(Downdate(inverse, Apply(inverse, context), 1.0 + Quad(inverse, context))) == next
    ensures FastInverse(inverse, context) == Ok(next)
  {
    AbsSumNonNegative(context, |context|);
  }

  lemma ReciprocalCancels(d: real)
    requires d > 0.0
    ensures (-1.0 / d) * d == -1.0
  {}

  lemma AbsSumNonNegative(x: Vec, k: nat)
    requires k <= |x|
    ensures AbsSum(x, k) >= 0.0
  {}

  /**
   One update keeps the refinement, and both bandits answer alike: an error only for a bad request
   or a saturated counter, never from a numeric guard.
   */
  lemma UpdateRefines(f: Fast, s: Stable, arm: nat, context: Vec, reward: real, sqrt: real -> real)
    requires Refines(f, s) && IsSqrt(sqrt)
    ensures FastUpdate(f, arm, context, reward).1 == StableUpdate(s, arm, context, reward, sqrt).1
    ensures Refines(FastUpdate(f, arm, context, reward).0, StableUpdate(s, arm, context, reward, sqrt).0)
    ensures StableUpdate(s, arm, context, reward, sqrt).1 ==
      if arm >= s.armCount then Err(InvalidArm(s.armCount, arm))
      else if |context| != s.featureCount then Err(DimensionMismatch(s.featureCount, |context|))
      else if s.samplesSeen >= U64_MAX then Err(InvalidState(CounterOverflow))
      else Ok(())
  {
    if arm < s.armCount && |context| == s.featureCount {
      RidgeStep(s.aMatrices[arm], context, sqrt);
      InverseStep(f.inverseMatrices[arm], s.aMatrices[arm], context);
    }
  }

  /** The stable update alone keeps what `validate` checks, and its factorisation check never rejects. */
  lemma StableUpdateValid(s: Stable, arm: nat, context: Vec, reward: real, sqrt: real -> real)
    requires StableValid(s) && IsSqrt(sqrt)
    ensures StableValid(StableUpdate(s, arm, context, reward, sqrt).0)
    ensures arm < s.armCount && |context| == s.featureCount && s.samplesSeen < U64_MAX ==>
      StableUpdate(s, arm, context, reward, sqrt).1.Ok?
  {
    if arm < s.armCount && |context| == s.featureCount {
      RidgeStep(s.aMatrices[arm], context, sqrt);
    }
  }

  // ---- scores ----

  /** Every score component of the two bandits is the same real number. */
  lemma ScoresAgree(f: Fast, s: Stable, arm: nat, context: Vec, sqrt: real -> real)
    requires Refines(f, s) && IsSqrt(sqrt) && arm < s.armCount && |context| == s.featureCount
    ensures StableScore(s, arm, context, sqrt) == Ok(FastScore(f, arm, context, sqrt))
  {
    var a, b, inverse := s.aMatrices[arm], s.bVectors[arm], f.inverseMatrices[arm];
    FactorIffPositive(a, sqrt);
    var lower := FactorResult(a, sqrt).value;
    SolveCorrect(a, lower, b);
    SolveCorrect(a, lower, context);
    InverseApply(a, inverse, b);
    InverseApply(a, inverse, context);
  }

  /** Scoring a valid state never fails. */
  lemma StableScoreOk(s: Stable, arm: nat, context: Vec, sqrt: real -> real)
    requires StableValid(s) && IsSqrt(sqrt) && arm < s.armCount && |context| == s.featureCount
    ensures StableScore(s, arm, context, sqrt).Ok?
  {
    FactorIffPositive(s.aMatrices[arm], sqrt);
  }

  function StableScores(s: Stable, context: Vec, sqrt: real -> real, k: nat): (r: seq<ArmScore>)
    requires StableValid(s) && IsSqrt(sqrt) && k <= s.armCount && |context| == s.featureCount
    ensures |r| == k
  {
    if k == 0 then [] else
      StableScoreOk(s, k - 1, context, sqrt);
      StableScores(s, context, sqrt, k - 1) + [StableScore(s, k - 1, context, sqrt).value]
  }

  function FastScores(f: Fast, context: Vec, sqrt: real -> real, k: nat): (r: seq<ArmScore>)
    requires FastShaped(f) && k <= f.armCount && |context| == f.featureCount
    ensures |r| == k
  {
    if k == 0 then [] else
      FastScores(f, context, sqrt, k - 1) + [FastScore(f, k - 1, context, sqrt)]
  }

  function Totals(scores: seq<ArmScore>): (r: seq<real>)
    ensures |r| == |scores|
  {
    seq(|scores|, i requires 0 <= i < |scores| => scores[i].totalScore)
  }

  /** All score lists agree, hence every deterministic or randomised choice made from them. */
  lemma {:induction false} AllScoresAgree(f: Fast, s: Stable, context: Vec, sqrt: real -> real, k: nat)
    requires Refines(f, s) && IsSqrt(sqrt) && k <= s.armCount && |context| == s.featureCount
    ensures FastScores(f, context, sqrt, k) == StableScores(s, context, sqrt, k)
  {
    if k == 0 {
    } else {
      AllScoresAgree(f, s, context, sqrt, k - 1);
      ScoresAgree(f, s, k - 1, context, sqrt);
    }
  }

  /** `LinUcb::select_deterministic`. */
  function StableChoice(s: Stable, context: Vec, sqrt: real -> real): Result<nat>
    requires StableValid(s) && IsSqrt(sqrt)
  {
    if |context| != s.featureCount then Err(DimensionMismatch(s.featureCount, |context|))
    else Ok(LowestBest(Totals(StableScores(s, context, sqrt, s.armCount))))
  }

  // ---- conversion from the stable state ----

  function InvertArms(matrices: seq<Mat>, sqrt: real -> real, k: nat): (r: Result<seq<Mat>>)
    requires IsSqrt(sqrt) && k <= |matrices|
  {
    if k == 0 then Ok([]) else
      match InvertArms(matrices, sqrt, k - 1)
      case Err(e) => Err(e)
      case Ok(prior) =>
        match FactorResult(matrices[k - 1], sqrt)
        case Err(e) => Err(e)
        case Ok(lower) => Ok(prior + [InverseColumns(lower)])
  }

  predicate NearlySymmetric(m: Mat)
    requires Square(m, |m|)
  {
    forall i, j :: 0 <= j < i < |m| ==>
      Abs(m[i][j] - m[j][i]) <= RELATIVE_TOLERANCE * Max(Max(Abs(m[i][j]), Abs(m[j][i])), 1.0)
  }

  /** What `LinUcbFast::validate` accepts. */
  ghost predicate FastValid(f: Fast, sqrt: real -> real)
    requires IsSqrt(sqrt)
  {
    && ConfigResult(Config(f.alpha, f.armCount, f.featureCount)).Ok?
    && FastShaped(f)
    && (forall arm :: 0 <= arm < f.armCount ==>
          NearlySymmetric(f.inverseMatrices[arm]) && FactorResult(f.inverseMatrices[arm], sqrt).Ok?)
  }

  function FromLinUcb(s: Stable, sqrt: real -> real): Result<Fast>
    requires IsSqrt(sqrt)
  {
    match InvertArms(s.aMatrices, sqrt, |s.aMatrices|)
    case Err(e) => Err(e)
    case Ok(inverses) =>
      Ok(Fast(s.armCount, s.featureCount, s.alpha, inverses, s.bVectors, s.samplesSeen))
  }

  lemma InvertArm(a: Mat, sqrt: real -> real)
    requires Ridge(a, |a|) && IsSqrt(sqrt)
    ensures FactorResult(a, sqrt).Ok?
    ensures Represents(InverseColumns(FactorResult(a, sqrt).value), a)
  {
    FactorIffPositive(a, sqrt);
    InverseColumnsCorrect(a, FactorResult(a, sqrt).value);
  }

  lemma {:induction false} InvertArmsEach(matrices: seq<Mat>, sqrt: real -> real, k: nat)
    requires IsSqrt(sqrt) && k <= |matrices|
    requires forall arm :: 0 <= arm < |matrices| ==> FactorResult(matrices[arm], sqrt).Ok?
    ensures InvertArms(matrices, sqrt, k).Ok? && |InvertArms(matrices, sqrt, k).value| == k
    ensures forall arm :: 0 <= arm < k ==>
      InvertArms(matrices, sqrt, k).value[arm] == InverseColumns(FactorResult(matrices[arm], sqrt).value)
  {
    if k == 0 {
    } else {
      InvertArmsEach(matrices, sqrt, k - 1);
    }
  }

  /** What refines a valid stable state passes the fast validator. */
  lemma RefinesValid(f: Fast, s: Stable, sqrt: real -> real)
    requires Refines(f, s) && IsSqrt(sqrt)
    ensures FastValid(f, sqrt)
  {
    forall arm | 0 <= arm < f.armCount
      ensures NearlySymmetric(f.inverseMatrices[arm]) && FactorResult(f.inverseMatrices[arm], sqrt).Ok?
    {
      InversePositive(s.aMatrices[arm], f.inverseMatrices[arm]);
      FactorIffPositive(f.inverseMatrices[arm], sqrt);
    }
  }

  /** Converting any valid stable state succeeds and lands in the refinement. */
  lemma FromLinUcbRefines(s: Stable, sqrt: real -> real)
    requires StableValid(s) && IsSqrt(sqrt)
    ensures FromLinUcb(s, sqrt).Ok? && Refines(FromLinUcb(s, sqrt).value, s)
    ensures FastValid(FromLinUcb(s, sqrt).value, sqrt)
  {
    forall arm | 0 <= arm < s.armCount
      ensures FactorResult(s.aMatrices[arm], sqrt).Ok?
      ensures Represents(InverseColumns(FactorResult(s.aMatrices[arm], sqrt).value), s.aMatrices[arm])
    {
      InvertArm(s.aMatrices[arm], sqrt);
    }
    InvertArmsEach(s.aMatrices, sqrt, s.armCount);
    RefinesValid(FromLinUcb(s, sqrt).value, s, sqrt);
  }

  // ---- whole runs ----

  datatype Op = Update(arm: nat, context: Vec, reward: real) | Reset

  function StableStep(s: Stable, op: Op, sqrt: real -> real): (Stable, Result<()>)
    requires IsSqrt(sqrt) && Shaped(s.aMatrices, s.bVectors, s.armCount, s.featureCount)
  {
    match op
    case Update(arm, context, reward) => StableUpdate(s, arm, context, reward, sqrt)
    case Reset => (StableReset(s), Ok(()))
  }

  function FastStep(f: Fast, op: Op): (Fast, Result<()>)
    requires FastShaped(f)
  {
    match op
    case Update(arm, context, reward) => FastUpdate(f, arm, context, reward)
    case Reset => (FastReset(f), Ok(()))
  }

  lemma StepRefines(f: Fast, s: Stable, op: Op, sqrt: real -> real)
    requires Refines(f, s) && IsSqrt(sqrt)
    ensures FastStep(f, op).1 == StableStep(s, op, sqrt).1
    ensures Refines(FastStep(f, op).0, StableStep(s, op, sqrt).0)
  {
    match op
    case Update(arm, context, reward) => UpdateRefines(f, s, arm, context, reward, sqrt);
    case Reset => ResetRefines(f, s);
  }

  lemma StableStepValid(s: Stable, op: Op, sqrt: real -> real)
    requires StableValid(s) && IsSqrt(sqrt)
    ensures StableValid(StableStep(s, op, sqrt).0)
  {
    match op
    case Update(arm, context, reward) => StableUpdateValid(s, arm, context, reward, sqrt);
    case Reset => IdentityRepresents(s.featureCount);
  }

  /** The state after a whole run, and the result of every call in it. */
  ghost function StableRun(s: Stable, ops: seq<Op>, sqrt: real -> real): (r: (Stable, seq<Result<()>>))
    requires IsSqrt(sqrt) && StableValid(s)
    ensures StableValid(r.0) && r.0.armCount == s.armCount && r.0.featureCount == s.featureCount
  {
    if ops == [] then (s, []) else
      var prior := StableRun(s, ops[..|ops| - 1], sqrt);
      var last := StableStep(prior.0, ops[|ops| - 1], sqrt);
      StableStepValid(prior.0, ops[|ops| - 1], sqrt);
      (last.0, prior.1 + [last.1])
  }

  ghost function FastRun(f: Fast, ops: seq<Op>): (r: (Fast, seq<Result<()>>))
    requires FastShaped(f)
    ensures FastShaped(r.0) && r.0.armCount == f.armCount && r.0.featureCount == f.featureCount
  {
    if ops == [] then (f, []) else
      var prior := FastRun(f, ops[..|ops| - 1]);
      var last := FastStep(prior.0, ops[|ops| - 1]);
      (last.0, prior.1 + [last.1])
  }

  /** The fast bandit refines the stable one over every run of updates and resets, call result by call result. */
  lemma {:induction false} RunRefines(f: Fast, s: Stable, ops: seq<Op>, sqrt: real -> real)
    requires Refines(f, s) && IsSqrt(sqrt)
    ensures FastRun(f, ops).1 == StableRun(s, ops, sqrt).1
    ensures Refines(FastRun(f, ops).0, StableRun(s, ops, sqrt).0)
  {
    if ops == [] {
    } else {
      var init := ops[..|ops| - 1];
      RunRefines(f, s, init, sqrt);
      StepRefines(FastRun(f, init).0, StableRun(s, init, sqrt).0, ops[|ops| - 1], sqrt);
    }
  }

  /** After any run from a fresh configuration all scores of all arms agree in every context. */
  lemma RunScoresAgree(c: Config, ops: seq<Op>, arm: nat, context: Vec, sqrt: real -> real)
    requires ConfigResult(c).Ok? && IsSqrt(sqrt) && arm < c.armCount && |context| == c.featureCount
    ensures FastNew(c).Ok? && StableNew(c).Ok? && Refines(FastNew(c).value, StableNew(c).value)
    ensures StableScore(StableRun(StableNew(c).value, ops, sqrt).0, arm, context, sqrt)
      == Ok(FastScore(FastRun(FastNew(c).value, ops).0, arm, context, sqrt))
  {
    var f, s := FastNew(c).value, StableNew(c).value;
    ResetRefines(Fast(c.armCount, c.featureCount, c.alpha, [], [], 0), Stable(c.armCount, c.featureCount, c.alpha, [], [], 0));
    RunRefines(f, s, ops, sqrt);
    ScoresAgree(FastRun(f, ops).0, StableRun(s, ops, sqrt).0, arm, context, sqrt);
  }

  /** After any run from a fresh configuration the two deterministic choices are the same, in every context. */
  lemma RunChoicesAgree(c: Config, ops: seq<Op>, context: Vec, sqrt: real -> real)
    requires ConfigResult(c).Ok? && IsSqrt(sqrt) && |context| == c.featureCount
    ensures FastNew(c).Ok? && StableNew(c).Ok? && Refines(FastNew(c).value, StableNew(c).value)
    ensures StableChoice(StableRun(StableNew(c).value, ops, sqrt).0, context, sqrt)
      == Ok(LowestBest(Totals(FastScores(FastRun(FastNew(c).value, ops).0, context, sqrt, c.armCount))))
  {
    var f, s := FastNew(c).value, StableNew(c).value;
    ResetRefines(Fast(c.armCount, c.featureCount, c.alpha, [], [], 0), Stable(c.armCount, c.featureCount, c.alpha, [], [], 0));
    RunRefines(f, s, ops, sqrt);
    AllScoresAgree(FastRun(f, ops).0, StableRun(s, ops, sqrt).0, context, sqrt, c.armCount);
  }
}
