/** Vectors and square matrices over the reals: the algebra behind LinUCB's ridge models. */
module LinearAlgebra {
  type Vec = seq<real>
  type Mat = seq<seq<real>>

  ghost predicate Rows(a: seq<Vec>, n: nat) {
    forall i :: 0 <= i < |a| ==> |a[i]| == n
  }

  ghost predicate Square(a: Mat, n: nat) {
    |a| == n && Rows(a, n)
  }

  ghost predicate Symmetric(a: Mat) {
    Square(a, |a|) && forall i, j :: 0 <= i < |a| && 0 <= j < |a| ==> a[i][j] == a[j][i]
  }

  function Zero(n: nat): (w: Vec)
    ensures |w| == n
  {
    seq(n, _ => 0.0)
  }

  function Basis(n: nat, k: nat): Vec {
    seq(n, i => if i == k then 1.0 else 0.0)
  }

  function Identity(n: nat): Mat {
    seq(n, i requires 0 <= i < n => Basis(n, i))
  }

  function Add(u: Vec, v: Vec): (w: Vec)
    requires |u| == |v|
    ensures |w| == |u|
  {
    seq(|u|, i requires 0 <= i < |u| => u[i] + v[i])
  }

  function Scale(c: real, u: Vec): (w: Vec)
    ensures |w| == |u|
  {
    seq(|u|, i requires 0 <= i < |u| => c * u[i])
  }

  /** The sum of the first `k` products, accumulated in the order the source accumulates it. */
  function DotTo(u: Vec, v: Vec, k: nat): real
    requires k <= |u| && k <= |v|
  {
    if k == 0 then 0.0 else DotTo(u, v, k - 1) + u[k - 1] * v[k - 1]
  }

  function Dot(u: Vec, v: Vec): real
    requires |u| == |v|
  {
    DotTo(u, v, |u|)
  }

  /** Matrix times column vector. */
  function Apply(a: Mat, x: Vec): (w: Vec)
    requires Rows(a, |x|)
    ensures |w| == |a|
  {
    seq(|a|, i requires 0 <= i < |a| => Dot(a[i], x))
  }

  function Column(a: Mat, j: nat): Vec
    requires forall i :: 0 <= i < |a| ==> j < |a[i]|
  {
    seq(|a|, i requires 0 <= i < |a| => a[i][j])
  }

  /** Row vector times matrix, i.e. the transpose of `a` applied to `x`: a combination of rows. */
  function CombineTo(x: Vec, a: Mat, n: nat, k: nat): (r: Vec)
    requires Rows(a, n) && k <= |x| && k <= |a|
    ensures |r| == n
  {
    if k == 0 then Zero(n) else Add(CombineTo(x, a, n, k - 1), Scale(x[k - 1], a[k - 1]))
  }

  function Combine(x: Vec, a: Mat): (r: Vec)
    requires Square(a, |x|)
    ensures |r| == |x|
  {
    CombineTo(x, a, |x|, |x|)
  }

  function Mul(a: Mat, b: Mat): Mat
    requires Square(a, |a|) && Square(b, |a|)
  {
    seq(|a|, i requires 0 <= i < |a| => Combine(a[i], b))
  }

  /** `a + c * p * p^T`, the shape of both the stable and the Sherman-Morrison update. */
  function RankOne(a: Mat, c: real, p: Vec): (r: Mat)
    requires Square(a, |p|)
    ensures Square(r, |p|)
  {
    seq(|a|, i requires 0 <= i < |a| =>
      seq(|p|, j requires 0 <= j < |p| => a[i][j] + c * p[i] * p[j]))
  }

  function Quad(a: Mat, x: Vec): real
    requires Square(a, |x|)
  {
    Dot(x, Apply(a, x))
  }

  ghost predicate PositiveDefinite(a: Mat) {
    Square(a, |a|) && forall x: Vec {:trigger Quad(a, x)} :: |x| == |a| && x != Zero(|a|) ==> Quad(a, x) > 0.0
  }

  // ---- the dot product ----

  lemma DotToComm(u: Vec, v: Vec, k: nat)
    requires k <= |u| && k <= |v|
    ensures DotTo(u, v, k) == DotTo(v, u, k)
  {}

  /** A partial dot product only reads the entries below its bound. */
  lemma DotToAgree(u: Vec, v: Vec, u': Vec, v': Vec, k: nat)
    requires k <= |u| && k <= |v| && k <= |u'| && k <= |v'|
    requires forall i :: 0 <= i < k ==> u[i] * v[i] == u'[i] * v'[i]
    ensures DotTo(u, v, k) == DotTo(u', v', k)
  {}

  lemma {:induction false} DotToSame(u: Vec, v: Vec, u': Vec, v': Vec, k: nat)
    requires k <= |u| && k <= |v| && k <= |u'| && k <= |v'|
    requires forall i :: 0 <= i < k ==> u[i] == u'[i] && v[i] == v'[i]
    ensures DotTo(u, v, k) == DotTo(u', v', k)
  {
    if k == 0 {
    } else {
      DotToSame(u, v, u', v', k - 1);
    }
  }

  lemma DotToTail(u: Vec, v: Vec, lo: nat, hi: nat)
    requires lo <= hi <= |u| && hi <= |v|
    requires forall i :: lo <= i < hi ==> u[i] == 0.0
    ensures DotTo(u, v, hi) == DotTo(u, v, lo)
  {}

  lemma DotToZero(u: Vec, v: Vec, k: nat)
    requires k <= |u| && k <= |v|
    requires forall i :: 0 <= i < k ==> v[i] == 0.0
    ensures DotTo(u, v, k) == 0.0
  {}

  /** Terms whose product vanishes do not contribute. */
  lemma DotToVanish(u: Vec, v: Vec, lo: nat, hi: nat)
    requires lo <= hi <= |u| && hi <= |v|
    requires forall i :: lo <= i < hi ==> u[i] * v[i] == 0.0
    ensures DotTo(u, v, hi) == DotTo(u, v, lo)
  {}

  lemma DotToLinear(u: Vec, c: real, v: Vec, y: Vec, k: nat)
    requires |u| == |v| == |y| && k <= |u|
    ensures DotTo(Add(u, Scale(c, v)), y, k) == DotTo(u, y, k) + c * DotTo(v, y, k)
  {}

  lemma DotLinearRight(y: Vec, u: Vec, c: real, v: Vec)
    requires |u| == |v| == |y|
    ensures Dot(y, Add(u, Scale(c, v))) == Dot(y, u) + c * Dot(y, v)
  {
    DotToComm(y, Add(u, Scale(c, v)), |y|);
    DotToLinear(u, c, v, y, |y|);
    DotToComm(y, u, |y|);
    DotToComm(y, v, |y|);
  }

  function Times(a: real, b: real): (p: real)
    requires a > 0.0 && b > 0.0
    ensures p > 0.0
  {
    a * b
  }

  /** The square, with the sign facts the solver does not keep about a bare `r * r`. */
  function Sq(r: real): (s: real)
    ensures s == r * r
    ensures s >= 0.0
    ensures r != 0.0 ==> s > 0.0
  {
    if r == 0.0 then 0.0 else if r > 0.0 then Times(r, r) else Times(-r, -r)
  }

  lemma DotSelf(u: Vec, k: nat)
    requires k <= |u|
    ensures DotTo(u, u, k) >= 0.0
    ensures (exists i :: 0 <= i < k && u[i] != 0.0) ==> DotTo(u, u, k) > 0.0
  {
    if k == 0 {
    } else {
      DotSelf(u, k - 1);
      assert DotTo(u, u, k) == DotTo(u, u, k - 1) + Sq(u[k - 1]);
    }
  }

  lemma DotBasis(u: Vec, j: nat)
    requires j < |u|
    ensures Dot(u, Basis(|u|, j)) == Dot(Basis(|u|, j), u) == u[j]
  {
    var e := Basis(|u|, j);
    DotToVanish(u, e, 0, j);
    DotToVanish(u, e, j + 1, |u|);
    DotToComm(u, e, |u|);
  }

  // ---- matrices as operators ----

  lemma CombineEntry(x: Vec, a: Mat, n: nat, k: nat, j: nat)
    requires Rows(a, n) && k <= |x| && k <= |a| && j < n
    ensures CombineTo(x, a, n, k)[j] == DotTo(x, Column(a, j), k)
  {}

  /** Swapping the two summations of `x^T A y`. */
  lemma {:induction false} Adjoint(x: Vec, a: Mat, y: Vec, k: nat)
    requires Rows(a, |y|) && k <= |x| && k <= |a|
    ensures Dot(CombineTo(x, a, |y|, k), y) == DotTo(x, Apply(a, y), k)
  {
    if k == 0 {
      DotToTail(Zero(|y|), y, 0, |y|);
    } else {
      Adjoint(x, a, y, k - 1);
      var prior := CombineTo(x, a, |y|, k - 1);
      DotToLinear(prior, x[k - 1], a[k - 1], y, |y|);
      assert Apply(a, y)[k - 1] == Dot(a[k - 1], y);
    }
  }

  lemma SymmetricCombine(x: Vec, a: Mat)
    requires Symmetric(a) && |x| == |a|
    ensures Combine(x, a) == Apply(a, x)
  {
    forall j | 0 <= j < |x| ensures Combine(x, a)[j] == Apply(a, x)[j] {
      CombineEntry(x, a, |x|, |x|, j);
      assert Column(a, j) == a[j];
      DotToComm(x, a[j], |x|);
    }
  }

  lemma SelfAdjoint(a: Mat, x: Vec, y: Vec)
    requires Symmetric(a) && |x| == |y| == |a|
    ensures Dot(x, Apply(a, y)) == Dot(Apply(a, x), y)
  {
    Adjoint(x, a, y, |x|);
    SymmetricCombine(x, a);
  }

  lemma ApplyLinear(a: Mat, u: Vec, c: real, v: Vec)
    requires Square(a, |u|) && |u| == |v|
    ensures Apply(a, Add(u, Scale(c, v))) == Add(Apply(a, u), Scale(c, Apply(a, v)))
  {
    var left, right := Apply(a, Add(u, Scale(c, v))), Add(Apply(a, u), Scale(c, Apply(a, v)));
    forall i | 0 <= i < |a| ensures left[i] == right[i] {
      DotLinearRight(a[i], u, c, v);
    }
  }

  lemma RankOneRow(a: Mat, c: real, p: Vec, i: nat)
    requires Square(a, |p|) && i < |p|
    ensures RankOne(a, c, p)[i] == Add(a[i], Scale(c * p[i], p))
  {
    forall j | 0 <= j < |p| ensures RankOne(a, c, p)[i][j] == Add(a[i], Scale(c * p[i], p))[j] {
      assert Scale(c * p[i], p)[j] == (c * p[i]) * p[j];
    }
  }

  lemma ApplyRankOne(a: Mat, c: real, p: Vec, y: Vec, k: real)
    requires Square(a, |p|) && |y| == |p| && k == c * Dot(p, y)
    ensures Apply(RankOne(a, c, p), y) == Add(Apply(a, y), Scale(k, p))
  {
    var r := RankOne(a, c, p);
    var right := Add(Apply(a, y), Scale(k, p));
    forall i | 0 <= i < |p| ensures Apply(r, y)[i] == right[i] {
      RankOneRow(a, c, p, i);
      DotToLinear(a[i], c * p[i], p, y, |y|);
      assert (c * p[i]) * Dot(p, y) == c * Dot(p, y) * p[i];
    }
  }

  lemma ApplyMul(a: Mat, b: Mat, x: Vec)
    requires Square(a, |x|) && Square(b, |x|)
    ensures Square(Mul(a, b), |x|)
    ensures Apply(Mul(a, b), x) == Apply(a, Apply(b, x))
  {
    forall i | 0 <= i < |a| ensures Dot(Mul(a, b)[i], x) == Dot(a[i], Apply(b, x)) {
      Adjoint(a[i], b, x, |x|);
    }
  }

  lemma ApplyIdentity(x: Vec)
    ensures Square(Identity(|x|), |x|) && Apply(Identity(|x|), x) == x
  {
    forall i | 0 <= i < |x| ensures Dot(Basis(|x|, i), x) == x[i] {
      DotBasis(x, i);
    }
  }

  lemma ApplyBasis(a: Mat, j: nat)
    requires Square(a, |a|) && j < |a|
    ensures Apply(a, Basis(|a|, j)) == Column(a, j)
  {
    forall i | 0 <= i < |a| ensures Dot(a[i], Basis(|a|, j)) == a[i][j] {
      DotBasis(a[i], j);
    }
  }

  // ---- positive definiteness and inverses ----

  /** A positive-definite matrix sends only the zero vector to zero. */
  lemma PositiveInjective(a: Mat, x: Vec)
    requires PositiveDefinite(a) && |x| == |a| && Apply(a, x) == Zero(|a|)
    ensures x == Zero(|a|)
  {
    DotToVanish(x, Apply(a, x), 0, |x|);
    assert Quad(a, x) == 0.0;
  }

  lemma UniqueSolution(a: Mat, x: Vec, y: Vec)
    requires PositiveDefinite(a) && |x| == |y| == |a| && Apply(a, x) == Apply(a, y)
    ensures x == y
  {
    var d := Add(x, Scale(-1.0, y));
    ApplyLinear(a, x, -1.0, y);
    CancelItself(Apply(a, x));
    PositiveInjective(a, d);
    ZeroDifference(x, y);
  }

  lemma CancelItself(u: Vec)
    ensures Add(u, Scale(-1.0, u)) == Zero(|u|)
  {}

  lemma ZeroDifference(x: Vec, y: Vec)
    requires |x| == |y| && Add(x, Scale(-1.0, y)) == Zero(|x|)
    ensures x == y
  {
    forall i | 0 <= i < |x| ensures x[i] == y[i] {
      assert Add(x, Scale(-1.0, y))[i] == Zero(|x|)[i];
    }
  }

  ghost predicate Inverse(a: Mat, b: Mat) {
    Square(a, |a|) && Square(b, |a|) && Mul(a, b) == Identity(|a|)
  }

  lemma InverseApply(a: Mat, b: Mat, x: Vec)
    requires Inverse(a, b) && |x| == |a|
    ensures Apply(a, Apply(b, x)) == x
  {
    ApplyMul(a, b, x);
    ApplyIdentity(x);
  }

  /** `b` is a right inverse as soon as its columns solve `a x = e_j`. */
  lemma InverseByColumns(a: Mat, b: Mat)
    requires Square(a, |a|) && Square(b, |a|)
    requires forall j :: 0 <= j < |a| ==> Apply(a, Column(b, j)) == Basis(|a|, j)
    ensures Inverse(a, b)
  {
    var n, m := |a|, Mul(a, b);
    if n > 0 { ApplyMul(a, b, Zero(n)); }
    forall i, j | 0 <= i < n && 0 <= j < n ensures m[i][j] == Identity(n)[i][j] {
      ApplyBasis(b, j);
      ApplyMul(a, b, Basis(n, j));
      ApplyBasis(m, j);
      assert Column(m, j)[i] == Basis(n, j)[i];
    }
    forall i | 0 <= i < n ensures m[i] == Identity(n)[i] {}
  }

  /** A right inverse of a symmetric matrix is itself symmetric. */
  lemma InverseSymmetric(a: Mat, b: Mat)
    requires Symmetric(a) && Inverse(a, b)
    ensures Symmetric(b)
  {
    var n := |a|;
    forall i, j | 0 <= i < n && 0 <= j < n ensures b[i][j] == b[j][i] {
      var ei, ej := Basis(n, i), Basis(n, j);
      InverseApply(a, b, ei);
      InverseApply(a, b, ej);
      SelfAdjoint(a, Apply(b, ei), Apply(b, ej));
      ApplyBasis(b, i);
      ApplyBasis(b, j);
      DotBasis(Column(b, i), j);
      DotBasis(Column(b, j), i);
    }
  }

  /** For a positive-definite matrix a right inverse is two-sided. */
  lemma InverseTwoSided(a: Mat, b: Mat)
    requires PositiveDefinite(a) && Inverse(a, b)
    ensures Inverse(b, a)
  {
    forall j | 0 <= j < |a| ensures Apply(b, Column(a, j)) == Basis(|a|, j) {
      var e := Basis(|a|, j);
      ApplyBasis(a, j);
      InverseApply(a, b, Apply(a, e));
      UniqueSolution(a, Apply(b, Apply(a, e)), e);
    }
    InverseByColumns(b, a);
  }

  /** The inverse of a symmetric positive-definite matrix is positive definite. */
  lemma InversePositive(a: Mat, b: Mat)
    requires Symmetric(a) && PositiveDefinite(a) && Inverse(a, b)
    ensures PositiveDefinite(b)
  {
    forall y: Vec | |y| == |a| && y != Zero(|a|) ensures Quad(b, y) > 0.0 {
      var z := Apply(b, y);
      InverseApply(a, b, y);
      if z == Zero(|a|) {
        forall i | 0 <= i < |a| ensures y[i] == 0.0 {
          DotToVanish(a[i], z, 0, |a|);
        }
        assert false;
      }
      assert Quad(a, z) > 0.0;
      DotToComm(z, y, |y|);
    }
  }

  /** Adding `c * p * p^T` keeps symmetry. */
  lemma RankOneSymmetric(a: Mat, c: real, p: Vec)
    requires Symmetric(a) && |p| == |a|
    ensures Symmetric(RankOne(a, c, p))
  {
    forall i, j | 0 <= i < |a| && 0 <= j < |a|
      ensures RankOne(a, c, p)[i][j] == RankOne(a, c, p)[j][i]
    {
      assert c * p[i] * p[j] == c * p[j] * p[i];
    }
  }

  lemma QuadRankOne(a: Mat, x: Vec, y: Vec)
    requires Square(a, |x|) && |x| == |y|
    ensures Quad(RankOne(a, 1.0, x), y) == Quad(a, y) + Sq(Dot(x, y))
  {
    var t := Dot(x, y);
    ApplyRankOne(a, 1.0, x, y, t);
    DotLinearRight(y, Apply(a, y), t, x);
    DotToComm(y, x, |y|);
  }

  /** Adding `x * x^T` keeps positive definiteness. */
  lemma RankOnePositive(a: Mat, x: Vec)
    requires PositiveDefinite(a) && |x| == |a|
    ensures PositiveDefinite(RankOne(a, 1.0, x))
  {
    var r := RankOne(a, 1.0, x);
    forall y: Vec | |y| == |r| && y != Zero(|r|) ensures Quad(r, y) > 0.0 {
      QuadRankOne(a, x, y);
      assert Quad(a, y) > 0.0;
    }
  }

  /** Positive definite matrices stay nonnegative on every vector, the zero vector included. */
  lemma QuadNonNegative(b: Mat, x: Vec)
    requires PositiveDefinite(b) && |x| == |b|
    ensures Quad(b, x) >= 0.0
  {
    if x == Zero(|b|) {
      DotToVanish(x, Apply(b, x), 0, |x|);
    }
  }

  lemma DiagonalPositive(b: Mat, i: nat)
    requires PositiveDefinite(b) && i < |b|
    ensures b[i][i] > 0.0
  {
    var e := Basis(|b|, i);
    ApplyBasis(b, i);
    DotBasis(Column(b, i), i);
    assert e[i] == 1.0;
    assert Quad(b, e) > 0.0;
  }

  /** The Sherman-Morrison identity: the rank-one update of the inverse inverts the rank-one update. */
  lemma ShermanMorrison(a: Mat, b: Mat, x: Vec, c: real)
    requires Symmetric(b) && Inverse(a, b) && |x| == |a|
    requires c * (1.0 + Quad(b, x)) == -1.0
    ensures Inverse(RankOne(a, 1.0, x), RankOne(b, c, Apply(b, x)))
  {
    var a', b' := RankOne(a, 1.0, x), RankOne(b, c, Apply(b, x));
    forall j | 0 <= j < |a| ensures Apply(a', Column(b', j)) == Basis(|a|, j) {
      ApplyBasis(b', j);
      ShermanMorrisonApply(a, b, x, Basis(|a|, j), c);
    }
    InverseByColumns(a', b');
  }

  lemma ShermanMorrisonApply(a: Mat, b: Mat, x: Vec, y: Vec, c: real)
    requires Symmetric(b) && Inverse(a, b) && |x| == |y| == |a|
    requires c * (1.0 + Quad(b, x)) == -1.0
    ensures Apply(RankOne(a, 1.0, x), Apply(RankOne(b, c, Apply(b, x)), y)) == y
  {
    var p, q, v := Apply(b, x), Apply(b, y), Quad(b, x);
    var t := Dot(p, y);
    var k := c * t;
    var w := Add(q, Scale(k, p));
    ApplyRankOne(b, c, p, y, k);
    // A' w = A w + (x . w) x, where A q = y, A p = x and x . w = t + k * v.
    ApplyRankOne(a, 1.0, x, w, Dot(x, w));
    ApplyLinear(a, q, k, p);
    InverseApply(a, b, y);
    InverseApply(a, b, x);
    DotLinearRight(x, q, k, p);
    SelfAdjoint(b, x, y);
    var s := Dot(x, w);
    assert k + s == 0.0 by {
      assert t * (c * (1.0 + v)) == t * -1.0;
      assert k * v == t * c * v;
    }
    CancelOpposite(y, k, s, x);
  }

  lemma CancelOpposite(y: Vec, k: real, s: real, x: Vec)
    requires |x| == |y| && k + s == 0.0
    ensures Add(Add(y, Scale(k, x)), Scale(s, x)) == y
  {
    var left := Add(Add(y, Scale(k, x)), Scale(s, x));
    forall i | 0 <= i < |y| ensures left[i] == y[i] {
      assert left[i] == y[i] + k * x[i] + s * x[i];
      assert k * x[i] + s * x[i] == (k + s) * x[i];
    }
    assert left == y;
  }
}
