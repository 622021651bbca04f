/** Cholesky factorisation, the triangular solves and the inverse built from them. */
module Cholesky {
  import opened Errors
  import opened LinearAlgebra

  /** What is assumed of the square-root routine: exact on every nonnegative real. */
  ghost predicate IsSqrt(f: real -> real) {
    forall r: real :: r >= 0.0 ==> f(r) >= 0.0 && f(r) * f(r) == r
  }

  /** `l` holds the leading rows, each of width `n`, of a lower-triangular matrix with positive diagonal. */
  ghost predicate Lower(l: seq<Vec>, n: nat) {
    && |l| <= n && Rows(l, n)
    && (forall i :: 0 <= i < |l| ==> l[i][i] > 0.0)
    && (forall i, j :: 0 <= i < |l| && i < j < n ==> l[i][j] == 0.0)
  }

  /** `l` is a Cholesky factor of `a`. */
  ghost predicate IsFactor(a: Mat, l: Mat) {
    && Square(a, |a|) && Square(l, |a|) && Lower(l, |a|)
    && forall i, j :: 0 <= i < |a| && 0 <= j < |a| ==> Dot(l[i], l[j]) == a[i][j]
  }

  // ---- the solves and the factorisation as functions ----

  /** Forward substitution: the first `k` entries of the solution of `L y = rhs`. */
  function ForwardTo(l: seq<Vec>, n: nat, rhs: Vec, k: nat): (y: Vec)
    requires Lower(l, n) && k <= |l| && k <= |rhs|
    ensures |y| == k
    ensures forall i :: 0 <= i < k ==> DotTo(l[i], y, i + 1) == rhs[i]
  {
    if k == 0 then [] else
      var y := ForwardTo(l, n, rhs, k - 1);
      var z := y + [(rhs[k - 1] - DotTo(l[k - 1], y, k - 1)) / l[k - 1][k - 1]];
      ForwardStep(l, n, rhs, k, y, z);
      z
  }

  lemma ForwardStep(l: seq<Vec>, n: nat, rhs: Vec, k: nat, y: Vec, z: Vec)
    requires 0 < k <= |l| && k <= |rhs| && Lower(l, n) && |y| == k - 1
    requires forall i :: 0 <= i < k - 1 ==> DotTo(l[i], y, i + 1) == rhs[i]
    requires z == y + [(rhs[k - 1] - DotTo(l[k - 1], y, k - 1)) / l[k - 1][k - 1]]
    ensures forall i :: 0 <= i < k ==> DotTo(l[i], z, i + 1) == rhs[i]
  {
    forall i | 0 <= i < k ensures DotTo(l[i], z, i + 1) == rhs[i] {
      if i < k - 1 {
        DotToAgree(l[i], z, l[i], y, i + 1);
      } else {
        DotToAgree(l[i], z, l[i], y, i);
      }
    }
  }

  /** Backward substitution: solves the equations `k..` of `L^T x = y`, with zeros before `k`. */
  function BackwardFrom(l: seq<Vec>, n: nat, y: Vec, k: nat): (x: Vec)
    requires Lower(l, n) && k <= |l| <= |y|
    ensures |x| == |l|
    ensures forall i :: 0 <= i < k ==> x[i] == 0.0
    ensures forall i :: k <= i < |l| ==> Dot(Column(l, i), x) == y[i]
    decreases |l| - k
  {
    if k == |l| then Zero(|l|) else
      var x := BackwardFrom(l, n, y, k + 1);
      var z := x[k := (y[k] - Dot(Column(l, k), x)) / l[k][k]];
      BackwardStep(l, n, y, k, x, z);
      z
  }

  lemma BackwardStep(l: seq<Vec>, n: nat, y: Vec, k: nat, x: Vec, z: Vec)
    requires Lower(l, n) && k < |l| <= |y| && |x| == |l|
    requires forall i :: 0 <= i < k + 1 ==> x[i] == 0.0
    requires forall i :: k + 1 <= i < |l| ==> Dot(Column(l, i), x) == y[i]
    requires z == x[k := (y[k] - Dot(Column(l, k), x)) / l[k][k]]
    ensures forall i :: k <= i < |l| ==> Dot(Column(l, i), z) == y[i]
  {
    forall i | k <= i < |l| ensures Dot(Column(l, i), z) == y[i] {
      var c := Column(l, i);
      if i > k {
        forall j | 0 <= j < |l| ensures c[j] * z[j] == c[j] * x[j] {
          if j == k { assert c[j] == 0.0; }
        }
        DotToAgree(c, z, c, x, |l|);
      } else {
        DotToUpdate(c, x, k, z[k], |l|);
        assert c[k] * z[k] == y[k] - Dot(c, x);
      }
    }
  }

  /** Writing one entry that was zero adds exactly that product. */
  lemma DotToUpdate(c: Vec, x: Vec, k: nat, v: real, hi: nat)
    requires k < hi <= |x| == |c| && x[k] == 0.0
    ensures DotTo(c, x[k := v], hi) == DotTo(c, x, hi) + c[k] * v
  {
    if hi == k + 1 {
      DotToAgree(c, x[k := v], c, x, k);
    } else {
      DotToUpdate(c, x, k, v, hi - 1);
    }
  }

  function Solve(l: Mat, rhs: Vec): (x: Vec)
    requires Square(l, |rhs|) && Lower(l, |rhs|)
    ensures |x| == |rhs|
  {
    BackwardFrom(l, |rhs|, ForwardTo(l, |rhs|, rhs, |rhs|), 0)
  }

  /** A new factor row: the solved entries, the diagonal entry, and zeros. */
  function Pad(row: Vec, diagonal: real, n: nat): (r: Vec)
    requires |row| < n
    ensures |r| == n
  {
    row + [diagonal] + Zero(n - |row| - 1)
  }

  /** The first `k` rows of the factor, or `None` as soon as a pivot is not positive. */
  function FactorRows(a: Mat, sqrt: real -> real, k: nat): (r: Option<seq<Vec>>)
    requires Square(a, |a|) && k <= |a| && IsSqrt(sqrt)
    ensures r.Some? ==> |r.value| == k && Lower(r.value, |a|)
  {
    if k == 0 then Some([]) else
      var prior := FactorRows(a, sqrt, k - 1);
      if prior.None? then None else
        var row := ForwardTo(prior.value, |a|, a[k - 1], k - 1);
        var pivot := a[k - 1][k - 1] - DotTo(row, row, k - 1);
        if pivot <= 0.0 then None
        else Some(prior.value + [Pad(row, sqrt(pivot), |a|)])
  }

  function Factor(a: Mat, sqrt: real -> real): (r: Option<Mat>)
    requires Square(a, |a|) && IsSqrt(sqrt)
    ensures r.Some? ==> Square(r.value, |a|) && Lower(r.value, |a|)
  {
    FactorRows(a, sqrt, |a|)
  }

  /** The result of the factorisation routine, with its errors. */
  function FactorResult(a: Mat, sqrt: real -> real): Result<Mat>
    requires IsSqrt(sqrt)
  {
    if |a| == 0 || exists i :: 0 <= i < |a| && |a[i]| != |a| then Err(InvalidState(NotSquare))
    else match Factor(a, sqrt)
      case None => Err(InvalidState(NotPositiveDefinite))
      case Some(l) => Ok(l)
  }

  lemma {:induction false} NoneStays(a: Mat, sqrt: real -> real, k: nat, m: nat)
    requires Square(a, |a|) && IsSqrt(sqrt) && k <= m <= |a| && FactorRows(a, sqrt, k).None?
    ensures FactorRows(a, sqrt, m).None?
  {
    if k == m {
    } else {
      NoneStays(a, sqrt, k, m - 1);
    }
  }

  // ---- the factor multiplies back to the matrix ----

  lemma PadAbove(above: Vec, row: Vec, diagonal: real, n: nat, j: nat)
    requires j < |row| < n == |above|
    requires forall k :: j < k < n ==> above[k] == 0.0
    ensures Dot(above, Pad(row, diagonal, n)) == DotTo(above, row, j + 1)
  {
    var r := Pad(row, diagonal, n);
    DotToVanish(above, r, j + 1, n);
    DotToAgree(above, r, above, row, j + 1);
  }

  lemma PadSelf(row: Vec, diagonal: real, n: nat)
    requires |row| < n
    ensures Dot(Pad(row, diagonal, n), Pad(row, diagonal, n)) == DotTo(row, row, |row|) + diagonal * diagonal
  {
    var r := Pad(row, diagonal, n);
    DotToVanish(r, r, |row| + 1, n);
    DotToAgree(r, r, row, row, |row|);
  }

  lemma LastRow(a: Mat, l: seq<Vec>, row: Vec, diagonal: real, j: nat)
    requires Square(a, |a|) && |row| == |l| < |a| && Lower(l, |a|) && j <= |l|
    requires forall j :: 0 <= j < |l| ==> DotTo(l[j], row, j + 1) == a[|l|][j]
    requires diagonal * diagonal == a[|l|][|l|] - DotTo(row, row, |l|)
    ensures Dot(Pad(row, diagonal, |a|), (l + [Pad(row, diagonal, |a|)])[j]) == a[|l|][j]
  {
    if j < |l| {
      PadAbove(l[j], row, diagonal, |a|, j);
      DotToComm(l[j], Pad(row, diagonal, |a|), |a|);
    } else {
      PadSelf(row, diagonal, |a|);
    }
  }

  /** The newest row of a factor is the solved row with a square root on its diagonal. */
  lemma NewestRow(a: Mat, sqrt: real -> real, k: nat)
    requires Square(a, |a|) && IsSqrt(sqrt) && k < |a| && FactorRows(a, sqrt, k + 1).Some?
    ensures FactorRows(a, sqrt, k).Some?
    ensures var l := FactorRows(a, sqrt, k).value;
            var row := ForwardTo(l, |a|, a[k], k);
            var pivot := a[k][k] - DotTo(row, row, k);
            pivot > 0.0 && FactorRows(a, sqrt, k + 1).value == l + [Pad(row, sqrt(pivot), |a|)]
  {}

  lemma NewestEntry(a: Mat, sqrt: real -> real, i: nat, j: nat)
    requires Square(a, |a|) && IsSqrt(sqrt) && j <= i < |a| && FactorRows(a, sqrt, i + 1).Some?
    ensures Dot(FactorRows(a, sqrt, i + 1).value[i], FactorRows(a, sqrt, i + 1).value[j]) == a[i][j]
  {
    NewestRow(a, sqrt, i);
    var l := FactorRows(a, sqrt, i).value;
    var row := ForwardTo(l, |a|, a[i], i);
    LastRow(a, l, row, sqrt(a[i][i] - DotTo(row, row, i)), j);
  }

  lemma {:induction false} FactorEntries(a: Mat, sqrt: real -> real, k: nat, i: nat, j: nat)
    requires Square(a, |a|) && IsSqrt(sqrt) && j <= i < k <= |a|
    requires FactorRows(a, sqrt, k).Some?
    ensures Dot(FactorRows(a, sqrt, k).value[i], FactorRows(a, sqrt, k).value[j]) == a[i][j]
  {
    NewestRow(a, sqrt, k - 1);
    if i < k - 1 {
      FactorEntries(a, sqrt, k - 1, i, j);
    } else {
      NewestEntry(a, sqrt, i, j);
    }
  }

  /** A computed factor of a symmetric matrix multiplies back to it. */
  lemma FactorCorrect(a: Mat, sqrt: real -> real)
    requires Symmetric(a) && IsSqrt(sqrt) && Factor(a, sqrt).Some?
    ensures IsFactor(a, Factor(a, sqrt).value)
  {
    var l := Factor(a, sqrt).value;
    forall i, j | 0 <= i < |a| && 0 <= j < |a| ensures Dot(l[i], l[j]) == a[i][j] {
      FactorEntries(a, sqrt, |a|, if i < j then j else i, if i < j then i else j);
      DotToComm(l[i], l[j], |a|);
    }
  }

  /** `A x == L (L^T x)`. */
  lemma FactorApply(a: Mat, l: Mat, x: Vec)
    requires IsFactor(a, l) && |x| == |a|
    ensures Apply(a, x) == Apply(l, Combine(x, l))
  {
    forall i | 0 <= i < |a| ensures Dot(a[i], x) == Dot(l[i], Combine(x, l)) {
      Adjoint(x, l, l[i], |x|);
      forall j | 0 <= j < |a| ensures Apply(l, l[i])[j] == a[i][j] {
        DotToComm(l[i], l[j], |a|);
      }
      assert Apply(l, l[i]) == a[i];
      DotToComm(x, a[i], |a|);
      DotToComm(l[i], Combine(x, l), |a|);
    }
  }

  /** The top nonzero entry of `x` survives in `L^T x`. */
  lemma CombineNonZero(l: Mat, x: Vec, i: nat)
    requires Square(l, |x|) && Lower(l, |x|) && i < |x| && x[i] != 0.0
    requires forall j :: i < j < |x| ==> x[j] == 0.0
    ensures Combine(x, l)[i] != 0.0
  {
    CombineEntry(x, l, |x|, |x|, i);
    DotToVanish(x, Column(l, i), 0, i);
    DotToVanish(x, Column(l, i), i + 1, |x|);
    assert Combine(x, l)[i] == x[i] * l[i][i];
    NonZeroProduct(x[i], l[i][i]);
  }

  lemma NonZeroProduct(p: real, q: real)
    requires p != 0.0 && q > 0.0
    ensures p * q != 0.0
  {
    if p < 0.0 {
      var s := Times(-p, q);
      assert p * q == -s;
    } else {
      var s := Times(p, q);
    }
  }

  lemma NonZeroEntry(x: Vec)
    ensures x == Zero(|x|) || exists k :: 0 <= k < |x| && x[k] != 0.0
  {}

  lemma TopNonZero(x: Vec) returns (i: nat)
    requires exists k :: 0 <= k < |x| && x[k] != 0.0
    ensures i < |x| && x[i] != 0.0 && forall j :: i < j < |x| ==> x[j] == 0.0
  {
    i := |x| - 1;
    while x[i] == 0.0
      invariant i < |x| && forall j :: i < j < |x| ==> x[j] == 0.0
      invariant exists k :: 0 <= k <= i && x[k] != 0.0
      decreases i
    {
      i := i - 1;
    }
  }

  /** A matrix with a Cholesky factor is positive definite: `x^T A x` is the squared length of `L^T x`. */
  lemma FactorPositive(a: Mat, l: Mat)
    requires IsFactor(a, l)
    ensures PositiveDefinite(a)
  {
    forall x: Vec | |x| == |a| && x != Zero(|a|) ensures Quad(a, x) > 0.0 {
      var w := Combine(x, l);
      FactorApply(a, l, x);
      Adjoint(x, l, w, |x|);
      assert Quad(a, x) == Dot(w, w);
      NonZeroEntry(x);
      var i := TopNonZero(x);
      CombineNonZero(l, x, i);
      DotSelf(w, |w|);
    }
  }

  // ---- a pivot that is not positive exhibits a direction of nonpositive curvature ----

  /** `x` annihilates the rows `l + [r]`: the failing row is a combination of the rows above it. */
  function NullDirection(l: seq<Vec>, n: nat, row: Vec): (x: Vec)
    requires Lower(l, n) && |row| == |l| < n
    ensures |x| == n && x[|l|] == 1.0 && forall j :: |l| < j < n ==> x[j] == 0.0
  {
    BackwardFrom(l, n, Scale(-1.0, row), 0) + [1.0] + Zero(n - |l| - 1)
  }

  /** The rows factored so far followed by the failing row, whose pivot is left out. */
  function FailingRows(l: seq<Vec>, n: nat, row: Vec): (rows: seq<Vec>)
    requires Rows(l, n) && |row| == |l| < n
    ensures |rows| == |l| + 1 && Rows(rows, n)
  {
    l + [Pad(row, 0.0, n)]
  }

  lemma NullCombination(l: seq<Vec>, n: nat, row: Vec)
    requires Lower(l, n) && |row| == |l| < n
    ensures CombineTo(NullDirection(l, n, row), FailingRows(l, n, row), n, |l| + 1) == Zero(n)
  {
    var rows, x := FailingRows(l, n, row), NullDirection(l, n, row);
    var w := CombineTo(x, rows, n, |l| + 1);
    forall k | 0 <= k < n ensures w[k] == 0.0 {
      CombineEntry(x, rows, n, |l| + 1, k);
      NullColumn(l, n, row, k);
    }
  }

  lemma SolvedColumn(l: seq<Vec>, n: nat, row: Vec, k: nat)
    requires Lower(l, n) && |row| == |l| < n && k < |l|
    ensures DotTo(BackwardFrom(l, n, Scale(-1.0, row), 0), Column(l, k), |l|) == -row[k]
  {
    var z := BackwardFrom(l, n, Scale(-1.0, row), 0);
    DotToComm(Column(l, k), z, |l|);
    assert Dot(Column(l, k), z) == Scale(-1.0, row)[k];
  }

  lemma NullColumn(l: seq<Vec>, n: nat, row: Vec, k: nat)
    requires Lower(l, n) && |row| == |l| < n && k < n
    ensures DotTo(NullDirection(l, n, row), Column(FailingRows(l, n, row), k), |l| + 1) == 0.0
  {
    if k < |l| { NullColumnSolved(l, n, row, k); } else { NullColumnEmpty(l, n, row, k); }
  }

  lemma NullColumnSolved(l: seq<Vec>, n: nat, row: Vec, k: nat)
    requires Lower(l, n) && |row| == |l| < n && k < |l|
    ensures DotTo(NullDirection(l, n, row), Column(FailingRows(l, n, row), k), |l| + 1) == 0.0
  {
    var i, x, c := |l|, NullDirection(l, n, row), Column(FailingRows(l, n, row), k);
    SolvedColumn(l, n, row, k);
    DotToSame(x, c, BackwardFrom(l, n, Scale(-1.0, row), 0), Column(l, k), i);
    assert c[i] == row[k];
  }

  lemma NullColumnEmpty(l: seq<Vec>, n: nat, row: Vec, k: nat)
    requires Lower(l, n) && |row| == |l| <= k < n
    ensures DotTo(NullDirection(l, n, row), Column(FailingRows(l, n, row), k), |l| + 1) == 0.0
  {
    var rows := FailingRows(l, n, row);
    var c := Column(rows, k);
    forall j | 0 <= j < |l| + 1 ensures c[j] == 0.0 {
      assert c[j] == rows[j][k];
      if j < |l| { assert rows[j] == l[j]; }
    }
    DotToZero(NullDirection(l, n, row), c, |l| + 1);
  }

  /** The products with row `p` are the entries of row `p` of `a`, except that the last pivot is left out. */
  ghost predicate RowFactors(a: Mat, rows: seq<Vec>, pivot: real, p: nat) {
    && Square(a, |a|) && Rows(rows, |a|) && p < |rows| <= |a|
    && forall q :: 0 <= q < |rows| ==>
        Dot(rows[q], rows[p]) == a[p][q] - (if p == q == |rows| - 1 then pivot else 0.0)
  }

  lemma FailingProducts(a: Mat, l: seq<Vec>, row: Vec, pivot: real, p: nat)
    requires Symmetric(a) && |row| == |l| < |a| && Lower(l, |a|) && p <= |l|
    requires forall p, q :: 0 <= q <= p < |l| ==> Dot(l[p], l[q]) == a[p][q]
    requires forall j :: 0 <= j < |l| ==> DotTo(l[j], row, j + 1) == a[|l|][j]
    requires pivot == a[|l|][|l|] - DotTo(row, row, |l|)
    ensures RowFactors(a, FailingRows(l, |a|, row), pivot, p)
  {
    var n, i := |a|, |l|;
    var rows := FailingRows(l, n, row);
    forall q | 0 <= q <= i
      ensures Dot(rows[q], rows[p]) == a[p][q] - (if p == q == i then pivot else 0.0)
    {
      DotToComm(rows[p], rows[q], n);
      if p < i && q < i {
        assert rows[p] == l[p] && rows[q] == l[q];
      } else if p == i && q == i {
        PadSelf(row, 0.0, n);
      } else {
        var j := if p < i then p else q;
        PadAbove(l[j], row, 0.0, n, j);
      }
    }
  }

  /** If the rows combine to zero along `x`, the curvature along `x` is the pivot. */
  lemma FailureCurvature(a: Mat, rows: seq<Vec>, pivot: real, x: Vec)
    requires Square(a, |a|) && Rows(rows, |a|) && 0 < |rows| <= |a| == |x|
    requires forall p :: 0 <= p < |rows| ==> RowFactors(a, rows, pivot, p)
    requires x[|rows| - 1] == 1.0 && forall j :: |rows| <= j < |x| ==> x[j] == 0.0
    requires CombineTo(x, rows, |a|, |rows|) == Zero(|a|)
    ensures Quad(a, x) == pivot
  {
    var i := |rows| - 1;
    forall p | 0 <= p <= i ensures Dot(a[p], x) == if p == i then pivot else 0.0 {
      Annihilated(x, rows, rows[p]);
      FailureRow(a, rows, pivot, x, p);
    }
    WeighImage(x, Apply(a, x), i, pivot);
  }

  lemma DotZero(r: Vec)
    ensures Dot(Zero(|r|), r) == 0.0
  {
    DotToVanish(Zero(|r|), r, 0, |r|);
  }

  lemma Annihilated(x: Vec, rows: seq<Vec>, r: Vec)
    requires Rows(rows, |r|) && |rows| <= |x|
    requires CombineTo(x, rows, |r|, |rows|) == Zero(|r|)
    ensures DotTo(x, Apply(rows, r), |rows|) == 0.0
  {
    Adjoint(x, rows, r, |rows|);
    DotZero(r);
  }

  lemma FailureRow(a: Mat, rows: seq<Vec>, pivot: real, x: Vec, p: nat)
    requires p < |rows| && RowFactors(a, rows, pivot, p) && |x| == |a|
    requires x[|rows| - 1] == 1.0 && forall j :: |rows| <= j < |x| ==> x[j] == 0.0
    requires DotTo(x, Apply(rows, rows[p]), |rows|) == 0.0
    ensures Dot(a[p], x) == if p == |rows| - 1 then pivot else 0.0
  {
    var i := |rows| - 1;
    var g := Apply(rows, rows[p]);
    var gap := if p == i then pivot else 0.0;
    forall q | 0 <= q <= i ensures g[q] == a[p][q] - (if q == i then gap else 0.0) {
      assert g[q] == Dot(rows[q], rows[p]);
    }
    FailureEntry(a[p], g, x, i, gap);
  }

  lemma WeighImage(x: Vec, w: Vec, i: nat, pivot: real)
    requires |x| == |w| && i < |x| && x[i] == 1.0 && w[i] == pivot
    requires forall p :: 0 <= p < i ==> w[p] == 0.0
    requires forall p :: i < p < |x| ==> x[p] == 0.0
    ensures Dot(x, w) == pivot
  {
    DotToVanish(x, w, 0, i);
    DotToVanish(x, w, i + 1, |x|);
  }

  lemma FailureEntry(b: Vec, g: Vec, x: Vec, i: nat, gap: real)
    requires |g| == i + 1 <= |b| == |x| && x[i] == 1.0 && DotTo(x, g, i + 1) == 0.0
    requires forall q :: 0 <= q < i ==> g[q] == b[q]
    requires g[i] == b[i] - gap
    requires forall j :: i < j < |x| ==> x[j] == 0.0
    ensures Dot(b, x) == gap
  {
    DotToComm(x, g, i);
    DotToAgree(g, x, b, x, i);
    DotToVanish(b, x, i + 1, |x|);
  }

  lemma FailingPivot(a: Mat, l: seq<Vec>, row: Vec, pivot: real)
    requires Symmetric(a) && |row| == |l| < |a| && Lower(l, |a|) && pivot <= 0.0
    requires forall p, q :: 0 <= q <= p < |l| ==> Dot(l[p], l[q]) == a[p][q]
    requires forall j :: 0 <= j < |l| ==> DotTo(l[j], row, j + 1) == a[|l|][j]
    requires pivot == a[|l|][|l|] - DotTo(row, row, |l|)
    ensures !PositiveDefinite(a)
  {
    var x, rows := NullDirection(l, |a|, row), FailingRows(l, |a|, row);
    NullCombination(l, |a|, row);
    forall p | 0 <= p < |rows| ensures RowFactors(a, rows, pivot, p) {
      FailingProducts(a, l, row, pivot, p);
    }
    FailureCurvature(a, rows, pivot, x);
    assert x[|l|] != Zero(|a|)[|l|];
  }

  lemma {:induction false} FailureNotPositive(a: Mat, sqrt: real -> real, k: nat)
    requires Symmetric(a) && IsSqrt(sqrt) && k <= |a| && FactorRows(a, sqrt, k).None?
    ensures !PositiveDefinite(a)
  {
    var prior := FactorRows(a, sqrt, k - 1);
    if prior.None? {
      FailureNotPositive(a, sqrt, k - 1);
    } else {
      var l := prior.value;
      var row := ForwardTo(l, |a|, a[k - 1], k - 1);
      forall p, q | 0 <= q <= p < k - 1 ensures Dot(l[p], l[q]) == a[p][q] {
        FactorEntries(a, sqrt, k - 1, p, q);
      }
      FailingPivot(a, l, row, a[k - 1][k - 1] - DotTo(row, row, k - 1));
    }
  }

  /** The factorisation of a symmetric matrix succeeds exactly when the matrix is positive definite. */
  lemma FactorIffPositive(a: Mat, sqrt: real -> real)
    requires Symmetric(a) && IsSqrt(sqrt)
    ensures Factor(a, sqrt).Some? <==> PositiveDefinite(a)
    ensures Factor(a, sqrt).Some? ==> IsFactor(a, Factor(a, sqrt).value)
  {
    if Factor(a, sqrt).Some? {
      FactorCorrect(a, sqrt);
      FactorPositive(a, Factor(a, sqrt).value);
    } else {
      FailureNotPositive(a, sqrt, |a|);
    }
  }

  // ---- the solves ----

  /** The two triangular solves return the one solution of `A x = rhs`. */
  lemma SolveCorrect(a: Mat, l: Mat, rhs: Vec)
    requires IsFactor(a, l) && |rhs| == |a|
    ensures Apply(a, Solve(l, rhs)) == rhs
    ensures forall x: Vec {:trigger Apply(a, x)} :: |x| == |a| && Apply(a, x) == rhs ==> x == Solve(l, rhs)
  {
    SolveSolves(a, l, rhs);
    FactorPositive(a, l);
    forall other: Vec {:trigger Apply(a, other)} | |other| == |a| && Apply(a, other) == rhs ensures other == Solve(l, rhs) {
      UniqueSolution(a, other, Solve(l, rhs));
    }
  }

  lemma SolveSolves(a: Mat, l: Mat, rhs: Vec)
    requires IsFactor(a, l) && |rhs| == |a|
    ensures Apply(a, Solve(l, rhs)) == rhs
  {
    ForwardSolves(l, rhs);
    BackwardSolves(l, ForwardTo(l, |a|, rhs, |a|));
    FactorApply(a, l, Solve(l, rhs));
  }

  lemma ForwardEntry(l: Mat, rhs: Vec, i: nat)
    requires Square(l, |rhs|) && Lower(l, |rhs|) && i < |rhs|
    ensures Dot(l[i], ForwardTo(l, |rhs|, rhs, |rhs|)) == rhs[i]
  {
    DotToTail(l[i], ForwardTo(l, |rhs|, rhs, |rhs|), i + 1, |rhs|);
  }

  lemma ForwardSolves(l: Mat, rhs: Vec)
    requires Square(l, |rhs|) && Lower(l, |rhs|)
    ensures Apply(l, ForwardTo(l, |rhs|, rhs, |rhs|)) == rhs
  {
    var y := ForwardTo(l, |rhs|, rhs, |rhs|);
    forall i | 0 <= i < |rhs| ensures Apply(l, y)[i] == rhs[i] {
      ForwardEntry(l, rhs, i);
    }
  }

  lemma BackwardSolves(l: Mat, y: Vec)
    requires Square(l, |y|) && Lower(l, |y|)
    ensures Combine(BackwardFrom(l, |y|, y, 0), l) == y
  {
    var x := BackwardFrom(l, |y|, y, 0);
    forall i | 0 <= i < |y| ensures Combine(x, l)[i] == y[i] {
      CombineEntry(x, l, |y|, |y|, i);
      DotToComm(x, Column(l, i), |y|);
    }
  }

  /** The matrix whose columns are the solutions for the basis vectors, before any mirroring. */
  function InverseColumns(l: Mat): (r: Mat)
    requires Square(l, |l|) && Lower(l, |l|)
    ensures Square(r, |l|)
  {
    seq(|l|, i requires 0 <= i < |l| =>
      seq(|l|, j requires 0 <= j < |l| => Solve(l, Basis(|l|, j))[i]))
  }

  /** Solving column by column gives a two-sided inverse that is symmetric before any mirroring. */
  lemma InverseColumnsCorrect(a: Mat, l: Mat)
    requires Symmetric(a) && IsFactor(a, l)
    ensures Inverse(a, InverseColumns(l)) && Inverse(InverseColumns(l), a)
    ensures Symmetric(InverseColumns(l))
  {
    var r := InverseColumns(l);
    forall j | 0 <= j < |a| ensures Apply(a, Column(r, j)) == Basis(|a|, j) {
      SolveCorrect(a, l, Basis(|a|, j));
      InverseColumn(l, j);
    }
    InverseByColumns(a, r);
    FactorPositive(a, l);
    InverseTwoSided(a, r);
    InverseSymmetric(a, r);
  }

  lemma InverseColumn(l: Mat, j: nat)
    requires Square(l, |l|) && Lower(l, |l|) && j < |l|
    ensures Column(InverseColumns(l), j) == Solve(l, Basis(|l|, j))
  {}
}
