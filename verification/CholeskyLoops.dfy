/** The in-place loops of the factorisation and the solves, proved against their specification. */
module CholeskyLoops {
  import opened Errors
  import opened LinearAlgebra
  import opened Cholesky

  method CheckedDot(a: Vec, b: Vec) returns (result: real)
    requires |a| == |b|
    ensures result == Dot(a, b)
  {
    result := 0.0;
    for k := 0 to |a|
      invariant result == DotTo(a, b, k)
    {
      result := result + a[k] * b[k];
    }
  }

  method CheckedMatrixVectorMul(matrix: Mat, vector: Vec) returns (result: Vec)
    requires Rows(matrix, |vector|)
    ensures result == Apply(matrix, vector)
  {
    result := [];
    for i := 0 to |matrix|
      invariant result == Apply(matrix, vector)[..i]
    {
      var entry := CheckedDot(matrix[i], vector);
      result := result + [entry];
    }
  }

  lemma {:induction false} ForwardNext(l: seq<Vec>, n: nat, rhs: Vec, k: nat, y: Vec, correction: real)
    requires Lower(l, n) && k < |l| && k < |rhs|
    requires y == ForwardTo(l, n, rhs, k) + Zero(n - k)
    requires correction == DotTo(l[k], y, k)
    ensures y[k := (rhs[k] - correction) / l[k][k]] == ForwardTo(l, n, rhs, k + 1) + Zero(n - k - 1)
  {
    DotToAgree(l[k], y, l[k], ForwardTo(l, n, rhs, k), k);
    assert ForwardTo(l, n, rhs, k + 1) == ForwardTo(l, n, rhs, k) + [(rhs[k] - correction) / l[k][k]];
  }

  lemma {:induction false} BackwardNext(l: seq<Vec>, n: nat, y: Vec, k: nat, x: Vec, correction: real)
    requires Lower(l, n) && k < |l| <= |y| && x == BackwardFrom(l, n, y, k + 1)
    requires correction == DotTo(Column(l, k), x, |l|)
    ensures x[k := (y[k] - correction) / l[k][k]] == BackwardFrom(l, n, y, k)
  {}

  lemma {:induction false} FactorNext(a: Mat, sqrt: real -> real, l: seq<Vec>, row: Vec, pivot: real)
    requires Square(a, |a|) && IsSqrt(sqrt) && |l| < |a| && FactorRows(a, sqrt, |l|) == Some(l)
    requires row == ForwardTo(l, |a|, a[|l|], |l|) + Zero(|a| - |l|)
    requires pivot == a[|l|][|l|] - DotTo(row, row, |l|)
    ensures FactorRows(a, sqrt, |l| + 1) ==
      if pivot <= 0.0 then None else Some(l + [row[|l| := sqrt(pivot)]])
  {
    var solved := ForwardTo(l, |a|, a[|l|], |l|);
    DotToAgree(row, row, solved, solved, |l|);
    assert row[|l| := sqrt(pivot)] == Pad(solved, sqrt(pivot), |a|);
  }

  /** The correction of a diagonal entry: the squares of the row's first `n` entries. */
  method SquaredNorm(row: Vec, n: nat) returns (correction: real)
    requires n <= |row|
    ensures correction == DotTo(row, row, n)
  {
    correction := 0.0;
    for k := 0 to n
      invariant correction == DotTo(row, row, k)
    {
      correction := correction + row[k] * row[k];
    }
  }

  /** The inner two loops of the factorisation: row `i` of the factor from the rows above it. */
  method FactorRow(matrix: Mat, sqrt: real -> real, lower: seq<Vec>, i: nat) returns (r: Option<Vec>)
    requires Square(matrix, |matrix|) && IsSqrt(sqrt) && i < |matrix|
    requires FactorRows(matrix, sqrt, i) == Some(lower)
    ensures FactorRows(matrix, sqrt, i + 1) == if r.None? then None else Some(lower + [r.value])
  {
    var row := SolveRow(lower, |matrix|, matrix[i]);
    var correction := SquaredNorm(row, i);
    var residual := matrix[i][i] - correction;
    FactorNext(matrix, sqrt, lower, row, residual);
    if residual <= 0.0 {
      return None;
    }
    r := Some(row[i := sqrt(residual)]);
  }

  /** The entries of the new row before its diagonal. */
  method SolveRow(lower: seq<Vec>, n: nat, entries: Vec) returns (row: Vec)
    requires Lower(lower, n) && |lower| < n && |lower| <= |entries|
    ensures row == ForwardTo(lower, n, entries, |lower|) + Zero(n - |lower|)
  {
    row := Zero(n);
    for j := 0 to |lower|
      invariant row == ForwardTo(lower, n, entries, j) + Zero(n - j)
    {
      var correction := 0.0;
      for k := 0 to j
        invariant correction == DotTo(row, lower[j], k)
      {
        correction := correction + row[k] * lower[j][k];
      }
      DotToComm(row, lower[j], j);
      ForwardNext(lower, n, entries, j, row, correction);
      row := row[j := (entries[j] - correction) / lower[j][j]];
    }
  }

  /** The whole factorisation; its result is characterised both exactly and by what it means. */
  method CholeskyFactor(matrix: Mat, sqrt: real -> real) returns (r: Result<Mat>)
    requires IsSqrt(sqrt)
    ensures r == FactorResult(matrix, sqrt)
    ensures Symmetric(matrix) && |matrix| > 0 ==> (r.Ok? <==> PositiveDefinite(matrix))
    ensures Symmetric(matrix) && r.Ok? ==> IsFactor(matrix, r.value)
  {
    var n := |matrix|;
    if n == 0 || exists i :: 0 <= i < n && |matrix[i]| != n {
      return Err(InvalidState(NotSquare));
    }
    if Symmetric(matrix) { FactorIffPositive(matrix, sqrt); }
    var lower: seq<Vec> := [];
    for i := 0 to n
      invariant FactorRows(matrix, sqrt, i) == Some(lower)
    {
      var row := FactorRow(matrix, sqrt, lower, i);
      if row.None? {
        NoneStays(matrix, sqrt, i + 1, n);
        return Err(InvalidState(NotPositiveDefinite));
      }
      lower := lower + [row.value];
    }
    r := Ok(lower);
  }

  method ForwardSolve(lower: Mat, rhs: Vec) returns (intermediate: Vec)
    requires Square(lower, |rhs|) && Lower(lower, |rhs|)
    ensures intermediate == ForwardTo(lower, |rhs|, rhs, |rhs|)
  {
    var n := |lower|;
    intermediate := Zero(n);
    for i := 0 to n
      invariant intermediate == ForwardTo(lower, n, rhs, i) + Zero(n - i)
    {
      var correction := 0.0;
      for j := 0 to i
        invariant correction == DotTo(lower[i], intermediate, j)
      {
        correction := correction + lower[i][j] * intermediate[j];
      }
      ForwardNext(lower, n, rhs, i, intermediate, correction);
      intermediate := intermediate[i := (rhs[i] - correction) / lower[i][i]];
    }
  }

  method BackwardSolve(lower: Mat, intermediate: Vec) returns (solution: Vec)
    requires Square(lower, |intermediate|) && Lower(lower, |intermediate|)
    ensures solution == BackwardFrom(lower, |intermediate|, intermediate, 0)
  {
    var n := |lower|;
    solution := Zero(n);
    for i := n downto 0
      invariant solution == BackwardFrom(lower, n, intermediate, i)
    {
      var correction := 0.0;
      DotToVanish(Column(lower, i), solution, 0, i + 1);
      for j := i + 1 to n
        invariant correction == DotTo(Column(lower, i), solution, j)
      {
        correction := correction + lower[j][i] * solution[j];
      }
      BackwardNext(lower, n, intermediate, i, solution, correction);
      solution := solution[i := (intermediate[i] - correction) / lower[i][i]];
    }
  }

  /** Forward then backward substitution: the answer solves `A x = rhs` for every `A` that `lower` factors. */
  method CholeskySolve(lower: Mat, rhs: Vec) returns (r: Result<Vec>)
    requires Square(lower, |lower|) && Lower(lower, |lower|)
    ensures |rhs| != |lower| ==> r == Err(DimensionMismatch(|lower|, |rhs|))
    ensures |rhs| == |lower| ==> r == Ok(Solve(lower, rhs))
    ensures r.Ok? ==> forall a :: IsFactor(a, lower) ==> Apply(a, r.value) == rhs
  {
    var n := |lower|;
    if |rhs| != n {
      return Err(DimensionMismatch(n, |rhs|));
    }
    var intermediate := ForwardSolve(lower, rhs);
    var solution := BackwardSolve(lower, intermediate);
    forall a | IsFactor(a, lower) ensures Apply(a, solution) == rhs {
      SolveCorrect(a, lower, rhs);
    }
    r := Ok(solution);
  }

  /** Column-by-column inversion followed by the mirroring pass, which changes nothing. */
  method InverseFromCholesky(lower: Mat, ghost a: Mat) returns (inverse: Mat)
    requires Symmetric(a) && IsFactor(a, lower)
    ensures inverse == InverseColumns(lower)
    ensures Inverse(a, inverse) && Inverse(inverse, a) && Symmetric(inverse)
  {
    var n := |lower|;
    ghost var target := InverseColumns(lower);
    inverse := seq(n, _ => Zero(n));
    for column := 0 to n
      invariant Square(inverse, n)
      invariant forall i, j :: 0 <= i < n && 0 <= j < column ==> inverse[i][j] == target[i][j]
    {
      var basis := Zero(n)[column := 1.0];
      assert basis == Basis(n, column);
      var solution := CholeskySolve(lower, basis);
      for row := 0 to n
        invariant Square(inverse, n)
        invariant forall i, j :: 0 <= i < n && 0 <= j < column ==> inverse[i][j] == target[i][j]
        invariant forall i :: 0 <= i < row ==> inverse[i][column] == target[i][column]
      {
        inverse := inverse[row := inverse[row][column := solution.value[row]]];
      }
    }
    forall i | 0 <= i < n ensures inverse[i] == target[i] {}
    InverseColumnsCorrect(a, lower);
    inverse := AverageMirror(inverse);
  }

  /** The averaging pass over an already symmetric matrix. */
  method AverageMirror(m: Mat) returns (r: Mat)
    requires Symmetric(m)
    ensures r == m
  {
    r := m;
    for i := 0 to |m|
      invariant r == m
    {
      for j := 0 to i
        invariant r == m
      {
        var symmetric := (r[i][j] + r[j][i]) / 2.0;
        assert m[i][j := symmetric] == m[i] && m[j][i := symmetric] == m[j];
        r := r[i := r[i][j := symmetric]];
        r := r[j := r[j][i := symmetric]];
      }
    }
  }
}
