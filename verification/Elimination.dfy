/** `solve` and `inverse` as the source runs them: rows of `m` changed in place. */
module Elimination {
  import opened Reals
  import opened Vectors
  import opened Results
  import opened GaussJordan
  import opened Inverse

  method FindPivot(m: array<Vector>, n: nat, w: nat, col: nat) returns (piv: nat)
    requires IsMatrix(m[..], n, w) && col < n <= w
    ensures piv == PivotRow(m[..], col)
  {
    piv := col;
    for r := col + 1 to n
      invariant col <= piv < r
      invariant forall i :: col <= i < r ==> Abs(m[..][i][col]) <= Abs(m[..][piv][col])
      invariant forall i :: col <= i < piv ==> Abs(m[..][i][col]) < Abs(m[..][piv][col])
      invariant ArgMax(m[..], col, r, piv) == PivotRow(m[..], col)
    {
      if Abs(m[r][col]) > Abs(m[piv][col]) {
        piv := r;
      }
    }
  }

  method SwapInPlace(m: array<Vector>, i: nat, j: nat)
    requires i < m.Length && j < m.Length
    modifies m
    ensures m[..] == Swap(old(m[..]), i, j)
  {
    m[i], m[j] := m[j], m[i];
  }

  /** `row` reduced up to column `c` and not yet from there on. */
  ghost function Halfway(row: Vector, prow: Vector, factor: real, col: nat, c: nat): Vector
    requires |row| == |prow| && col <= c <= |row|
  {
    Reduce(row, prow, factor, col)[..c] + row[c..]
  }

  lemma HalfwayStarts(row: Vector, prow: Vector, factor: real, col: nat)
    requires |row| == |prow| && col <= |row|
    ensures Halfway(row, prow, factor, col, col) == row
  {
    hide Reduce;
    ReducePrefix(row, prow, factor, col);
    assert row[..col] + row[col..] == row;
  }

  lemma ReducePrefix(row: Vector, prow: Vector, factor: real, c: nat)
    requires |row| == |prow| && c <= |row|
    ensures Reduce(row, prow, factor, c)[..c] == row[..c]
  {
    hide Sub, Scale;
    assert Reduce(row, prow, factor, c) == row[..c] + Sub(row[c..], Scale(factor, prow[c..]));
  }

  lemma HalfwayStep(row: Vector, prow: Vector, factor: real, col: nat, c: nat)
    requires |row| == |prow| && col <= c < |row|
    ensures Halfway(row, prow, factor, col, c)[c] == row[c]
    ensures Halfway(row, prow, factor, col, c)[c := row[c] - Product(factor, prow[c])]
         == Halfway(row, prow, factor, col, c + 1)
  {
    hide Reduce;
    ReduceAt(row, prow, factor, col, c);
    SpliceStep(Reduce(row, prow, factor, col), row, c);
  }

  lemma ReduceAt(row: Vector, prow: Vector, factor: real, col: nat, c: nat)
    requires |row| == |prow| && col <= c < |row|
    ensures Reduce(row, prow, factor, col)[c] == row[c] - Product(factor, prow[c])
  {
  }

  lemma SpliceStep(done: Vector, row: Vector, c: nat)
    requires c < |done| == |row|
    ensures (done[..c] + row[c..])[c] == row[c]
    ensures (done[..c] + row[c..])[c := done[c]] == done[..c + 1] + row[c + 1..]
  {
  }

  /** `m[r][c] -= factor * m[col][c]` for every column from `col` on. */
  method ReduceInPlace(m: array<Vector>, n: nat, col: nat, r: nat, factor: real)
    requires IsMatrix(m[..], n, n + 1) && col < n && r < n && r != col
    modifies m
    ensures m[..] == old(m[..])[r := Reduce(old(m[r]), old(m[col]), factor, col)]
  {
    hide Reduce, Halfway, Product;
    ghost var row, prow := m[r], m[col];
    assert |m[..][r]| == n + 1 && |m[..][col]| == n + 1;
    HalfwayStarts(row, prow, factor, col);
    for c := col to n + 1
      invariant m[r] == Halfway(row, prow, factor, col, c) && |m[r]| == n + 1
      invariant m[..] == old(m[..])[r := m[r]]
    {
      HalfwayStep(row, prow, factor, col, c);
      assert m[col] == prow;
      m[r] := m[r][c := m[r][c] - Product(factor, m[col][c])];
    }
    assert Halfway(row, prow, factor, col, n + 1) == Reduce(row, prow, factor, col) by {
      HalfwayEnds(row, prow, factor, col);
    }
  }

  lemma HalfwayEnds(row: Vector, prow: Vector, factor: real, col: nat)
    requires |row| == |prow| && col <= |row|
    ensures Halfway(row, prow, factor, col, |row|) == Reduce(row, prow, factor, col)
  {
  }

  method ClearInPlace(m: array<Vector>, n: nat, col: nat)
    requires IsMatrix(m[..], n, n + 1) && col < n && m[..][col][col] != 0.0
    modifies m
    ensures m[..] == ClearForSolve(old(m[..]), n, col, n)
  {
    hide Reduce;
    ghost var s := m[..];
    var pv := m[col][col];
    for r := 0 to n
      invariant m[..] == ClearForSolve(s, n, col, r)
    {
      if r != col {
        assert m[..][r] == s[r] && m[..][col] == s[col];
        var factor := m[r][col] / pv;
        if factor != 0.0 {
          ReduceInPlace(m, n, col, r, factor);
        } else {
          ReduceByZero(s[r], s[col], col);
        }
      }
    }
  }

  method Solve(a: Matrix, b: Vector) returns (r: Result<Vector>)
    requires IsMatrix(a, |a|, |a|) && |b| == |a|
    ensures r == Solution(a, b)
  {
    hide Refused, SolveStep, PivotRow;
    var n := |a|;
    var m := new Vector[n](i requires 0 <= i < n => a[i] + [b[i]]);
    RowsSame(m[..], Augment(a, b));
    NothingCleared(m[..], n);
    ghost var start := m[..];
    for col := 0 to n
      invariant IsMatrix(m[..], n, n + 1)
      invariant SolveFrom(start, n, 0) == SolveFrom(m[..], n, col)
      invariant Cleared(m[..], n, col)
    {
      var piv := FindPivot(m, n, n + 1, col);
      if Abs(m[piv][col]) < PIVOT_TOL {
        RefusedMeans(m[..], col);
        return Err("singular matrix in solve()");
      }
      ghost var before := m[..];
      StepUnfolds(before, n, col);
      SwapInPlace(m, col, piv);
      ClearInPlace(m, n, col);
      SolveStepKeeps(before, n, col, Zeros(n + 1), m[..]);
    }
    r := Ok(ReadSolution(m[..], n, n));
  }

  lemma RowsSame(a: Matrix, b: Matrix)
    requires |a| == |b| && forall i :: 0 <= i < |a| ==> a[i] == b[i]
    ensures a == b
  {
  }

  lemma RefusedMeans(m: Matrix, col: nat)
    requires col < |m| && forall i :: 0 <= i < |m| ==> col < |m[i]|
    ensures Refused(m, col) <==> Abs(m[PivotRow(m, col)][col]) < PIVOT_TOL
  {
  }

  lemma StepUnfolds(m: Matrix, n: nat, col: nat)
    requires IsMatrix(m, n, n + 1) && col < n && Abs(m[PivotRow(m, col)][col]) >= PIVOT_TOL
    ensures !Refused(m, col)
    ensures var s := Swap(m, col, PivotRow(m, col));
      IsMatrix(s, n, n + 1) && s[col][col] != 0.0 && SolveStep(m, n, col) == ClearForSolve(s, n, col, n)
    ensures SolveFrom(m, n, col) == SolveFrom(SolveStep(m, n, col), n, col + 1)
  {
  }

  lemma EliminateByZero(s: Matrix, n: nat, col: nat, r: nat)
    requires IsMatrix(s, n, 2 * n) && col < n && r < n && s[r][col] == 0.0
    ensures EliminatedRow(s, n, col, r) == s[r]
  {
  }

  lemma EliminateUnfolds(s: Matrix, n: nat, col: nat, r: nat)
    requires IsMatrix(s, n, 2 * n) && col < n && r < n
    ensures EliminatedRow(s, n, col, r) == Sub(s[r], Scale(s[r][col], s[col]))
  {
  }

  method InverseClearInPlace(m: array<Vector>, n: nat, col: nat)
    requires IsMatrix(m[..], n, 2 * n) && col < n
    modifies m
    ensures m[..] == ClearForInverse(old(m[..]), n, col, n)
  {
    hide EliminatedRow, Sub, Scale;
    ghost var s := m[..];
    for r := 0 to n
      invariant m[..] == ClearForInverse(s, n, col, r)
    {
      if r != col {
        assert m[..][r] == s[r] && m[..][col] == s[col];
        var factor := m[r][col];
        if factor != 0.0 {
          EliminateUnfolds(s, n, col, r);
          m[r] := Sub(m[r], Scale(factor, m[col]));
        } else {
          EliminateByZero(s, n, col, r);
        }
      }
    }
  }

  method NormalizeInPlace(m: array<Vector>, n: nat, col: nat, piv: nat)
    requires IsMatrix(m[..], n, 2 * n) && col < n && !Refused(m[..], col) && piv == PivotRow(m[..], col)
    requires Swap(m[..], col, piv)[col][col] != 0.0
    modifies m
    ensures m[..] == Normalized(old(m[..]), n, col)
  {
    hide Refused, PivotRow, Divide;
    SwapInPlace(m, col, piv);
    var pv := m[col][col];
    m[col] := Divide(m[col], pv);
  }

  method Invert(a: Matrix) returns (r: Result<Matrix>)
    requires IsMatrix(a, |a|, |a|)
    ensures r == InverseOf(a)
  {
    hide Refused, PivotRow, EliminatedRow, ClearForInverse, Divide, Normalized, Swap;
    var n := |a|;
    var id := Identity(n);
    var m := new Vector[n](i requires 0 <= i < n => a[i] + id[i]);
    RowsSame(m[..], Beside(a, id));
    ghost var start := m[..];
    for col := 0 to n
      invariant IsMatrix(m[..], n, 2 * n)
      invariant InverseFrom(start, n, 0) == InverseFrom(m[..], n, col)
    {
      var piv := FindPivot(m, n, 2 * n, col);
      if Abs(m[piv][col]) < PIVOT_TOL {
        RefusedMeans(m[..], col);
        return Err("singular matrix in inverse()");
      }
      ghost var before := m[..];
      RefusedMeans(before, col);
      InverseUnfolds(before, n, col);
      NormalizeInPlace(m, n, col, piv);
      InverseClearInPlace(m, n, col);
    }
    r := Ok(RightHalf(m[..], n));
  }

  lemma InverseUnfolds(m: Matrix, n: nat, col: nat)
    requires IsMatrix(m, n, 2 * n) && col < n && !Refused(m, col)
    ensures Swap(m, col, PivotRow(m, col))[col][col] != 0.0
    ensures InverseFrom(m, n, col) == InverseFrom(ClearForInverse(Normalized(m, n, col), n, col, n), n, col + 1)
  {
  }
}
