/** Gauss-Jordan elimination with partial pivoting: one step of `solve` and one step of
    `inverse` as functions on matrices, and what whole runs of them mean. */
module GaussJordan {
  import opened Reals
  import opened Vectors
  import opened Results

  const PIVOT_TOL: real := 0.000000000001

  // ---- the steps -----------------------------------------------------------

  /** The first row from `col` on whose entry in column `col` is largest in size. */
  function ArgMax(m: Matrix, col: nat, r: nat, best: nat): (p: nat)
    requires col <= best < r <= |m| && forall i :: 0 <= i < |m| ==> col < |m[i]|
    requires forall i :: col <= i < r ==> Abs(m[i][col]) <= Abs(m[best][col])
    requires forall i :: col <= i < best ==> Abs(m[i][col]) < Abs(m[best][col])
    ensures col <= p < |m|
    ensures forall i :: col <= i < |m| ==> Abs(m[i][col]) <= Abs(m[p][col])
    ensures forall i :: col <= i < p ==> Abs(m[i][col]) < Abs(m[p][col])
    decreases |m| - r
  {
    if r == |m| then best
    else if Abs(m[r][col]) > Abs(m[best][col]) then ArgMax(m, col, r + 1, r)
    else ArgMax(m, col, r + 1, best)
  }

  function PivotRow(m: Matrix, col: nat): (p: nat)
    requires col < |m| && forall i :: 0 <= i < |m| ==> col < |m[i]|
    ensures col <= p < |m|
    ensures forall i :: col <= i < |m| ==> Abs(m[i][col]) <= Abs(m[p][col])
  {
    ArgMax(m, col, col + 1, col)
  }

  function Swap(m: Matrix, i: nat, j: nat): (s: Matrix)
    requires i < |m| && j < |m|
    ensures |s| == |m| && s[i] == m[j] && s[j] == m[i]
    ensures forall r :: 0 <= r < |m| && r != i && r != j ==> s[r] == m[r]
  {
    m[i := m[j]][j := m[i]]
  }

  /** `row` less `factor` times `prow`, from column `c` on. */
  function Reduce(row: Vector, prow: Vector, factor: real, c: nat): (r: Vector)
    requires |row| == |prow| && c <= |row|
    ensures |r| == |row|
    ensures forall k :: 0 <= k < |row| ==> r[k] == if k >= c then row[k] - factor * prow[k] else row[k]
  {
    row[..c] + Sub(row[c..], Scale(factor, prow[c..]))
  }

  lemma ReduceByZero(row: Vector, prow: Vector, c: nat)
    requires |row| == |prow| && c <= |row|
    ensures Reduce(row, prow, 0.0, c) == row
  {
    Same(Reduce(row, prow, 0.0, c), row);
  }

  /** Row `r` with its entry in the pivot column eliminated, as `solve` does it. */
  function ReducedRow(s: Matrix, n: nat, col: nat, r: nat): (t: Vector)
    requires IsMatrix(s, n, n + 1) && col < n && r < n && s[col][col] != 0.0
    ensures |t| == n + 1
  {
    Reduce(s[r], s[col], s[r][col] / s[col][col], col)
  }

  /** Rows `0..k` other than the pivot row reduced. */
  function ClearForSolve(s: Matrix, n: nat, col: nat, k: nat): (t: Matrix)
    requires IsMatrix(s, n, n + 1) && col < n && k <= n && s[col][col] != 0.0
    ensures IsMatrix(t, n, n + 1)
    ensures forall r :: 0 <= r < n ==> t[r] == if r < k && r != col then ReducedRow(s, n, col, r) else s[r]
  {
    hide ReducedRow;
    seq(n, r requires 0 <= r < n => if r < k && r != col then ReducedRow(s, n, col, r) else s[r])
  }

  function Refused(m: Matrix, col: nat): bool
    requires col < |m| && forall i :: 0 <= i < |m| ==> col < |m[i]|
  {
    Abs(m[PivotRow(m, col)][col]) < PIVOT_TOL
  }

  function SolveStep(m: Matrix, n: nat, col: nat): (t: Matrix)
    requires IsMatrix(m, n, n + 1) && col < n && !Refused(m, col)
    ensures IsMatrix(t, n, n + 1)
  {
    ClearForSolve(Swap(m, col, PivotRow(m, col)), n, col, n)
  }

  function SolveFrom(m: Matrix, n: nat, col: nat): (r: Result<Matrix>)
    requires IsMatrix(m, n, n + 1) && col <= n
    ensures r.Ok? ==> IsMatrix(r.value, n, n + 1)
    decreases n - col
  {
    if col == n then Ok(m)
    else if Refused(m, col) then Err("singular matrix in solve()")
    else SolveFrom(SolveStep(m, n, col), n, col + 1)
  }

  function Augment(a: Matrix, b: Vector): (m: Matrix)
    requires |a| == |b|
    ensures |m| == |a| && forall i :: 0 <= i < |a| ==> m[i] == a[i] + [b[i]]
  {
    if a == [] then [] else [a[0] + [b[0]]] + Augment(a[1..], b[1..])
  }

  function ReadSolution(m: Matrix, n: nat, k: nat): (x: Vector)
    requires IsMatrix(m, n, n + 1) && k <= n && forall i :: 0 <= i < n ==> m[i][i] != 0.0
    ensures |x| == k && forall i :: 0 <= i < k ==> x[i] == m[i][n] / m[i][i]
  {
    if k == 0 then [] else ReadSolution(m, n, k - 1) + [m[k - 1][n] / m[k - 1][k - 1]]
  }

  // ---- solution sets -------------------------------------------------------

  /** `y` satisfies every row, read as the equation row . y = 0. */
  ghost predicate Sat(m: Matrix, y: Vector) {
    forall i :: 0 <= i < |m| ==> |m[i]| == |y| && Dot(m[i], y) == 0.0
  }

  /** Columns before `col` hold a nonzero diagonal entry and zeros elsewhere. */
  ghost predicate Cleared(m: Matrix, n: nat, col: nat) {
    && col <= n == |m| && (forall i :: 0 <= i < n ==> n <= |m[i]|)
    && (forall c :: 0 <= c < col ==> m[c][c] != 0.0)
    && forall c, r :: 0 <= c < col && 0 <= r < n && r != c ==> m[r][c] == 0.0
  }

  lemma ReduceIsCombination(row: Vector, prow: Vector, factor: real, c: nat, y: Vector)
    requires |row| == |prow| == |y| && c <= |row|
    requires forall k :: 0 <= k < c ==> prow[k] == 0.0
    ensures Dot(Reduce(row, prow, factor, c), y) == Dot(row, y) - factor * Dot(prow, y)
  {
    Same(Reduce(row, prow, factor, c), Sub(row, Scale(factor, prow)));
    DotCombines(row, factor, prow, y);
  }

  lemma ReducedRowMeans(s: Matrix, n: nat, col: nat, r: nat, y: Vector)
    requires IsMatrix(s, n, n + 1) && col < n && r < n && s[col][col] != 0.0 && |y| == n + 1
    requires forall k :: 0 <= k < col ==> s[col][k] == 0.0
    requires Dot(s[col], y) == 0.0
    ensures Dot(ReducedRow(s, n, col, r), y) == Dot(s[r], y)
  {
    ReduceIsCombination(s[r], s[col], s[r][col] / s[col][col], col, y);
  }

  lemma ReducedRowEntries(s: Matrix, n: nat, col: nat, r: nat)
    requires IsMatrix(s, n, n + 1) && col < n && r < n && s[col][col] != 0.0
    ensures ReducedRow(s, n, col, r)[col] == 0.0
    ensures forall k :: 0 <= k < col ==> ReducedRow(s, n, col, r)[k] == s[r][k]
  {
  }

  lemma ClearKeepsSolutions(s: Matrix, n: nat, col: nat, y: Vector)
    requires IsMatrix(s, n, n + 1) && col < n && s[col][col] != 0.0 && |y| == n + 1
    requires forall k :: 0 <= k < col ==> s[col][k] == 0.0
    ensures Sat(ClearForSolve(s, n, col, n), y) <==> Sat(s, y)
  {
    hide ReducedRow, ClearForSolve;
    var t := ClearForSolve(s, n, col, n);
    assert t[col] == s[col];
    if Dot(s[col], y) == 0.0 {
      forall r | 0 <= r < n ensures Dot(t[r], y) == Dot(s[r], y) {
        ReducedRowMeans(s, n, col, r, y);
      }
    }
  }

  lemma ClearedColumn(s: Matrix, n: nat, col: nat)
    requires IsMatrix(s, n, n + 1) && col < n && s[col][col] != 0.0 && Cleared(s, n, col)
    ensures Cleared(ClearForSolve(s, n, col, n), n, col + 1)
  {
    hide ReducedRow, ClearForSolve;
    var t := ClearForSolve(s, n, col, n);
    forall r | 0 <= r < n
      ensures r != col ==> t[r][col] == 0.0
      ensures forall c :: 0 <= c < col ==> t[r][c] == s[r][c]
    {
      ReducedRowEntries(s, n, col, r);
    }
  }

  lemma AfterSwap(m: Matrix, n: nat, w: nat, col: nat, y: Vector)
    requires IsMatrix(m, n, w) && col < n <= w == |y| && Cleared(m, n, col) && !Refused(m, col)
    ensures var s := Swap(m, col, PivotRow(m, col));
      && IsMatrix(s, n, w) && Cleared(s, n, col) && s[col][col] != 0.0
      && (Sat(s, y) <==> Sat(m, y))
  {
  }

  lemma AfterClear(s: Matrix, n: nat, col: nat, y: Vector)
    requires IsMatrix(s, n, n + 1) && col < n && |y| == n + 1 && Cleared(s, n, col) && s[col][col] != 0.0
    ensures Cleared(ClearForSolve(s, n, col, n), n, col + 1)
    ensures Sat(ClearForSolve(s, n, col, n), y) <==> Sat(s, y)
  {
    hide Sat, ClearForSolve;
    ClearKeepsSolutions(s, n, col, y);
    ClearedColumn(s, n, col);
  }

  lemma SolveStepKeeps(m: Matrix, n: nat, col: nat, y: Vector, t: Matrix)
    requires IsMatrix(m, n, n + 1) && IsMatrix(t, n, n + 1) && col < n && |y| == n + 1
    requires Cleared(m, n, col) && !Refused(m, col) && t == SolveStep(m, n, col)
    ensures Cleared(t, n, col + 1) && (Sat(t, y) <==> Sat(m, y))
  {
    hide Sat, Swap, ClearForSolve, Cleared, PivotRow, Refused, ReducedRow;
    AfterSwap(m, n, n + 1, col, y);
    AfterClear(Swap(m, col, PivotRow(m, col)), n, col, y);
  }

  lemma PivotNonZero(m: Matrix, col: nat)
    requires col < |m| && (forall i :: 0 <= i < |m| ==> col < |m[i]|) && !Refused(m, col)
    ensures m[PivotRow(m, col)][col] != 0.0
  {
  }

  lemma {:induction false} SolveFromKeeps(m: Matrix, n: nat, col: nat, y: Vector)
    requires IsMatrix(m, n, n + 1) && col <= n && |y| == n + 1 && Cleared(m, n, col)
    ensures SolveFrom(m, n, col).Ok? ==>
      Cleared(SolveFrom(m, n, col).value, n, n) && (Sat(SolveFrom(m, n, col).value, y) <==> Sat(m, y))
    decreases n - col
  {
    hide Sat, Cleared, SolveStep, Refused;
    if col < n && !Refused(m, col) {
      SolveStepKeeps(m, n, col, y, SolveStep(m, n, col));
      SolveFromKeeps(SolveStep(m, n, col), n, col + 1, y);
    }
  }

  /** The pure form of `solve`. */
  function Solution(a: Matrix, b: Vector): (r: Result<Vector>)
    requires IsMatrix(a, |a|, |a|) && |b| == |a|
    ensures r.Ok? ==> |r.value| == |a|
  {
    var n := |a|;
    var m := Augment(a, b);
    SolveFromKeeps(m, n, 0, Zeros(n + 1));
    match SolveFrom(m, n, 0)
    case Err(e) => Err(e)
    case Ok(t) => Ok(ReadSolution(t, n, n))
  }

  lemma AppendedDot(a: Vector, b: real, y: Vector)
    requires |a| == |y|
    ensures Dot(a + [b], y + [-1.0]) == Dot(a, y) - b
  {
    LastMinus(b);
    hide Dot;
    DotSplits(a + [b], y + [-1.0], |y|);
    assert (a + [b])[..|y|] == a && (y + [-1.0])[..|y|] == y;
    assert (a + [b])[|y|..] == [b] && (y + [-1.0])[|y|..] == [-1.0];
  }

  lemma LastMinus(b: real)
    ensures Dot([b], [-1.0]) == -b
  {
    assert Dot([], []) == 0.0;
  }

  lemma SatAugmented(a: Matrix, b: Vector, y: Vector)
    requires IsMatrix(a, |a|, |y|) && |b| == |a|
    ensures Sat(Augment(a, b), y + [-1.0]) <==> MatVec(a, y) == b
  {
    hide Dot, MatVec, Augment;
    var m, z := Augment(a, b), y + [-1.0];
    forall i | 0 <= i < |a| ensures |m[i]| == |z| && Dot(m[i], z) == MatVec(a, y)[i] - b[i] {
      AppendedDot(a[i], b[i], y);
    }
    if Sat(m, z) {
      forall i | 0 <= i < |a| ensures MatVec(a, y)[i] == b[i] {
        assert Dot(m[i], z) == 0.0;
      }
      Same(MatVec(a, y), b);
    }
  }

  lemma DiagonalRow(row: Vector, n: nat, i: nat, y: Vector)
    requires |row| == n + 1 && |y| == n && i < n && row[i] != 0.0
    requires forall k :: 0 <= k < n && k != i ==> row[k] == 0.0
    ensures Dot(row, y + [-1.0]) == 0.0 <==> y[i] == row[n] / row[i]
  {
    hide Dot;
    assert row == row[..n] + [row[n]];
    AppendedDot(row[..n], row[n], y);
    DotSparse(row[..n], y, i);
    QuotientIff(row[i], y[i], row[n]);
  }

  lemma SatDiagonal(m: Matrix, n: nat, y: Vector)
    requires IsMatrix(m, n, n + 1) && Cleared(m, n, n) && |y| == n
    ensures Sat(m, y + [-1.0]) <==> y == ReadSolution(m, n, n)
  {
    hide Dot, ReadSolution;
    var z, x := y + [-1.0], ReadSolution(m, n, n);
    forall i | 0 <= i < n ensures Dot(m[i], z) == 0.0 <==> y[i] == x[i] {
      DiagonalRow(m[i], n, i, y);
    }
    if Sat(m, z) {
      Same(y, x);
    }
  }

  lemma NothingCleared(m: Matrix, n: nat)
    requires |m| == n && forall i :: 0 <= i < n ==> n <= |m[i]|
    ensures Cleared(m, n, 0)
  {
  }

  /** Whatever `solve` returns satisfies the system and nothing else does. */
  lemma SolutionIsUnique(a: Matrix, b: Vector, y: Vector)
    requires IsMatrix(a, |a|, |a|) && |b| == |a| == |y|
    requires Solution(a, b).Ok?
    ensures MatVec(a, y) == b <==> y == Solution(a, b).value
  {
    hide Sat, Cleared, ReadSolution, MatVec, SolveFrom;
    var n, m := |a|, Augment(a, b);
    NothingCleared(m, n);
    SolveFromKeeps(m, n, 0, y + [-1.0]);
    SatAugmented(a, b, y);
    SatDiagonal(SolveFrom(m, n, 0).value, n, y);
  }
}
