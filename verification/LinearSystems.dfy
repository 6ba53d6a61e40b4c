/** What `solve` and `inverse` promise together: two-sided inverses, refusal of singular
    matrices, and agreement of the two eliminations pivot by pivot. */
module LinearSystems {
  import opened Reals
  import opened Vectors
  import opened GaussJordan
  import opened Inverse

  lemma ColumnIsImage(m: Matrix, n: nat, j: nat)
    requires IsMatrix(m, n, n) && j < n
    ensures MatVec(m, Unit(n, j)) == Column(m, j)
  {
    forall i | 0 <= i < n ensures MatVec(m, Unit(n, j))[i] == Column(m, j)[i] {
      DotSymmetric(m[i], Unit(n, j));
      DotUnit(n, j, m[i]);
    }
    Same(MatVec(m, Unit(n, j)), Column(m, j));
  }

  lemma SameMatrix(a: Matrix, b: Matrix, n: nat)
    requires IsMatrix(a, n, n) && IsMatrix(b, n, n)
    requires forall i, j :: 0 <= i < n && 0 <= j < n ==> a[i][j] == b[i][j]
    ensures a == b
  {
    forall i | 0 <= i < n ensures a[i] == b[i] {
      Same(a[i], b[i]);
    }
  }

  /** The returned matrix is an inverse on both sides. */
  lemma InverseIsTwoSided(a: Matrix)
    requires a != [] && IsMatrix(a, |a|, |a|) && InverseOf(a).Ok?
    ensures MatMul(a, InverseOf(a).value) == Identity(|a|)
    ensures MatMul(InverseOf(a).value, a) == Identity(|a|)
  {
    hide InverseOf, MatVec, MatMul, Dot, Unit;
    var n, m := |a|, InverseOf(a).value;
    forall j | 0 <= j < n
      ensures MatVec(a, Column(m, j)) == Unit(n, j) && MatVec(m, Column(a, j)) == Unit(n, j)
    {
      ColumnsInverted(a, j);
    }
    ProductIsIdentity(a, m, n);
    ProductIsIdentity(m, a, n);
  }

  lemma ColumnsInverted(a: Matrix, j: nat)
    requires IsMatrix(a, |a|, |a|) && InverseOf(a).Ok? && j < |a|
    ensures MatVec(a, Column(InverseOf(a).value, j)) == Unit(|a|, j)
    ensures MatVec(InverseOf(a).value, Column(a, j)) == Unit(|a|, j)
  {
    hide InverseOf, MatVec, Dot;
    var n, m, e := |a|, InverseOf(a).value, Unit(|a|, j);
    ColumnIsImage(m, n, j);
    ColumnIsImage(a, n, j);
    InverseUndoes(a, MatVec(m, e), e);
    InverseUndoes(a, e, MatVec(a, e));
  }

  lemma ProductIsIdentity(a: Matrix, b: Matrix, n: nat)
    requires n > 0 && IsMatrix(a, n, n) && IsMatrix(b, n, n)
    requires forall j :: 0 <= j < n ==> MatVec(a, Column(b, j)) == Unit(n, j)
    ensures MatMul(a, b) == Identity(n)
  {
    hide MatVec, MatMul, Dot, Unit, Column;
    forall i, j | 0 <= i < n && 0 <= j < n ensures MatMul(a, b)[i][j] == Identity(n)[i][j] {
      assert MatVec(a, Column(b, j))[i] == Unit(n, j)[i];
    }
    SameMatrix(MatMul(a, b), Identity(n), n);
  }

  /** Some nonzero vector is sent to zero. */
  ghost predicate Singular(a: Matrix)
    requires IsMatrix(a, |a|, |a|)
  {
    exists y: Vector :: |y| == |a| && y != Zeros(|a|) && MatVec(a, y) == Zeros(|a|)
  }

  lemma ImageOfZero(a: Matrix)
    requires IsMatrix(a, |a|, |a|)
    ensures MatVec(a, Zeros(|a|)) == Zeros(|a|)
  {
    forall i | 0 <= i < |a| ensures Dot(a[i], Zeros(|a|)) == 0.0 {
      DotSymmetric(a[i], Zeros(|a|));
      DotZeros(Zeros(|a|), a[i]);
    }
    Same(MatVec(a, Zeros(|a|)), Zeros(|a|));
  }

  lemma ImageAdds(a: Matrix, x: Vector, y: Vector)
    requires IsMatrix(a, |a|, |x|) && |x| == |y|
    ensures MatVec(a, Add(x, y)) == Add(MatVec(a, x), MatVec(a, y))
  {
    forall i | 0 <= i < |a| ensures Dot(a[i], Add(x, y)) == Dot(a[i], x) + Dot(a[i], y) {
      DotSymmetric(a[i], Add(x, y));
      DotAdds(x, y, a[i]);
      DotSymmetric(x, a[i]);
      DotSymmetric(y, a[i]);
    }
    Same(MatVec(a, Add(x, y)), Add(MatVec(a, x), MatVec(a, y)));
  }

  /** Both refuse every singular matrix, whatever the right-hand side. */
  lemma SingularIsRefused(a: Matrix, b: Vector)
    requires IsMatrix(a, |a|, |a|) && |b| == |a| && Singular(a)
    ensures Solution(a, b).Err? && InverseOf(a).Err?
  {
    hide Solution, InverseOf;
    var n := |a|;
    var y: Vector :| |y| == n && y != Zeros(n) && MatVec(a, y) == Zeros(n);
    if Solution(a, b).Ok? {
      var x := Solution(a, b).value;
      SolutionIsUnique(a, b, x);
      ImageAdds(a, x, y);
      Same(Add(b, Zeros(n)), b);
      SolutionIsUnique(a, b, Add(x, y));
      forall i | 0 <= i < n ensures y[i] == 0.0 {
        assert Add(x, y)[i] == x[i];
      }
    }
    if InverseOf(a).Ok? {
      ImageOfZero(a);
      InverseUndoes(a, y, Zeros(n));
      InverseUndoes(a, Zeros(n), Zeros(n));
    }
  }

  // ---- the two eliminations meet the same pivots ---------------------------

  /** The rows not yet used as pivots agree in the first `n` columns. */
  ghost predicate Alike(s: Matrix, t: Matrix, n: nat, col: nat) {
    && IsMatrix(s, n, n + 1) && IsMatrix(t, n, 2 * n)
    && forall r, k :: col <= r < n && 0 <= k < n ==> s[r][k] == t[r][k]
  }

  lemma SamePivot(s: Matrix, t: Matrix, n: nat, col: nat)
    requires Alike(s, t, n, col) && col < n
    ensures PivotRow(s, col) == PivotRow(t, col)
    ensures Refused(s, col) <==> Refused(t, col)
  {
  }

  lemma SwapAlike(s: Matrix, t: Matrix, n: nat, col: nat, p: nat)
    requires Alike(s, t, n, col) && col <= p < n
    ensures Alike(Swap(s, col, p), Swap(t, col, p), n, col)
  {
  }

  /** (x / p) y = x (y / p). */
  lemma MoveQuotient(x: real, y: real, p: real)
    requires p != 0.0
    ensures (x / p) * y == x * (y / p)
  {
  }

  /** After the swap, with `q` the pivot row's entry over the pivot, both steps take
      `q` times the row's own entry away. */
  lemma ReducedEntry(s: Matrix, n: nat, col: nat, r: nat, k: nat, q: real)
    requires IsMatrix(s, n, n + 1) && col < r < n && k < n && s[col][col] != 0.0
    requires forall c :: 0 <= c < col ==> s[col][c] == 0.0
    requires q == s[col][k] / s[col][col]
    ensures ReducedRow(s, n, col, r)[k] == s[r][k] - Product(s[r][col], q)
  {
    hide Reduce;
    var x, y, p := s[r][col], s[col][k], s[col][col];
    MoveQuotient(x, y, p);
    ReduceEntry(s[r], s[col], x / p, col, k);
  }

  lemma ReduceEntry(row: Vector, prow: Vector, factor: real, c: nat, k: nat)
    requires |row| == |prow| && c <= |row| && k < |row|
    requires k < c ==> prow[k] == 0.0
    ensures Reduce(row, prow, factor, c)[k] == row[k] - factor * prow[k]
  {
  }

  lemma EliminatedEntry(t: Matrix, n: nat, col: nat, r: nat, k: nat)
    requires IsMatrix(t, n, 2 * n) && col < r < n && k < n
    ensures EliminatedRow(t, n, col, r)[k] == t[r][k] - Product(t[r][col], t[col][k])
  {
  }

  lemma StepAlike(s: Matrix, t: Matrix, n: nat, col: nat)
    requires Alike(s, t, n, col) && col < n && !Refused(s, col) && !Refused(t, col) && Cleared(s, n, col)
    ensures Alike(SolveStep(s, n, col), InverseStep(t, n, col), n, col + 1)
  {
    hide PivotRow, Refused, ClearForSolve, ClearForInverse, Swap, Divide, ReducedRow, EliminatedRow, Product;
    SamePivot(s, t, n, col);
    PivotNonZero(s, col);
    var p := PivotRow(s, col);
    SwapAlike(s, t, n, col, p);
    SwapZeros(s, n, col, p);
    var s', t', u := Swap(s, col, p), Swap(t, col, p), Normalized(t, n, col);
    assert u[col] == Divide(t'[col], t'[col][col]);
    forall r, k | col + 1 <= r < n && 0 <= k < n
      ensures SolveStep(s, n, col)[r][k] == InverseStep(t, n, col)[r][k]
    {
      ReducedEntry(s', n, col, r, k, s'[col][k] / s'[col][col]);
      assert u[r] == t'[r];
      EliminatedEntry(u, n, col, r, k);
    }
  }

  lemma SwapZeros(s: Matrix, n: nat, col: nat, p: nat)
    requires IsMatrix(s, n, n + 1) && col <= p < n && Cleared(s, n, col)
    ensures forall k :: 0 <= k < col ==> Swap(s, col, p)[col][k] == 0.0
  {
  }

  lemma {:induction false} RunsAgree(s: Matrix, t: Matrix, n: nat, col: nat)
    requires Alike(s, t, n, col) && col <= n && Cleared(s, n, col) && Reduced(t, n, col)
    ensures SolveFrom(s, n, col).Ok? <==> InverseFrom(t, n, col).Ok?
    decreases n - col
  {
    hide Refused, SolveStep, InverseStep, Cleared, Reduced;
    if col < n {
      SamePivot(s, t, n, col);
      if !Refused(s, col) {
        StepAlike(s, t, n, col);
        SolveStepKeeps(s, n, col, Zeros(n + 1), SolveStep(s, n, col));
        InverseStepKeeps(t, n, col);
        RunsAgree(SolveStep(s, n, col), InverseStep(t, n, col), n, col + 1);
      }
    }
  }

  lemma InverseStepKeeps(t: Matrix, n: nat, col: nat)
    requires IsMatrix(t, n, 2 * n) && col < n && !Refused(t, col) && Reduced(t, n, col)
    ensures Reduced(InverseStep(t, n, col), n, col + 1)
  {
    hide Refused, Reduced, Normalized, ClearForInverse, Sat;
    NormalizedKeeps(t, n, col, Zeros(2 * n));
    ClearForInverseKeeps(Normalized(t, n, col), n, col, Zeros(2 * n));
  }

  /** `solve` and `inverse` refuse the same matrices, and where they do not refuse,
      solving is applying the inverse. */
  lemma SolveAndInverseAgree(a: Matrix, b: Vector)
    requires IsMatrix(a, |a|, |a|) && |b| == |a|
    ensures Solution(a, b).Ok? <==> InverseOf(a).Ok?
    ensures Solution(a, b).Ok? ==> Solution(a, b).value == MatVec(InverseOf(a).value, b)
  {
    hide Solution, InverseOf, MatVec;
    SameRefusals(a, b);
    if Solution(a, b).Ok? {
      SolutionIsUnique(a, b, Solution(a, b).value);
      InverseUndoes(a, Solution(a, b).value, b);
    }
  }

  lemma SameRefusals(a: Matrix, b: Vector)
    requires IsMatrix(a, |a|, |a|) && |b| == |a|
    ensures Solution(a, b).Ok? <==> InverseOf(a).Ok?
  {
    hide SolveFrom, InverseFrom, Cleared, Reduced;
    var n := |a|;
    var s, t := Augment(a, b), Beside(a, Identity(n));
    NothingCleared(s, n);
    NothingReduced(t, n);
    RunsAgree(s, t, n, 0);
  }

  // ---- what a refusal means ------------------------------------------------

  /** The size of the best pivot at the step where the elimination gives up, if it does. */
  ghost function StallSize(m: Matrix, n: nat, col: nat): real
    requires IsMatrix(m, n, n + 1) && col <= n
    decreases n - col
  {
    if col == n then PIVOT_TOL
    else if Refused(m, col) then Abs(m[PivotRow(m, col)][col]) else StallSize(SolveStep(m, n, col), n, col + 1)
  }

  lemma {:induction false} DotVanishes(a: Vector, y: Vector)
    requires |a| == |y| && forall k :: 0 <= k < |a| ==> a[k] == 0.0 || y[k] == 0.0
    ensures Dot(a, y) == 0.0
  {
    if a != [] { DotVanishes(a[1..], y[1..]); }
  }

  lemma {:induction false} DotOne(a: Vector, y: Vector, i: nat)
    requires i < |a| == |y| && forall k :: 0 <= k < |a| && k != i ==> a[k] == 0.0 || y[k] == 0.0
    ensures Dot(a, y) == Product(a[i], y[i])
  {
    if i == 0 { DotVanishes(a[1..], y[1..]); } else { DotOne(a[1..], y[1..], i - 1); }
  }

  lemma {:induction false} DotTwo(a: Vector, y: Vector, i: nat, j: nat)
    requires i < j < |a| == |y|
    requires forall k :: 0 <= k < |a| && k != i && k != j ==> a[k] == 0.0 || y[k] == 0.0
    ensures Dot(a, y) == Product(a[i], y[i]) + Product(a[j], y[j])
  {
    if i == 0 { DotOne(a[1..], y[1..], j - 1); } else { DotTwo(a[1..], y[1..], i - 1, j - 1); }
  }

  /** The vector a stalled elimination exhibits: it solves the cleared columns against
      the column without a pivot. */
  ghost function KernelEntries(m: Matrix, n: nat, col: nat, k: nat): (v: Vector)
    requires IsMatrix(m, n, n + 1) && col < n && Cleared(m, n, col) && k <= n + 1
    ensures |v| == k
    ensures forall i :: 0 <= i < k ==>
      v[i] == if i < col then -(m[i][col] / m[i][i]) else if i == col then 1.0 else 0.0
  {
    if k == 0 then []
    else
      var i := k - 1;
      var x := if i < col then -(m[i][col] / m[i][i]) else if i == col then 1.0 else 0.0;
      KernelEntries(m, n, col, i) + [x]
  }

  lemma ClearedRowAt(m: Matrix, n: nat, col: nat, r: nat)
    requires IsMatrix(m, n, n + 1) && col < n && Cleared(m, n, col) && r < n
    ensures Dot(m[r], KernelEntries(m, n, col, n + 1)) == if r < col then 0.0 else m[r][col]
  {
    var v := KernelEntries(m, n, col, n + 1);
    if r < col {
      DotTwo(m[r], v, r, col);
      var x, p := m[r][col], m[r][r];
      DivisionUndone(x, p);
      assert Product(p, -(x / p)) == -x;
    } else {
      DotOne(m[r], v, col);
    }
  }

  lemma StallVector(m: Matrix, n: nat, col: nat) returns (v: Vector)
    requires IsMatrix(m, n, n + 1) && col < n && Cleared(m, n, col) && Abs(m[PivotRow(m, col)][col]) == 0.0
    ensures |v| == n + 1 && v[n] == 0.0 && Sat(m, v)
    ensures exists i :: 0 <= i < n && v[i] != 0.0
  {
    hide PivotRow, Dot;
    v := KernelEntries(m, n, col, n + 1);
    assert v[col] == 1.0;
    forall i | col <= i < n ensures m[i][col] == 0.0 {
      assert Abs(m[i][col]) <= Abs(m[PivotRow(m, col)][col]);
    }
    forall r | 0 <= r < n ensures Dot(m[r], v) == 0.0 {
      ClearedRowAt(m, n, col, r);
    }
  }

  lemma {:induction false} StallExhibits(m: Matrix, n: nat, col: nat) returns (v: Vector)
    requires IsMatrix(m, n, n + 1) && col <= n && Cleared(m, n, col)
    requires SolveFrom(m, n, col).Err? && StallSize(m, n, col) == 0.0
    ensures |v| == n + 1 && v[n] == 0.0 && Sat(m, v)
    ensures exists i :: 0 <= i < n && v[i] != 0.0
    decreases n - col
  {
    hide Refused, SolveStep, Cleared, Sat, PivotRow;
    if Refused(m, col) {
      v := StallVector(m, n, col);
    } else {
      SolveStepKeeps(m, n, col, Zeros(n + 1), SolveStep(m, n, col));
      v := StallExhibits(SolveStep(m, n, col), n, col + 1);
      SolveStepKeeps(m, n, col, v, SolveStep(m, n, col));
    }
  }

  lemma {:induction false} StallIsSmall(m: Matrix, n: nat, col: nat)
    requires IsMatrix(m, n, n + 1) && col <= n && SolveFrom(m, n, col).Err?
    ensures 0.0 <= StallSize(m, n, col) < PIVOT_TOL
    decreases n - col
  {
    hide SolveStep, PivotRow;
    if !Refused(m, col) { StallIsSmall(SolveStep(m, n, col), n, col + 1); }
  }

  lemma {:induction false} NoStall(m: Matrix, n: nat, col: nat)
    requires IsMatrix(m, n, n + 1) && col <= n && SolveFrom(m, n, col).Ok?
    ensures StallSize(m, n, col) == PIVOT_TOL
    decreases n - col
  {
    hide SolveStep, PivotRow, Refused;
    if col < n { NoStall(SolveStep(m, n, col), n, col + 1); }
  }

  lemma SolutionRefused(a: Matrix, b: Vector)
    requires IsMatrix(a, |a|, |a|) && |b| == |a|
    ensures IsMatrix(Augment(a, b), |a|, |a| + 1)
    ensures Solution(a, b).Err? <==> SolveFrom(Augment(a, b), |a|, 0).Err?
  {
    hide SolveFrom;
  }

  /** `solve` refuses a matrix exactly when it is singular or the elimination meets a
      best pivot that is not zero but under the tolerance. */
  lemma RefusalMeans(a: Matrix, b: Vector)
    requires IsMatrix(a, |a|, |a|) && |b| == |a|
    ensures Solution(a, b).Err? <==> StallSize(Augment(a, b), |a|, 0) < PIVOT_TOL
    ensures Solution(a, b).Err? ==>
      Singular(a) || 0.0 < StallSize(Augment(a, b), |a|, 0) < PIVOT_TOL
    ensures Singular(a) ==> Solution(a, b).Err?
  {
    hide SolveFrom, StallSize, Singular, Solution, Sat, Cleared, Augment;
    var n, m := |a|, Augment(a, b);
    SolutionRefused(a, b);
    if Singular(a) { SingularIsRefused(a, b); }
    if Solution(a, b).Err? {
      StallIsSmall(m, n, 0);
      if StallSize(m, n, 0) == 0.0 {
        NothingCleared(m, n);
        var v := StallExhibits(m, n, 0);
        KernelOfAugmented(a, b, v);
      }
    } else {
      NoStall(m, n, 0);
    }
  }

  lemma KernelOfAugmented(a: Matrix, b: Vector, v: Vector)
    requires IsMatrix(a, |a|, |a|) && |b| == |a| && |v| == |a| + 1 && v[|a|] == 0.0
    requires Sat(Augment(a, b), v) && exists i :: 0 <= i < |a| && v[i] != 0.0
    ensures Singular(a)
  {
    var n, m, y := |a|, Augment(a, b), v[..|a|];
    forall i | 0 <= i < n ensures Dot(a[i], y) == 0.0 {
      assert Dot(m[i], v) == 0.0;
      DotSplits(m[i], v, n);
      assert m[i][..n] == a[i] && m[i][n..] == [b[i]] && v[n..] == [0.0];
      DotVanishes(m[i][n..], v[n..]);
    }
    Same(MatVec(a, y), Zeros(n));
    var i :| 0 <= i < n && v[i] != 0.0;
    assert y[i] != Zeros(n)[i];
  }

  lemma ScalarIsRegular(p: real)
    requires p != 0.0
    ensures !Singular([[p]])
  {
    hide Dot, Zeros, MatVec;
    forall y: Vector | |y| == 1 && MatVec([[p]], y) == Zeros(1) ensures y == Zeros(1) {
      assert MatVec([[p]], y)[0] == Dot([p], y);
      DotOne([p], y, 0);
      if y[0] != 0.0 { NoZeroProduct(p, y[0]); }
      Same(y, Zeros(1));
    }
  }

  lemma ScalarStalls(p: real, b: real)
    requires 0.0 < p < PIVOT_TOL
    ensures Refused(Augment([[p]], [b]), 0)
  {
    var m := Augment([[p]], [b]);
    assert m[0] == [p, b];
    assert PivotRow(m, 0) == 0;
  }

  /** The tolerance has a price: a regular matrix with a small pivot is refused too. */
  lemma SmallPivotIsRefused(p: real, b: real)
    requires 0.0 < p < PIVOT_TOL
    ensures !Singular([[p]]) && Solution([[p]], [b]).Err? && InverseOf([[p]]).Err?
  {
    hide Singular, InverseOf, Refused, PivotRow, Augment;
    ScalarIsRegular(p);
    ScalarStalls(p, b);
    SameRefusals([[p]], [b]);
  }
}
