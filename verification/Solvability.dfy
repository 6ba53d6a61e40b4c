/** When `solve` is sure to accept a gain matrix, and when it refuses a diagonal one. */
module Solvability {
  import opened Reals
  import opened Vectors
  import opened GaussJordan
  import opened Inverse
  import opened LinearSystems
  import opened LeastSquares

  // ---- what a refusal exhibits ---------------------------------------------

  /** Rows used as pivots send `v` to zero and the others to less than the tolerance. */
  ghost predicate NearKernel(m: Matrix, col: nat, v: Vector) {
    forall r :: 0 <= r < |m| ==> |m[r]| == |v| && NearZero(Dot(m[r], v), r < col)
  }

  predicate NearZero(x: real, exactly: bool) {
    if exactly then x == 0.0 else Abs(x) < PIVOT_TOL
  }

  lemma StallNears(m: Matrix, n: nat, col: nat) returns (v: Vector)
    requires IsMatrix(m, n, n + 1) && col < n && Cleared(m, n, col) && Refused(m, col)
    ensures |v| == n + 1 && v[n] == 0.0 && v[col] == 1.0 && NearKernel(m, col, v)
  {
    v := KernelEntries(m, n, col, n + 1);
    hide KernelEntries, Dot, Cleared, PivotRow;
    forall r | 0 <= r < n ensures NearZero(Dot(m[r], v), r < col) {
      ClearedRowAt(m, n, col, r);
      if r >= col { assert Abs(m[r][col]) <= Abs(m[PivotRow(m, col)][col]); }
    }
  }

  lemma ClearBackNears(s: Matrix, n: nat, col: nat, v: Vector)
    requires IsMatrix(s, n, n + 1) && col < n && s[col][col] != 0.0 && |v| == n + 1
    requires forall k :: 0 <= k < col ==> s[col][k] == 0.0
    requires NearKernel(ClearForSolve(s, n, col, n), col + 1, v)
    ensures NearKernel(s, col + 1, v)
  {
    hide ReducedRow, ClearForSolve, Dot;
    var t := ClearForSolve(s, n, col, n);
    assert t[col] == s[col];
    assert NearZero(Dot(t[col], v), true);
    forall r | 0 <= r < n ensures Dot(t[r], v) == Dot(s[r], v) {
      if r != col { ReducedRowMeans(s, n, col, r, v); }
    }
  }

  lemma SwapBackNears(m: Matrix, n: nat, col: nat, p: nat, v: Vector)
    requires IsMatrix(m, n, n + 1) && col <= p < n && |v| == n + 1
    requires NearKernel(Swap(m, col, p), col + 1, v)
    ensures NearKernel(m, col, v)
  {
    hide Dot, Swap;
    var s := Swap(m, col, p);
    forall r | 0 <= r < n ensures NearZero(Dot(m[r], v), r < col) {
      var q := if r == col then p else if r == p then col else r;
      assert s[q] == m[r] && NearZero(Dot(s[q], v), q < col + 1);
    }
  }

  lemma StepBackNears(m: Matrix, n: nat, col: nat, v: Vector)
    requires IsMatrix(m, n, n + 1) && col < n && |v| == n + 1 && Cleared(m, n, col) && !Refused(m, col)
    requires NearKernel(SolveStep(m, n, col), col + 1, v)
    ensures NearKernel(m, col, v)
  {
    hide Sat, Swap, ClearForSolve, PivotRow, Refused, NearKernel;
    AfterSwap(m, n, n + 1, col, v);
    ClearBackNears(Swap(m, col, PivotRow(m, col)), n, col, v);
    SwapBackNears(m, n, col, PivotRow(m, col), v);
  }

  lemma {:induction false} RefusalNears(m: Matrix, n: nat, col: nat) returns (v: Vector)
    requires IsMatrix(m, n, n + 1) && col <= n && Cleared(m, n, col) && SolveFrom(m, n, col).Err?
    ensures |v| == n + 1 && v[n] == 0.0 && NearKernel(m, col, v)
    ensures exists i :: 0 <= i < n && v[i] == 1.0
    decreases n - col
  {
    hide Refused, SolveStep, Cleared, NearKernel, PivotRow;
    if Refused(m, col) {
      v := StallNears(m, n, col);
    } else {
      SolveStepKeeps(m, n, col, Zeros(n + 1), SolveStep(m, n, col));
      v := RefusalNears(SolveStep(m, n, col), n, col + 1);
      StepBackNears(m, n, col, v);
    }
  }

  /** Whenever `solve` refuses A, some vector with an entry 1 is sent by A to a vector of
      entries under the tolerance. */
  lemma RefusalExhibits(a: Matrix, b: Vector) returns (y: Vector)
    requires IsMatrix(a, |a|, |a|) && |b| == |a| && Solution(a, b).Err?
    ensures |y| == |a| && exists i :: 0 <= i < |a| && y[i] == 1.0
    ensures forall i :: 0 <= i < |a| ==> Abs(MatVec(a, y)[i]) < PIVOT_TOL
  {
    hide SolveFrom, Solution, Augment, Dot, MatVec, Cleared;
    var n, m := |a|, Augment(a, b);
    SolutionRefused(a, b);
    NothingCleared(m, n);
    var v := RefusalNears(m, n, 0);
    y := v[..n];
    forall i | 0 <= i < n ensures Abs(MatVec(a, y)[i]) < PIVOT_TOL {
      assert NearZero(Dot(m[i], v), false);
      LastIsZero(a[i], b[i], v);
    }
    var i :| 0 <= i < n && v[i] == 1.0;
    assert y[i] == 1.0;
  }

  lemma LastIsZero(row: Vector, b: real, v: Vector)
    requires |v| == |row| + 1 && v[|row|] == 0.0
    ensures Dot(row + [b], v) == Dot(row, v[..|row|])
  {
    var n := |row|;
    DotSplits(row + [b], v, n);
    assert (row + [b])[..n] == row && (row + [b])[n..] == [b] && v[n..] == [0.0];
    DotVanishes([b], [0.0]);
  }

  // ---- heavy anchors -------------------------------------------------------

  /** Every state variable is measured on its own by some row of weight `least` or more. */
  ghost predicate AnchoredBy(h: Matrix, w: Vector, n: nat, least: real)
    requires |w| == |h|
  {
    forall c :: 0 <= c < n ==> HasAnchor(h, w, n, c, least)
  }

  ghost predicate HasAnchor(h: Matrix, w: Vector, n: nat, c: nat, least: real)
    requires |w| == |h| && c < n
  {
    exists i :: 0 <= i < |h| && h[i] == Unit(n, c) && w[i] >= least
  }

  lemma {:induction false} Largest(y: Vector) returns (j: nat)
    requires y != []
    ensures j < |y| && forall i :: 0 <= i < |y| ==> Abs(y[i]) <= Abs(y[j])
    decreases |y|
  {
    if |y| == 1 {
      j := 0;
    } else {
      var k := Largest(y[1..]);
      assert forall i :: 1 <= i < |y| ==> y[i] == y[1..][i - 1];
      j := if Abs(y[0]) <= Abs(y[k + 1]) then k + 1 else 0;
    }
  }

  lemma TermBound(x: real, y: real, big: real, small: real)
    requires Abs(x) < small && Abs(y) <= big && big > 0.0
    ensures Product(x, y) < Product(big, small)
  {
    var ax, ay := Abs(x), Abs(y);
    ProductNonNegative(big - ay, ax);
    ProductPositive(big, small - ax);
    assert Product(big - ay, ax) == Product(big, ax) - Product(ay, ax);
    assert Product(big, small - ax) == Product(big, small) - Product(big, ax);
    ProductNonNegative(ax, ay);
    assert Product(ay, ax) == Product(ax, ay);
    assert Product(x, y) == Product(ax, ay) || Product(x, y) == -Product(ax, ay);
  }

  lemma {:induction false} DotBound(x: Vector, y: Vector, big: real, small: real)
    requires x != [] && |x| == |y| && big > 0.0
    requires forall i :: 0 <= i < |x| ==> Abs(x[i]) < small && Abs(y[i]) <= big
    ensures Dot(x, y) < Product(Product(big, small), |x| as real)
    decreases |x|
  {
    hide Product, Dot;
    var p := Product(big, small);
    TermBound(x[0], y[0], big, small);
    DotCons(x, y);
    ProductAdds(p, (|x| - 1) as real, 1.0);
    TimesOne(p);
    if |x| == 1 {
      DotNone(x[1..], y[1..]);
      ProductAdds(p, 0.0, 0.0);
    } else {
      DotBound(x[1..], y[1..], big, small);
    }
  }

  lemma TimesOne(p: real)
    ensures Product(p, 1.0) == p
  {
  }

  lemma DotNone(x: Vector, y: Vector)
    requires x == y == []
    ensures Dot(x, y) == 0.0
  {
  }

  lemma HeavyBeatsBound(w: real, big: real, tol: real, n: real)
    requires big >= 1.0 && tol > 0.0 && n >= 0.0 && w >= Product(tol, n)
    ensures Product(w, Sq(big)) >= Product(Product(big, tol), n)
  {
    var t := Product(tol, n);
    ProductNonNegative(tol, n);
    SqSign(big);
    ProductNonNegative(w - t, Sq(big));
    assert Product(w - t, Sq(big)) == Product(w, Sq(big)) - Product(t, Sq(big));
    ProductNonNegative(t, big);
    ProductNonNegative(Product(t, big), big - 1.0);
    assert Product(Product(t, big), big - 1.0) == Product(t, Sq(big)) - Product(t, big);
    assert Product(t, big) == Product(Product(big, tol), n);
  }

  /** A gain matrix whose every variable has an anchor of weight n times the tolerance or
      more is accepted, whatever else is measured. */
  lemma HeavyAnchorsAccepted(h: Matrix, w: Vector, n: nat, b: Vector)
    requires n > 0 && h != [] && IsMatrix(h, |h|, n) && |w| == |h| && |b| == n && Positive(w)
    requires AnchoredBy(h, w, n, Product(PIVOT_TOL, n as real))
    ensures Solution(Gain(h, w, n), b).Ok?
  {
    hide Solution, Gain, Weighted, Dot, MatVec, Sq, Product, Unit;
    var g := Gain(h, w, n);
    if Solution(g, b).Err? {
      var y := RefusalExhibits(g, b);
      var j := Largest(y);
      var one :| 0 <= one < n && y[one] == 1.0;
      assert Abs(y[one]) == 1.0;
      var big := Abs(y[j]);
      GainQuadratic(h, w, n, y);
      DotBound(MatVec(g, y), y, big, PIVOT_TOL);
      assert HasAnchor(h, w, n, j, Product(PIVOT_TOL, n as real));
      var i :| 0 <= i < |h| && h[i] == Unit(n, j) && w[i] >= Product(PIVOT_TOL, n as real);
      OneTermAtMost(w, MatVec(h, y), i);
      UnitPicks(h, n, y, i, j);
      SqOfAbs(y[j]);
      HeavyBeatsBound(w[i], big, PIVOT_TOL, n as real);
      assert false;
    }
  }

  lemma UnitPicks(h: Matrix, n: nat, y: Vector, i: nat, j: nat)
    requires IsMatrix(h, |h|, n) && |y| == n && i < |h| && j < n && h[i] == Unit(n, j)
    ensures MatVec(h, y)[i] == y[j]
  {
    DotSparse(Unit(n, j), y, j);
  }

  lemma SqOfAbs(x: real)
    ensures Sq(Abs(x)) == Sq(x)
  {
  }

  // ---- diagonal matrices ---------------------------------------------------

  ghost predicate Diagonal(m: Matrix, n: nat) {
    && |m| == n && (forall r :: 0 <= r < n ==> n <= |m[r]|)
    && forall r, c :: 0 <= r < n && 0 <= c < n && r != c ==> m[r][c] == 0.0
  }

  lemma DiagonalPivot(m: Matrix, n: nat, col: nat)
    requires IsMatrix(m, n, n + 1) && Diagonal(m, n) && col < n
    ensures Refused(m, col) <==> Abs(m[col][col]) < PIVOT_TOL
    ensures !Refused(m, col) ==> PivotRow(m, col) == col
  {
    hide PivotRow;
    var p := PivotRow(m, col);
    assert Abs(m[col][col]) <= Abs(m[p][col]);
  }

  lemma DiagonalStep(m: Matrix, n: nat, col: nat)
    requires IsMatrix(m, n, n + 1) && Diagonal(m, n) && col < n && !Refused(m, col)
    ensures SolveStep(m, n, col) == m
  {
    hide PivotRow, Refused, ReducedRow;
    DiagonalPivot(m, n, col);
    PivotNonZero(m, col);
    var s := Swap(m, col, col);
    assert s == m;
    forall r | 0 <= r < n && r != col ensures ReducedRow(m, n, col, r) == m[r] {
      ZeroFactor(m, n, col, r);
    }
    var t := SolveStep(m, n, col);
    assert forall r :: 0 <= r < n ==> t[r] == m[r];
  }

  lemma ZeroFactor(m: Matrix, n: nat, col: nat, r: nat)
    requires IsMatrix(m, n, n + 1) && col < n && r < n && m[col][col] != 0.0 && m[r][col] == 0.0
    ensures ReducedRow(m, n, col, r) == m[r]
  {
    hide Reduce;
    ZeroQuotient(m[col][col]);
    ReduceByZero(m[r], m[col], col);
  }

  lemma ZeroQuotient(p: real)
    requires p != 0.0
    ensures 0.0 / p == 0.0
  {
  }

  lemma {:induction false} DiagonalRun(m: Matrix, n: nat, col: nat)
    requires IsMatrix(m, n, n + 1) && Diagonal(m, n) && col <= n
    ensures SolveFrom(m, n, col).Err? <==> exists i :: col <= i < n && Abs(m[i][i]) < PIVOT_TOL
    decreases n - col
  {
    hide Refused, SolveStep, PivotRow;
    if col < n {
      DiagonalPivot(m, n, col);
      if !Refused(m, col) {
        DiagonalStep(m, n, col);
        DiagonalRun(m, n, col + 1);
      }
    }
  }

  /** A diagonal matrix is refused exactly when some diagonal entry is under the tolerance. */
  lemma DiagonalRefused(a: Matrix, b: Vector)
    requires IsMatrix(a, |a|, |a|) && |b| == |a| && Diagonal(a, |a|)
    ensures Solution(a, b).Err? <==> exists i :: 0 <= i < |a| && Abs(a[i][i]) < PIVOT_TOL
  {
    hide SolveFrom, Solution;
    var n, m := |a|, Augment(a, b);
    SolutionRefused(a, b);
    assert forall r, c :: 0 <= r < n && 0 <= c < n ==> m[r][c] == a[r][c];
    DiagonalRun(m, n, 0);
  }

  /** Measured by unit rows alone, one for each variable, the gain matrix is diagonal. */
  lemma UnitRowsGain(h: Matrix, w: Vector, n: nat)
    requires n > 0 && h == Identity(n) && |w| == n
    ensures Diagonal(Gain(h, w, n), n) && forall c :: 0 <= c < n ==> Gain(h, w, n)[c][c] == w[c]
  {
    hide Dot, MatMul, NormalWeights, Column;
    var b, g := NormalWeights(h, w, n), Gain(h, w, n);
    forall c, d | 0 <= c < n && 0 <= d < n ensures g[c][d] == if c == d then w[c] else 0.0 {
      UnitGainEntry(h, w, n, c, d);
    }
  }

  lemma UnitGainEntry(h: Matrix, w: Vector, n: nat, c: nat, d: nat)
    requires n > 0 && h == Identity(n) && |w| == n && c < n && d < n
    ensures Gain(h, w, n)[c][d] == if c == d then w[c] else 0.0
  {
    hide Dot, MatMul, Times, Column, NormalWeights, Gain, Unit, Identity, Product;
    GainEntry(h, w, n, c, d);
    IdentityColumn(n, c);
    IdentityColumn(n, d);
    var x := Times(Unit(n, c), w);
    DotSymmetric(x, Unit(n, d));
    DotUnit(n, d, x);
    WeighedUnit(n, c, w, d);
  }

  lemma GainEntry(h: Matrix, w: Vector, n: nat, c: nat, d: nat)
    requires h != [] && IsMatrix(h, |h|, n) && |w| == |h| && c < n && d < n
    ensures Gain(h, w, n)[c][d] == Dot(Times(Column(h, c), w), Column(h, d))
  {
    hide Dot, MatMul, Times, Column, NormalWeights;
    var b := NormalWeights(h, w, n);
    assert b[c] == Times(Column(h, c), w);
  }

  lemma IdentityColumn(n: nat, c: nat)
    requires c < n
    ensures Column(Identity(n), c) == Unit(n, c)
  {
    Same(Column(Identity(n), c), Unit(n, c));
  }

  lemma WeighedUnit(n: nat, c: nat, w: Vector, d: nat)
    requires c < n == |w| && d < n
    ensures Times(Unit(n, c), w)[d] == if c == d then w[c] else 0.0
  {
    assert Times(Unit(n, c), w)[d] == Product(Unit(n, c)[d], w[d]);
  }
}
