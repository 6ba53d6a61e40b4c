/** The elimination of `inverse`, step by step as a function, and the theorem that what
    it returns undoes the matrix. */
module Inverse {
  import opened Reals
  import opened Vectors
  import opened Results
  import opened GaussJordan

  function Divide(a: Vector, k: real): (r: Vector)
    requires k != 0.0
    ensures |r| == |a| && forall i :: 0 <= i < |a| ==> r[i] == a[i] / k
  {
    if a == [] then [] else [a[0] / k] + Divide(a[1..], k)
  }

  function EliminatedRow(s: Matrix, n: nat, col: nat, r: nat): (t: Vector)
    requires IsMatrix(s, n, 2 * n) && col < n && r < n
    ensures |t| == 2 * n
  {
    Sub(s[r], Scale(s[r][col], s[col]))
  }

  /** Rows `0..k` other than the pivot row reduced, as `inverse` does it. */
  function ClearForInverse(s: Matrix, n: nat, col: nat, k: nat): (t: Matrix)
    requires IsMatrix(s, n, 2 * n) && col < n && k <= n
    ensures IsMatrix(t, n, 2 * n)
    ensures forall r :: 0 <= r < n ==> t[r] == if r < k && r != col then EliminatedRow(s, n, col, r) else s[r]
  {
    hide EliminatedRow;
    seq(n, r requires 0 <= r < n => if r < k && r != col then EliminatedRow(s, n, col, r) else s[r])
  }

  function Normalized(m: Matrix, n: nat, col: nat): (s: Matrix)
    requires IsMatrix(m, n, 2 * n) && col < n && !Refused(m, col)
    ensures IsMatrix(s, n, 2 * n)
  {
    var s := Swap(m, col, PivotRow(m, col));
    s[col := Divide(s[col], s[col][col])]
  }

  function InverseStep(m: Matrix, n: nat, col: nat): (t: Matrix)
    requires IsMatrix(m, n, 2 * n) && col < n && !Refused(m, col)
    ensures IsMatrix(t, n, 2 * n)
  {
    ClearForInverse(Normalized(m, n, col), n, col, n)
  }

  function InverseFrom(m: Matrix, n: nat, col: nat): (r: Result<Matrix>)
    requires IsMatrix(m, n, 2 * n) && col <= n
    ensures r.Ok? ==> IsMatrix(r.value, n, 2 * n)
    decreases n - col
  {
    if col == n then Ok(m)
    else if Refused(m, col) then Err("singular matrix in inverse()")
    else InverseFrom(InverseStep(m, n, col), n, col + 1)
  }

  function Beside(a: Matrix, b: Matrix): (m: Matrix)
    requires |a| == |b|
    ensures |m| == |a| && forall i :: 0 <= i < |a| ==> m[i] == a[i] + b[i]
  {
    if a == [] then [] else [a[0] + b[0]] + Beside(a[1..], b[1..])
  }

  function RightHalf(m: Matrix, n: nat): (r: Matrix)
    requires forall i :: 0 <= i < |m| ==> n <= |m[i]|
    ensures |r| == |m| && forall i :: 0 <= i < |m| ==> r[i] == m[i][n..]
  {
    if m == [] then [] else [m[0][n..]] + RightHalf(m[1..], n)
  }

  /** The pure form of `inverse`. */
  function InverseOf(a: Matrix): (r: Result<Matrix>)
    requires IsMatrix(a, |a|, |a|)
    ensures r.Ok? ==> IsMatrix(r.value, |a|, |a|)
  {
    match InverseFrom(Beside(a, Identity(|a|)), |a|, 0)
    case Err(e) => Err(e)
    case Ok(t) => Ok(RightHalf(t, |a|))
  }

  // ---- what a step keeps ---------------------------------------------------

  ghost predicate Reduced(m: Matrix, n: nat, col: nat) {
    Cleared(m, n, col) && forall c :: 0 <= c < col ==> m[c][c] == 1.0
  }

  lemma {:induction false} DotDivided(a: Vector, k: real, y: Vector)
    requires k != 0.0 && |a| == |y|
    ensures k * Dot(Divide(a, k), y) == Dot(a, y)
  {
    if a != [] {
      DotDivided(a[1..], k, y[1..]);
      var q := a[0] / k;
      DivisionUndone(a[0], k);
      assert k * (q * y[0]) == (q * k) * y[0];
      assert Divide(a, k)[1..] == Divide(a[1..], k) && Divide(a, k)[0] == q;
    }
  }

  lemma DividedRowMeans(a: Vector, k: real, y: Vector)
    requires k != 0.0 && |a| == |y|
    ensures Dot(Divide(a, k), y) == 0.0 <==> Dot(a, y) == 0.0
  {
    DotDivided(a, k, y);
    if Dot(Divide(a, k), y) != 0.0 { NoZeroProduct(k, Dot(Divide(a, k), y)); }
  }

  lemma DivideKeeps(s: Matrix, n: nat, col: nat, y: Vector)
    requires IsMatrix(s, n, 2 * n) && col < n && |y| == 2 * n && Reduced(s, n, col) && s[col][col] != 0.0
    ensures var t := s[col := Divide(s[col], s[col][col])];
      Reduced(t, n, col) && t[col][col] == 1.0 && (Sat(t, y) <==> Sat(s, y))
  {
    hide Dot, Divide;
    var t := s[col := Divide(s[col], s[col][col])];
    DividedRowMeans(s[col], s[col][col], y);
    SelfQuotient(s[col][col]);
    assert forall r :: 0 <= r < n && r != col ==> t[r] == s[r];
    forall k | 0 <= k < col ensures t[col][k] == 0.0 {
      assert s[col][k] == 0.0;
    }
  }

  lemma SwapReduced(m: Matrix, n: nat, col: nat)
    requires IsMatrix(m, n, 2 * n) && col < n && !Refused(m, col) && Reduced(m, n, col)
    requires Cleared(Swap(m, col, PivotRow(m, col)), n, col)
    ensures Reduced(Swap(m, col, PivotRow(m, col)), n, col)
  {
  }

  lemma NormalizedKeeps(m: Matrix, n: nat, col: nat, y: Vector)
    requires IsMatrix(m, n, 2 * n) && col < n && !Refused(m, col) && |y| == 2 * n && Reduced(m, n, col)
    ensures var s := Normalized(m, n, col);
      Reduced(s, n, col) && s[col][col] == 1.0 && (Sat(s, y) <==> Sat(m, y))
  {
    hide Dot, PivotRow, Refused, Swap, Divide, Sat, Cleared;
    AfterSwap(m, n, 2 * n, col, y);
    SwapReduced(m, n, col);
    DivideKeeps(Swap(m, col, PivotRow(m, col)), n, col, y);
  }

  lemma EliminatedRowMeans(s: Matrix, n: nat, col: nat, r: nat, y: Vector)
    requires IsMatrix(s, n, 2 * n) && col < n && r < n && |y| == 2 * n && Dot(s[col], y) == 0.0
    ensures Dot(EliminatedRow(s, n, col, r), y) == Dot(s[r], y)
  {
    DotCombines(s[r], s[r][col], s[col], y);
  }

  lemma EliminatedRowEntries(s: Matrix, n: nat, col: nat, r: nat)
    requires IsMatrix(s, n, 2 * n) && col < n && r < n && s[col][col] == 1.0
    requires forall k :: 0 <= k < col ==> s[col][k] == 0.0
    ensures EliminatedRow(s, n, col, r)[col] == 0.0
    ensures forall k :: 0 <= k < col ==> EliminatedRow(s, n, col, r)[k] == s[r][k]
  {
  }

  lemma ClearForInverseKeeps(s: Matrix, n: nat, col: nat, y: Vector)
    requires IsMatrix(s, n, 2 * n) && col < n && |y| == 2 * n && Reduced(s, n, col) && s[col][col] == 1.0
    ensures var t := ClearForInverse(s, n, col, n);
      Reduced(t, n, col + 1) && (Sat(t, y) <==> Sat(s, y))
  {
    hide EliminatedRow, ClearForInverse, Dot;
    var t := ClearForInverse(s, n, col, n);
    assert t[col] == s[col];
    forall r | 0 <= r < n
      ensures r != col ==> t[r][col] == 0.0
      ensures forall c :: 0 <= c < col ==> t[r][c] == s[r][c]
    {
      EliminatedRowEntries(s, n, col, r);
    }
    if Dot(s[col], y) == 0.0 {
      forall r | 0 <= r < n ensures Dot(t[r], y) == Dot(s[r], y) {
        EliminatedRowMeans(s, n, col, r, y);
      }
    }
  }

  lemma {:induction false} InverseFromKeeps(m: Matrix, n: nat, col: nat, y: Vector)
    requires IsMatrix(m, n, 2 * n) && col <= n && |y| == 2 * n && Reduced(m, n, col)
    ensures InverseFrom(m, n, col).Ok? ==>
      Reduced(InverseFrom(m, n, col).value, n, n) && (Sat(InverseFrom(m, n, col).value, y) <==> Sat(m, y))
    decreases n - col
  {
    hide Sat, Reduced, Normalized, Refused, ClearForInverse;
    if col < n && !Refused(m, col) {
      NormalizedKeeps(m, n, col, y);
      ClearForInverseKeeps(Normalized(m, n, col), n, col, y);
      InverseFromKeeps(InverseStep(m, n, col), n, col + 1, y);
    }
  }

  // ---- what a run means ----------------------------------------------------

  /** Row `[u | v]` against `[y | -z]`. */
  lemma DotHalves(u: Vector, v: Vector, y: Vector, z: Vector)
    requires |u| == |y| && |v| == |z|
    ensures Dot(u + v, y + Scale(-1.0, z)) == Dot(u, y) - Dot(v, z)
  {
    hide Dot, Scale;
    var nz := Scale(-1.0, z);
    DotSplits(u + v, y + nz, |u|);
    HalvesOf(u, v);
    HalvesOf(y, nz);
    DotSymmetric(v, nz);
    DotScales(-1.0, z, v);
    DotSymmetric(z, v);
  }

  lemma HalvesOf(a: Vector, b: Vector)
    ensures (a + b)[..|a|] == a && (a + b)[|a|..] == b
  {
  }

  lemma DotUnit(n: nat, i: nat, z: Vector)
    requires i < n == |z|
    ensures Dot(Unit(n, i), z) == z[i]
  {
    DotSparse(Unit(n, i), z, i);
  }

  lemma BesideRow(a: Matrix, i: nat, y: Vector, z: Vector)
    requires IsMatrix(a, |a|, |a|) && |y| == |z| == |a| && i < |a|
    ensures |Beside(a, Identity(|a|))[i]| == |y + Scale(-1.0, z)|
    ensures Dot(Beside(a, Identity(|a|))[i], y + Scale(-1.0, z)) == MatVec(a, y)[i] - z[i]
  {
    hide Dot, Scale, Unit;
    DotHalves(a[i], Unit(|a|, i), y, z);
    DotUnit(|a|, i, z);
  }

  lemma SatBeside(a: Matrix, y: Vector, z: Vector)
    requires IsMatrix(a, |a|, |a|) && |y| == |z| == |a|
    ensures Sat(Beside(a, Identity(|a|)), y + Scale(-1.0, z)) <==> MatVec(a, y) == z
  {
    hide Dot, Scale, MatVec, Beside, Identity;
    var n := |a|;
    var m, w := Beside(a, Identity(n)), y + Scale(-1.0, z);
    forall i | 0 <= i < n ensures |m[i]| == |w| && Dot(m[i], w) == MatVec(a, y)[i] - z[i] {
      BesideRow(a, i, y, z);
    }
    if Sat(m, w) {
      forall i | 0 <= i < n ensures MatVec(a, y)[i] == z[i] {
        assert Dot(m[i], w) == 0.0;
      }
      Same(MatVec(a, y), z);
    }
  }

  lemma SatReduced(m: Matrix, n: nat, y: Vector, z: Vector)
    requires IsMatrix(m, n, 2 * n) && Reduced(m, n, n) && |y| == |z| == n
    ensures Sat(m, y + Scale(-1.0, z)) <==> y == MatVec(RightHalf(m, n), z)
  {
    var w := y + Scale(-1.0, z);
    forall i | 0 <= i < n ensures |m[i]| == |w| && Dot(m[i], w) == y[i] - MatVec(RightHalf(m, n), z)[i] {
      assert m[i] == m[i][..n] + m[i][n..];
      DotHalves(m[i][..n], m[i][n..], y, z);
      DotSparse(m[i][..n], y, i);
    }
    if Sat(m, w) {
      forall i | 0 <= i < n ensures y[i] == MatVec(RightHalf(m, n), z)[i] {
        assert Dot(m[i], w) == 0.0;
      }
      Same(y, MatVec(RightHalf(m, n), z));
    }
  }

  /** A y = z exactly when y = M z, for the M that `inverse` returns. */
  lemma InverseUndoes(a: Matrix, y: Vector, z: Vector)
    requires IsMatrix(a, |a|, |a|) && |y| == |z| == |a| && InverseOf(a).Ok?
    ensures MatVec(a, y) == z <==> y == MatVec(InverseOf(a).value, z)
  {
    hide Sat, Reduced, InverseFrom, MatVec;
    var n, m := |a|, Beside(a, Identity(|a|));
    NothingReduced(m, n);
    InverseFromKeeps(m, n, 0, y + Scale(-1.0, z));
    SatBeside(a, y, z);
    SatReduced(InverseFrom(m, n, 0).value, n, y, z);
  }

  lemma NothingReduced(m: Matrix, n: nat)
    requires |m| == n && forall i :: 0 <= i < n ==> n <= |m[i]|
    ensures Reduced(m, n, 0)
  {
  }
}
