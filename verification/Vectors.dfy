/** Vectors and matrices as sequences of reals, as the analytics hold them. */
module Vectors {
  import opened Reals

  type Vector = seq<real>
  type Matrix = seq<Vector>

  ghost predicate IsMatrix(a: Matrix, rows: nat, cols: nat) {
    |a| == rows && forall i :: 0 <= i < rows ==> |a[i]| == cols
  }

  function Dot(a: Vector, b: Vector): real
    requires |a| == |b|
  {
    if a == [] then 0.0 else a[0] * b[0] + Dot(a[1..], b[1..])
  }

  function MatVec(a: Matrix, x: Vector): (r: Vector)
    requires forall i :: 0 <= i < |a| ==> |a[i]| == |x|
    ensures |r| == |a| && forall i :: 0 <= i < |a| ==> r[i] == Dot(a[i], x)
  {
    if a == [] then [] else [Dot(a[0], x)] + MatVec(a[1..], x)
  }

  function Column(a: Matrix, j: nat): (c: Vector)
    requires forall i :: 0 <= i < |a| ==> j < |a[i]|
    ensures |c| == |a| && forall i :: 0 <= i < |a| ==> c[i] == a[i][j]
  {
    if a == [] then [] else [a[0][j]] + Column(a[1..], j)
  }

  function Columns(a: Matrix, n: nat): (t: Matrix)
    requires forall i :: 0 <= i < |a| ==> n <= |a[i]|
    ensures |t| == n && forall j :: 0 <= j < n ==> t[j] == Column(a, j)
  {
    if n == 0 then [] else Columns(a, n - 1) + [Column(a, n - 1)]
  }

  /** `transpose`: no rows, no columns. */
  function Transpose(a: Matrix): (t: Matrix)
    requires forall i :: 0 <= i < |a| ==> |a[i]| == |a[0]|
  {
    if a == [] then [] else Columns(a, |a[0]|)
  }

  function RowTimes(row: Vector, bt: Matrix): (r: Vector)
    requires forall j :: 0 <= j < |bt| ==> |bt[j]| == |row|
    ensures |r| == |bt| && forall j :: 0 <= j < |bt| ==> r[j] == Dot(row, bt[j])
  {
    if bt == [] then [] else [Dot(row, bt[0])] + RowTimes(row, bt[1..])
  }

  function RowsTimes(a: Matrix, bt: Matrix): (r: Matrix)
    requires forall i, j :: 0 <= i < |a| && 0 <= j < |bt| ==> |bt[j]| == |a[i]|
    ensures |r| == |a| && forall i :: 0 <= i < |a| ==> r[i] == RowTimes(a[i], bt)
  {
    if a == [] then [] else [RowTimes(a[0], bt)] + RowsTimes(a[1..], bt)
  }

  /** `matmul`, by rows of `a` against the columns of `b`. */
  function MatMul(a: Matrix, b: Matrix): (r: Matrix)
    requires b != [] && IsMatrix(b, |b|, |b[0]|) && IsMatrix(a, |a|, |b|)
    ensures IsMatrix(r, |a|, |b[0]|)
    ensures forall i, j :: 0 <= i < |a| && 0 <= j < |b[0]| ==> r[i][j] == Dot(a[i], Column(b, j))
  {
    RowsTimes(a, Transpose(b))
  }

  function Add(a: Vector, b: Vector): (r: Vector)
    requires |a| == |b|
    ensures |r| == |a| && forall i :: 0 <= i < |a| ==> r[i] == a[i] + b[i]
  {
    if a == [] then [] else [a[0] + b[0]] + Add(a[1..], b[1..])
  }

  function Scale(k: real, a: Vector): (r: Vector)
    ensures |r| == |a| && forall i :: 0 <= i < |a| ==> r[i] == k * a[i]
  {
    if a == [] then [] else [k * a[0]] + Scale(k, a[1..])
  }

  function Sub(a: Vector, b: Vector): (r: Vector)
    requires |a| == |b|
    ensures |r| == |a| && forall i :: 0 <= i < |a| ==> r[i] == a[i] - b[i]
  {
    if a == [] then [] else [a[0] - b[0]] + Sub(a[1..], b[1..])
  }

  function Zeros(n: nat): (r: Vector)
    ensures |r| == n && forall i :: 0 <= i < n ==> r[i] == 0.0
  {
    if n == 0 then [] else [0.0] + Zeros(n - 1)
  }

  /** Row `i` of the identity. */
  function Unit(n: nat, i: nat): (r: Vector)
    requires i < n
    ensures |r| == n && forall j :: 0 <= j < n ==> r[j] == if j == i then 1.0 else 0.0
  {
    Zeros(n)[i := 1.0]
  }

  function IdentityRows(n: nat, k: nat): (m: Matrix)
    requires k <= n
    ensures |m| == k && forall i :: 0 <= i < k ==> m[i] == Unit(n, i)
  {
    if k == 0 then [] else IdentityRows(n, k - 1) + [Unit(n, k - 1)]
  }

  function Identity(n: nat): (m: Matrix)
    ensures |m| == n && forall i :: 0 <= i < n ==> m[i] == Unit(n, i)
  {
    IdentityRows(n, n)
  }

  // ---- laws of the dot product ---------------------------------------------

  lemma {:induction false} DotCombines(a: Vector, k: real, b: Vector, y: Vector)
    requires |a| == |b| == |y|
    ensures Dot(Sub(a, Scale(k, b)), y) == Dot(a, y) - k * Dot(b, y)
  {
    if a != [] {
      DotCombines(a[1..], k, b[1..], y[1..]);
      assert Scale(k, b)[1..] == Scale(k, b[1..]);
      assert Sub(a, Scale(k, b))[1..] == Sub(a[1..], Scale(k, b[1..]));
    }
  }

  lemma {:induction false} DotScales(k: real, a: Vector, y: Vector)
    requires |a| == |y|
    ensures Dot(Scale(k, a), y) == k * Dot(a, y)
  {
    if a != [] {
      DotScales(k, a[1..], y[1..]);
    }
  }

  lemma {:induction false} DotSymmetric(a: Vector, b: Vector)
    requires |a| == |b|
    ensures Dot(a, b) == Dot(b, a)
  {
    if a != [] { DotSymmetric(a[1..], b[1..]); }
  }

  lemma {:induction false} DotAdds(a: Vector, b: Vector, y: Vector)
    requires |a| == |b| == |y|
    ensures Dot(Add(a, b), y) == Dot(a, y) + Dot(b, y)
  {
    if a != [] { DotAdds(a[1..], b[1..], y[1..]); }
  }

  lemma {:induction false} DotSubtracts(a: Vector, b: Vector, y: Vector)
    requires |a| == |b| == |y|
    ensures Dot(Sub(a, b), y) == Dot(a, y) - Dot(b, y)
  {
    if a != [] { DotSubtracts(a[1..], b[1..], y[1..]); }
  }

  lemma {:induction false} DotZeros(a: Vector, y: Vector)
    requires |a| == |y| && forall i :: 0 <= i < |a| ==> a[i] == 0.0
    ensures Dot(a, y) == 0.0
  {
    if a != [] { DotZeros(a[1..], y[1..]); }
  }

  lemma {:induction false} DotSplits(a: Vector, y: Vector, k: nat)
    requires |a| == |y| && k <= |a|
    ensures Dot(a, y) == Dot(a[..k], y[..k]) + Dot(a[k..], y[k..])
  {
    if k > 0 {
      DotSplits(a[1..], y[1..], k - 1);
      assert a[..k][1..] == a[1..][..k - 1] && y[..k][1..] == y[1..][..k - 1];
      assert a[k..] == a[1..][k - 1..] && y[k..] == y[1..][k - 1..];
    } else {
      assert a[0..] == a && y[0..] == y;
    }
  }

  /** A row with one entry picks out one coordinate. */
  lemma {:induction false} DotSparse(a: Vector, y: Vector, i: nat)
    requires |a| == |y| && i < |a|
    requires forall j :: 0 <= j < |a| && j != i ==> a[j] == 0.0
    ensures Dot(a, y) == a[i] * y[i]
  {
    if i > 0 {
      DotSparse(a[1..], y[1..], i - 1);
    } else {
      DotZeros(a[1..], y[1..]);
    }
  }

  /** The rows of `h` added up with the weights `u`. */
  function Combine(h: Matrix, u: Vector, n: nat): (r: Vector)
    requires |u| == |h| && IsMatrix(h, |h|, n)
    ensures |r| == n
  {
    if h == [] then Zeros(n) else Add(Scale(u[0], h[0]), Combine(h[1..], u[1..], n))
  }

  lemma DotCons(a: Vector, b: Vector)
    requires |a| == |b| && a != []
    ensures Dot(a, b) == Product(a[0], b[0]) + Dot(a[1..], b[1..])
  {
  }

  lemma CombineCons(h: Matrix, u: Vector, n: nat, j: nat)
    requires h != [] && |u| == |h| && IsMatrix(h, |h|, n) && j < n
    ensures Combine(h, u, n)[j] == Product(u[0], h[0][j]) + Combine(h[1..], u[1..], n)[j]
  {
  }

  lemma ColumnCons(h: Matrix, n: nat, j: nat)
    requires h != [] && IsMatrix(h, |h|, n) && j < n
    ensures Column(h, j)[0] == h[0][j] && Column(h, j)[1..] == Column(h[1..], j)
  {
  }

  lemma {:induction false} CombineIsColumns(h: Matrix, u: Vector, n: nat, j: nat)
    requires |u| == |h| && IsMatrix(h, |h|, n) && j < n
    ensures Combine(h, u, n)[j] == Dot(u, Column(h, j))
  {
    if h == [] {
      NothingCombined(h, u, n, j);
    } else {
      hide Combine, Dot, Column, Product;
      CombineIsColumns(h[1..], u[1..], n, j);
      CombineCons(h, u, n, j);
      ColumnCons(h, n, j);
      DotCons(u, Column(h, j));
    }
  }

  lemma NothingCombined(h: Matrix, u: Vector, n: nat, j: nat)
    requires h == [] && u == [] && j < n
    ensures Combine(h, u, n)[j] == Dot(u, Column(h, j))
  {
  }

  lemma CombineUnfolds(h: Matrix, u: Vector, n: nat)
    requires h != [] && |u| == |h| && IsMatrix(h, |h|, n)
    ensures Combine(h, u, n) == Add(Scale(u[0], h[0]), Combine(h[1..], u[1..], n))
  {
  }

  lemma ScaledProduct(k: real, a: Vector, y: Vector)
    requires |a| == |y|
    ensures Dot(Scale(k, a), y) == Product(k, Dot(a, y))
  {
    hide Dot;
    DotScales(k, a, y);
  }

  lemma {:induction false} CombineAgainst(h: Matrix, u: Vector, n: nat, d: Vector)
    requires |u| == |h| && IsMatrix(h, |h|, n) && |d| == n
    ensures Dot(Combine(h, u, n), d) == Dot(u, MatVec(h, d))
  {
    if h == [] {
      DotZeros(Zeros(n), d);
    } else {
      hide Combine, Dot, Product;
      CombineAgainst(h[1..], u[1..], n, d);
      CombineUnfolds(h, u, n);
      DotAdds(Scale(u[0], h[0]), Combine(h[1..], u[1..], n), d);
      ScaledProduct(u[0], h[0], d);
      DotCons(u, MatVec(h, d));
      assert MatVec(h, d)[1..] == MatVec(h[1..], d);
    }
  }

  lemma Same(a: Vector, b: Vector)
    requires |a| == |b| && forall i :: 0 <= i < |a| ==> a[i] == b[i]
    ensures a == b
  {
  }

  /** (B H) x = B (H x). */
  lemma ProductApplies(b: Matrix, h: Matrix, x: Vector)
    requires h != [] && IsMatrix(h, |h|, |x|) && IsMatrix(b, |b|, |h|)
    ensures MatVec(MatMul(b, h), x) == MatVec(b, MatVec(h, x))
  {
    var n := |x|;
    forall i | 0 <= i < |b| ensures MatVec(MatMul(b, h), x)[i] == MatVec(b, MatVec(h, x))[i] {
      forall j | 0 <= j < n ensures MatMul(b, h)[i][j] == Combine(h, b[i], n)[j] {
        CombineIsColumns(h, b[i], n, j);
      }
      Same(MatMul(b, h)[i], Combine(h, b[i], n));
      CombineAgainst(h, b[i], n, x);
    }
    Same(MatVec(MatMul(b, h), x), MatVec(b, MatVec(h, x)));
  }
}
