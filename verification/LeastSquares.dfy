/** The normal equations of `estimate`: their solution is the weighted least-squares
    minimiser, and no measurement has more leverage than its own weight allows. */
module LeastSquares {
  import opened Reals
  import opened Vectors
  import opened Results
  import opened GaussJordan
  import opened Inverse
  import opened LinearSystems

  function Times(a: Vector, b: Vector): (r: Vector)
    requires |a| == |b|
    ensures |r| == |a| && forall i :: 0 <= i < |a| ==> r[i] == Product(a[i], b[i])
  {
    if a == [] then [] else [Product(a[0], b[0])] + Times(a[1..], b[1..])
  }

  /** The weighted sum of squares. */
  function Weighted(w: Vector, r: Vector): real
    requires |w| == |r|
  {
    if w == [] then 0.0 else Product(w[0], Sq(r[0])) + Weighted(w[1..], r[1..])
  }

  /** The objective J at state `y`. */
  function Objective(h: Matrix, w: Vector, z: Vector, y: Vector): real
    requires IsMatrix(h, |h|, |y|) && |w| == |z| == |h|
  {
    Weighted(w, Sub(z, MatVec(h, y)))
  }

  ghost predicate Positive(w: Vector) {
    forall i :: 0 <= i < |w| ==> w[i] > 0.0
  }

  /** `HtW`: the columns of `h` with each entry weighted. */
  function WeightRows(t: Matrix, w: Vector): (r: Matrix)
    requires forall i :: 0 <= i < |t| ==> |t[i]| == |w|
    ensures IsMatrix(r, |t|, |w|) && forall i :: 0 <= i < |t| ==> r[i] == Times(t[i], w)
  {
    if t == [] then [] else [Times(t[0], w)] + WeightRows(t[1..], w)
  }

  function NormalWeights(h: Matrix, w: Vector, n: nat): (r: Matrix)
    requires h != [] && IsMatrix(h, |h|, n) && |w| == |h|
    ensures IsMatrix(r, n, |h|)
    ensures forall c :: 0 <= c < n ==> r[c] == Times(Column(h, c), w)
  {
    WeightRows(Transpose(h), w)
  }

  function Gain(h: Matrix, w: Vector, n: nat): (g: Matrix)
    requires h != [] && IsMatrix(h, |h|, n) && |w| == |h|
    ensures IsMatrix(g, n, n)
  {
    MatMul(NormalWeights(h, w, n), h)
  }

  function RightSide(h: Matrix, w: Vector, z: Vector, n: nat): (r: Vector)
    requires h != [] && IsMatrix(h, |h|, n) && |w| == |z| == |h|
    ensures |r| == n
  {
    MatVec(NormalWeights(h, w, n), z)
  }

  // ---- sums of squares -----------------------------------------------------

  lemma {:induction false} WeightedSign(w: Vector, r: Vector)
    requires |w| == |r| && Positive(w)
    ensures Weighted(w, r) >= 0.0
    ensures Weighted(w, r) == 0.0 <==> forall i :: 0 <= i < |r| ==> r[i] == 0.0
  {
    if w != [] {
      WeightedSign(w[1..], r[1..]);
      SqSign(r[0]);
      ProductNonNegative(w[0], Sq(r[0]));
      if r[0] != 0.0 { ProductPositive(w[0], Sq(r[0])); }
      assert forall i :: 1 <= i < |r| ==> r[i] == r[1..][i - 1];
      assert (forall i :: 0 <= i < |r| ==> r[i] == 0.0)
        <==> r[0] == 0.0 && forall i :: 0 <= i < |r| - 1 ==> r[1..][i] == 0.0;
    }
  }

  lemma {:induction false} OneTermAtMost(w: Vector, r: Vector, i: nat)
    requires |w| == |r| && Positive(w) && i < |w|
    ensures Product(w[i], Sq(r[i])) <= Weighted(w, r)
  {
    if i == 0 {
      WeightedSign(w[1..], r[1..]);
    } else {
      OneTermAtMost(w[1..], r[1..], i - 1);
      SqSign(r[0]);
      ProductNonNegative(w[0], Sq(r[0]));
    }
  }

  lemma OneSquare(w: real, a: real, b: real)
    ensures Product(w, Sq(a - b)) == Product(w, Sq(a)) - 2.0 * Product(Product(w, a), b) + Product(w, Sq(b))
  {
  }

  lemma {:induction false} SquareOfDifference(w: Vector, a: Vector, b: Vector)
    requires |w| == |a| == |b|
    ensures Weighted(w, Sub(a, b)) == Weighted(w, a) - 2.0 * Dot(Times(w, a), b) + Weighted(w, b)
  {
    if w != [] {
      SquareOfDifference(w[1..], a[1..], b[1..]);
      OneSquare(w[0], a[0], b[0]);
      assert Times(w, a)[1..] == Times(w[1..], a[1..]);
      assert Product(Product(w[0], a[0]), b[0]) == Times(w, a)[0] * b[0];
    }
  }

  lemma {:induction false} MoveWeights(c: Vector, w: Vector, v: Vector)
    requires |c| == |w| == |v|
    ensures Dot(Times(c, w), v) == Dot(Times(w, v), c)
  {
    if c != [] {
      MoveWeights(c[1..], w[1..], v[1..]);
      assert Times(c, w)[1..] == Times(c[1..], w[1..]) && Times(w, v)[1..] == Times(w[1..], v[1..]);
      assert Times(c, w)[0] * v[0] == Times(w, v)[0] * c[0];
    }
  }

  /** (H^T W v) . d = (W v) . (H d). */
  lemma NormalAgainst(h: Matrix, w: Vector, n: nat, v: Vector, d: Vector)
    requires h != [] && IsMatrix(h, |h|, n) && |w| == |v| == |h| && |d| == n
    ensures Dot(MatVec(NormalWeights(h, w, n), v), d) == Dot(Times(w, v), MatVec(h, d))
  {
    hide NormalWeights, MatVec, Combine, Times, Dot;
    var u := Times(w, v);
    forall c | 0 <= c < n ensures MatVec(NormalWeights(h, w, n), v)[c] == Combine(h, u, n)[c] {
      MoveWeights(Column(h, c), w, v);
      CombineIsColumns(h, u, n, c);
    }
    Same(MatVec(NormalWeights(h, w, n), v), Combine(h, u, n));
    CombineAgainst(h, u, n, d);
  }

  lemma ImageSubtracts(a: Matrix, x: Vector, y: Vector)
    requires IsMatrix(a, |a|, |x|) && |x| == |y|
    ensures MatVec(a, Sub(x, y)) == Sub(MatVec(a, x), MatVec(a, y))
  {
    forall i | 0 <= i < |a| ensures Dot(a[i], Sub(x, y)) == Dot(a[i], x) - Dot(a[i], y) {
      DotSymmetric(a[i], Sub(x, y));
      DotSubtracts(x, y, a[i]);
      DotSymmetric(x, a[i]);
      DotSymmetric(y, a[i]);
    }
    Same(MatVec(a, Sub(x, y)), Sub(MatVec(a, x), MatVec(a, y)));
  }

  /** u . (G u) is the weighted sum of squares of H u. */
  lemma GainQuadratic(h: Matrix, w: Vector, n: nat, u: Vector)
    requires h != [] && IsMatrix(h, |h|, n) && |w| == |h| && |u| == n
    ensures Dot(MatVec(Gain(h, w, n), u), u) == Weighted(w, MatVec(h, u))
  {
    var v := MatVec(h, u);
    ProductApplies(NormalWeights(h, w, n), h, u);
    NormalAgainst(h, w, n, v, u);
    SelfWeighted(w, v);
  }

  lemma {:induction false} SelfWeighted(w: Vector, v: Vector)
    requires |w| == |v|
    ensures Dot(Times(w, v), v) == Weighted(w, v)
  {
    if w != [] {
      SelfWeighted(w[1..], v[1..]);
      assert Times(w, v)[1..] == Times(w[1..], v[1..]);
      assert Times(w, v)[0] * v[0] == Product(w[0], Sq(v[0]));
    }
  }

  // ---- the minimiser -------------------------------------------------------

  /** Every state variable is measured on its own by some row. */
  ghost predicate Anchored(h: Matrix, n: nat) {
    forall c :: 0 <= c < n ==> exists i :: 0 <= i < |h| && h[i] == Unit(n, c)
  }

  lemma AnchoredIsInjective(h: Matrix, n: nat, d: Vector)
    requires IsMatrix(h, |h|, n) && Anchored(h, n) && |d| == n
    requires forall i :: 0 <= i < |h| ==> MatVec(h, d)[i] == 0.0
    ensures d == Zeros(n)
  {
    forall c | 0 <= c < n ensures d[c] == 0.0 {
      var i :| 0 <= i < |h| && h[i] == Unit(n, c);
      DotUnit(n, c, d);
      assert MatVec(h, d)[i] == 0.0;
    }
    Same(d, Zeros(n));
  }

  /** J grows from the solution of the normal equations by the weighted square of H d. */
  lemma ObjectiveSplits(h: Matrix, w: Vector, z: Vector, n: nat, x: Vector, y: Vector)
    requires h != [] && IsMatrix(h, |h|, n) && |w| == |z| == |h| && |x| == |y| == n
    requires MatVec(Gain(h, w, n), x) == RightSide(h, w, z, n)
    ensures Objective(h, w, z, y) == Objective(h, w, z, x) + Weighted(w, MatVec(h, Sub(y, x)))
  {
    var b := NormalWeights(h, w, n);
    var hx, d := MatVec(h, x), Sub(y, x);
    var r, hd := Sub(z, hx), MatVec(h, d);
    ImageSubtracts(h, y, x);
    Same(Sub(z, MatVec(h, y)), Sub(r, hd));
    SquareOfDifference(w, r, hd);
    NormalAgainst(h, w, n, r, d);
    ImageSubtracts(b, z, hx);
    ProductApplies(b, h, x);
    DotZeros(MatVec(b, r), d);
  }

  /** The estimate is the one and only global minimiser of J. */
  lemma EstimateMinimises(h: Matrix, w: Vector, z: Vector, n: nat, x: Vector, y: Vector)
    requires h != [] && IsMatrix(h, |h|, n) && |w| == |z| == |h| && |x| == |y| == n
    requires Positive(w) && Anchored(h, n)
    requires Solution(Gain(h, w, n), RightSide(h, w, z, n)) == Ok(x)
    ensures Objective(h, w, z, x) <= Objective(h, w, z, y)
    ensures y != x ==> Objective(h, w, z, x) < Objective(h, w, z, y)
  {
    hide Solution, Gain, RightSide, Objective, Weighted;
    var d := Sub(y, x);
    SolutionIsUnique(Gain(h, w, n), RightSide(h, w, z, n), x);
    ObjectiveSplits(h, w, z, n, x, y);
    WeightedSign(w, MatVec(h, d));
    if y != x && Weighted(w, MatVec(h, d)) == 0.0 {
      AnchoredIsInjective(h, n, d);
    }
  }

  /** The gain matrix is positive definite, so only the pivot tolerance can make the
      solver refuse it. */
  lemma GainIsRegular(h: Matrix, w: Vector, n: nat)
    requires h != [] && IsMatrix(h, |h|, n) && |w| == |h| && Positive(w) && Anchored(h, n)
    ensures !Singular(Gain(h, w, n))
    ensures forall u: Vector :: |u| == n && u != Zeros(n) ==> Dot(MatVec(Gain(h, w, n), u), u) > 0.0
  {
    hide Gain;
    forall u: Vector | |u| == n && u != Zeros(n) ensures Dot(MatVec(Gain(h, w, n), u), u) > 0.0 {
      GainQuadratic(h, w, n, u);
      WeightedSign(w, MatVec(h, u));
      if Weighted(w, MatVec(h, u)) == 0.0 { AnchoredIsInjective(h, n, u); }
    }
    if Singular(Gain(h, w, n)) {
      var u: Vector :| |u| == n && u != Zeros(n) && MatVec(Gain(h, w, n), u) == Zeros(n);
      DotZeros(Zeros(n), u);
    }
  }

  // ---- variances -----------------------------------------------------------

  /** h . (G^-1 h). */
  function Leverage(ginv: Matrix, row: Vector): real
    requires IsMatrix(ginv, |row|, |row|)
  {
    Dot(row, MatVec(ginv, row))
  }

  lemma SquareBound(w: real, t: real)
    requires w > 0.0 && Product(w, Sq(t)) <= t
    ensures t <= 1.0 / w
  {
    if t > 1.0 / w {
      var q := 1.0 / w;
      assert q * w == 1.0;
      ProductPositive(t - q, w);
      assert Product(t - q, w) == t * w - 1.0;
      SqSign(t);
      ProductPositive(w, 1.0);
      QuotientPositive(w, q);
      ProductPositive(t * w - 1.0, t);
    }
  }

  lemma QuotientPositive(w: real, q: real)
    requires w > 0.0 && q * w == 1.0
    ensures q > 0.0
  {
    if q <= 0.0 {
      ProductNonNegative(-q, w);
    }
  }

  /** Every voltage variance is nonnegative, and no measurement's leverage exceeds the
      variance 1/w it was given, so every residual variance is nonnegative too. */
  lemma VariancesNonNegative(h: Matrix, w: Vector, n: nat, row: Vector)
    requires h != [] && IsMatrix(h, |h|, n) && |w| == |h| && Positive(w) && |row| == n
    requires InverseOf(Gain(h, w, n)).Ok?
    ensures Leverage(InverseOf(Gain(h, w, n)).value, row) >= 0.0
    ensures forall i :: 0 <= i < |h| && h[i] == row ==>
      Leverage(InverseOf(Gain(h, w, n)).value, row) <= 1.0 / w[i]
  {
    hide Gain, InverseOf, Weighted;
    var g := Gain(h, w, n);
    var u := MatVec(InverseOf(g).value, row);
    InverseUndoes(g, u, row);
    GainQuadratic(h, w, n, u);
    WeightedSign(w, MatVec(h, u));
    forall i | 0 <= i < |h| && h[i] == row ensures Dot(row, u) <= 1.0 / w[i] {
      OneTermAtMost(w, MatVec(h, u), i);
      SquareBound(w[i], Dot(row, u));
    }
  }
}
