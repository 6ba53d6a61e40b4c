/** Facts about products of reals that the solver is not trusted to find by itself. */
module Reals {
  function Sq(x: real): real {
    x * x
  }

  function Product(x: real, y: real): real {
    x * y
  }

  function Abs(x: real): (r: real)
    ensures r >= 0.0 && (r == x || r == -x)
  {
    if x < 0.0 then -x else x
  }

  function Max(x: real, y: real): real {
    if x >= y then x else y
  }

  lemma ProductPositive(x: real, y: real)
    requires x > 0.0 && y > 0.0
    ensures Product(x, y) > 0.0
  {
  }

  lemma ProductNonNegative(x: real, y: real)
    requires x >= 0.0 && y >= 0.0
    ensures Product(x, y) >= 0.0
  {
  }

  lemma SqSign(x: real)
    ensures Sq(x) >= 0.0 && (Sq(x) == 0.0 <==> x == 0.0)
  {
    if x > 0.0 {
      ProductPositive(x, x);
    } else if x < 0.0 {
      ProductPositive(-x, -x);
      assert Product(-x, -x) == Product(x, x);
    }
  }

  lemma DivisionUndone(x: real, y: real)
    requires y != 0.0
    ensures (x / y) * y == x
  {
  }

  lemma Cancels(k: real, x: real, y: real)
    requires k != 0.0 && k * x == k * y
    ensures x == y
  {
    assert k * (x - y) == 0.0;
    if x != y { NoZeroProduct(k, x - y); }
  }

  lemma NoZeroProduct(x: real, y: real)
    requires x != 0.0 && y != 0.0
    ensures Product(x, y) != 0.0
  {
    if x > 0.0 && y > 0.0 { ProductPositive(x, y); }
    if x > 0.0 && y < 0.0 { ProductPositive(x, -y); assert Product(x, -y) == -Product(x, y); }
    if x < 0.0 && y > 0.0 { ProductPositive(-x, y); assert Product(-x, y) == -Product(x, y); }
    if x < 0.0 && y < 0.0 { ProductPositive(-x, -y); assert Product(-x, -y) == Product(x, y); }
  }

  lemma QuotientIff(k: real, x: real, b: real)
    requires k != 0.0
    ensures k * x == b <==> x == b / k
  {
    var q := b / k;
    assert q * k == b;
    if k * x == b { Cancels(k, x, q); }
  }

  lemma SelfQuotient(k: real)
    requires k != 0.0
    ensures k / k == 1.0
  {
  }

  lemma ProductAdds(a: real, x: real, y: real)
    ensures Product(a, x + y) == Product(a, x) + Product(a, y)
    ensures Product(a, 0.0) == 0.0 && Product(0.0, x) == 0.0
  {
  }
}
