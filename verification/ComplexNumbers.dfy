/** Complex numbers as pairs of reals. */
module ComplexNumbers {
  import opened Reals

  datatype Complex = Complex(re: real, im: real) {
    function Plus(w: Complex): Complex {
      Complex(re + w.re, im + w.im)
    }

    function Minus(w: Complex): Complex {
      Complex(re - w.re, im - w.im)
    }

    function Times(w: Complex): Complex {
      Complex(re * w.re - im * w.im, re * w.im + im * w.re)
    }

    function Conj(): Complex {
      Complex(re, -im)
    }

    function Scale(k: real): Complex {
      Complex(k * re, k * im)
    }

    /** The squared modulus. */
    function Norm2(): real {
      Sq(re) + Sq(im)
    }

    function Over(w: Complex): Complex
      requires w != ZERO
    {
      NonZeroNorm(w);
      Times(w.Conj()).Scale(1.0 / w.Norm2())
    }
  }

  const ZERO := Complex(0.0, 0.0)

  lemma NonZeroNorm(w: Complex)
    requires w != ZERO
    ensures w.Norm2() > 0.0
  {
    SqSign(w.re);
    SqSign(w.im);
    assert w == Complex(w.re, w.im);
  }

  // ---- algebra -------------------------------------------------------------

  lemma PlusLaws(u: Complex, v: Complex, w: Complex)
    ensures u.Plus(v) == v.Plus(u)
    ensures u.Plus(v).Plus(w) == u.Plus(v.Plus(w))
    ensures u.Plus(ZERO) == u && u.Minus(v).Plus(v) == u
  {
  }

  lemma OverPlus(k: Complex, u: Complex, v: Complex)
    ensures k.Times(u.Plus(v)) == k.Times(u).Plus(k.Times(v))
  {
  }

  lemma OverMinus(k: Complex, u: Complex, v: Complex)
    ensures k.Times(u.Minus(v)) == k.Times(u).Minus(k.Times(v))
  {
  }

  lemma TimesZero(k: Complex)
    ensures k.Times(ZERO) == ZERO
  {
  }

  lemma Commutes(u: Complex, v: Complex)
    ensures u.Times(v) == v.Times(u)
  {
  }

  lemma Distributes(k: Complex, u: Complex, v: Complex)
    ensures k.Times(u.Plus(v)) == k.Times(u).Plus(k.Times(v))
    ensures k.Times(u.Minus(v)) == k.Times(u).Minus(k.Times(v))
    ensures u.Plus(v).Times(k) == u.Times(k).Plus(v.Times(k))
    ensures u.Minus(v).Times(k) == u.Times(k).Minus(v.Times(k))
    ensures k.Times(ZERO) == ZERO && ZERO.Times(k) == ZERO
  {
    hide Complex.Times, Complex.Plus, Complex.Minus;
    OverPlus(k, u, v);
    OverMinus(k, u, v);
    Commutes(k, u.Plus(v));
    Commutes(k, u.Minus(v));
    Commutes(k, u);
    Commutes(k, v);
    TimesZero(k);
    Commutes(k, ZERO);
  }

  lemma TimesLaws(u: Complex, v: Complex, w: Complex)
    ensures u.Times(v) == v.Times(u)
    ensures u.Times(v).Times(w) == u.Times(v.Times(w))
  {
  }

  lemma ConjLaws(u: Complex, v: Complex)
    ensures u.Plus(v).Conj() == u.Conj().Plus(v.Conj()) && ZERO.Conj() == ZERO
  {
  }

  lemma TimesConj(u: Complex)
    ensures u.Times(u.Conj()) == Complex(u.Norm2(), 0.0)
  {
  }
}
