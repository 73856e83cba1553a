/** Complex numbers over exact reals, standing for the source's `complex`
    struct (a pair of `Real`s). Floating-point rounding is not modelled. */
module ComplexArith {

  datatype Complex = Complex(re: real, im: real)

  const Zero: Complex := Complex(0.0, 0.0)

  /** The unit value (1,0) every phase composition starts from. */
  const One: Complex := Complex(1.0, 0.0)

  function Add(a: Complex, b: Complex): Complex {
    Complex(a.re + b.re, a.im + b.im)
  }

  /** Standard complex multiplication. */
  function Mul(a: Complex, b: Complex): Complex {
    Complex(a.re * b.re - a.im * b.im, a.re * b.im + a.im * b.re)
  }

  /** Multiplying by a purely real factor scales both parts. */
  lemma MulRealFactor(z: Complex, c: real)
    ensures Mul(z, Complex(c, 0.0)) == Complex(z.re * c, z.im * c)
  {
    assert z.im * 0.0 == 0.0 && z.re * 0.0 == 0.0;
  }

  /** Multiplying by a purely imaginary factor is a quarter rotation. */
  lemma MulImagFactor(z: Complex, s: real)
    ensures Mul(z, Complex(0.0, s)) == Complex(-z.im * s, z.re * s)
  {
    assert z.im * 0.0 == 0.0 && z.re * 0.0 == 0.0;
  }

  lemma MulOneRight(a: Complex)
    ensures Mul(a, One) == a
  {
    assert a.im * 0.0 == 0.0 && a.re * 0.0 == 0.0;
  }

  lemma MulOneLeft(a: Complex)
    ensures Mul(One, a) == a
  {
    assert 0.0 * a.im == 0.0 && 0.0 * a.re == 0.0;
  }

  lemma AddZeroLeft(a: Complex)
    ensures Add(Zero, a) == a
  {
  }
}
