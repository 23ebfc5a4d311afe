/**
 * Exact complex arithmetic, standing in for the `Complex` (std::complex<double>)
 * scalars of the solver. Rounding is not modelled: every operation is exact.
 */
module Cx {

  datatype Complex = Complex(re: real, im: real)

  const Zero: Complex := Complex(0.0, 0.0)
  const One: Complex := Complex(1.0, 0.0)

  function Add(a: Complex, b: Complex): Complex
  {
    Complex(a.re + b.re, a.im + b.im)
  }

  function Sub(a: Complex, b: Complex): Complex
  {
    Complex(a.re - b.re, a.im - b.im)
  }

  function Neg(a: Complex): Complex
  {
    Complex(-a.re, -a.im)
  }

  function Mul(a: Complex, b: Complex): Complex
  {
    Complex(a.re * b.re - a.im * b.im, a.re * b.im + a.im * b.re)
  }

  /**
   * Division of a complex number by a real one (`Complex / double`). A zero
   * divisor is a breakdown of the iteration, where the floating-point code
   * produces inf or NaN; the model gives Zero there.
   */
  function DivReal(a: Complex, s: real): (q: Complex)
    ensures s != 0.0 ==> q.re * s == a.re && q.im * s == a.im
    ensures s == 0.0 ==> q == Zero
  {
    if s == 0.0 then Zero else Complex(a.re / s, a.im / s)
  }

  /** |b|^2, the denominator of a complex division. */
  function Norm2(b: Complex): real
  {
    b.re * b.re + b.im * b.im
  }

  /**
   * Complex division `a / b`. A zero `b` (Norm2(b) == 0) is a breakdown of
   * the iteration, where the floating-point code produces inf or NaN; the
   * model gives Zero there.
   */
  function Div(a: Complex, b: Complex): Complex
  {
    var d := Norm2(b);
    if d == 0.0 then Zero
    else Complex((a.re * b.re + a.im * b.im) / d, (a.im * b.re - a.re * b.im) / d)
  }

  /** Division undoes multiplication by a non-zero divisor: (a / b) b = a. */
  lemma DivInverse(a: Complex, b: Complex)
    requires Norm2(b) != 0.0
    ensures Mul(Div(a, b), b) == a
  {
    var d := Norm2(b);
    var p, q := a.re * b.re + a.im * b.im, a.im * b.re - a.re * b.im;
    var x, y := p / d, q / d;
    assert Div(a, b) == Complex(x, y);
    assert x * d == p && y * d == q;
    assert (x * b.re - y * b.im) * d == p * b.re - q * b.im;
    assert p * b.re - q * b.im == a.re * d;
    assert (x * b.im + y * b.re) * d == p * b.im + q * b.re;
    assert p * b.im + q * b.re == a.im * d;
  }
}
