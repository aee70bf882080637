/** The plain complex numbers (`Math::Complex`) that both parts of a
    dual-complex number are made of: the algebra the dual-complex
    operations are built on, and the facts about it their proofs need. */
module Complexes {
  import opened Vectors

  datatype Complex = Complex(re: real, im: real)

  const One: Complex := Complex(1.0, 0.0)
  const Zero: Complex := Complex(0.0, 0.0)

  function Add(a: Complex, b: Complex): Complex {
    Complex(a.re + b.re, a.im + b.im)
  }

  function Neg(a: Complex): Complex {
    Complex(-a.re, -a.im)
  }

  function Mul(a: Complex, b: Complex): Complex {
    Complex(a.re * b.re - a.im * b.im, a.re * b.im + a.im * b.re)
  }

  function Scale(a: Complex, k: real): Complex {
    Complex(a.re * k, a.im * k)
  }

  /** The complex conjugate: the imaginary component negated. */
  function Conjugated(a: Complex): Complex {
    Complex(a.re, -a.im)
  }

  /** Squared magnitude. */
  function LengthSquared(a: Complex): (r: real)
    ensures r >= 0.0
  {
    a.re * a.re + a.im * a.im
  }

  predicate IsUnit(a: Complex) {
    LengthSquared(a) == 1.0
  }

  /** The multiplicative inverse, conjugate over squared magnitude. */
  function Inverted(a: Complex): (r: Complex)
    requires LengthSquared(a) != 0.0
    ensures Mul(a, r) == One && Mul(r, a) == One
  {
    var n := LengthSquared(a);
    var r := Scale(Conjugated(a), 1.0 / n);
    assert Mul(a, r).re == (a.re * a.re + a.im * a.im) / n;
    assert Mul(a, r).im == (a.im * a.re - a.re * a.im) / n;
    r
  }

  /** A vector read as a complex number and back. */
  function FromVector(v: Vector2): Complex {
    Complex(v.x, v.y)
  }

  function ToVector(a: Complex): Vector2 {
    Vector2(a.re, a.im)
  }

  /** `Complex::transformVector`: the vector turned (and scaled) by `a`. */
  function TransformVector(a: Complex, v: Vector2): (r: Vector2)
    ensures Dot(r) == LengthSquared(a) * Dot(v)
  {
    LengthSquaredMul(a, FromVector(v));
    ToVector(Mul(a, FromVector(v)))
  }

  lemma MulAssociative(a: Complex, b: Complex, c: Complex)
    ensures Mul(Mul(a, b), c) == Mul(a, Mul(b, c))
  {
    assert Mul(Mul(a, b), c).re == a.re * b.re * c.re - a.im * b.im * c.re - a.re * b.im * c.im - a.im * b.re * c.im;
    assert Mul(a, Mul(b, c)).re == a.re * b.re * c.re - a.re * b.im * c.im - a.im * b.re * c.im - a.im * b.im * c.re;
    assert Mul(Mul(a, b), c).im == a.re * b.re * c.im - a.im * b.im * c.im + a.re * b.im * c.re + a.im * b.re * c.re;
    assert Mul(a, Mul(b, c)).im == a.re * b.re * c.im + a.re * b.im * c.re + a.im * b.re * c.re - a.im * b.im * c.im;
  }

  lemma MulDistributesOverAdd(a: Complex, b: Complex, c: Complex)
    ensures Mul(a, Add(b, c)) == Add(Mul(a, b), Mul(a, c))
  {
  }

  lemma MulNeg(a: Complex, b: Complex)
    ensures Mul(a, Neg(b)) == Neg(Mul(a, b))
  {
  }

  lemma ConjugatedMul(a: Complex, b: Complex)
    ensures Conjugated(Mul(a, b)) == Mul(Conjugated(a), Conjugated(b))
  {
  }

  /** The squared magnitude is multiplicative. */
  lemma LengthSquaredMul(a: Complex, b: Complex)
    ensures LengthSquared(Mul(a, b)) == LengthSquared(a) * LengthSquared(b)
  {
    var p := Mul(a, b);
    calc {
      p.re * p.re + p.im * p.im;
      (a.re * b.re - a.im * b.im) * (a.re * b.re - a.im * b.im) + (a.re * b.im + a.im * b.re) * (a.re * b.im + a.im * b.re);
      a.re * a.re * b.re * b.re + a.im * a.im * b.im * b.im + a.re * a.re * b.im * b.im + a.im * a.im * b.re * b.re;
      (a.re * a.re + a.im * a.im) * (b.re * b.re + b.im * b.im);
    }
  }

  /** On the unit circle the conjugate is the inverse. */
  lemma UnitInverted(a: Complex)
    requires IsUnit(a)
    ensures Inverted(a) == Conjugated(a)
  {
  }

  lemma LengthSquaredInverted(a: Complex)
    requires LengthSquared(a) != 0.0
    ensures LengthSquared(Inverted(a)) == 1.0 / LengthSquared(a)
  {
    LengthSquaredMul(a, Inverted(a));
  }
}
