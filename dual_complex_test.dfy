/** The concrete values `DualComplexTest` checks, restated over exact
    rationals. Where the test compares against a rounded decimal (a square
    root of 10, say), the lemma takes the exact number as a parameter. */
module DualComplexTest {
  import opened Vectors
  import C = Complexes
  import opened DualComplexes

  lemma ConstructDefault()
    ensures Identity() == DualComplex(C.Complex(1.0, 0.0), C.Complex(0.0, 0.0))
    ensures LengthSquared(Identity()) == 1.0
  {
    ConstructedLengths(ZeroVector, C.One);
  }

  lemma ConstructFromVector()
    ensures FromVector(Vector2(1.5, -3.0)) == DualComplex(C.Complex(1.0, 0.0), C.Complex(1.5, -3.0))
  {
  }

  /** The value and vector constructors with the constant-expression test's
      values; its default constructor is `ConstructDefault`, and a copy of a
      value is the same value. */
  lemma ConstExpressions()
    ensures var b := DualComplex(C.Complex(-1.0, 2.5), C.Complex(3.0, -7.5));
      b.realPart == C.Complex(-1.0, 2.5) && b.dualPart == C.Complex(3.0, -7.5)
    ensures FromVector(Vector2(-3.0, 7.5)) == DualComplex(C.One, C.Complex(-3.0, 7.5))
  {
  }

  lemma MultiplyExample()
    ensures Mul(DualComplex(C.Complex(-1.5, 2.0), C.Complex(3.0, -6.5)),
                DualComplex(C.Complex(2.0, -7.5), C.Complex(-0.5, 1.0)))
         == DualComplex(C.Complex(12.0, 15.25), C.Complex(1.75, -9.0))
  {
  }

  lemma LengthSquaredExample()
    ensures LengthSquared(DualComplex(C.Complex(-1.0, 3.0), C.Complex(0.5, -2.0))) == 10.0
  {
  }

  /** `len` is the length, the square root of 10. */
  lemma NormalizedExample(len: real)
    requires len > 0.0 && len * len == 10.0
    ensures var a := DualComplex(C.Complex(-1.0, 3.0), C.Complex(0.5, -2.0));
      && LengthSquared(Normalized(a, len)) == 1.0
      && Normalized(a, len) == DualComplex(C.Complex(-1.0 / len, 3.0 / len), C.Complex(0.5, -2.0))
  {
  }

  /** The three conjugates of one value, all different. */
  lemma ConjugatesExample()
    ensures ComplexConjugated(DualComplex(C.Complex(-1.0, 2.5), C.Complex(3.0, -7.5)))
         == DualComplex(C.Complex(-1.0, -2.5), C.Complex(3.0, 7.5))
    ensures DualConjugated(DualComplex(C.Complex(-1.0, 2.5), C.Complex(3.0, -7.5)))
         == DualComplex(C.Complex(-1.0, 2.5), C.Complex(-3.0, 7.5))
    ensures Conjugated(DualComplex(C.Complex(-1.0, 2.5), C.Complex(3.0, -7.5)))
         == DualComplex(C.Complex(-1.0, -2.5), C.Complex(-3.0, -7.5))
  {
  }

  lemma InvertedExample()
    ensures var a := DualComplex(C.Complex(-1.0, 1.5), C.Complex(3.0, -7.5));
      && LengthSquared(a) != 0.0
      && Inverted(a) == DualComplex(C.Complex(-4.0 / 13.0, -6.0 / 13.0), C.Complex(57.0 / 13.0, -12.0 / 13.0))
      && Mul(a, Inverted(a)) == Identity()
  {
  }

  /** The unit value is `((-k, 3k), (3, -2.5))` with `k` the reciprocal of
      the square root of 10. */
  lemma InvertedNormalizedExample(k: real)
    requires k > 0.0 && 10.0 * k * k == 1.0
    ensures var a := DualComplex(C.Complex(-k, 3.0 * k), C.Complex(3.0, -2.5));
      InvertedNormalized(a) == Success(DualComplex(C.Complex(-k, -3.0 * k), C.Complex(10.5 * k, 6.5 * k)))
  {
    var a := DualComplex(C.Complex(-k, 3.0 * k), C.Complex(3.0, -2.5));
    assert LengthSquared(a) == 10.0 * k * k;
  }

  /** The refused value `((-1, -2.5), {})`, whose `{}` is the default complex
      `(1, 0)`; the dual part `d` plays no part in the refusal. */
  lemma InvertedNormalizedRefusesExample(d: C.Complex)
    ensures InvertedNormalized(DualComplex(C.Complex(-1.0, -2.5), C.One)) == Failure(NotNormalized)
    ensures InvertedNormalized(DualComplex(C.Complex(-1.0, -2.5), d)) == Failure(NotNormalized)
  {
  }

  /** The rotation by 120 degrees, `(-1/2, h)` with `h` the square root of 3/4. */
  lemma RotationExample(h: real)
    requires h > 0.0 && h * h == 0.75
    ensures LengthSquared(Rotation(C.Complex(-0.5, h))) == 1.0
    ensures Rotation(C.Complex(-0.5, h)) == DualComplex(C.Complex(-0.5, h), C.Complex(0.0, 0.0))
  {
    ConstructedLengths(ZeroVector, C.Complex(-0.5, h));
    assert C.LengthSquared(C.Complex(-0.5, h)) == 0.25 + h * h;
  }

  lemma TranslationExample()
    ensures LengthSquared(FromVector(Vector2(1.5, -3.5))) == 1.0
    ensures FromVector(Vector2(1.5, -3.5)) == DualComplex(C.One, C.Complex(1.5, -3.5))
    ensures Translation(FromVector(Vector2(1.5, -3.5))) == Vector2(1.5, -3.5)
  {
    ConstructedLengths(Vector2(1.5, -3.5), C.One);
  }
}
