/** `Math::DualComplex`: a planar rigid motion held as a pair of complex
    numbers, a real (rotation) part `r` and a dual (translation) part `t`.
    The value stands for the affine map `p |-> r*p + t` of the plane, and
    every operation below returns a new value. */
module DualComplexes {
  import opened Vectors
  import C = Complexes

  datatype DualComplex = DualComplex(realPart: C.Complex, dualPart: C.Complex)

  /** The one failure the algebra reports: `invertedNormalized` applied to a
      value whose real part is not of unit length. */
  datatype Error = NotNormalized

  datatype Result<T> = Success(value: T) | Failure(error: Error)

  /** The map of the plane a dual-complex number stands for: turn (and
      scale) by the real part, then shift by the dual part. */
  function Apply(a: DualComplex, p: Vector2): Vector2 {
    C.ToVector(C.Add(C.Mul(a.realPart, C.FromVector(p)), a.dualPart))
  }

  /** The default constructor: no rotation, no translation. */
  function Identity(): DualComplex {
    DualComplex(C.One, C.Zero)
  }

  /** The vector constructor, and `DualComplex::translation(vector)`: the
      pure translation by `v`. */
  function FromVector(v: Vector2): (r: DualComplex)
    ensures Translation(r) == v
  {
    DualComplex(C.One, C.FromVector(v))
  }

  /** `DualComplex::rotation`, with the angle given as the complex number it
      turns into (of unit length for every angle): the pure rotation about
      the origin. */
  function Rotation(rotation: C.Complex): (r: DualComplex)
    ensures Translation(r) == ZeroVector
  {
    DualComplex(rotation, C.Zero)
  }

  /** `translation()`: the dual part read as a vector. */
  function Translation(a: DualComplex): Vector2 {
    C.ToVector(a.dualPart)
  }

  /** `operator*`: rotation parts multiply, and the right operand's
      translation is turned by the left operand's rotation before the left
      operand's translation is added. */
  function Mul(a: DualComplex, b: DualComplex): DualComplex {
    DualComplex(C.Mul(a.realPart, b.realPart), C.Add(C.Mul(a.realPart, b.dualPart), a.dualPart))
  }

  /** `lengthSquared()`: the squared magnitude of the real part alone. */
  function LengthSquared(a: DualComplex): (r: real)
    ensures r >= 0.0
  {
    C.LengthSquared(a.realPart)
  }

  /** `normalized()`, with the length `len`, the square root of the squared
      length, passed in: the real part is divided by it, the dual part is
      kept. */
  function Normalized(a: DualComplex, len: real): (r: DualComplex)
    requires len > 0.0 && len * len == LengthSquared(a)
    ensures LengthSquared(r) == 1.0
    ensures C.Scale(r.realPart, len) == a.realPart
    ensures r.dualPart == a.dualPart
  {
    var k := 1.0 / len;
    var r := DualComplex(C.Scale(a.realPart, k), a.dualPart);
    ScaledLengthSquared(a.realPart, k);
    assert k * k * (len * len) == 1.0 by {
      assert k * len == 1.0;
      assert k * k * (len * len) == (k * len) * (k * len);
    }
    assert C.Scale(r.realPart, len) == a.realPart by {
      assert k * len == 1.0;
      assert a.realPart.re * k * len == a.realPart.re * (k * len);
      assert a.realPart.im * k * len == a.realPart.im * (k * len);
    }
    r
  }

  /** `complexConjugated()`: both parts conjugated as complex numbers. */
  function ComplexConjugated(a: DualComplex): (r: DualComplex)
    ensures Translation(r) == Mirrored(Translation(a))
  {
    DualComplex(C.Conjugated(a.realPart), C.Conjugated(a.dualPart))
  }

  /** `dualConjugated()`: the real part kept, the dual part negated. */
  function DualConjugated(a: DualComplex): (r: DualComplex)
    ensures r.realPart == a.realPart
    ensures Translation(r) == Vector2(-Translation(a).x, -Translation(a).y)
  {
    DualComplex(a.realPart, C.Neg(a.dualPart))
  }

  /** `conjugated()`: the real part conjugated; the dual part `(x, y)`
      becomes `(-x, y)`, the negated complex conjugate. */
  function Conjugated(a: DualComplex): (r: DualComplex)
    ensures r.realPart == C.Conjugated(a.realPart)
    ensures Translation(r) == Vector2(-Translation(a).x, Translation(a).y)
  {
    DualComplex(C.Conjugated(a.realPart), C.Neg(C.Conjugated(a.dualPart)))
  }

  /** `inverted()`: the real part inverted as a complex number, the dual
      part `-(r^-1 * t)`; the result undoes the motion from either side. */
  function Inverted(a: DualComplex): (r: DualComplex)
    requires LengthSquared(a) != 0.0
    ensures Mul(a, r) == Identity()
    ensures Mul(r, a) == Identity()
  {
    var ri := C.Inverted(a.realPart);
    var r := DualComplex(ri, C.Neg(C.Mul(ri, a.dualPart)));
    InverseDual(a.realPart, ri, a.dualPart);
    assert Mul(a, r) == DualComplex(C.One, C.Zero);
    assert Mul(r, a) == DualComplex(C.One, C.Zero);
    r
  }

  /** `invertedNormalized()`: the inverse of a value whose real part has unit
      length, computed with the conjugate in place of the inverse; any other
      value is refused. */
  function InvertedNormalized(a: DualComplex): (r: Result<DualComplex>)
    ensures r.Failure? <==> LengthSquared(a) != 1.0
    ensures r.Success? ==> r.value == Inverted(a)
  {
    if LengthSquared(a) != 1.0 then
      Failure(NotNormalized)
    else
      var rc := C.Conjugated(a.realPart);
      ConjugateInverse(a);
      Success(DualComplex(rc, C.Neg(C.Mul(rc, a.dualPart))))
  }

  /** A successful `invertedNormalized()` undoes the motion from either side. */
  lemma InvertedNormalizedUndoes(a: DualComplex)
    requires LengthSquared(a) == 1.0
    ensures InvertedNormalized(a).Success?
    ensures Mul(a, InvertedNormalized(a).value) == Identity()
    ensures Mul(InvertedNormalized(a).value, a) == Identity()
  {
    var inv := Inverted(a);
    assert InvertedNormalized(a) == Success(inv);
    assert Mul(a, inv) == Identity() && Mul(inv, a) == Identity();
  }

  // Laws of composition.

  /** The default-constructed value is a two-sided unit of `*`. */
  lemma IdentityIsNeutral(a: DualComplex)
    ensures Mul(Identity(), a) == a && Mul(a, Identity()) == a
  {
  }

  /** The product stands for "apply the right operand, then the left one". */
  lemma MulComposes(a: DualComplex, b: DualComplex, p: Vector2)
    ensures Apply(Mul(a, b), p) == Apply(a, Apply(b, p))
  {
    var q := C.FromVector(p);
    C.MulAssociative(a.realPart, b.realPart, q);
    C.MulDistributesOverAdd(a.realPart, C.Mul(b.realPart, q), b.dualPart);
  }

  lemma MulAssociative(a: DualComplex, b: DualComplex, c: DualComplex)
    ensures Mul(Mul(a, b), c) == Mul(a, Mul(b, c))
  {
    C.MulAssociative(a.realPart, b.realPart, c.realPart);
    C.MulAssociative(a.realPart, b.realPart, c.dualPart);
    C.MulDistributesOverAdd(a.realPart, C.Mul(b.realPart, c.dualPart), b.dualPart);
  }

  /** Composing multiplies squared lengths, so unit motions compose to a
      unit motion. */
  lemma LengthSquaredMul(a: DualComplex, b: DualComplex)
    ensures LengthSquared(Mul(a, b)) == LengthSquared(a) * LengthSquared(b)
  {
    C.LengthSquaredMul(a.realPart, b.realPart);
  }

  /** The dual part has no say in the squared length. */
  lemma LengthSquaredIgnoresDual(a: DualComplex, b: DualComplex)
    requires a.realPart == b.realPart
    ensures LengthSquared(a) == LengthSquared(b)
  {
  }

  // What the constructors stand for.

  /** The identity and the pure translations have unit length, and a
      rotation has the length of the complex number it is built from. */
  lemma ConstructedLengths(v: Vector2, rotation: C.Complex)
    ensures LengthSquared(Identity()) == 1.0
    ensures LengthSquared(FromVector(v)) == 1.0
    ensures LengthSquared(Rotation(rotation)) == C.LengthSquared(rotation)
  {
  }

  /** The translation is where the motion takes the origin. */
  lemma TranslationMovesOrigin(a: DualComplex)
    ensures Translation(a) == Apply(a, ZeroVector)
  {
  }

  lemma ApplyIdentity(p: Vector2)
    ensures Apply(Identity(), p) == p
  {
  }

  lemma ApplyFromVector(v: Vector2, p: Vector2)
    ensures Apply(FromVector(v), p) == Add(p, v)
  {
  }

  lemma ApplyRotation(rotation: C.Complex, p: Vector2)
    ensures Apply(Rotation(rotation), p) == C.TransformVector(rotation, p)
  {
  }

  /** Translating after rotating keeps the translation as given, and the
      rotation part is the rotation's. */
  lemma TranslationThenRotation(t: Vector2, rotation: C.Complex)
    ensures Mul(FromVector(t), Rotation(rotation)).realPart == rotation
    ensures Translation(Mul(FromVector(t), Rotation(rotation))) == t
  {
  }

  /** Rotating after translating turns the translation by the rotation. */
  lemma RotationThenTranslation(t: Vector2, rotation: C.Complex)
    ensures Mul(Rotation(rotation), FromVector(t)).realPart == rotation
    ensures Translation(Mul(Rotation(rotation), FromVector(t))) == C.TransformVector(rotation, t)
  {
  }

  /** So `*` does not commute: a quarter turn and a unit shift along x give
      different products in the two orders. */
  lemma MulNotCommutative()
    ensures Mul(FromVector(Vector2(1.0, 0.0)), Rotation(C.Complex(0.0, 1.0)))
         != Mul(Rotation(C.Complex(0.0, 1.0)), FromVector(Vector2(1.0, 0.0)))
  {
    RotationThenTranslation(Vector2(1.0, 0.0), C.Complex(0.0, 1.0));
    TranslationThenRotation(Vector2(1.0, 0.0), C.Complex(0.0, 1.0));
  }

  // Normalization.

  /** A normalized value is left alone by normalizing it again. */
  lemma NormalizedIdempotent(a: DualComplex, len: real)
    requires len > 0.0 && len * len == LengthSquared(a)
    ensures Normalized(Normalized(a, len), 1.0) == Normalized(a, len)
  {
  }

  // The conjugates.

  /** Each conjugate undoes itself. */
  lemma ConjugatesInvolutive(a: DualComplex)
    ensures ComplexConjugated(ComplexConjugated(a)) == a
    ensures DualConjugated(DualConjugated(a)) == a
    ensures Conjugated(Conjugated(a)) == a
  {
  }

  /** None of the conjugates changes the squared length. */
  lemma ConjugatesKeepLength(a: DualComplex)
    ensures LengthSquared(ComplexConjugated(a)) == LengthSquared(a)
    ensures LengthSquared(DualConjugated(a)) == LengthSquared(a)
    ensures LengthSquared(Conjugated(a)) == LengthSquared(a)
  {
  }

  /** `conjugated()` is the other two applied one after the other, in either
      order. */
  lemma ConjugatedComposes(a: DualComplex)
    ensures Conjugated(a) == DualConjugated(ComplexConjugated(a))
    ensures Conjugated(a) == ComplexConjugated(DualConjugated(a))
  {
  }

  /** All three conjugates respect `*`. */
  lemma ConjugatesRespectMul(a: DualComplex, b: DualComplex)
    ensures ComplexConjugated(Mul(a, b)) == Mul(ComplexConjugated(a), ComplexConjugated(b))
    ensures DualConjugated(Mul(a, b)) == Mul(DualConjugated(a), DualConjugated(b))
    ensures Conjugated(Mul(a, b)) == Mul(Conjugated(a), Conjugated(b))
  {
    C.ConjugatedMul(a.realPart, b.realPart);
    C.ConjugatedMul(a.realPart, b.dualPart);
    C.MulNeg(a.realPart, b.dualPart);
    C.MulNeg(C.Conjugated(a.realPart), C.Conjugated(b.dualPart));
  }

  /** `complexConjugated()` is the motion seen in a mirror along the x axis. */
  lemma ComplexConjugatedMirrors(a: DualComplex, p: Vector2)
    ensures Apply(ComplexConjugated(a), Mirrored(p)) == Mirrored(Apply(a, p))
  {
  }

  // Inversion.

  /** A right inverse is the inverse. */
  lemma RightInverseUnique(a: DualComplex, b: DualComplex)
    requires LengthSquared(a) != 0.0
    requires Mul(a, b) == Identity()
    ensures b == Inverted(a)
  {
    var inv := Inverted(a);
    calc {
      b;
      { IdentityIsNeutral(b); }
      Mul(Identity(), b);
      Mul(Mul(inv, a), b);
      { MulAssociative(inv, a, b); }
      Mul(inv, Mul(a, b));
      Mul(inv, Identity());
      { IdentityIsNeutral(inv); }
      inv;
    }
  }

  /** Inverting twice gives the value back. */
  lemma InvertedInvolutive(a: DualComplex)
    requires LengthSquared(a) != 0.0
    ensures LengthSquared(Inverted(a)) != 0.0 && Inverted(Inverted(a)) == a
  {
    C.LengthSquaredInverted(a.realPart);
    RightInverseUnique(Inverted(a), a);
  }

  /** The inverse of a product is the product of the inverses, in the other
      order. */
  lemma InvertedMul(a: DualComplex, b: DualComplex)
    requires LengthSquared(a) != 0.0 && LengthSquared(b) != 0.0
    ensures LengthSquared(Mul(a, b)) != 0.0
    ensures Inverted(Mul(a, b)) == Mul(Inverted(b), Inverted(a))
  {
    LengthSquaredMul(a, b);
    var ab, ib, ia := Mul(a, b), Inverted(b), Inverted(a);
    calc {
      Mul(ab, Mul(ib, ia));
      { MulAssociative(a, b, Mul(ib, ia)); }
      Mul(a, Mul(b, Mul(ib, ia)));
      { MulAssociative(b, ib, ia); }
      Mul(a, Mul(Mul(b, ib), ia));
      Mul(a, Mul(Identity(), ia));
      { IdentityIsNeutral(ia); }
      Mul(a, ia);
      Identity();
    }
    RightInverseUnique(ab, Mul(ib, ia));
  }

  /** The inverse maps every point back to where it came from. */
  lemma InvertedUndoesApply(a: DualComplex, p: Vector2)
    requires LengthSquared(a) != 0.0
    ensures Apply(Inverted(a), Apply(a, p)) == p
  {
    MulComposes(Inverted(a), a, p);
    ApplyIdentity(p);
  }

  // Helpers of the proofs.

  lemma ConjugateInverse(a: DualComplex)
    requires LengthSquared(a) == 1.0
    ensures var rc := C.Conjugated(a.realPart);
      DualComplex(rc, C.Neg(C.Mul(rc, a.dualPart))) == Inverted(a)
  {
    C.UnitInverted(a.realPart);
  }

  lemma ScaledLengthSquared(a: C.Complex, k: real)
    ensures C.LengthSquared(C.Scale(a, k)) == k * k * C.LengthSquared(a)
  {
  }

  /** With `ri` the inverse of `r`, the dual part `-(ri * t)` cancels the
      translation `t`. */
  lemma InverseDual(r: C.Complex, ri: C.Complex, t: C.Complex)
    requires C.Mul(r, ri) == C.One
    ensures C.Add(C.Mul(r, C.Neg(C.Mul(ri, t))), t) == C.Zero
  {
    C.MulNeg(r, C.Mul(ri, t));
    C.MulAssociative(r, ri, t);
  }
}
