# Dual-complex numbers of Magnum, in Dafny

This project models `Math::DualComplex`, Magnum's dual-complex number. The type
encodes a rigid motion of the plane as two complex numbers: a real part `r`
(the rotation) and a dual part `t` (the translation). A value stands for the
map `p |-> r*p + t`. Every operation is a pure function that returns a new
value. The header that implements the type is not part of this model. Its
behaviour is taken from the assertions of `src/Math/Test/DualComplexTest.cpp`,
and the formulas below are the ones the test's values fix:

- `a * b = (r1*r2, r1*t2 + t1)`: the product at lines 120-122
  (`DualComplexTest.MultiplyExample`);
- `lengthSquared` reads the real part only: the value at lines 126-127 has
  squared length 10, the squared length of its real part `(-1, 3)`
  (`DualComplexTest.LengthSquaredExample`);
- `inverted` is `(r^-1, -(r^-1 * t))`: the inverse at lines 161-164
  (`DualComplexTest.InvertedExample`).

Files:

- `vector2.dfy` (module `Vectors`): `Vector2`, the vector type that
  translations come from and are given back as.
- `complex.dfy` (module `Complexes`): the plain complex numbers both parts are
  made of, with the algebra the proofs need (associativity, distributivity,
  multiplicative squared length, inverse). These are leaf helpers. They are
  not part of the modelled core, so they have no rows below.
- `dual_complex.dfy` (module `DualComplexes`): the dual-complex type, its
  operations and their laws. `Apply` gives the map of the plane that a value
  stands for. It is the reference meaning against which composition,
  translation and inversion are stated.
- `dual_complex_test.dfy` (module `DualComplexTest`): the concrete values the
  test file checks, stated over exact rationals.

Scalars are Dafny `real`s, so every identity holds exactly. The source uses
`float` and compares with a tolerance. `normalized` takes the length as a
parameter `len` with `len > 0` and `len * len == lengthSquared`, so no square
root is needed. `rotation(angle)` takes the unit complex number that the angle
turns into, in place of the angle.

## Model

| member | source | states |
|---|---|---|
| `DualComplexes.FromVector` | src/Math/Test/DualComplexTest.cpp:190-196 | The vector constructor and `translation(vector)`: `translation()` of the result gives the vector back (round trip) |
| `DualComplexes.Rotation` | src/Math/Test/DualComplexTest.cpp:183-186 | A rotation built from a complex number has a zero translation |
| `DualComplexes.LengthSquared` | src/Math/Test/DualComplexTest.cpp:125-128 | The squared length is never negative |
| `DualComplexes.LengthSquaredIgnoresDual` | src/Math/Test/DualComplexTest.cpp:125-128 | Two values with the same real part have the same squared length, whatever their dual parts |
| `DualComplexes.Normalized` | src/Math/Test/DualComplexTest.cpp:135-140 | The result has squared length 1; its real part times `len` is the original real part (same direction); the dual part is unchanged |
| `DualComplexes.NormalizedIdempotent` | src/Math/Test/DualComplexTest.cpp:135-140 | Normalizing a normalized value, whose length is 1, changes nothing |
| `DualComplexes.ComplexConjugated` | src/Math/Test/DualComplexTest.cpp:142-146 | The translation of the result is the original translation mirrored in the x axis |
| `DualComplexes.DualConjugated` | src/Math/Test/DualComplexTest.cpp:148-152 | The real part is kept; the translation of the result is the original translation negated |
| `DualComplexes.Conjugated` | src/Math/Test/DualComplexTest.cpp:154-158 | The real part is the complex conjugate of the original one; the translation `(x, y)` of the result is `(-x, y)` |
| `DualComplexes.ConjugatesInvolutive` | src/Math/Test/DualComplexTest.cpp:142-158 | Each of the three conjugates, applied twice, gives the value back |
| `DualComplexes.ConjugatesKeepLength` | src/Math/Test/DualComplexTest.cpp:142-158 | None of the three conjugates changes the squared length |
| `DualComplexes.ConjugatedComposes` | src/Math/Test/DualComplexTest.cpp:142-158 | `conjugated()` equals `complexConjugated()` then `dualConjugated()`, in either order |
| `DualComplexes.ConjugatesRespectMul` | src/Math/Test/DualComplexTest.cpp:142-158 | Each conjugate of a product is the product of the conjugates |
| `DualComplexes.ComplexConjugatedMirrors` | src/Math/Test/DualComplexTest.cpp:142-146 | `complexConjugated()` stands for the original motion seen in a mirror along the x axis |
| `DualComplexes.Inverted` | src/Math/Test/DualComplexTest.cpp:160-165 | For a nonzero real part, `a * a.inverted()` and `a.inverted() * a` are both the identity |
| `DualComplexes.RightInverseUnique` | src/Math/Test/DualComplexTest.cpp:160-165 | Any `b` with `a * b` equal to the identity is `a.inverted()` |
| `DualComplexes.InvertedInvolutive` | src/Math/Test/DualComplexTest.cpp:160-165 | Inverting twice gives the value back |
| `DualComplexes.InvertedMul` | src/Math/Test/DualComplexTest.cpp:160-165 | The inverse of `a * b` is `b.inverted() * a.inverted()` |
| `DualComplexes.InvertedUndoesApply` | src/Math/Test/DualComplexTest.cpp:160-165 | The inverse maps every point back to where the motion took it from |
| `DualComplexes.InvertedNormalized` | src/Math/Test/DualComplexTest.cpp:167-181 | Fails exactly when the squared length is not 1; otherwise returns the same value as `inverted()` |
| `DualComplexes.InvertedNormalizedUndoes` | src/Math/Test/DualComplexTest.cpp:177-179 | For a unit value, the result composed with the value on either side is the identity |
| `DualComplexes.IdentityIsNeutral` | src/Math/Test/DualComplexTest.cpp:92-95 | The default-constructed value is a two-sided unit of `*` |
| `DualComplexes.ApplyIdentity` | src/Math/Test/DualComplexTest.cpp:92-95 | The default-constructed value moves no point |
| `DualComplexes.ConstructedLengths` | src/Math/Test/DualComplexTest.cpp:183-196 | The identity and every pure translation have squared length 1; a rotation has the squared length of its complex number |
| `DualComplexes.ApplyFromVector` | src/Math/Test/DualComplexTest.cpp:190-196 | The value built from a vector moves every point by that vector |
| `DualComplexes.ApplyRotation` | src/Math/Test/DualComplexTest.cpp:183-188 | The value built from a rotation turns every point by it about the origin |
| `DualComplexes.TranslationMovesOrigin` | src/Math/Test/DualComplexTest.cpp:190-196 | `translation()` is where the motion takes the origin |
| `DualComplexes.MulComposes` | src/Math/Test/DualComplexTest.cpp:119-123 | The product `a * b` stands for applying `b` first, then `a` |
| `DualComplexes.MulAssociative` | src/Math/Test/DualComplexTest.cpp:119-123 | `*` is associative |
| `DualComplexes.LengthSquaredMul` | src/Math/Test/DualComplexTest.cpp:119-128 | The squared length of a product is the product of the squared lengths |
| `DualComplexes.TranslationThenRotation` | src/Math/Test/DualComplexTest.cpp:198-205 | For translation(t) * rotation(r), the real part is r and the translation is t unchanged |
| `DualComplexes.RotationThenTranslation` | src/Math/Test/DualComplexTest.cpp:198-206 | For rotation(r) * translation(t), the real part is r and the translation is t turned by r |
| `DualComplexes.MulNotCommutative` | src/Math/Test/DualComplexTest.cpp:198-206 | The two orders give different products for a quarter turn and a unit shift |
| `DualComplexTest.ConstructDefault` | src/Math/Test/DualComplexTest.cpp:92-95 | The default value is `((1, 0), (0, 0))` with squared length 1 |
| `DualComplexTest.ConstructFromVector` | src/Math/Test/DualComplexTest.cpp:97-99 | The value built from `(1.5, -3)` is `((1, 0), (1.5, -3))` |
| `DualComplexTest.ConstExpressions` | src/Math/Test/DualComplexTest.cpp:105-112 | The value constructor keeps `((-1, 2.5), (3, -7.5))` as given; the vector `(-3, 7.5)` gives `((1, 0), (-3, 7.5))` |
| `DualComplexTest.MultiplyExample` | src/Math/Test/DualComplexTest.cpp:119-123 | `((-1.5, 2), (3, -6.5)) * ((2, -7.5), (-0.5, 1))` is `((12, 15.25), (1.75, -9))` |
| `DualComplexTest.LengthSquaredExample` | src/Math/Test/DualComplexTest.cpp:125-128 | `((-1, 3), (0.5, -2))` has squared length 10 |
| `DualComplexTest.NormalizedExample` | src/Math/Test/DualComplexTest.cpp:135-140 | Normalizing `((-1, 3), (0.5, -2))` gives `((-1, 3)/sqrt 10, (0.5, -2))`, of squared length 1 |
| `DualComplexTest.ConjugatesExample` | src/Math/Test/DualComplexTest.cpp:142-158 | The three conjugates of `((-1, 2.5), (3, -7.5))` are the three different values the test expects |
| `DualComplexTest.InvertedExample` | src/Math/Test/DualComplexTest.cpp:160-165 | `((-1, 1.5), (3, -7.5))` inverts to `((-4/13, -6/13), (57/13, -12/13))`, and their product is the identity |
| `DualComplexTest.InvertedNormalizedExample` | src/Math/Test/DualComplexTest.cpp:167-180 | The unit value `((-1, 3)/sqrt 10, (3, -2.5))` inverts to `((-1, -3)/sqrt 10, (10.5, 6.5)/sqrt 10)` |
| `DualComplexTest.InvertedNormalizedRefusesExample` | src/Math/Test/DualComplexTest.cpp:171-174 | `((-1, -2.5), (1, 0))`, with `{}` the default complex `(1, 0)`, is not normalized and is refused; so is `((-1, -2.5), d)` for every dual part `d` |
| `DualComplexTest.RotationExample` | src/Math/Test/DualComplexTest.cpp:183-186 | The rotation by 120 degrees, `(-1/2, sqrt 3/2)`, has squared length 1 and a zero dual part |
| `DualComplexTest.TranslationExample` | src/Math/Test/DualComplexTest.cpp:190-196 | The translation by `(1.5, -3.5)` has squared length 1, is `((1, 0), (1.5, -3.5))` and gives the vector back |

## Left out

- `length()`: a square root, which has no closed form over `real`. `Normalized` takes the length as a parameter instead. The test at src/Math/Test/DualComplexTest.cpp:130-133 compares against a rounded decimal.
- `rotationAngle()` and building a rotation from an angle: these need trigonometry and `atan2`. `Rotation` takes the unit complex number the angle turns into. The angle checks at src/Math/Test/DualComplexTest.cpp:187 and 203-204 are stated as "the real part is the rotation", because the angle is read from the real part.
- Floating point: `float` rounding and the tolerant comparison the test uses are not modelled. Exact equality over `real` takes their place. The test's unit value `(-0.316228, 0.9486831)` is unit only within the tolerance, so `InvertedNormalizedExample` uses the exact `(-1, 3)/sqrt 10`.
- InvertedNormalized: refuses a value whose squared length is not exactly 1. The source accepts any value within its tolerance.
- InvertedNormalized: the diagnostic message and the NaN result that compares unequal to itself are not modelled. A `Failure(NotNormalized)` result takes their place.
- Normalized: requires `len > 0`, which excludes a zero real part. The source divides by the length without a check; a zero real part gives infinities or NaNs there, which exact reals cannot represent.
- Inverted: requires a nonzero real part. The source divides by the squared length without a check; a zero real part gives infinities or NaNs there.
- The `Debug` output (src/Math/Test/DualComplexTest.cpp:209-214) is left out: it is about text output, not the algebra.
- Compile-time (`constexpr`) evaluation (src/Math/Test/DualComplexTest.cpp:101-117) is left out; the values that test compares are stated without it. The default value is `ConstructDefault`; the value and vector constructors, with that test's values, are `ConstExpressions`. The value constructor is the datatype constructor, and the copy constructor (lines 114-116) is Dafny's value semantics: a copy is the same value.
- The header `Math/DualComplex.h` is not part of this model. The operations follow the values the test asserts.
