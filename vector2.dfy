/** A vector of the plane (`Math::Vector2`), the type that `DualComplex`
    takes translations from and gives them back as. */
module Vectors {

  datatype Vector2 = Vector2(x: real, y: real)

  const ZeroVector: Vector2 := Vector2(0.0, 0.0)

  function Add(u: Vector2, v: Vector2): Vector2 {
    Vector2(u.x + v.x, u.y + v.y)
  }

  /** The mirror image in the x axis. */
  function Mirrored(v: Vector2): Vector2 {
    Vector2(v.x, -v.y)
  }

  /** Squared Euclidean length of a vector. */
  function Dot(v: Vector2): (r: real)
    ensures r >= 0.0
  {
    v.x * v.x + v.y * v.y
  }
}
