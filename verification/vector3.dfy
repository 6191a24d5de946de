/** The viewer's `Vector3`: exact real triples with the component-wise sum
    and difference, scaling, the dot product and the cross product.
    `normalize` needs a square root; it lives with the lighting in `Render`,
    which takes the square root as a parameter. */
module VectorMath {
  datatype Vector3 = Vector3(x: real, y: real, z: real)

  const Zero: Vector3 := Vector3(0.0, 0.0, 0.0)

  function Add(v: Vector3, w: Vector3): Vector3 {
    Vector3(v.x + w.x, v.y + w.y, v.z + w.z)
  }

  function Sub(v: Vector3, w: Vector3): Vector3 {
    Vector3(v.x - w.x, v.y - w.y, v.z - w.z)
  }

  function Mul(v: Vector3, s: real): Vector3 {
    Vector3(v.x * s, v.y * s, v.z * s)
  }

  function Dot(v: Vector3, w: Vector3): real {
    v.x * w.x + v.y * w.y + v.z * w.z
  }

  function Cross(v: Vector3, w: Vector3): Vector3 {
    Vector3(v.y * w.z - v.z * w.y, v.z * w.x - v.x * w.z, v.x * w.y - v.y * w.x)
  }

  /** Subtracting what was added gives the vector back, and the other way
      round. */
  lemma AddSubInverse(v: Vector3, w: Vector3)
    ensures Sub(Add(v, w), w) == v
    ensures Add(Sub(v, w), w) == v
  {
  }

  /** Addition is commutative and associative with `Zero` as its unit. */
  lemma AddGroup(u: Vector3, v: Vector3, w: Vector3)
    ensures Add(v, w) == Add(w, v)
    ensures Add(Add(u, v), w) == Add(u, Add(v, w))
    ensures Add(v, Zero) == v && Sub(v, v) == Zero
  {
  }

  /** Scaling distributes over addition, composes by multiplying the factors,
      and scaling by one changes nothing. */
  lemma MulLaws(v: Vector3, w: Vector3, s: real, t: real)
    ensures Mul(Add(v, w), s) == Add(Mul(v, s), Mul(w, s))
    ensures Mul(Mul(v, s), t) == Mul(v, s * t)
    ensures Mul(v, 1.0) == v
  {
  }

  /** The dot product is symmetric and linear in its first argument. */
  lemma DotLaws(u: Vector3, v: Vector3, w: Vector3, s: real)
    ensures Dot(v, w) == Dot(w, v)
    ensures Dot(Add(u, v), w) == Dot(u, w) + Dot(v, w)
    ensures Dot(Mul(v, s), w) == s * Dot(v, w)
  {
  }

  /** The cross product is perpendicular to both of its arguments. */
  lemma CrossOrthogonal(a: Vector3, b: Vector3)
    ensures Dot(a, Cross(a, b)) == 0.0
    ensures Dot(b, Cross(a, b)) == 0.0
  {
  }

  /** Swapping the arguments negates the cross product, so a vector crossed
      with itself is zero. */
  lemma CrossAnticommutes(a: Vector3, b: Vector3)
    ensures Cross(b, a) == Mul(Cross(a, b), -1.0)
    ensures Cross(a, a) == Zero
  {
  }
}
