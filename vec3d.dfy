/**
 * Three-component vectors of reals, the t_vec3d values the universe works on.
 *
 * The vector library's own source is not part of this model. Addition,
 * subtraction and scaling always succeed; division fails on a zero divisor.
 * The magnitude needs a square root, so it is supplied from outside as a
 * function `mag`; the unit vector divides by that magnitude and fails exactly
 * when the magnitude is zero. `IsNorm(mag)` states the norm properties the
 * model relies on, and the lemmas that need them take it as a hypothesis.
 */
module Vec3d {

  datatype Option<T> = None | Some(value: T)

  datatype Vec3 = Vec3(x: real, y: real, z: real)

  /** The zero vector e_0. */
  const Zero: Vec3 := Vec3(0.0, 0.0, 0.0)

  function Add(a: Vec3, b: Vec3): Vec3
  {
    Vec3(a.x + b.x, a.y + b.y, a.z + b.z)
  }

  function Sub(a: Vec3, b: Vec3): (r: Vec3)
    ensures Add(b, r) == a
  {
    Vec3(a.x - b.x, a.y - b.y, a.z - b.z)
  }

  function Neg(v: Vec3): Vec3
  {
    Vec3(-v.x, -v.y, -v.z)
  }

  /** vec3d_mul: multiply every component by k. */
  function Scale(v: Vec3, k: real): Vec3
  {
    Vec3(v.x * k, v.y * k, v.z * k)
  }

  /** Scaling by a and then by b is scaling by b and then by a. */
  lemma ScaleCommutes(v: Vec3, a: real, b: real)
    ensures Scale(Scale(v, a), b) == Scale(Scale(v, b), a)
  {
    assert v.x * a * b == v.x * b * a;
    assert v.y * a * b == v.y * b * a;
    assert v.z * a * b == v.z * b * a;
  }

  /** vec3d_div: divide every component by k; fails when k is zero. */
  function Div(v: Vec3, k: real): (r: Option<Vec3>)
    ensures r.None? <==> k == 0.0
    ensures r.Some? ==> Scale(r.value, k) == v
  {
    if k == 0.0 then None else Some(Vec3(v.x / k, v.y / k, v.z / k))
  }

  /**
   * What the model assumes of vec3d_mag: it behaves as a norm. It is never
   * negative, it is zero exactly on the zero vector, a vector and its opposite
   * have the same magnitude, and scaling by k >= 0 scales the magnitude by k.
   */
  ghost predicate IsNorm(mag: Vec3 -> real)
  {
    forall v ::
      && 0.0 <= mag(v)
      && (mag(v) == 0.0 <==> v == Zero)
      && mag(Neg(v)) == mag(v)
      && (forall k :: 0.0 <= k ==> mag(Scale(v, k)) == k * mag(v))
  }

  /** vec3d_unit: v divided by its magnitude; fails when the magnitude is zero. */
  function Unit(mag: Vec3 -> real, v: Vec3): (r: Option<Vec3>)
    ensures r.None? <==> mag(v) == 0.0
    ensures r.Some? ==> Scale(r.value, mag(v)) == v
  {
    Div(v, mag(v))
  }

  /** The unit vector of a non-zero vector exists and has magnitude one. */
  lemma UnitHasNormOne(mag: Vec3 -> real, v: Vec3)
    requires IsNorm(mag) && v != Zero
    ensures Unit(mag, v).Some? && mag(Unit(mag, v).value) == 1.0
  {
    var m := mag(v);
    var u := Unit(mag, v).value;
    assert u == Scale(v, 1.0 / m);
    assert mag(u) == (1.0 / m) * m;
  }

  /** The direction from a to b is the opposite of the direction from b to a. */
  lemma UnitAntisymmetric(mag: Vec3 -> real, a: Vec3, b: Vec3)
    requires IsNorm(mag) && a != b
    ensures Unit(mag, Sub(b, a)).Some? && Unit(mag, Sub(a, b)).Some?
    ensures Unit(mag, Sub(b, a)).value == Neg(Unit(mag, Sub(a, b)).value)
  {
    assert Sub(b, a) == Neg(Sub(a, b));
    assert Sub(a, b) != Zero;
  }
}
