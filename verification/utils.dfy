/** The pure helpers of the demos' shared utility file: `clamp`, `getMidpoint`
    and the double-angle step of `getVersor`. */
module Utils {
  import opened Vectors

  /** `Math.min` and `Math.max` on exact reals. */
  function Min(a: real, b: real): real {
    if a <= b then a else b
  }

  function Max(a: real, b: real): real {
    if a >= b then a else b
  }

  /** `clamp(x, l, u) = min(max(x, l), u)`. Because the `min` is applied last,
      an empty interval (l > u) yields `u` whatever `x` is. */
  function Clamp(x: real, l: real, u: real): (r: real)
    ensures l <= u ==> l <= r <= u
    ensures l <= x <= u ==> r == x
    ensures x < l <= u ==> r == l
    ensures u < x ==> r == u
    ensures u < l ==> r == u
  {
    Min(Max(x, l), u)
  }

  /** Clamping a clamped value changes nothing, even for an empty interval. */
  lemma ClampIdempotent(x: real, l: real, u: real)
    ensures Clamp(Clamp(x, l, u), l, u) == Clamp(x, l, u)
  {
  }

  /** `getMidpoint(v1, v2)`: (v1 + v2)·0.5. The result is equidistant from both
      arguments along the segment joining them. */
  function GetMidpoint(a: Vec, b: Vec): (m: Vec)
    ensures Sub(m, a) == Sub(b, m)
    ensures m == Lerp(a, b, 0.5)
  {
    Scale(Add(a, b), 0.5)
  }

  lemma MidpointSymmetric(a: Vec, b: Vec)
    ensures GetMidpoint(a, b) == GetMidpoint(b, a)
  {
  }

  lemma MidpointOfSame(a: Vec)
    ensures GetMidpoint(a, a) == a
  {
  }

  /** A 3D vector, for the double-angle step `getVersor` performs on `vec3`s. */
  datatype Vec3 = Vec3(x: real, y: real, z: real)

  function Add3(a: Vec3, b: Vec3): Vec3 {
    Vec3(a.x + b.x, a.y + b.y, a.z + b.z)
  }

  function Scale3(a: Vec3, k: real): Vec3 {
    Vec3(a.x * k, a.y * k, a.z * k)
  }

  /** The 3D counterpart of `GetMidpoint`: (a + b)·0.5. */
  function Midpoint3(a: Vec3, b: Vec3): Vec3 {
    Scale3(Add3(a, b), 0.5)
  }

  /** `vec3.scale(v2, v2, 2); vec3.sub(v2, v2, v1)`: the vector v3 that v1 would
      reach after sweeping twice the angle towards v2, so that v2 is the
      midpoint of v1 and v3. */
  function DoubleAngleStep(v1: Vec3, v2: Vec3): (v3: Vec3)
    ensures Midpoint3(v1, v3) == v2
  {
    var twice := Scale3(v2, 2.0);
    Vec3(twice.x - v1.x, twice.y - v1.y, twice.z - v1.z)
  }

  /** The double-angle step is the only vector with that midpoint property, so
      it inverts `Midpoint3` in its second argument. */
  lemma DoubleAngleUnique(v1: Vec3, v2: Vec3, v: Vec3)
    requires Midpoint3(v1, v) == v2
    ensures v == DoubleAngleStep(v1, v2)
  {
  }

  /** Conversely, taking the midpoint of v1 and any v and then doubling recovers v. */
  lemma DoubleAngleOfMidpoint(v1: Vec3, v: Vec3)
    ensures DoubleAngleStep(v1, Midpoint3(v1, v)) == v
  {
  }
}
