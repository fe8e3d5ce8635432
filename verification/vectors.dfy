/** Exact 2D vector arithmetic standing in for the gl-matrix `vec2` calls the
    demo makes. Every operation returns a fresh value instead of writing into an
    `out` argument, and there is no floating-point rounding. */
module Vectors {

  /** A point or a displacement in canvas coordinates. */
  datatype Vec = Vec(x: real, y: real)

  function Add(a: Vec, b: Vec): Vec {
    Vec(a.x + b.x, a.y + b.y)
  }

  function Sub(a: Vec, b: Vec): Vec {
    Vec(a.x - b.x, a.y - b.y)
  }

  function Negate(a: Vec): Vec {
    Vec(-a.x, -a.y)
  }

  function Scale(a: Vec, k: real): Vec {
    Vec(a.x * k, a.y * k)
  }

  /** `vec2.scaleAndAdd(out, a, b, k)`: a + k·b. */
  function ScaleAndAdd(a: Vec, b: Vec, k: real): Vec {
    Vec(a.x + b.x * k, a.y + b.y * k)
  }

  function Dot(a: Vec, b: Vec): real {
    a.x * b.x + a.y * b.y
  }

  function SqrLen(a: Vec): real {
    Dot(a, a)
  }

  /** `vec2.sqrDist(a, b)`: squared Euclidean distance. */
  function SqrDist(a: Vec, b: Vec): real {
    SqrLen(Sub(b, a))
  }

  /** The point a fraction `t` of the way from `a` to `b`. */
  function Lerp(a: Vec, b: Vec, t: real): Vec {
    Add(a, Scale(Sub(b, a), t))
  }

  /** Stepping from a by t times the vector to b is interpolating from a to b. */
  lemma StepIsLerp(a: Vec, b: Vec, t: real)
    ensures ScaleAndAdd(a, Sub(b, a), t) == Lerp(a, b, t)
  {
    assert Scale(Sub(b, a), t) == Vec((b.x - a.x) * t, (b.y - a.y) * t);
  }

  /** A step by −t along d is a step by t along −d. */
  lemma BackStep(a: Vec, d: Vec, t: real)
    ensures ScaleAndAdd(a, d, -t) == ScaleAndAdd(a, Negate(d), t)
  {
    var k := -t;
    NegateFactor(d.x, t);
    NegateFactor(d.y, t);
    assert ScaleAndAdd(a, d, k) == Vec(a.x + d.x * k, a.y + d.y * k);
    assert ScaleAndAdd(a, Negate(d), t) == Vec(a.x + -d.x * t, a.y + -d.y * t);
  }

  /** Negating either factor negates the product. */
  lemma NegateFactor(u: real, t: real)
    ensures u * -t == -u * t
  {
  }
}
