/** `animateCircles`: each frame every circle the user is not dragging moves
    by its velocity times the elapsed time, then every circle is pushed back
    inside the canvas walls and its velocity mirrored off the wall it hit
    (`reflect`). */
module Physics {
  import opened Vectors
  import opened Options
  import opened Field
  import Grid

  /** `reflect(v, n)`, step by step as the source computes it: negate the
      incident vector, project it on the normal, take the perpendicular part
      and step back from the negated vector by twice that part. The result is
      the mirror image v − 2(v·n)n. */
  function Reflect(v: Vec, n: Vec): (img: Vec)
    ensures img == Sub(v, Scale(n, 2.0 * Dot(v, n)))
  {
    var neg := Negate(v);
    var p := Dot(neg, n);
    var proj := Scale(n, p);
    var perp := Sub(neg, proj);
    assert p == -Dot(v, n);
    MirrorComponent(v.x, n.x, p);
    MirrorComponent(v.y, n.y, p);
    ScaleAndAdd(neg, perp, -2.0)
  }

  /** One coordinate of the source's reflection steps, with p = −(v·n). */
  lemma MirrorComponent(vk: real, nk: real, p: real)
    ensures -vk + (-vk - nk * p) * -2.0 == vk - nk * (2.0 * -p)
  {
  }

  /** Mirroring off a unit normal keeps the length ("the reflection will have
      the same length as the incident vector"). */
  lemma ReflectKeepsLength(v: Vec, n: Vec)
    requires SqrLen(n) == 1.0
    ensures SqrLen(Reflect(v, n)) == SqrLen(v)
  {
    var a := Dot(v, n);
    var img := Reflect(v, n);
    assert img == Vec(v.x - 2.0 * a * n.x, v.y - 2.0 * a * n.y);
    calc {
      SqrLen(img);
      (v.x - 2.0 * a * n.x) * (v.x - 2.0 * a * n.x) + (v.y - 2.0 * a * n.y) * (v.y - 2.0 * a * n.y);
      v.x * v.x + v.y * v.y - 4.0 * a * (v.x * n.x + v.y * n.y) + 4.0 * a * a * (n.x * n.x + n.y * n.y);
      v.x * v.x + v.y * v.y - 4.0 * a * a + 4.0 * a * a * 1.0;
      SqrLen(v);
    }
  }

  /** Mirroring twice off the same unit normal gives the incident vector back. */
  lemma ReflectInvolution(v: Vec, n: Vec)
    requires SqrLen(n) == 1.0
    ensures Reflect(Reflect(v, n), n) == v
  {
    var a := Dot(v, n);
    var w := Reflect(v, n);
    ReflectComponents(v, n);
    ReflectComponents(w, n);
    var b := Dot(w, n);
    DotAfterReflect(v.x, v.y, n.x, n.y, a);
    UndoMirror(v.x, n.x, a, b);
    UndoMirror(v.y, n.y, a, b);
  }

  lemma ReflectComponents(v: Vec, n: Vec)
    ensures Reflect(v, n) == Vec(v.x - n.x * (2.0 * Dot(v, n)), v.y - n.y * (2.0 * Dot(v, n)))
  {
  }

  lemma UndoMirror(vk: real, nk: real, a: real, b: real)
    requires b == -a
    ensures (vk - nk * (2.0 * a)) - nk * (2.0 * b) == vk
  {
  }

  /** (v − 2a·n)·n == −a when a == v·n and n·n == 1. */
  lemma DotAfterReflect(vx: real, vy: real, nx: real, ny: real, a: real)
    requires a == vx * nx + vy * ny && nx * nx + ny * ny == 1.0
    ensures (vx - nx * (2.0 * a)) * nx + (vy - ny * (2.0 * a)) * ny == -a
  {
    assert (vx - nx * (2.0 * a)) * nx + (vy - ny * (2.0 * a)) * ny
        == (vx * nx + vy * ny) - 2.0 * a * (nx * nx + ny * ny);
  }

  /** The four wall normals the source passes turn only one velocity component. */
  lemma ReflectOffWalls(v: Vec)
    ensures Reflect(v, Vec(1.0, 0.0)) == Vec(-v.x, v.y)
    ensures Reflect(v, Vec(-1.0, 0.0)) == Vec(-v.x, v.y)
    ensures Reflect(v, Vec(0.0, 1.0)) == Vec(v.x, -v.y)
    ensures Reflect(v, Vec(0.0, -1.0)) == Vec(v.x, -v.y)
  {
  }

  /** A circle moved on by its velocity for `ticks` seconds. */
  function Move(c: Circle, ticks: real): (m: Circle)
    ensures m.radius == c.radius && m.vel == c.vel
    ensures Sub(m.centre, c.centre) == Scale(c.vel, ticks)
  {
    c.(centre := Add(c.centre, Scale(c.vel, ticks)))
  }

  /** The circle lies between the left and right walls. */
  predicate InsideX(c: Circle, width: real) {
    c.radius <= c.centre.x && c.centre.x + c.radius <= width
  }

  /** The circle lies between the top and bottom walls. */
  predicate InsideY(c: Circle, height: real) {
    c.radius <= c.centre.y && c.centre.y + c.radius <= height
  }

  /** The left/right wall test: a circle past the left wall is put against
      it, else one past the right wall is put against that; either way its
      horizontal velocity is mirrored. */
  function CheckX(c: Circle, width: real): (d: Circle)
    ensures d.radius == c.radius && d.centre.y == c.centre.y && d.vel.y == c.vel.y
    ensures 2.0 * c.radius <= width ==> InsideX(d, width)
    ensures InsideX(c, width) ==> d == c
    ensures c.centre.x < c.radius ==> d.centre.x == c.radius
    ensures c.radius <= c.centre.x && c.centre.x + c.radius > width ==> d.centre.x == width - c.radius
    ensures d.vel.x == (if d.centre.x == c.centre.x then c.vel.x else -c.vel.x)
    ensures SqrLen(d.vel) == SqrLen(c.vel)
  {
    ReflectOffWalls(c.vel);
    if c.centre.x < c.radius then
      c.(centre := Vec(c.radius, c.centre.y), vel := Reflect(c.vel, Vec(1.0, 0.0)))
    else if c.centre.x + c.radius > width then
      c.(centre := Vec(width - c.radius, c.centre.y), vel := Reflect(c.vel, Vec(-1.0, 0.0)))
    else
      c
  }

  /** The top/bottom wall test, the same way on the vertical axis. */
  function CheckY(c: Circle, height: real): (d: Circle)
    ensures d.radius == c.radius && d.centre.x == c.centre.x && d.vel.x == c.vel.x
    ensures 2.0 * c.radius <= height ==> InsideY(d, height)
    ensures InsideY(c, height) ==> d == c
    ensures c.centre.y < c.radius ==> d.centre.y == c.radius
    ensures c.radius <= c.centre.y && c.centre.y + c.radius > height ==> d.centre.y == height - c.radius
    ensures d.vel.y == (if d.centre.y == c.centre.y then c.vel.y else -c.vel.y)
    ensures SqrLen(d.vel) == SqrLen(c.vel)
  {
    ReflectOffWalls(c.vel);
    if c.centre.y < c.radius then
      c.(centre := Vec(c.centre.x, c.radius), vel := Reflect(c.vel, Vec(0.0, 1.0)))
    else if c.centre.y + c.radius > height then
      c.(centre := Vec(c.centre.x, height - c.radius), vel := Reflect(c.vel, Vec(0.0, -1.0)))
    else
      c
  }

  /** The collision step for one circle: the horizontal test, then
      independently the vertical one. */
  function WallCheck(c: Circle, width: real, height: real): (d: Circle)
    ensures d.radius == c.radius
    ensures 2.0 * c.radius <= width ==> InsideX(d, width)
    ensures 2.0 * c.radius <= height ==> InsideY(d, height)
    ensures InsideX(c, width) && InsideY(c, height) ==> d == c
    ensures InsideX(c, width) ==> d.centre.x == c.centre.x && d.vel.x == c.vel.x
    ensures InsideY(c, height) ==> d.centre.y == c.centre.y && d.vel.y == c.vel.y
    ensures c.centre.x < c.radius ==> d.centre.x == c.radius
    ensures c.radius <= c.centre.x && c.centre.x + c.radius > width ==> d.centre.x == width - c.radius
    ensures c.centre.y < c.radius ==> d.centre.y == c.radius
    ensures c.radius <= c.centre.y && c.centre.y + c.radius > height ==> d.centre.y == height - c.radius
    ensures d.vel.x == (if d.centre.x == c.centre.x then c.vel.x else -c.vel.x)
    ensures d.vel.y == (if d.centre.y == c.centre.y then c.vel.y else -c.vel.y)
    ensures SqrLen(d.vel) == SqrLen(c.vel)
  {
    CheckY(CheckX(c, width), height)
  }

  /** A circle that fits the canvas is left alone by a second wall check. */
  lemma WallCheckIdempotent(c: Circle, width: real, height: real)
    requires 2.0 * c.radius <= width && 2.0 * c.radius <= height
    ensures WallCheck(WallCheck(c, width, height), width, height) == WallCheck(c, width, height)
  {
  }

  /** Where circle i is before the wall test: moved on, unless it is the one
      being dragged. */
  function Advanced(c: Circle, i: nat, picked: Option<nat>, ticks: real): Circle {
    if picked == Some(i) then c else Move(c, ticks)
  }

  /** `animateCircles(ticks)`: every circle but the dragged one moves, then
      every circle (the dragged one too) is checked against the walls. Radii
      and speeds are kept, and every circle that fits the canvas ends inside
      it. */
  method AnimateCircles(cs: seq<Circle>, picked: Option<nat>, ticks: real, canvas: Grid.Canvas)
    returns (r: seq<Circle>)
    ensures |r| == |cs|
    ensures forall i :: 0 <= i < |cs| ==>
      r[i] == WallCheck(Advanced(cs[i], i, picked, ticks), canvas.width, canvas.height)
    ensures forall i :: 0 <= i < |cs| ==> r[i].radius == cs[i].radius
    ensures forall i :: 0 <= i < |cs| ==> SqrLen(r[i].vel) == SqrLen(cs[i].vel)
    ensures forall i :: 0 <= i < |cs| && 2.0 * cs[i].radius <= canvas.width ==> InsideX(r[i], canvas.width)
    ensures forall i :: 0 <= i < |cs| && 2.0 * cs[i].radius <= canvas.height ==> InsideY(r[i], canvas.height)
  {
    r := cs;
    for i := 0 to |cs|
      invariant |r| == |cs|
      invariant forall k :: 0 <= k < i ==> r[k] == Advanced(cs[k], k, picked, ticks)
      invariant forall k :: i <= k < |cs| ==> r[k] == cs[k]
    {
      if picked != Some(i) {
        r := r[i := Move(r[i], ticks)];
      }
    }
    for i := 0 to |cs|
      invariant |r| == |cs|
      invariant forall k :: 0 <= k < i ==>
        r[k] == WallCheck(Advanced(cs[k], k, picked, ticks), canvas.width, canvas.height)
      invariant forall k :: i <= k < |cs| ==> r[k] == Advanced(cs[k], k, picked, ticks)
    {
      r := r[i := WallCheck(r[i], canvas.width, canvas.height)];
    }
  }
}
