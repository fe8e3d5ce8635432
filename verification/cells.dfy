/** One marching-squares cell: classification of its four samples into a
    4-bit configuration, and the segments the two drawing modes emit for it
    (`drawSquare` with edge midpoints, `drawSquareLerp` with interpolated
    crossings built by `calcEndsForCorner`, `calcEndsForEdge`,
    `calcEndsForBridge` and `invLerp`). Drawing calls become returned segments. */
module Cells {
  import opened Vectors

  /** The iso-level of the contour. A sample at or above it is "in". */
  const Level: real := 1.0

  /** The corners of a cell. The source keeps their samples in this order as
      [a, b, c, d]. */
  datatype Corner = TopLeft | TopRight | BottomRight | BottomLeft

  /** The sides of a cell. */
  datatype Edge = Top | Right | Bottom | Left

  /** The two corners an edge joins. */
  function Ends(e: Edge): (Corner, Corner) {
    match e
    case Top => (TopLeft, TopRight)
    case Right => (TopRight, BottomRight)
    case Bottom => (BottomLeft, BottomRight)
    case Left => (TopLeft, BottomLeft)
  }

  /** The field samples at a cell's corners: a top-left, b top-right,
      c bottom-right, d bottom-left. */
  datatype Samples = Samples(a: real, b: real, c: real, d: real)

  function SampleAt(s: Samples, k: Corner): real {
    match k
    case TopLeft => s.a
    case TopRight => s.b
    case BottomRight => s.c
    case BottomLeft => s.d
  }

  /** A cell's corner positions, as `getSampleLoc` returns them for the four
      buffer indices, and the cell size. */
  datatype Cell = Cell(tl: Vec, tr: Vec, br: Vec, bl: Vec, dim: real)

  function Pos(cell: Cell, k: Corner): Vec {
    match k
    case TopLeft => cell.tl
    case TopRight => cell.tr
    case BottomRight => cell.br
    case BottomLeft => cell.bl
  }

  /** The corners form an axis-aligned square of side `dim`, y growing downwards. */
  predicate WellFormed(cell: Cell) {
    && cell.dim > 0.0
    && cell.tr == Vec(cell.tl.x + cell.dim, cell.tl.y)
    && cell.br == Vec(cell.tl.x + cell.dim, cell.tl.y + cell.dim)
    && cell.bl == Vec(cell.tl.x, cell.tl.y + cell.dim)
  }

  /** A piece of the contour: the path `moveTo(begin); lineTo(end)`. */
  datatype Segment = Segment(begin: Vec, end: Vec)

  /** A 4-bit cell configuration code. */
  type Config = c: int | 0 <= c < 16

  /** The bit a corner contributes: top-left 1, top-right 2, bottom-right 4,
      bottom-left 8. */
  function Weight(k: Corner): bv4 {
    match k
    case TopLeft => 1
    case TopRight => 2
    case BottomRight => 4
    case BottomLeft => 8
  }

  /** Corner `k` is inside the contour in configuration `c`. */
  predicate IsIn(c: Config, k: Corner) {
    (c as bv4) & Weight(k) != 0
  }

  /** The configuration of a cell: the OR of each corner's bit when its sample
      is at least the level. Each bit is set exactly when that corner's sample
      reaches the level, so a sample equal to 1.0 counts as in. */
  function Classify(s: Samples): (c: Config)
    ensures forall k: Corner :: IsIn(c, k) <==> SampleAt(s, k) >= Level
  {
    var b1: bv4 := if s.a >= 1.0 then 1 else 0;
    var b2: bv4 := if s.b >= 1.0 then 2 else 0;
    var b3: bv4 := if s.c >= 1.0 then 4 else 0;
    var b4: bv4 := if s.d >= 1.0 then 8 else 0;
    (b1 | b2 | b3 | b4) as int
  }

  /** The contour crosses edge `e`: exactly one of its corners is in. */
  predicate Crossed(c: Config, e: Edge) {
    IsIn(c, Ends(e).0) != IsIn(c, Ends(e).1)
  }

  /** The cut table: for each configuration, the pairs of edges its segments
      join, in the order and orientation `drawSquare` draws them. Each
      complementary pair of configurations shares an entry, and the saddles 5
      and 10 always get both corner cuts. */
  function Cuts(c: Config): seq<(Edge, Edge)> {
    if c == 0 || c == 15 then []
    else if c == 1 || c == 14 then [(Top, Left)]
    else if c == 2 || c == 13 then [(Top, Right)]
    else if c == 4 || c == 11 then [(Right, Bottom)]
    else if c == 7 || c == 8 then [(Left, Bottom)]
    else if c == 3 || c == 12 then [(Left, Right)]
    else if c == 6 || c == 9 then [(Top, Bottom)]
    else if c == 5 then [(Top, Right), (Left, Bottom)]
    else [(Top, Left), (Right, Bottom)]
  }

  /** The number of segments each configuration gets: none for a uniform
      cell, two for a saddle, one otherwise. */
  function SegmentCount(c: Config): nat {
    if c == 0 || c == 15 then 0
    else if c == 5 || c == 10 then 2
    else 1
  }

  /** `drawSquare`: blocky mode, every endpoint the midpoint of a cell side. */
  function DrawSquare(cell: Cell, config: Config): (segs: seq<Segment>)
    ensures |segs| == SegmentCount(config)
  {
    var o := cell.tl;
    var d := cell.dim;
    var h := cell.dim * 0.5;
    if config == 0 || config == 15 then []
    else if config == 1 || config == 14 then
      [Segment(Vec(o.x + h, o.y), Vec(o.x, o.y + h))]
    else if config == 2 || config == 13 then
      [Segment(Vec(o.x + h, o.y), Vec(o.x + d, o.y + h))]
    else if config == 4 || config == 11 then
      [Segment(Vec(o.x + d, o.y + h), Vec(o.x + h, o.y + d))]
    else if config == 8 || config == 7 then
      [Segment(Vec(o.x, o.y + h), Vec(o.x + h, o.y + d))]
    else if config == 3 || config == 12 then
      [Segment(Vec(o.x, o.y + h), Vec(o.x + d, o.y + h))]
    else if config == 6 || config == 9 then
      [Segment(Vec(o.x + h, o.y), Vec(o.x + h, o.y + d))]
    else if config == 5 then
      [Segment(Vec(o.x + h, o.y), Vec(o.x + d, o.y + h)),
       Segment(Vec(o.x, o.y + h), Vec(o.x + h, o.y + d))]
    else
      [Segment(Vec(o.x + h, o.y), Vec(o.x, o.y + h)),
       Segment(Vec(o.x + d, o.y + h), Vec(o.x + h, o.y + d))]
  }

  /** `invLerp(v1, v2, v)`: the fraction of the way from v1 to v2 at which the
      value v is reached, so that interpolating back gives v. */
  function InvLerp(v1: real, v2: real, v: real): (t: real)
    requires v1 != v2
    ensures v1 + t * (v2 - v1) == v
  {
    (v - v1) / (v2 - v1)
  }

  /** Exactly one of two samples reaches the level. */
  predicate Straddles(v1: real, v2: real) {
    (v1 >= Level) != (v2 >= Level)
  }

  /** Corner-cut configurations: one corner differs from the other three. */
  predicate IsCornerCase(c: Config) {
    c in {1, 14, 2, 13, 4, 11, 7, 8}
  }

  /** Bisector configurations: two adjacent corners in, two out. */
  predicate IsEdgeCase(c: Config) {
    c in {3, 12, 6, 9}
  }

  /** Saddle configurations: diagonally opposite corners in. */
  predicate IsBridgeCase(c: Config) {
    c == 5 || c == 10
  }

  /** `x` lies on the line through side `e` of the cell. */
  predicate OnSide(cell: Cell, e: Edge, x: Vec) {
    match e
    case Top => x.y == cell.tl.y
    case Right => x.x == cell.tl.x + cell.dim
    case Bottom => x.y == cell.tl.y + cell.dim
    case Left => x.x == cell.tl.x
  }

  /** The segment runs between the two sides a cut names, in either direction. */
  predicate SpansCut(cell: Cell, cut: (Edge, Edge), seg: Segment) {
    || (OnSide(cell, cut.0, seg.begin) && OnSide(cell, cut.1, seg.end))
    || (OnSide(cell, cut.1, seg.begin) && OnSide(cell, cut.0, seg.end))
  }

  /** `calcEndsForCorner`: the cut around the lone corner, each end placed by
      inverse interpolation along one of the corner's two sides. */
  function CalcEndsForCorner(cell: Cell, config: Config, s: Samples): (seg: Segment)
    requires IsCornerCase(config) && Classify(s) == config
    ensures SpansCut(cell, Cuts(config)[0], seg)
  {
    var d := cell.dim;
    var X := Vec(d, 0.0);
    var Y := Vec(0.0, d);
    if config == 1 || config == 14 then
      var origin := cell.tl;
      var t1 := InvLerp(s.a, s.b, 1.0);
      var t2 := InvLerp(s.a, s.d, 1.0);
      Segment(ScaleAndAdd(origin, X, t1), ScaleAndAdd(origin, Y, t2))
    else if config == 2 || config == 13 then
      var origin := Vec(cell.tl.x + d, cell.tl.y);
      var t1 := InvLerp(s.b, s.a, 1.0);
      var t2 := InvLerp(s.b, s.c, 1.0);
      Segment(ScaleAndAdd(origin, X, -t1), ScaleAndAdd(origin, Y, t2))
    else if config == 4 || config == 11 then
      var origin := Vec(cell.tl.x + d, cell.tl.y + d);
      var t1 := InvLerp(s.c, s.d, 1.0);
      var t2 := InvLerp(s.c, s.b, 1.0);
      Segment(ScaleAndAdd(origin, X, -t1), ScaleAndAdd(origin, Y, -t2))
    else
      var origin := Vec(cell.tl.x, cell.tl.y + d);
      var t1 := InvLerp(s.d, s.c, 1.0);
      var t2 := InvLerp(s.d, s.a, 1.0);
      Segment(ScaleAndAdd(origin, X, t1), ScaleAndAdd(origin, Y, -t2))
  }

  /** `calcEndsForEdge`: the bisector across the two sides the split crosses. */
  function CalcEndsForEdge(cell: Cell, config: Config, s: Samples): (seg: Segment)
    requires IsEdgeCase(config) && Classify(s) == config
    ensures WellFormed(cell) ==> SpansCut(cell, Cuts(config)[0], seg)
  {
    if config == 3 || config == 12 then
      var t1 := InvLerp(s.a, s.d, 1.0);
      var t2 := InvLerp(s.b, s.c, 1.0);
      var Y := Vec(0.0, cell.dim);
      Segment(ScaleAndAdd(cell.tl, Y, t1), ScaleAndAdd(cell.tr, Y, t2))
    else
      var t1 := InvLerp(s.b, s.a, 1.0);
      var t2 := InvLerp(s.c, s.d, 1.0);
      var X := Vec(-cell.dim, 0.0);
      Segment(ScaleAndAdd(cell.tr, X, t1), ScaleAndAdd(cell.br, X, t2))
  }

  /** `calcEndsForBridge`: both corner cuts of a saddle, as two segments. */
  function CalcEndsForBridge(cell: Cell, config: Config, s: Samples): (segs: seq<Segment>)
    requires IsBridgeCase(config) && Classify(s) == config
    ensures |segs| == 2
    ensures WellFormed(cell) ==>
      SpansCut(cell, Cuts(config)[0], segs[0]) && SpansCut(cell, Cuts(config)[1], segs[1])
  {
    var X := Vec(cell.dim, 0.0);
    var Y := Vec(0.0, cell.dim);
    if config == 5 then
      var t1 := InvLerp(s.a, s.b, 1.0);
      var t2 := InvLerp(s.c, s.b, 1.0);
      var t3 := InvLerp(s.a, s.d, 1.0);
      var t4 := InvLerp(s.c, s.d, 1.0);
      var ob := cell.tl;
      var oe := cell.br;
      [Segment(ScaleAndAdd(ob, X, t1), ScaleAndAdd(oe, Y, -t2)),
       Segment(ScaleAndAdd(ob, Y, t3), ScaleAndAdd(oe, X, -t4))]
    else
      var t1 := InvLerp(s.b, s.a, 1.0);
      var t2 := InvLerp(s.d, s.a, 1.0);
      var t3 := InvLerp(s.b, s.c, 1.0);
      var t4 := InvLerp(s.d, s.c, 1.0);
      var ob := cell.tr;
      var oe := cell.bl;
      [Segment(ScaleAndAdd(ob, X, -t1), ScaleAndAdd(oe, Y, -t2)),
       Segment(ScaleAndAdd(ob, Y, t3), ScaleAndAdd(oe, X, t4))]
  }

  /** `drawSquareLerp`: interpolated mode. `config` is the classification of
      the very samples passed, as in the source's only call. */
  function DrawSquareLerp(cell: Cell, config: Config, s: Samples): (segs: seq<Segment>)
    requires Classify(s) == config
    ensures |segs| == SegmentCount(config)
  {
    if config == 0 || config == 15 then []
    else if IsCornerCase(config) then [CalcEndsForCorner(cell, config, s)]
    else if IsEdgeCase(config) then [CalcEndsForEdge(cell, config, s)]
    else CalcEndsForBridge(cell, config, s)
  }

  /** The segments `marchingSquares` emits for one cell in either mode. */
  function CellSegments(cell: Cell, s: Samples, lerp: bool): (segs: seq<Segment>)
    ensures |segs| == SegmentCount(Classify(s))
  {
    var config := Classify(s);
    if lerp then DrawSquareLerp(cell, config, s) else DrawSquare(cell, config)
  }
}
