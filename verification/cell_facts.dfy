/** What the two drawing modes promise about one cell, proved against two
    independent descriptions: which edges the contour must cross (from the
    configuration bits alone) and where on an edge the level is reached (by
    linear interpolation of its two samples). */
module CellFacts {
  import opened Vectors
  import opened Cells
  import Utils
  import RealFacts

  /** The edges a list of cuts touches, two per cut. */
  function CutEdges(cuts: seq<(Edge, Edge)>): seq<Edge> {
    if |cuts| == 0 then [] else [cuts[0].0, cuts[0].1] + CutEdges(cuts[1..])
  }

  predicate Distinct(es: seq<Edge>) {
    forall i, j :: 0 <= i < j < |es| ==> es[i] != es[j]
  }

  /** The edges the contour crosses in configuration `c`. */
  function CrossedEdges(c: Config): seq<Edge> {
    (if Crossed(c, Top) then [Top] else [])
    + (if Crossed(c, Right) then [Right] else [])
    + (if Crossed(c, Bottom) then [Bottom] else [])
    + (if Crossed(c, Left) then [Left] else [])
  }

  /** The edge list of one or two cuts, spelled out. */
  lemma CutEdgesShort(cuts: seq<(Edge, Edge)>)
    requires 1 <= |cuts| <= 2
    ensures |cuts| == 1 ==> CutEdges(cuts) == [cuts[0].0, cuts[0].1]
    ensures |cuts| == 2 ==> CutEdges(cuts) == [cuts[0].0, cuts[0].1, cuts[1].0, cuts[1].1]
  {
    var rest := cuts[1..];
    if |cuts| == 1 {
      assert rest == [];
    } else {
      assert rest[1..] == [];
      assert CutEdges(rest) == [rest[0].0, rest[0].1];
    }
  }

  /** The cut table touches exactly the edges whose corners disagree, each of
      them once. */
  lemma CutsAreCrossings(c: Config)
    ensures forall e :: e in CutEdges(Cuts(c)) <==> Crossed(c, e)
    ensures Distinct(CutEdges(Cuts(c)))
  {
    if c != 0 && c != 15 {
      CutEdgesShort(Cuts(c));
    }
    // one branch per entry of the cut table
    if c == 0 || c == 15 {
    } else if c == 1 || c == 14 {
    } else if c == 2 || c == 13 {
    } else if c == 4 || c == 11 {
    } else if c == 7 || c == 8 {
    } else if c == 3 || c == 12 {
    } else if c == 6 || c == 9 {
    } else if c == 5 {
    } else {
    }
  }

  /** Hence a configuration gets one segment per cut, and half as many
      segments as it has crossed edges. */
  lemma SegmentsPerCrossing(c: Config)
    ensures |Cuts(c)| == SegmentCount(c)
    ensures 2 * SegmentCount(c) == |CrossedEdges(c)|
  {
  }

  /** Complementary configurations cross the same edges. */
  lemma CrossedComplement(c: Config, e: Edge)
    ensures Crossed(c, e) == Crossed(15 - c, e)
  {
  }

  // ---------------------------------------------------------------- blocky

  /** The midpoint of a cell side. */
  function EdgeMidpoint(cell: Cell, e: Edge): Vec {
    Utils.GetMidpoint(Pos(cell, Ends(e).0), Pos(cell, Ends(e).1))
  }

  /** Blocky mode draws, for each entry of the cut table, the segment between
      the midpoints of the two sides it names. */
  lemma BlockyFollowsCuts(cell: Cell, c: Config)
    requires WellFormed(cell)
    ensures |DrawSquare(cell, c)| == |Cuts(c)|
    ensures forall k :: 0 <= k < |Cuts(c)| ==>
      DrawSquare(cell, c)[k] == Segment(EdgeMidpoint(cell, Cuts(c)[k].0), EdgeMidpoint(cell, Cuts(c)[k].1))
  {
    SideMidpoints(cell);
    // one branch per entry of the cut table
    if c == 0 || c == 15 {
    } else if c == 1 || c == 14 {
    } else if c == 2 || c == 13 {
    } else if c == 4 || c == 11 {
    } else if c == 7 || c == 8 {
    } else if c == 3 || c == 12 {
    } else if c == 6 || c == 9 {
    } else if c == 5 {
    } else {
    }
  }

  /** Where the midpoints of the four sides of a square cell lie. */
  lemma SideMidpoints(cell: Cell)
    requires WellFormed(cell)
    ensures var o, d, h := cell.tl, cell.dim, cell.dim * 0.5;
            && EdgeMidpoint(cell, Top) == Vec(o.x + h, o.y)
            && EdgeMidpoint(cell, Right) == Vec(o.x + d, o.y + h)
            && EdgeMidpoint(cell, Bottom) == Vec(o.x + h, o.y + d)
            && EdgeMidpoint(cell, Left) == Vec(o.x, o.y + h)
  {
  }

  /** A configuration and its complement draw the same segments, except for
      the two saddles. */
  lemma BlockyComplement(cell: Cell, c: Config)
    requires !IsBridgeCase(c)
    ensures DrawSquare(cell, c) == DrawSquare(cell, 15 - c)
  {
  }

  /** The saddles are resolved by a fixed rule: 5 draws the cuts of 2 and 8,
      10 draws the cuts of 1 and 4. */
  lemma BlockySaddles(cell: Cell)
    ensures DrawSquare(cell, 5) == DrawSquare(cell, 2) + DrawSquare(cell, 8)
    ensures DrawSquare(cell, 10) == DrawSquare(cell, 1) + DrawSquare(cell, 4)
  {
  }

  // ---------------------------------------------------------- interpolated

  /** `x` is where linear interpolation of the samples from `p` (value `sp`)
      to `q` (value `sq`) reaches the level. */
  ghost predicate Crossing(p: Vec, q: Vec, sp: real, sq: real, x: Vec) {
    exists t :: 0.0 <= t <= 1.0 && x == Lerp(p, q, t) && sp + t * (sq - sp) == Level
  }

  ghost predicate CrossingOnEdge(cell: Cell, s: Samples, e: Edge, x: Vec) {
    var (k1, k2) := Ends(e);
    Crossing(Pos(cell, k1), Pos(cell, k2), SampleAt(s, k1), SampleAt(s, k2), x)
  }

  /** The segment joins the level crossings on the cut's two edges, in either
      orientation. */
  ghost predicate Joins(cell: Cell, s: Samples, cut: (Edge, Edge), seg: Segment) {
    || (CrossingOnEdge(cell, s, cut.0, seg.begin) && CrossingOnEdge(cell, s, cut.1, seg.end))
    || (CrossingOnEdge(cell, s, cut.1, seg.begin) && CrossingOnEdge(cell, s, cut.0, seg.end))
  }

  /** When exactly one of v1 and v2 reaches the level, the fraction at which
      the level is reached lies in [0, 1]. */
  lemma InvLerpInUnit(v1: real, v2: real)
    requires Straddles(v1, v2)
    ensures 0.0 <= InvLerp(v1, v2, Level) <= 1.0
  {
    var t := InvLerp(v1, v2, Level);
    if v1 >= Level {
      RealFacts.FractionOfNegative(t, Level - v1, v2 - v1);
    } else {
      RealFacts.FractionOfPositive(t, Level - v1, v2 - v1);
    }
  }

  /** The corners of a crossed edge straddle the level. */
  lemma CrossedStraddles(s: Samples, e: Edge)
    requires Crossed(Classify(s), e)
    ensures Straddles(SampleAt(s, Ends(e).0), SampleAt(s, Ends(e).1))
  {
    assert IsIn(Classify(s), Ends(e).0) <==> SampleAt(s, Ends(e).0) >= Level;
    assert IsIn(Classify(s), Ends(e).1) <==> SampleAt(s, Ends(e).1) >= Level;
  }

  /** The point reached by inverse interpolation from p towards q is the level
      crossing of the edge, whichever way round the edge is named. */
  lemma EndCrossing(p: Vec, q: Vec, sp: real, sq: real, x: Vec)
    requires Straddles(sp, sq)
    requires x == Lerp(p, q, InvLerp(sp, sq, Level))
    ensures Crossing(p, q, sp, sq, x)
    ensures Crossing(q, p, sq, sp, x)
  {
    var t := InvLerp(sp, sq, Level);
    InvLerpInUnit(sp, sq);
    assert Lerp(q, p, 1.0 - t) == x;
    assert sq + (1.0 - t) * (sp - sq) == Level;
  }

  /** The source steps from corner p by the fraction times a side vector:
      `dir` = q − p ... */
  lemma AlongEndpoint(p: Vec, q: Vec, sp: real, sq: real, dir: Vec, x: Vec)
    requires Straddles(sp, sq) && Sub(q, p) == dir
    requires x == ScaleAndAdd(p, dir, InvLerp(sp, sq, Level))
    ensures Crossing(p, q, sp, sq, x) && Crossing(q, p, sq, sp, x)
  {
    var t := InvLerp(sp, sq, Level);
    assert x == ScaleAndAdd(p, Sub(q, p), t);
    StepIsLerp(p, q, t);
    EndCrossing(p, q, sp, sq, x);
  }

  /** ... or with `dir` = p − q and the fraction negated. */
  lemma BackEndpoint(p: Vec, q: Vec, sp: real, sq: real, dir: Vec, x: Vec)
    requires Straddles(sp, sq) && Sub(q, p) == Negate(dir)
    requires x == ScaleAndAdd(p, dir, -InvLerp(sp, sq, Level))
    ensures Crossing(p, q, sp, sq, x) && Crossing(q, p, sq, sp, x)
  {
    var t := InvLerp(sp, sq, Level);
    BackStep(p, dir, t);
    assert x == ScaleAndAdd(p, Sub(q, p), t);
    StepIsLerp(p, q, t);
    EndCrossing(p, q, sp, sq, x);
  }

  /** Corner cuts: each end is the level crossing on one side of the lone corner. */
  lemma CornerEndsJoin(cell: Cell, c: Config, s: Samples)
    requires WellFormed(cell) && IsCornerCase(c) && Classify(s) == c
    ensures Joins(cell, s, Cuts(c)[0], CalcEndsForCorner(cell, c, s))
  {
    var seg := CalcEndsForCorner(cell, c, s);
    var X, Y := Vec(cell.dim, 0.0), Vec(0.0, cell.dim);
    if c == 1 || c == 14 {
      CrossedStraddles(s, Top);
      CrossedStraddles(s, Left);
      AlongEndpoint(cell.tl, cell.tr, s.a, s.b, X, seg.begin);
      AlongEndpoint(cell.tl, cell.bl, s.a, s.d, Y, seg.end);
    } else if c == 2 || c == 13 {
      CrossedStraddles(s, Top);
      CrossedStraddles(s, Right);
      BackEndpoint(cell.tr, cell.tl, s.b, s.a, X, seg.begin);
      AlongEndpoint(cell.tr, cell.br, s.b, s.c, Y, seg.end);
    } else if c == 4 || c == 11 {
      CrossedStraddles(s, Bottom);
      CrossedStraddles(s, Right);
      BackEndpoint(cell.br, cell.bl, s.c, s.d, X, seg.begin);
      BackEndpoint(cell.br, cell.tr, s.c, s.b, Y, seg.end);
    } else {
      CrossedStraddles(s, Bottom);
      CrossedStraddles(s, Left);
      AlongEndpoint(cell.bl, cell.br, s.d, s.c, X, seg.begin);
      BackEndpoint(cell.bl, cell.tl, s.d, s.a, Y, seg.end);
    }
  }

  /** Bisectors: each end is the level crossing on one of two opposite sides. */
  lemma EdgeEndsJoin(cell: Cell, c: Config, s: Samples)
    requires WellFormed(cell) && IsEdgeCase(c) && Classify(s) == c
    ensures Joins(cell, s, Cuts(c)[0], CalcEndsForEdge(cell, c, s))
  {
    if c == 3 || c == 12 {
      CrossedStraddles(s, Left);
      CrossedStraddles(s, Right);
      HorizontalBisectorEnds(cell, c, s);
    } else {
      CrossedStraddles(s, Top);
      CrossedStraddles(s, Bottom);
      VerticalBisectorEnds(cell, c, s);
    }
  }

  /** Cases 3 and 12: from the left side across to the right side. */
  lemma HorizontalBisectorEnds(cell: Cell, c: Config, s: Samples)
    requires WellFormed(cell) && (c == 3 || c == 12) && Classify(s) == c
    requires Straddles(s.a, s.d) && Straddles(s.b, s.c)
    ensures Joins(cell, s, (Left, Right), CalcEndsForEdge(cell, c, s))
  {
    var seg := CalcEndsForEdge(cell, c, s);
    var Y := Vec(0.0, cell.dim);
    AlongEndpoint(cell.tl, cell.bl, s.a, s.d, Y, seg.begin);
    AlongEndpoint(cell.tr, cell.br, s.b, s.c, Y, seg.end);
  }

  /** Cases 6 and 9: from the top side down to the bottom side. */
  lemma VerticalBisectorEnds(cell: Cell, c: Config, s: Samples)
    requires WellFormed(cell) && (c == 6 || c == 9) && Classify(s) == c
    requires Straddles(s.b, s.a) && Straddles(s.c, s.d)
    ensures Joins(cell, s, (Top, Bottom), CalcEndsForEdge(cell, c, s))
  {
    var seg := CalcEndsForEdge(cell, c, s);
    var X := Vec(-cell.dim, 0.0);
    AlongEndpoint(cell.tr, cell.tl, s.b, s.a, X, seg.begin);
    AlongEndpoint(cell.br, cell.bl, s.c, s.d, X, seg.end);
  }

  /** Saddles: both corner cuts, each end a level crossing. */
  lemma BridgeEndsJoin(cell: Cell, c: Config, s: Samples)
    requires WellFormed(cell) && IsBridgeCase(c) && Classify(s) == c
    ensures forall k :: 0 <= k < 2 ==> Joins(cell, s, Cuts(c)[k], CalcEndsForBridge(cell, c, s)[k])
  {
    CrossedStraddles(s, Top);
    CrossedStraddles(s, Right);
    CrossedStraddles(s, Bottom);
    CrossedStraddles(s, Left);
    if c == 5 {
      SaddleFiveEnds(cell, s);
    } else {
      SaddleTenEnds(cell, s);
    }
  }

  /** Saddle 5: top-left and bottom-right in; cuts around top-right and bottom-left. */
  lemma SaddleFiveEnds(cell: Cell, s: Samples)
    requires WellFormed(cell) && Classify(s) == 5
    requires Straddles(s.a, s.b) && Straddles(s.c, s.b) && Straddles(s.a, s.d) && Straddles(s.c, s.d)
    ensures var segs := CalcEndsForBridge(cell, 5, s);
            Joins(cell, s, (Top, Right), segs[0]) && Joins(cell, s, (Left, Bottom), segs[1])
  {
    var segs := CalcEndsForBridge(cell, 5, s);
    var X, Y := Vec(cell.dim, 0.0), Vec(0.0, cell.dim);
    AlongEndpoint(cell.tl, cell.tr, s.a, s.b, X, segs[0].begin);
    BackEndpoint(cell.br, cell.tr, s.c, s.b, Y, segs[0].end);
    AlongEndpoint(cell.tl, cell.bl, s.a, s.d, Y, segs[1].begin);
    BackEndpoint(cell.br, cell.bl, s.c, s.d, X, segs[1].end);
  }

  /** Saddle 10: top-right and bottom-left in; cuts around top-left and bottom-right. */
  lemma SaddleTenEnds(cell: Cell, s: Samples)
    requires WellFormed(cell) && Classify(s) == 10
    requires Straddles(s.b, s.a) && Straddles(s.d, s.a) && Straddles(s.b, s.c) && Straddles(s.d, s.c)
    ensures var segs := CalcEndsForBridge(cell, 10, s);
            Joins(cell, s, (Top, Left), segs[0]) && Joins(cell, s, (Right, Bottom), segs[1])
  {
    var segs := CalcEndsForBridge(cell, 10, s);
    var X, Y := Vec(cell.dim, 0.0), Vec(0.0, cell.dim);
    BackEndpoint(cell.tr, cell.tl, s.b, s.a, X, segs[0].begin);
    BackEndpoint(cell.bl, cell.tl, s.d, s.a, Y, segs[0].end);
    AlongEndpoint(cell.tr, cell.br, s.b, s.c, Y, segs[1].begin);
    AlongEndpoint(cell.bl, cell.br, s.d, s.c, X, segs[1].end);
  }

  /** Interpolated mode follows the same cut table as blocky mode, but places
      every endpoint where linear interpolation of the side's two samples
      reaches the level. */
  lemma LerpFollowsCuts(cell: Cell, s: Samples)
    requires WellFormed(cell)
    ensures |DrawSquareLerp(cell, Classify(s), s)| == |Cuts(Classify(s))|
    ensures forall k :: 0 <= k < |Cuts(Classify(s))| ==>
      Joins(cell, s, Cuts(Classify(s))[k], DrawSquareLerp(cell, Classify(s), s)[k])
  {
    var c := Classify(s);
    if IsCornerCase(c) {
      CornerEndsJoin(cell, c, s);
    } else if IsEdgeCase(c) {
      EdgeEndsJoin(cell, c, s);
    } else if IsBridgeCase(c) {
      BridgeEndsJoin(cell, c, s);
    }
  }

  // ------------------------------------------------------------- geometry

  /** `x` lies in the closed square of the cell. */
  predicate InCell(cell: Cell, x: Vec) {
    && cell.tl.x <= x.x <= cell.tl.x + cell.dim
    && cell.tl.y <= x.y <= cell.tl.y + cell.dim
  }

  predicate AllInCell(cell: Cell, segs: seq<Segment>) {
    forall k :: 0 <= k < |segs| ==> InCell(cell, segs[k].begin) && InCell(cell, segs[k].end)
  }

  lemma CrossingInCell(cell: Cell, s: Samples, e: Edge, x: Vec)
    requires WellFormed(cell) && CrossingOnEdge(cell, s, e, x)
    ensures InCell(cell, x)
  {
    var (k1, k2) := Ends(e);
    var p, q := Pos(cell, k1), Pos(cell, k2);
    var t :| 0.0 <= t <= 1.0 && x == Lerp(p, q, t)
             && SampleAt(s, k1) + t * (SampleAt(s, k2) - SampleAt(s, k1)) == Level;
    RealFacts.LerpBetween(p.x, q.x, t);
    RealFacts.LerpBetween(p.y, q.y, t);
  }

  /** Both modes keep every endpoint inside the cell's square. */
  lemma CellSegmentsInCell(cell: Cell, s: Samples, lerp: bool)
    requires WellFormed(cell)
    ensures AllInCell(cell, CellSegments(cell, s, lerp))
  {
    var c := Classify(s);
    var segs := CellSegments(cell, s, lerp);
    if lerp {
      LerpFollowsCuts(cell, s);
      forall k | 0 <= k < |segs|
        ensures InCell(cell, segs[k].begin) && InCell(cell, segs[k].end)
      {
        var cut := Cuts(c)[k];
        if CrossingOnEdge(cell, s, cut.0, segs[k].begin) && CrossingOnEdge(cell, s, cut.1, segs[k].end) {
          CrossingInCell(cell, s, cut.0, segs[k].begin);
          CrossingInCell(cell, s, cut.1, segs[k].end);
        } else {
          CrossingInCell(cell, s, cut.1, segs[k].begin);
          CrossingInCell(cell, s, cut.0, segs[k].end);
        }
      }
    } else {
      BlockyFollowsCuts(cell, c);
    }
  }
}
