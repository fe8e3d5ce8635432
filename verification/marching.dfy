/** `marchingSquares`: walk every cell of the sample grid in row-major order,
    read its four corner samples from the buffer, classify them and emit the
    cell's segments in the chosen mode. The drawn path becomes the returned
    list of segments. */
module Marching {
  import opened Vectors
  import opened Grid
  import opened Cells
  import CellFacts
  import RealFacts

  /** A sample buffer fits a grid when it holds one value per stop. A grid
      with no stops (before the first resolution change) has an empty buffer. */
  predicate Fits(g: Grid, data: seq<real>) {
    g.cellDim > 0.0 && g.rows >= 0 && g.cols >= 0 && |data| == g.rows * g.cols
  }

  /** Cells between `stops` sample points along one axis: the source loops
      while the index is below `stops - 1`, which is no iteration at all when
      there are fewer than two stops. */
  function Spans(stops: int): (n: nat)
    ensures stops >= 1 ==> n == stops - 1
    ensures stops <= 1 ==> n == 0
  {
    if stops > 1 then stops - 1 else 0
  }

  /** The square of cell (i, j): its top-left corner is stop (i, j) and its
      side is `cellDim`, as `calcEndsFor*` and `drawSquare` take it from
      `getSampleLoc(offset)` with `offset = i·cols + j` and `cellDim`. */
  function CellAt(g: Grid, i: int, j: int): (cell: Cell)
    requires g.cellDim > 0.0
    requires 0 <= i < Spans(g.rows) && 0 <= j < Spans(g.cols)
    ensures WellFormed(cell) && cell.dim == g.cellDim
  {
    NextStop(g.cellDim, i);
    NextStop(g.cellDim, j);
    Cell(Stop(g, i, j), Stop(g, i, j + 1), Stop(g, i + 1, j + 1), Stop(g, i + 1, j), g.cellDim)
  }

  /** The corners of cell (i, j) are exactly where the four samples the cell
      reads were taken: buffer entries `offset`, `offset + 1`,
      `offset + cols + 1` and `offset + cols`. */
  lemma CellCornersAreSamples(g: Grid, i: int, j: int)
    requires g.cellDim > 0.0
    requires 0 <= i < Spans(g.rows) && 0 <= j < Spans(g.cols)
    ensures var o := i * g.cols + j;
            CellAt(g, i, j) == Cell(SampleLoc(g, o), SampleLoc(g, o + 1), SampleLoc(g, o + g.cols + 1),
                                    SampleLoc(g, o + g.cols), g.cellDim)
  {
    CellCornerLocs(g, i, j, i * g.cols + j);
  }

  /** The samples of cell (i, j) in the source's [a, b, c, d] order. */
  function SamplesAt(g: Grid, data: seq<real>, i: int, j: int): Samples
    requires Fits(g, data)
    requires 0 <= i < Spans(g.rows) && 0 <= j < Spans(g.cols)
  {
    CellCornersInBuffer(g, i, j);
    var o := i * g.cols + j;
    Samples(data[o], data[o + 1], data[o + g.cols + 1], data[o + g.cols])
  }

  /** What one cell contributes to the path. */
  function CellPath(g: Grid, data: seq<real>, lerp: bool, i: int, j: int): seq<Segment>
    requires Fits(g, data)
    requires 0 <= i < Spans(g.rows) && 0 <= j < Spans(g.cols)
  {
    CellSegments(CellAt(g, i, j), SamplesAt(g, data, i, j), lerp)
  }

  /** Reference: the path of the first `j` cells of row `i`. */
  function RowPath(g: Grid, data: seq<real>, lerp: bool, i: int, j: int): seq<Segment>
    requires Fits(g, data)
    requires 0 <= i < Spans(g.rows) && 0 <= j <= Spans(g.cols)
  {
    if j == 0 then [] else RowPath(g, data, lerp, i, j - 1) + CellPath(g, data, lerp, i, j - 1)
  }

  /** Reference: the path of the first `i` rows of cells. */
  function GridPath(g: Grid, data: seq<real>, lerp: bool, i: int): seq<Segment>
    requires Fits(g, data)
    requires 0 <= i <= Spans(g.rows)
  {
    if i == 0 then [] else GridPath(g, data, lerp, i - 1) + RowPath(g, data, lerp, i - 1, Spans(g.cols))
  }

  /** The square spanned by the sample grid's stops. */
  predicate InGrid(g: Grid, x: Vec) {
    && g.offset <= x.x <= g.offset + g.cellDim * (g.cols - 1) as real
    && g.offset <= x.y <= g.offset + g.cellDim * (g.rows - 1) as real
  }

  predicate AllInGrid(g: Grid, segs: seq<Segment>) {
    forall k :: 0 <= k < |segs| ==> InGrid(g, segs[k].begin) && InGrid(g, segs[k].end)
  }

  /** A cell's square lies within the grid's square. */
  lemma CellInGrid(g: Grid, i: int, j: int, cell: Cell, x: Vec)
    requires g.cellDim > 0.0
    requires 0 <= i < Spans(g.rows) && 0 <= j < Spans(g.cols)
    requires cell.tl == Stop(g, i, j) && cell.dim == g.cellDim
    requires CellFacts.InCell(cell, x)
    ensures InGrid(g, x)
  {
    SpanWithin(g.cellDim, j as real, (g.cols - 1) as real, x.x, g.offset);
    SpanWithin(g.cellDim, i as real, (g.rows - 1) as real, x.y, g.offset);
  }

  /** A point within the span [base + d·k, base + d·k + d] of a cell whose
      far stop k + 1 is at most `last` lies within [base, base + d·last]. */
  lemma SpanWithin(d: real, k: real, last: real, x: real, base: real)
    requires d > 0.0 && 0.0 <= k && k + 1.0 <= last
    requires base + d * k <= x <= base + d * k + d
    ensures base <= x <= base + d * last
  {
    assert x <= base + d * (k + 1.0);
    RealFacts.ScaleMonotone(d, last, k + 1.0);
    RealFacts.ProductNonNegative(d * k, d, k);
  }

  /** Segments inside cell (i, j) are inside the grid's square. */
  lemma SegmentsInGrid(g: Grid, i: int, j: int, cell: Cell, segs: seq<Segment>)
    requires g.cellDim > 0.0
    requires 0 <= i < Spans(g.rows) && 0 <= j < Spans(g.cols)
    requires cell.tl == Stop(g, i, j) && cell.dim == g.cellDim
    requires CellFacts.AllInCell(cell, segs)
    ensures AllInGrid(g, segs)
  {
    forall k | 0 <= k < |segs|
      ensures InGrid(g, segs[k].begin) && InGrid(g, segs[k].end)
    {
      CellInGrid(g, i, j, cell, segs[k].begin);
      CellInGrid(g, i, j, cell, segs[k].end);
    }
  }

  /** Every endpoint of a cell's segments lies in the grid's square. */
  lemma CellPathInGrid(g: Grid, data: seq<real>, lerp: bool, i: int, j: int)
    requires Fits(g, data)
    requires 0 <= i < Spans(g.rows) && 0 <= j < Spans(g.cols)
    ensures AllInGrid(g, CellPath(g, data, lerp, i, j))
  {
    var cell := CellAt(g, i, j);
    var segs := CellPath(g, data, lerp, i, j);
    CellFacts.CellSegmentsInCell(cell, SamplesAt(g, data, i, j), lerp);
    SegmentsInGrid(g, i, j, cell, segs);
  }

  lemma AppendInGrid(g: Grid, a: seq<Segment>, b: seq<Segment>)
    requires AllInGrid(g, a) && AllInGrid(g, b)
    ensures AllInGrid(g, a + b)
  {
    forall k | 0 <= k < |a + b|
      ensures InGrid(g, (a + b)[k].begin) && InGrid(g, (a + b)[k].end)
    {
      if k >= |a| {
        assert (a + b)[k] == b[k - |a|];
      }
    }
  }

  /** The body of `marchingSquares`' inner loop: read the four corner samples
      of cell (i, j) from the buffer, classify them and draw the cell. Its
      segments stay inside the sampled square. */
  method MarchCell(g: Grid, data: seq<real>, lerp: bool, i: int, j: int) returns (cellSegs: seq<Segment>)
    requires Fits(g, data)
    requires 0 <= i < Spans(g.rows) && 0 <= j < Spans(g.cols)
    ensures cellSegs == CellPath(g, data, lerp, i, j)
    ensures AllInGrid(g, cellSegs)
  {
    CellCornersInBuffer(g, i, j);
    var offset := i * g.cols + j;
    var s := Samples(data[offset], data[offset + 1], data[offset + g.cols + 1], data[offset + g.cols]);
    cellSegs := CellSegments(CellAt(g, i, j), s, lerp);
    CellPathInGrid(g, data, lerp, i, j);
  }

  /** The inner loop of `marchingSquares`: the cells of row i, left to right. */
  method MarchRow(g: Grid, data: seq<real>, lerp: bool, i: int) returns (rowSegs: seq<Segment>)
    requires Fits(g, data)
    requires 0 <= i < Spans(g.rows)
    ensures rowSegs == RowPath(g, data, lerp, i, Spans(g.cols))
    ensures AllInGrid(g, rowSegs)
  {
    rowSegs := [];
    for j := 0 to Spans(g.cols)
      invariant rowSegs == RowPath(g, data, lerp, i, j)
      invariant AllInGrid(g, rowSegs)
    {
      var cellSegs := MarchCell(g, data, lerp, i, j);
      AppendInGrid(g, rowSegs, cellSegs);
      assert RowPath(g, data, lerp, i, j + 1) == RowPath(g, data, lerp, i, j) + cellSegs;
      rowSegs := rowSegs + cellSegs;
    }
  }

  /** `marchingSquares`: the path is the cells' segments in row-major order,
      and every endpoint stays inside the sampled square. */
  method MarchingSquares(g: Grid, data: seq<real>, lerp: bool) returns (segs: seq<Segment>)
    requires Fits(g, data)
    ensures segs == GridPath(g, data, lerp, Spans(g.rows))
    ensures AllInGrid(g, segs)
  {
    segs := [];
    for i := 0 to Spans(g.rows)
      invariant segs == GridPath(g, data, lerp, i)
      invariant AllInGrid(g, segs)
    {
      var rowSegs := MarchRow(g, data, lerp, i);
      AppendInGrid(g, segs, rowSegs);
      assert GridPath(g, data, lerp, i + 1) == GridPath(g, data, lerp, i) + rowSegs;
      segs := segs + rowSegs;
    }
  }

  /** The blocky and the interpolated mode draw the same number of segments
      over the first `i` rows: both emit one segment per cut of each cell's
      configuration. */
  lemma ModesAgreeOnCount(g: Grid, data: seq<real>, i: int)
    requires Fits(g, data)
    requires 0 <= i <= Spans(g.rows)
    ensures |GridPath(g, data, true, i)| == |GridPath(g, data, false, i)|
  {
    GridPathCount(g, data, true, i);
    GridPathCount(g, data, false, i);
  }

  lemma RowCountsAgree(g: Grid, data: seq<real>, i: int, j: int)
    requires Fits(g, data)
    requires 0 <= i < Spans(g.rows) && 0 <= j <= Spans(g.cols)
    ensures |RowPath(g, data, true, i, j)| == |RowPath(g, data, false, i, j)|
  {
    RowPathCount(g, data, true, i, j);
    RowPathCount(g, data, false, i, j);
  }

  /** Segments of the first `j` cells of row `i`, counted from the cut table. */
  function RowCount(g: Grid, data: seq<real>, i: int, j: int): nat
    requires Fits(g, data)
    requires 0 <= i < Spans(g.rows) && 0 <= j <= Spans(g.cols)
  {
    if j == 0 then 0 else RowCount(g, data, i, j - 1) + SegmentCount(Classify(SamplesAt(g, data, i, j - 1)))
  }

  /** Segments of the first `i` rows of cells, counted from the cut table. */
  function GridCount(g: Grid, data: seq<real>, i: int): nat
    requires Fits(g, data)
    requires 0 <= i <= Spans(g.rows)
  {
    if i == 0 then 0 else GridCount(g, data, i - 1) + RowCount(g, data, i - 1, Spans(g.cols))
  }

  /** In either mode, a row draws as many segments as its cells' cuts. */
  lemma {:induction false} RowPathCount(g: Grid, data: seq<real>, lerp: bool, i: int, j: int)
    requires Fits(g, data)
    requires 0 <= i < Spans(g.rows) && 0 <= j <= Spans(g.cols)
    ensures |RowPath(g, data, lerp, i, j)| == RowCount(g, data, i, j)
  {
    if j > 0 {
      RowPathCount(g, data, lerp, i, j - 1);
      assert |CellPath(g, data, lerp, i, j - 1)| == SegmentCount(Classify(SamplesAt(g, data, i, j - 1)));
    }
  }

  /** In either mode, the grid draws as many segments as its cells' cuts. */
  lemma {:induction false} GridPathCount(g: Grid, data: seq<real>, lerp: bool, i: int)
    requires Fits(g, data)
    requires 0 <= i <= Spans(g.rows)
    ensures |GridPath(g, data, lerp, i)| == GridCount(g, data, i)
  {
    if i > 0 {
      GridPathCount(g, data, lerp, i - 1);
      RowPathCount(g, data, lerp, i - 1, Spans(g.cols));
      GridPathLength(g, data, lerp, i);
    }
  }

  /** Adding a row of cells adds that row's segments to the path's length. */
  lemma GridPathLength(g: Grid, data: seq<real>, lerp: bool, i: int)
    requires Fits(g, data)
    requires 0 < i <= Spans(g.rows)
    ensures |GridPath(g, data, lerp, i)| == |GridPath(g, data, lerp, i - 1)| + |RowPath(g, data, lerp, i - 1, Spans(g.cols))|
  {
  }
}
