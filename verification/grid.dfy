/** Grid geometry: the resolution slider's mapping to a cell size and to
    sample counts (`changeResolution`), and the row-major sample buffer's index
    to canvas position mapping (`getSampleLoc`). */
module Grid {
  import opened Vectors
  import RealFacts

  /** The drawing surface and the half-pixel offset of the first sample. */
  datatype Canvas = Canvas(width: real, height: real, offset: real)

  /** The demo's 640×480 canvas with samples starting at 1.5 px. */
  const DemoCanvas := Canvas(640.0, 480.0, 1.5)

  /** The sampled area (the canvas less the offset on both sides) is non-empty. */
  predicate ValidCanvas(c: Canvas) {
    c.offset >= 0.0 && c.width > 2.0 * c.offset && c.height > 2.0 * c.offset
  }

  /** The coarsest and finest cell sizes the slider moves between. */
  datatype CellSizeRange = CellSizeRange(max: real, min: real)

  /** Sample-grid geometry. `cols` and `rows` count sample points (stops), so the
      grid has `cols - 1` by `rows - 1` cells. */
  datatype Grid = Grid(offset: real, cellDim: real, cols: int, rows: int)

  predicate ValidGrid(g: Grid) {
    g.cellDim > 0.0 && g.cols >= 1 && g.rows >= 1
  }

  /** `Math.ceil` on an exact real. */
  function Ceil(x: real): (n: int)
    ensures n as real - 1.0 < x <= n as real
  {
    -((-x).Floor)
  }

  /** Cell size for a slider fraction: `max·(1 − p) + min·p`. Raising the
      resolution shrinks the cells, from `max` at p = 0 down to `min` at p = 1. */
  function CellDim(range: CellSizeRange, percent: real): (d: real)
    ensures 0.0 <= percent <= 1.0 && range.min <= range.max ==> range.min <= d <= range.max
    ensures percent == 0.0 ==> d == range.max
    ensures percent == 1.0 ==> d == range.min
  {
    var d := range.max * (1.0 - percent) + range.min * percent;
    if 0.0 <= percent <= 1.0 && range.min <= range.max then
      assert d - range.min == (range.max - range.min) * (1.0 - percent);
      assert range.max - d == (range.max - range.min) * percent;
      RealFacts.ProductNonNegative(d - range.min, range.max - range.min, 1.0 - percent);
      RealFacts.ProductNonNegative(range.max - d, range.max - range.min, percent);
      d
    else
      d
  }

  /** Raising the slider fraction never enlarges the cells. */
  lemma CellDimDecreasing(range: CellSizeRange, p: real, q: real)
    requires range.min <= range.max && p <= q
    ensures CellDim(range, q) <= CellDim(range, p)
  {
    assert CellDim(range, p) - CellDim(range, q) == (range.max - range.min) * (q - p);
    RealFacts.ProductNonNegative(CellDim(range, p) - CellDim(range, q), range.max - range.min, q - p);
  }

  /** A higher resolution on the slider gives cells no larger than a lower
      one does. */
  lemma ResolutionShrinksCells(canvas: Canvas, range: CellSizeRange, lo: int, hi: int)
    requires 0 <= lo <= hi <= 100
    requires ValidCanvas(canvas) && 0.0 < range.min <= range.max
    ensures ChangeResolution(canvas, range, hi).cellDim <= ChangeResolution(canvas, range, lo).cellDim
  {
    CellDimDecreasing(range, lo as real / 100.0, hi as real / 100.0);
  }

  /** Number of sample points along an extent: `ceil(extent / cellDim) + 1`.
      The cells then just cover the extent: `n - 1` cells reach at least its
      end, while `n - 2` cells fall short of it. */
  function StopCount(extent: real, cellDim: real): (n: int)
    requires cellDim > 0.0
    ensures (n - 1) as real * cellDim >= extent
    ensures extent > (n - 2) as real * cellDim
    ensures extent > 0.0 ==> n >= 2
  {
    var q := extent / cellDim;
    var n := Ceil(q) + 1;
    RealFacts.QuotientTimesDivisor(extent, cellDim);
    RealFacts.MulMonotone((n - 1) as real, q, cellDim);
    RealFacts.MulStrictMonotone(q, (n - 2) as real, cellDim);
    RealFacts.QuotientSign(q, extent, cellDim);
    assert q * cellDim == extent;
    assert q * cellDim > (n - 2) as real * cellDim;
    assert extent > (n - 2) as real * cellDim;
    n
  }

  /** The arithmetic of `changeResolution`: the slider value (a whole
      percentage) picks a cell size between the range's bounds and the sample
      counts that cover the canvas less its offsets. */
  function ChangeResolution(canvas: Canvas, range: CellSizeRange, resolution: int): (g: Grid)
    requires 0 <= resolution <= 100
    requires ValidCanvas(canvas) && 0.0 < range.min <= range.max
    ensures ValidGrid(g) && g.cols >= 2 && g.rows >= 2
    ensures g.cellDim == CellDim(range, resolution as real / 100.0)
    ensures g.offset == canvas.offset
    ensures range.min <= g.cellDim <= range.max
    ensures (g.cols - 1) as real * g.cellDim >= canvas.width - 2.0 * canvas.offset
    ensures canvas.width - 2.0 * canvas.offset > (g.cols - 2) as real * g.cellDim
    ensures (g.rows - 1) as real * g.cellDim >= canvas.height - 2.0 * canvas.offset
    ensures canvas.height - 2.0 * canvas.offset > (g.rows - 2) as real * g.cellDim
  {
    var percent := resolution as real / 100.0;
    var cellDim := CellDim(range, percent);
    var totalOffset := canvas.offset * 2.0;
    Grid(canvas.offset, cellDim,
         StopCount(canvas.width - totalOffset, cellDim),
         StopCount(canvas.height - totalOffset, cellDim))
  }

  /** With the declared cell size of 11 px the 640×480 canvas would get
      59 × 45 sample points; `start` replaces that size from the slider
      before anything is drawn. */
  lemma DemoStopCounts()
    ensures StopCount(DemoCanvas.width - 2.0 * DemoCanvas.offset, 11.0) == 59
    ensures StopCount(DemoCanvas.height - 2.0 * DemoCanvas.offset, 11.0) == 45
  {
  }

  /** `getSampleLoc(idx)`: the canvas position of the sample stored at `idx`
      of the row-major buffer. Every index names a stop (i, j) of the grid,
      with `idx = i·cols + j`; `SampleLocRowCol` is the converse. */
  function SampleLoc(g: Grid, idx: int): (p: Vec)
    requires g.cols > 0 && idx >= 0
    ensures exists i, j :: 0 <= i && 0 <= j < g.cols && idx == i * g.cols + j && p == Stop(g, i, j)
  {
    var r := idx / g.cols;
    var c := idx % g.cols;
    var p := Vec(g.offset + g.cellDim * c as real, g.offset + g.cellDim * r as real);
    assert idx == r * g.cols + c && p == Stop(g, r, c);
    p
  }

  /** Row-major indexing is inverted by division and remainder. */
  lemma RowMajorDivMod(i: int, j: int, n: int)
    requires n > 0 && i >= 0 && 0 <= j < n
    ensures (i * n + j) / n == i
    ensures (i * n + j) % n == j
  {
    var k := i * n + j;
    var q, r := k / n, k % n;
    assert k == q * n + r;
    if q > i {
      MulLeq(i + 1, q, n);
      MulSucc(i, n);
    } else if q < i {
      MulLeq(q + 1, i, n);
      MulSucc(q, n);
    }
  }

  lemma MulLeq(a: int, b: int, n: int)
    requires a <= b && n > 0
    ensures a * n <= b * n
  {
    assert b * n - a * n == (b - a) * n;
  }

  lemma MulSucc(a: int, n: int)
    ensures (a + 1) * n == a * n + n
  {
  }

  /** Stop (i, j) of the grid: row i, column j. */
  function Stop(g: Grid, i: int, j: int): Vec {
    Vec(g.offset + g.cellDim * j as real, g.offset + g.cellDim * i as real)
  }

  /** The sample stored at row-major index `idx = i·cols + j` sits at stop (i, j). */
  lemma SampleLocRowCol(g: Grid, i: int, j: int, idx: int)
    requires g.cols > 0 && i >= 0 && 0 <= j < g.cols && idx == i * g.cols + j
    ensures SampleLoc(g, idx) == Stop(g, i, j)
  {
    RowMajorDivMod(i, j, g.cols);
  }

  /** The four corners of cell (i, j) — its top-left sample `offset`, then
      `offset + 1`, `offset + cols` and `offset + cols + 1` — are all inside
      the `rows × cols` buffer. */
  lemma CellCornersInBuffer(g: Grid, i: int, j: int)
    requires 0 <= i < g.rows - 1 && 0 <= j < g.cols - 1
    ensures 0 <= i * g.cols + j
    ensures i * g.cols + j + 1 < g.rows * g.cols
    ensures i * g.cols + j + g.cols < g.rows * g.cols
    ensures i * g.cols + j + g.cols + 1 < g.rows * g.cols
  {
    assert i * g.cols >= 0;
    assert (i + 1) * g.cols <= (g.rows - 1) * g.cols by {
      assert (g.rows - 1) * g.cols - (i + 1) * g.cols == (g.rows - 2 - i) * g.cols;
    }
  }

  /** One stop further along an axis is one cell size further. */
  lemma NextStop(d: real, k: int)
    ensures d * (k + 1) as real == d * k as real + d
  {
  }

  /** The four samples cell (i, j) reads, at buffer entries `offset`,
      `offset + 1`, `offset + cols + 1` and `offset + cols`, sit at stops
      (i, j), (i, j + 1), (i + 1, j + 1) and (i + 1, j). */
  lemma CellCornerLocs(g: Grid, i: int, j: int, o: int)
    requires 0 <= i && 0 <= j < g.cols - 1 && o == i * g.cols + j
    ensures SampleLoc(g, o) == Stop(g, i, j)
    ensures SampleLoc(g, o + 1) == Stop(g, i, j + 1)
    ensures SampleLoc(g, o + g.cols + 1) == Stop(g, i + 1, j + 1)
    ensures SampleLoc(g, o + g.cols) == Stop(g, i + 1, j)
  {
    MulSucc(i, g.cols);
    SampleLocRowCol(g, i, j, o);
    SampleLocRowCol(g, i, j + 1, o + 1);
    SampleLocRowCol(g, i + 1, j + 1, o + g.cols + 1);
    SampleLocRowCol(g, i + 1, j, o + g.cols);
  }
}
