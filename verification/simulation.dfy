/** One animation frame: `update(ticks)` samples the field at every grid stop
    and then, if animation is on, moves the circles; the frame then draws the
    contour of the sampled field with `marchingSquares`. */
module Simulation {
  import opened Vectors
  import opened Options
  import opened Field
  import opened Grid
  import opened Cells
  import Marching
  import Physics

  /** The field is finite at every stop of the grid. */
  predicate SampledFieldDefined(g: Grid, cs: seq<Circle>) {
    forall idx :: 0 <= idx < g.rows * g.cols ==> g.cols > 0 && DefinedAt(cs, SampleLoc(g, idx))
  }

  /** `data` holds the field of `cs` at every stop, in row-major order. */
  predicate SamplesOf(g: Grid, cs: seq<Circle>, data: seq<real>) {
    && |data| == g.rows * g.cols
    && (|data| > 0 ==> g.cols > 0)
    && forall idx :: 0 <= idx < |data| ==>
         g.cols > 0 && DefinedAt(cs, SampleLoc(g, idx)) && data[idx] == Value(cs, SampleLoc(g, idx))
  }

  /** `update(ticks)`: reuse the sample buffer if it has one entry per stop
      (otherwise allocate a fresh one), fill it with the field of the circles
      as they are at the start of the frame, then animate them if asked to.
      Whatever the old buffer held, the new samples depend only on the grid
      and the circles. Before the first resolution change the grid has no
      stops and the buffer stays empty. */
  method Update(g: Grid, buffer: Option<seq<real>>, cs: seq<Circle>, picked: Option<nat>,
                animate: bool, ticks: real, canvas: Canvas) returns (data: seq<real>, next: seq<Circle>)
    requires g.rows >= 0 && g.cols >= 0
    requires SampledFieldDefined(g, cs)
    ensures SamplesOf(g, cs, data)
    ensures |next| == |cs|
    ensures !animate ==> next == cs
    ensures animate ==> forall i :: 0 <= i < |cs| ==>
      next[i] == Physics.WallCheck(Physics.Advanced(cs[i], i, picked, ticks), canvas.width, canvas.height)
  {
    var total := g.rows * g.cols;
    if buffer.None? || |buffer.value| != total {
      data := seq(total, _ => 0.0);
    } else {
      data := buffer.value;
    }
    for i := 0 to total
      invariant |data| == total
      invariant forall k :: 0 <= k < i ==> g.cols > 0 && DefinedAt(cs, SampleLoc(g, k)) && data[k] == Value(cs, SampleLoc(g, k))
    {
      var v := MetaballFn(cs, SampleLoc(g, i));
      data := data[i := v];
    }
    if animate {
      next := Physics.AnimateCircles(cs, picked, ticks, canvas);
    } else {
      next := cs;
    }
  }

  /** The samples a cell reads are the field at the cell's own corners. */
  lemma CellSamplesAreField(g: Grid, cs: seq<Circle>, data: seq<real>, i: int, j: int)
    requires g.cellDim > 0.0 && g.rows >= 0 && SamplesOf(g, cs, data)
    requires 0 <= i < Marching.Spans(g.rows) && 0 <= j < Marching.Spans(g.cols)
    ensures var cell := Marching.CellAt(g, i, j);
            && DefinedAt(cs, cell.tl) && DefinedAt(cs, cell.tr)
            && DefinedAt(cs, cell.br) && DefinedAt(cs, cell.bl)
            && Marching.SamplesAt(g, data, i, j)
               == Samples(Value(cs, cell.tl), Value(cs, cell.tr), Value(cs, cell.br), Value(cs, cell.bl))
  {
    CellCornersInBuffer(g, i, j);
    Marching.CellCornersAreSamples(g, i, j);
    var cell := Marching.CellAt(g, i, j);
    var o := i * g.cols + j;
    CornerSamples(g, cs, data, o, cell.tl, cell.tr, cell.br, cell.bl);
  }

  /** The four entries a cell reads hold the field at the positions they were
      sampled at. */
  lemma CornerSamples(g: Grid, cs: seq<Circle>, data: seq<real>, o: int, tl: Vec, tr: Vec, br: Vec, bl: Vec)
    requires SamplesOf(g, cs, data) && g.cols > 0 && 0 <= o && o + g.cols + 1 < |data|
    requires SampleLoc(g, o) == tl && SampleLoc(g, o + 1) == tr
    requires SampleLoc(g, o + g.cols + 1) == br && SampleLoc(g, o + g.cols) == bl
    ensures DefinedAt(cs, tl) && DefinedAt(cs, tr) && DefinedAt(cs, br) && DefinedAt(cs, bl)
    ensures Samples(data[o], data[o + 1], data[o + g.cols + 1], data[o + g.cols])
            == Samples(Value(cs, tl), Value(cs, tr), Value(cs, br), Value(cs, bl))
  {
    SampleIsField(g, cs, data, o);
    SampleIsField(g, cs, data, o + 1);
    SampleIsField(g, cs, data, o + g.cols + 1);
    SampleIsField(g, cs, data, o + g.cols);
  }

  lemma SampleIsField(g: Grid, cs: seq<Circle>, data: seq<real>, idx: int)
    requires SamplesOf(g, cs, data) && 0 <= idx < |data|
    ensures g.cols > 0 && DefinedAt(cs, SampleLoc(g, idx)) && data[idx] == Value(cs, SampleLoc(g, idx))
  {
  }

  /** One frame of the render loop: update, then draw the contour. The
      contour drawn is that of the circles as they were before this frame
      moved them. */
  method Frame(g: Grid, buffer: Option<seq<real>>, cs: seq<Circle>, picked: Option<nat>, animate: bool, lerp: bool,
               ticks: real, canvas: Canvas) returns (segs: seq<Segment>, next: seq<Circle>)
    requires g.cellDim > 0.0 && g.rows >= 0 && g.cols >= 0
    requires SampledFieldDefined(g, cs)
    ensures exists data :: SamplesOf(g, cs, data) && Marching.Fits(g, data)
                           && segs == Marching.GridPath(g, data, lerp, Marching.Spans(g.rows))
    ensures Marching.AllInGrid(g, segs)
    ensures |next| == |cs|
    ensures !animate ==> next == cs
    ensures animate ==> forall i :: 0 <= i < |cs| ==>
      next[i] == Physics.WallCheck(Physics.Advanced(cs[i], i, picked, ticks), canvas.width, canvas.height)
  {
    var data;
    data, next := Update(g, buffer, cs, picked, animate, ticks, canvas);
    segs := Marching.MarchingSquares(g, data, lerp);
  }
}
