# Metaballs and marching squares, modelled in Dafny

This project models the metaball demo of the legends2k demos site
(`projects/demos/pages/MarchingSquares/metaballs.mjs`) together with the pure
helpers it shares with the other demos (`projects/demos/utils.mjs`).

The demo works as follows:

- A few circles float around a canvas. Each circle contributes r²/d² to a
  scalar field, and the field is the sum of these contributions.
- Each frame, the field is sampled at the stops of a square grid.
- The iso-line at level 1 is then drawn with marching squares.
  - In blocky mode, each cut goes between midpoints of cell sides.
  - In interpolated mode, each end is placed by inverse linear interpolation
    of the side's two samples.
- The circles bounce off the canvas walls by reflecting their velocity.
- The user can drag a circle with the mouse.
- A slider sets the cell size, and with it the number of sample stops.

## How the model is built

- Reals are exact (`real`). A `vec2` is the datatype `Vectors.Vec`.
- The program keeps its state in globals. The model turns that state into
  values passed in and returned instead:
  - the circles (`Field.Circle`);
  - the grid (`Grid.Grid`);
  - the sample buffer (`seq<real>`);
  - the selection (`Interaction.Selection`).
- Drawing calls (`moveTo`/`lineTo`) become returned lists of
  `Cells.Segment`.
- The dragged circle is named by its index in the circle list, not by an
  object reference.
- Properties are stated against separate reference definitions:
  - `Cells.Crossed`: an edge is crossed when its two corners disagree.
  - `Cells.Cuts`: the table of edge pairs each configuration joins.
  - `CellFacts.Crossing`: where the linear interpolation of an edge's two
    samples reaches the level.
  - `Marching.GridPath` and `Marching.RowPath`: recursive row-major
    concatenations that the loops are proved to compute.

Modules:

| module | models |
|---|---|
| `Vectors`, `Options`, `RealFacts` | `vec2` arithmetic, an option type, small lemmas about real products and quotients |
| `Utils` | `clamp`, `getMidpoint` and the double-angle step of `getVersor` |
| `Field` | `metaballFn` |
| `Grid` | `changeResolution` and `getSampleLoc` |
| `Cells` | classification of a cell, `drawSquare`, `invLerp`, `calcEndsForCorner`/`Edge`/`Bridge`, `drawSquareLerp` |
| `CellFacts` | what the two drawing modes promise about a cell |
| `Marching` | `marchingSquares` |
| `Physics` | `reflect` and `animateCircles` |
| `Interaction` | `isPointInCircle`, `onMouseDown`, `onMouseMove`, `onMouseUp` |
| `Simulation` | `update` and one frame of the render loop |

Three behaviours of the code worth knowing:

- **Order of work in a frame.** `update` samples the field first and moves
  the circles afterwards (metaballs.mjs:73-77). So the contour drawn in a
  frame is that of the circles as they were before the frame moved them
  (`Simulation.Frame`).
- **Where the segments lie.** `changeResolution` rounds the stop counts up
  (`Math.ceil`). As a result, the sample grid can reach past the right and
  bottom canvas edges by less than one cell (`Grid.ChangeResolution`).
  Segment endpoints are therefore proved to lie inside the square spanned by
  the grid's stops, not inside the canvas.
- **Field at a circle centre.** The field is infinite where a sample point
  sits on a circle centre. The model requires that no centre is on a sample
  point; see Left out.

Not a discrepancy, but worth knowing: in interpolated mode, corner cases
4/11 and 7/8 draw each segment in the opposite direction to blocky mode.
Blocky mode goes from the vertical side to the horizontal one, while
`calcEndsForCorner` goes from the horizontal (bottom) side to the vertical one. For
this reason, `CellFacts.Joins` accepts a segment in either orientation.

## Model

| member | source | states |
|---|---|---|
| `Utils.Clamp` | projects/demos/utils.mjs:26-28 | For l ≤ u the result lies in [l, u]. A value already inside is returned unchanged; one below is raised to l; one above is lowered to u. For an empty interval (u < l) the result is u. |
| `Utils.ClampIdempotent` | projects/demos/utils.mjs:26-28 | Clamping twice gives the same result as clamping once. |
| `Utils.GetMidpoint` | projects/demos/utils.mjs:15-20 | The midpoint is as far from a as b is from it. It is the point halfway along the segment from a to b. |
| `Utils.MidpointSymmetric` | projects/demos/utils.mjs:15-20 | The midpoint does not depend on the order of its arguments. |
| `Utils.MidpointOfSame` | projects/demos/utils.mjs:15-20 | The midpoint of a point with itself is that point. |
| `Utils.DoubleAngleStep` | projects/demos/utils.mjs:120-127 | v3 = 2·v2 − v1 has v2 as the midpoint of v1 and v3, as the comment at lines 122-124 derives. |
| `Utils.DoubleAngleUnique` | projects/demos/utils.mjs:120-127 | Any vector whose midpoint with v1 is v2 equals the double-angle step. |
| `Utils.DoubleAngleOfMidpoint` | projects/demos/utils.mjs:120-127 | Taking the midpoint with v1 and then applying the double-angle step gives back the original vector. |
| `Field.Value` | projects/demos/pages/MarchingSquares/metaballs.mjs:42-52 | The field is never negative. It is at least each single circle's contribution r²/d². |
| `Field.MetaballFn` | projects/demos/pages/MarchingSquares/metaballs.mjs:42-52 | The accumulation loop returns the sum of the contributions of all circles. |
| `Field.ValueAppend` | projects/demos/pages/MarchingSquares/metaballs.mjs:42-52 | The field of two concatenated circle lists is the sum of their fields. |
| `Field.ValuePermutation` | projects/demos/pages/MarchingSquares/metaballs.mjs:42-52 | The field does not depend on the order in which the circles are listed: any rearrangement of the list gives the same value at every point. |
| `Field.ValueOnRim` | projects/demos/pages/MarchingSquares/metaballs.mjs:42-52 | A lone circle sampled exactly on its rim gives exactly the level 1. |
| `Field.ContributionAboveOne` | projects/demos/pages/MarchingSquares/metaballs.mjs:47-49 | At a point strictly inside a circle (other than its centre), that circle's own contribution exceeds 1. |
| `Field.InsideCircleAboveLevel` | projects/demos/pages/MarchingSquares/metaballs.mjs:42-52 | At a point strictly inside any circle, the field exceeds the level, so the point is classified as in. |
| `Grid.Ceil` | projects/demos/pages/MarchingSquares/metaballs.mjs:636-637 | `Math.ceil` gives the least integer n with x ≤ n, so n − 1 < x. |
| `Grid.CellDim` | projects/demos/pages/MarchingSquares/metaballs.mjs:631-633 | The cell size is max at 0 %, min at 100 %, and between min and max for any percentage in between. |
| `Grid.CellDimDecreasing` | projects/demos/pages/MarchingSquares/metaballs.mjs:631-633 | A larger slider fraction never gives a larger cell, so raising the resolution brings the cell size down. |
| `Grid.ResolutionShrinksCells` | projects/demos/pages/MarchingSquares/metaballs.mjs:628-643 | Of two slider values in 0..100, the higher one gives cells no larger than the lower one. |
| `Grid.StopCount` | projects/demos/pages/MarchingSquares/metaballs.mjs:634-637 | ceil(extent / cellDim) + 1 stops give cells that reach at least the end of the extent, while one cell fewer falls short of it. A non-empty extent gets at least two stops. |
| `Grid.ChangeResolution` | projects/demos/pages/MarchingSquares/metaballs.mjs:628-643 | For any slider value in 0..100: the cell size is the slider's interpolation between max and min, so it lies in [min, max]; there are at least 2 × 2 stops; the first stop is at the canvas offset; the grid covers the canvas less its offsets on both axes with less than one cell to spare. |
| `Grid.DemoStopCounts` | projects/demos/pages/MarchingSquares/metaballs.mjs:23-25 | An arithmetic example of the stop count only: the 640 × 480 canvas with offset 1.5 and the declared 11 px cell size would get 59 × 45 stops. The program never draws this grid, because `start` calls `changeResolution` with the slider's value before the first frame. |
| `Grid.RowMajorDivMod` | projects/demos/pages/MarchingSquares/metaballs.mjs:57-58 | The floor division and remainder by the column count recover the row and the column from a row-major index. |
| `Grid.SampleLocRowCol` | projects/demos/pages/MarchingSquares/metaballs.mjs:54-62 | The sample stored at index i·cols + j is at stop (row i, column j). |
| `Grid.SampleLoc` | projects/demos/pages/MarchingSquares/metaballs.mjs:54-62 | Every non-negative index names a stop (row i, column j) with index = i·cols + j. |
| `Grid.CellCornersInBuffer` | projects/demos/pages/MarchingSquares/metaballs.mjs:166-171 | The four buffer reads of cell (i, j) are in bounds for every cell the loops visit. |
| `Grid.CellCornerLocs` | projects/demos/pages/MarchingSquares/metaballs.mjs:166-171 | The entries at offset, offset + 1, offset + cols + 1 and offset + cols were sampled at the cell's top-left, top-right, bottom-right and bottom-left stops. |
| `Cells.Classify` | projects/demos/pages/MarchingSquares/metaballs.mjs:172-177 | Each corner's bit is set exactly when that corner's sample is at least 1, so a sample equal to 1 counts as in. |
| `Cells.DrawSquare` | projects/demos/pages/MarchingSquares/metaballs.mjs:358-429 | Blocky mode draws no segment for uniform cells, two for the saddles 5 and 10, and one otherwise. |
| `Cells.InvLerp` | projects/demos/pages/MarchingSquares/metaballs.mjs:118-121 | The returned ratio t, interpolated back from v1 to v2, gives the sample value v. |
| `Cells.DrawSquareLerp` | projects/demos/pages/MarchingSquares/metaballs.mjs:315-356 | Interpolated mode draws as many segments per configuration as blocky mode. |
| `Cells.CalcEndsForCorner` | projects/demos/pages/MarchingSquares/metaballs.mjs:189-241 | The two ends lie on the lines through the two sides that meet at the lone corner, in either order. Where on those sides is stated by `CellFacts.CornerEndsJoin`. |
| `Cells.CalcEndsForEdge` | projects/demos/pages/MarchingSquares/metaballs.mjs:244-274 | For a proper cell, the two ends lie on the lines through the two opposite sides that the bisector crosses. That they lie inside the cell is stated by `CellFacts.CellSegmentsInCell`. |
| `Cells.CalcEndsForBridge` | projects/demos/pages/MarchingSquares/metaballs.mjs:276-313 | There are exactly two segments. For a proper cell, each runs between the lines through the two sides of one corner cut of the saddle. |
| `Cells.CellSegments` | projects/demos/pages/MarchingSquares/metaballs.mjs:178-181 | Either mode draws one segment per cut of the cell's configuration. |
| `CellFacts.CutsAreCrossings` | projects/demos/pages/MarchingSquares/metaballs.mjs:137-151 | The cut table touches exactly the edges whose two corners disagree in the case diagram, and each of them once. |
| `CellFacts.SegmentsPerCrossing` | projects/demos/pages/MarchingSquares/metaballs.mjs:358-429 | A configuration gets one segment per cut and half as many segments as it has crossed edges. |
| `CellFacts.CrossedComplement` | projects/demos/pages/MarchingSquares/metaballs.mjs:137-151 | Complementary configurations cross the same edges. This is why the source shares a case between c and 15 − c. |
| `CellFacts.BlockyFollowsCuts` | projects/demos/pages/MarchingSquares/metaballs.mjs:358-429 | Each blocky segment joins the midpoints of the two sides that its entry of the cut table names. |
| `CellFacts.SideMidpoints` | projects/demos/pages/MarchingSquares/metaballs.mjs:361-363 | The side midpoints are the origin offset by 0 or `cellDim_2` on one axis and by `cellDim_2` or `cellDim` on the other. |
| `CellFacts.BlockyComplement` | projects/demos/pages/MarchingSquares/metaballs.mjs:367-411 | Every configuration other than a saddle draws the same segments as its complement. |
| `CellFacts.BlockySaddles` | projects/demos/pages/MarchingSquares/metaballs.mjs:412-428 | Saddle 5 draws the cuts of 2 and of 8; saddle 10 draws the cuts of 1 and of 4. |
| `CellFacts.InvLerpInUnit` | projects/demos/pages/MarchingSquares/metaballs.mjs:118-121 | When exactly one of two samples reaches the level, the ratio at which the level is reached lies in [0, 1]. |
| `CellFacts.CrossedStraddles` | projects/demos/pages/MarchingSquares/metaballs.mjs:172-177 | On an edge that the configuration marks as crossed, exactly one corner sample reaches the level. |
| `CellFacts.EndCrossing` | projects/demos/pages/MarchingSquares/metaballs.mjs:195-200 | The point found by inverse interpolation is where the linear interpolant of the edge reaches the level, read from either end. |
| `CellFacts.AlongEndpoint` | projects/demos/pages/MarchingSquares/metaballs.mjs:204-207 | Stepping from a corner by t times the side vector towards the other corner lands on the level crossing. |
| `CellFacts.BackEndpoint` | projects/demos/pages/MarchingSquares/metaballs.mjs:213-217 | Stepping by −t times the side vector that points away from the other corner also lands on the level crossing. |
| `CellFacts.CornerEndsJoin` | projects/demos/pages/MarchingSquares/metaballs.mjs:189-241 | For each of the eight corner cases, the segment joins the level crossings on the lone corner's two sides. |
| `CellFacts.EdgeEndsJoin` | projects/demos/pages/MarchingSquares/metaballs.mjs:244-274 | For the four bisector cases, the segment joins the level crossings on the two opposite crossed sides. |
| `CellFacts.HorizontalBisectorEnds` | projects/demos/pages/MarchingSquares/metaballs.mjs:248-259 | In bisectors 3 and 12, the segment joins the level crossings on the left and right sides. |
| `CellFacts.VerticalBisectorEnds` | projects/demos/pages/MarchingSquares/metaballs.mjs:260-271 | In bisectors 6 and 9, the segment joins the level crossings on the top and bottom sides. |
| `CellFacts.BridgeEndsJoin` | projects/demos/pages/MarchingSquares/metaballs.mjs:276-313 | For both saddles, each of the two segments joins the level crossings of one corner cut. |
| `CellFacts.SaddleFiveEnds` | projects/demos/pages/MarchingSquares/metaballs.mjs:284-297 | In saddle 5, the first segment joins the crossings on the top and right sides, and the second joins those on the left and bottom sides. |
| `CellFacts.SaddleTenEnds` | projects/demos/pages/MarchingSquares/metaballs.mjs:298-310 | In saddle 10, the first segment joins the crossings on the top and left sides, and the second joins those on the right and bottom sides. |
| `CellFacts.LerpFollowsCuts` | projects/demos/pages/MarchingSquares/metaballs.mjs:315-356 | Interpolated mode follows the blocky mode's cut table. Each segment joins the level crossings on the two sides its cut names. |
| `CellFacts.CrossingInCell` | projects/demos/pages/MarchingSquares/metaballs.mjs:195-200 | A level crossing on a side lies within the cell's square. |
| `CellFacts.CellSegmentsInCell` | projects/demos/pages/MarchingSquares/metaballs.mjs:315-429 | In either mode, every endpoint lies inside the cell's square. |
| `Marching.CellAt` | projects/demos/pages/MarchingSquares/metaballs.mjs:189-193 | The cell the drawing functions use is a proper square of side `cellDim`, anchored at its top-left sample. |
| `Marching.CellCornersAreSamples` | projects/demos/pages/MarchingSquares/metaballs.mjs:166-171 | The corners of cell (i, j) are exactly where its four buffer entries were sampled. |
| `Marching.CellInGrid` | projects/demos/pages/MarchingSquares/metaballs.mjs:153-165 | A point of any cell the loops visit lies in the square spanned by the grid's stops. |
| `Marching.SpanWithin` | projects/demos/pages/MarchingSquares/metaballs.mjs:162-165 | A point in the span of cell k, with k + 1 ≤ last, lies within the first `last` spans. |
| `Marching.SegmentsInGrid` | projects/demos/pages/MarchingSquares/metaballs.mjs:153-165 | Segments inside a visited cell are inside the grid's square. |
| `Marching.CellPathInGrid` | projects/demos/pages/MarchingSquares/metaballs.mjs:166-181 | What one cell draws stays inside the grid's square, in either mode. |
| `Marching.MarchCell` | projects/demos/pages/MarchingSquares/metaballs.mjs:166-181 | The loop body reads the cell's four samples, classifies them and draws that cell's segments, all inside the grid's square. |
| `Marching.MarchRow` | projects/demos/pages/MarchingSquares/metaballs.mjs:165-182 | The inner loop draws the cells of a row from left to right. |
| `Marching.MarchingSquares` | projects/demos/pages/MarchingSquares/metaballs.mjs:153-185 | The path is the segments of all cells in row-major order, and every endpoint lies inside the sampled square. |
| `Marching.ModesAgreeOnCount` | projects/demos/pages/MarchingSquares/metaballs.mjs:178-181 | Over the whole grid, the two modes draw the same number of segments. |
| `Marching.RowCountsAgree` | projects/demos/pages/MarchingSquares/metaballs.mjs:165-182 | Within a row, the two modes draw the same number of segments. |
| `Marching.RowPathCount` | projects/demos/pages/MarchingSquares/metaballs.mjs:165-182 | In either mode, a row draws exactly as many segments as the cut table gives its cells' configurations. |
| `Marching.GridPathCount` | projects/demos/pages/MarchingSquares/metaballs.mjs:153-185 | In either mode, the whole grid draws exactly as many segments as the cut table gives its cells' configurations. |
| `Physics.Reflect` | projects/demos/pages/MarchingSquares/metaballs.mjs:123-135 | The source's negate / project / perpendicular / scale-and-add steps compute the mirror image v − 2(v·n)n. |
| `Physics.ReflectKeepsLength` | projects/demos/pages/MarchingSquares/metaballs.mjs:123-135 | The reflection about a unit normal has the same length as the incident vector, as the comment at line 124 promises. |
| `Physics.ReflectInvolution` | projects/demos/pages/MarchingSquares/metaballs.mjs:123-135 | Reflecting twice about the same unit normal gives back the incident vector. |
| `Physics.ReflectOffWalls` | projects/demos/pages/MarchingSquares/metaballs.mjs:504-523 | The four wall normals negate exactly one velocity component. |
| `Physics.Move` | projects/demos/pages/MarchingSquares/metaballs.mjs:493-497 | A circle moves by velocity × ticks and keeps its radius and velocity. |
| `Physics.CheckX` | projects/demos/pages/MarchingSquares/metaballs.mjs:503-512 | A circle past the left wall is put at x = r, else one past the right wall at x = width − r. A circle no wider than the canvas ends between the walls, and one already inside is untouched. The horizontal velocity flips exactly when the centre was moved. The speed and the vertical state are kept. |
| `Physics.CheckY` | projects/demos/pages/MarchingSquares/metaballs.mjs:514-523 | The same on the vertical axis, independently of the horizontal test: past the top wall the circle is put at y = r, else past the bottom wall at y = height − r. |
| `Physics.WallCheck` | projects/demos/pages/MarchingSquares/metaballs.mjs:500-524 | After the collision step, a circle that fits the canvas is inside it, and a circle already inside is unchanged. On an axis where the circle is inside, its centre coordinate and velocity component are kept. A circle past a wall is put against it (x = r or width − r, y = r or height − r). Each velocity component flips exactly when the centre moved on that axis, and the speed is kept. |
| `Physics.WallCheckIdempotent` | projects/demos/pages/MarchingSquares/metaballs.mjs:500-524 | A second collision step changes nothing for a circle that fits the canvas. |
| `Physics.AnimateCircles` | projects/demos/pages/MarchingSquares/metaballs.mjs:488-525 | Every circle except the dragged one moves, then every circle, the dragged one included, is wall-checked. Radii and speeds are kept, and every circle that fits ends inside the canvas. |
| `Interaction.IsPointInCircle` | projects/demos/pages/MarchingSquares/metaballs.mjs:111-116 | A hit is exactly a squared distance below r². A hit off the centre gets a contribution above 1 from that circle. |
| `Interaction.HitIsInside` | projects/demos/pages/MarchingSquares/metaballs.mjs:111-116 | A point that hits a circle (and is not on any centre) has a field value above the level, so what can be grabbed is drawn as inside. |
| `Interaction.MouseDown` | projects/demos/pages/MarchingSquares/metaballs.mjs:578-588 | With no hit, nothing changes. With a hit, the first circle under the pointer is selected and the pointer is remembered. The circles are never moved. |
| `Interaction.MouseMove` | projects/demos/pages/MarchingSquares/metaballs.mjs:590-598 | The selected circle moves by the pointer's displacement since the last event, and every other circle stays put. With no selection, nothing changes. |
| `Interaction.MouseUp` | projects/demos/pages/MarchingSquares/metaballs.mjs:600-602 | Releasing drops the selection and changes nothing else: the circles and the remembered pointer stay as they were. |
| `Interaction.MoveAfterRelease` | projects/demos/pages/MarchingSquares/metaballs.mjs:590-602 | After a release, moving the pointer changes nothing. |
| `Interaction.Drag` | projects/demos/pages/MarchingSquares/metaballs.mjs:590-598 | A sequence of moves keeps the selection and the number of circles. |
| `Interaction.DragFollowsPointer` | projects/demos/pages/MarchingSquares/metaballs.mjs:590-598 | Over a whole drag, the selected circle moves by the pointer's total displacement however many events it took, and the other circles stay where they were. |
| `Simulation.Update` | projects/demos/pages/MarchingSquares/metaballs.mjs:65-78 | Whether the buffer is reused or reallocated, every entry ends up holding the field at its stop, taken before the circles move. Without animation, the circles are unchanged. |
| `Simulation.CellSamplesAreField` | projects/demos/pages/MarchingSquares/metaballs.mjs:166-171 | The four samples a cell reads are the field at that cell's own corners. |
| `Simulation.CornerSamples` | projects/demos/pages/MarchingSquares/metaballs.mjs:166-171 | The entries at offset, offset + 1, offset + cols + 1 and offset + cols hold the field at the four corners of the cell anchored there. |
| `Simulation.Frame` | projects/demos/pages/MarchingSquares/metaballs.mjs:561-571 | One tick draws the contour of the circles as they were before the tick, and stays inside the sampled square. When animating, each circle is moved (unless dragged) and then wall-checked. |

## Left out

- Rendering is not modelled: `renderGrid`, `renderContent`, `drawGrid`,
  `drawSamples` and `drawCircles` only paint. `marchingSquares`' path is
  returned as segments instead of being stroked.
- The scheduling in `start` is not modelled: `requestAnimationFrame`, the
  timestamps and the FPS label. One tick of its loop is `Simulation.Frame`,
  with `ticks` as a parameter.
- `getCursorPosition`, the event wiring and the checkbox toggles
  (`flipLerp`, `flipAnimation`, ...) are DOM glue. Pointer positions and the
  `lerp`/`animate` flags are parameters.
- `changeResolution`'s label update and `parseInt` are DOM glue. The slider
  value is taken to be an integer percentage in 0..100.
- Floating point: all arithmetic is exact, so rounding, NaN and Infinity are
  not modelled.
- `Field.MetaballFn`: requires that no circle centre coincides with the
  point. The source would divide by zero there and accumulate Infinity, which
  then classifies as in.
- `Simulation.Update`: requires the field to be finite at every stop, for
  the same reason.
- `Simulation.Frame`: carries the same requirement as `Simulation.Update`,
  because it samples the field through it.
- `Cells.DrawSquareLerp`: requires the configuration to be the
  classification of the samples it is given. The only caller guarantees
  this, and it is what keeps `invLerp` away from a zero divisor.
- The rest of `getVersor` is outside this model: screen-to-view mapping,
  the rigid-transform inverse, normalisation and the quaternion. Only its
  double-angle step is modelled.
- The other helpers in `utils.mjs` (`mapScreenToView`, `degToRad`,
  `invertRigidXform`) are outside the modelled core.
- `Marching.MarchingSquares`: the containment property is stated for the
  square spanned by the grid's stops. That square can reach past the canvas
  by less than one cell, so "inside the canvas" is not claimed.
