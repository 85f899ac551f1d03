# HoleFilling in Dafny

A model of the core of HoleFilling, a small C# library that repairs holes in
normalized grayscale images. An image is a matrix of samples in `[0, 1]`. A
holed pixel holds the sentinel `-1`. The library:

- finds the hole's boundary by Moore-neighbour tracing, with backtracking and
  Jacob's stopping criterion;
- builds the rectangle that covers the boundary and lists the holed pixels
  inside it, in row-major order;
- fills the hole in one of several ways:
  - each pixel gets the weighted mean of the boundary, by default with weight
    `1 / (0.0001 + d^5)` and Chebyshev distance `d`;
  - every pixel gets the plain mean of the boundary;
  - a gradient between the four corners of the covering rectangle, clamped to
    `[0, 1]`;
  - a spiral walk over the covering rectangle that gives each holed pixel the
    mean of its non-holed 8-neighbours.

Modules, in dependency order:

- `Wrappers`: `Option`, and `Outcome`, which stands for an exception thrown.
- `Grid`: positions, the samples as a value (`Samples`), the 8-direction
  offset table, and the `ImageMatrix` class. The class owns a
  `array2<real>`, which its methods read and update in place.
- `DistanceMeasures`: the Chebyshev distance.
- `Means`: sums, plain means and weighted means, and the bounds they keep.
- `Holes`: rectangles, the two hole records, the covering-rectangle scan and
  the hole-pixel scan.
- `MooreTrace`: the tracer class, with its `start` and `direction` fields,
  and the reference trace it is proved against.
- `TraceExamples`, `EdgeTraceExample`: the reference trace worked out on the
  images of the tracer's tests (a single hole in a 3x3 image, a 2x2 hole in
  the corner of a 7x7 image) and on a hole in the last row of a 4x5 image.
- `HoleFinder`: the hole finder class.
- `Spiral`: the `SpiralTraverser` class.
- `Fills`: the fill strategies as functions on `Samples`. Each is a fold over
  the pixels visited, so a pixel's value is computed from the grid as it
  stands when its turn comes. The in-place loops are proved against these
  folds.
- `HoleFixing`: the loops of `HoleFixer`, and the class itself.
- `HoleHandling`: the `HoleHandler` class, with its stored boundary, hole and
  weight function.

A pixel object of the C# code is modelled by its position. The grid owns every
sample, and boundaries, hole lists and rectangle corners hold positions into
it. So an update made through any of them is seen by all, just as it is with
the shared `Pixel` objects of the source. `float` is modelled as `real`.

## Model

| member | source | states |
|---|---|---|
| Grid.Set | HoleFIlling/DataObjects.cs:13 | setting one pixel's value changes that sample and no other, and keeps the grid's shape |
| Grid.ImageMatrix.constructor | HoleFIlling/DataObjects/ImageMatrix.cs:28-37 | the new matrix has the source array's dimensions, holds its values pixel for pixel, and is not marked holed |
| Grid.ImageMatrix.GetArrayElement | HoleFIlling/DataObjects/ImageMatrix.cs:45-48 | reading `(x, y)` inside the grid gives the sample at row `x`, column `y` |
| Grid.ImageMatrix.SetValue | HoleFIlling/DataObjects.cs:13 | writing a pixel's value changes exactly that sample of the matrix |
| Grid.GetDistantElement | HoleFIlling/DataObjects/ImageMatrix.cs:58-65 | the pixel `(x, y)` away from `start` is returned exactly when it lies inside the grid, and is absent exactly when it does not (corrected guard, see Findings) |
| Grid.DistantGuardAsWrittenAdmits | HoleFIlling/DataObjects/ImageMatrix.cs:60-61 | the guard as written lets through every in-grid position and, in addition, exactly the positions one past the last row or column |
| Grid.DistantGuardAsWrittenOnePastEnd | HoleFIlling/DataObjects/ImageMatrix.cs:60-64 | from any pixel of the last row, the offset `(1, 0)` passes the guard as written although it leaves the grid |
| DistanceMeasures.ChebyshevDistance | HoleFIlling/DistanceMeasures.cs:9-12 | the distance is the larger of the absolute row and column differences |
| DistanceMeasures.ChebyshevZeroIffSame | HoleFIlling/DistanceMeasures.cs:9-12 | the distance is zero if and only if the two pixels coincide |
| DistanceMeasures.ChebyshevSymmetric | HoleFIlling/DistanceMeasures.cs:9-12 | the distance is symmetric |
| DistanceMeasures.ChebyshevTriangle | HoleFIlling/DistanceMeasures.cs:9-12 | the distance obeys the triangle inequality |
| DistanceMeasures.NeighbourAtDistanceOne | HoleFIlling/MooreTrace.cs:84-93 | each of the eight offset-table neighbours is at distance exactly 1 |
| DistanceMeasures.UnitStepAtDistanceOne | HoleFIlling/SpiralTraverser.cs:58-93 | a unit step of the spiral walk moves to a pixel at distance 1 |
| Means.MeanWithin | HoleFIlling/HoleHandler.cs:172-175 | the plain mean of values in `[lo, hi]` lies in `[lo, hi]` |
| Means.WeightedMeanWithin | HoleFIlling/HoleHandler.cs:148-165 | with positive weights the weight total is positive, and the weighted mean lies between the smallest and largest value |
| Means.WeightedMeanOfConstant | HoleFIlling/HoleHandler.cs:148-165 | a boundary of constant value `c` gives weighted mean exactly `c` |
| Holes.NewPixelHole | HoleFIlling/DataObjects.cs:71-74 | a new hole record has an empty pixel list and no covering rectangle yet |
| Holes.ExtremesBound | HoleFIlling/HoleHandler.cs:87-100 | the running minimum is at most the seed and every coordinate, and is the seed or one of them; the same holds dually for the maximum |
| Holes.CoveringRectangleIsBoundingBox | HoleFIlling/HoleHandler.cs:85-109 | for a non-empty in-grid boundary, the covering rectangle is its bounding box: its corners are in the grid and ordered, its off-diagonal corners are consistent, it contains every boundary pixel, and each side touches one |
| Holes.SortedListsEqual | HoleFIlling/HoleHandler.cs:74-80 | two row-major-sorted lists with the same members are equal |
| Holes.HoleListUnique | HoleFIlling/HoleHandler.cs:74-80 | the hole list of a rectangle is determined uniquely: any two lists meeting the hole-list property are equal |
| Holes.FindCoveringRectangle | HoleFIlling/HoleHandler.cs:85-109 | the rectangle built by the min/max scan is `CoveringRectangleOf` the boundary, and all four corners it reads lie in the image |
| Holes.FindHolePixels | HoleFIlling/HoleFinder.cs:83-99 | the list built is exactly the holed pixels of the rectangle, in strictly increasing row-major order |
| Holes.ScanHoleRow | HoleFIlling/HoleFinder.cs:91-96 | scanning row `i` extends a correct hole list of the rows above into a correct list up to row `i`: sorted, sound and complete |
| MooreTrace.OffsetTable | HoleFIlling/MooreTrace.cs:84-93 | the eight offsets are distinct and non-zero, each coordinate is in `[-1, 1]`, and direction `d + 4` is the opposite of `d` |
| MooreTrace.BacktrackIsEven | HoleFIlling/MooreTrace.cs:132-152 | backtracking always lands on a valid direction in `{0, 2, 4, 6}`, that is west, north, east or south |
| MooreTrace.BacktrackPointsBack | HoleFIlling/MooreTrace.cs:142-151 | after stepping in direction `d` and advancing, the backtracked direction points from the new pixel to the old pixel's neighbour just counter-clockwise of `d` |
| MooreTrace.NeighbourInGrid | HoleFIlling/MooreTrace.cs:102-113 | in an image with more than one pixel, every pixel has an in-grid neighbour among the eight, so the clockwise search ends |
| MooreTrace.ClockwiseAdvance | HoleFIlling/MooreTrace.cs:102-113 | one more out-of-grid candidate extends the skipped run, and a later in-grid candidate still exists |
| MooreTrace.ClockwiseFound | HoleFIlling/MooreTrace.cs:109-115 | the first in-grid candidate after a run of out-of-grid ones is the first clockwise neighbour, at distance 1 |
| MooreTrace.GetNextPixel | HoleFIlling/MooreTrace.cs:118-130 | there is no next pixel exactly at the last pixel; otherwise the next pixel is in the grid and is the immediate row-major successor |
| MooreTrace.FindFirstHole | HoleFIlling/MooreTrace.cs:11-23 | the scan finds nothing exactly when the image has no holed pixel, and otherwise finds the first holed pixel in row-major order |
| MooreTrace.WalkToEdgeSeed | HoleFIlling/MooreTrace.cs:26-35 | from a first hole in column 0, the walk stops at the last pixel of the run of holed pixels that starts there |
| MooreTrace.LocateSeed | HoleFIlling/MooreTrace.cs:11-40 | no seed exactly when there is no hole; the seed is holed; for a first hole in column 0 the start is East and the seed ends the holed run; otherwise the start is West and the seed is the first hole; the first candidate neighbour, when in the grid, is not holed |
| MooreTrace.FirstHoleUnique | HoleFIlling/MooreTrace.cs:11-23 | the first hole in row-major order is unique |
| MooreTrace.EdgeSeedUnique | HoleFIlling/MooreTrace.cs:27-34 | the pixel the column-0 walk stops on is unique |
| MooreTrace.HoledGridIsLarge | HoleFIlling/MooreTrace.cs:27-34 | a holed image whose first hole, when in column 0, has a non-holed pixel after it has at least two pixels, so the clockwise search always has a neighbour to find |
| MooreTrace.NextClockwise | HoleFIlling/MooreTrace.cs:99-116 | the clockwise search as a function: the pixel it returns is in the grid at distance 1 from the searched pixel, and the running direction stays in `0..7` |
| MooreTrace.FirstClockwiseIsNext | HoleFIlling/MooreTrace.cs:102-115 | when the first in-grid neighbour clockwise from direction `d` is `k` steps on, the search returns it and leaves the direction `k + 1` past `d` |
| MooreTrace.TraceTurnKeeps | HoleFIlling/MooreTrace.cs:57-67 | one turn of the loop searches around a holed pixel or the one it searched around before, finds a candidate at distance 1, and adds at most the old candidate to the boundary, only when that is non-holed and not on the boundary yet |
| MooreTrace.TraceTurnInvariant | HoleFIlling/MooreTrace.cs:55-68 | a turn keeps the loop invariant: a holed pixel searched around, a candidate at distance 1, and a boundary that starts with the first pixel, has no repeats, lies in the grid, is non-holed after its first pixel and lies next to a holed pixel throughout |
| MooreTrace.TraceLoopInvariant | HoleFIlling/MooreTrace.cs:55-70 | from a state meeting the invariant, the loop never reports a missing hole, and a boundary it returns has all the properties of the invariant |
| MooreTrace.TraceSpecInvariant | HoleFIlling/MooreTrace.cs:40-70 | the trace from a holed seed never reports a missing hole, and a boundary it returns starts with the first in-grid neighbour of the seed and has all the properties of the invariant |
| MooreTrace.TraceOfSeed | HoleFIlling/MooreTrace.cs:8-40 | once the first hole and the seed are located as `LocateSeed` states, the trace of the image is the trace from that seed |
| MooreTrace.MooreTrace.constructor | HoleFIlling/MooreTrace.cs:95-96 | a new tracer starts, and points, west |
| MooreTrace.MooreTrace.GetClockWisePixel | HoleFIlling/MooreTrace.cs:99-116 | the pixel returned is the first in-grid neighbour clockwise from the running direction, at distance 1, and the direction ends one past the direction used |
| MooreTrace.MooreTrace.Backtrack | HoleFIlling/MooreTrace.cs:135-152 | the direction moves 5 steps clockwise from an odd direction and 4 from an even one, modulo 8 |
| MooreTrace.MooreTrace.Trace | HoleFIlling/MooreTrace.cs:8-71 | the result is the trace of the image, `TraceOf`: no boundary exactly when the image has no hole; the start direction and seed are as `LocateSeed` states; a traced boundary is non-empty, has no repeats and lies in the image; every pixel after the first is non-holed; every pixel is next to a holed pixel; the first is the first clockwise neighbour of the seed; and the trace stops only with `direction - 1 == start` |
| MooreTrace.MooreTrace.TraceFrom | HoleFIlling/MooreTrace.cs:40-70 | the tracing from a seed returns the trace `TraceSpec` of that seed: never a missing hole; a boundary that is non-empty, without repeats, in the image, non-holed after the first pixel and next to a holed pixel throughout; and the direction ends one past the start |
| MooreTrace.MooreTrace.Turn | HoleFIlling/MooreTrace.cs:57-67 | one pass of the loop body takes the state (pixel searched around, candidate, direction, boundary) to its `TraceTurn` |
| MooreTrace.MooreTrace.Loop | HoleFIlling/MooreTrace.cs:55-70 | the while loop returns the `TraceLoop` of its starting state, and a completed trace leaves the direction one past the start |
| TraceExamples.IsolatedNext | HoleFIlling/MooreTrace.cs:99-116 | around a holed pixel whose eight neighbours are all in the grid and non-holed, the search takes the first neighbour it looks at and moves the direction one on |
| TraceExamples.IsolatedTurn | HoleFIlling/MooreTrace.cs:57-67 | around such an isolated hole, a turn adds the candidate to the boundary and looks at the next neighbour clockwise |
| TraceExamples.IsolatedStart | HoleFIlling/MooreTrace.cs:40-47 | from an isolated hole looking West, the first boundary pixel is the left neighbour and the first candidate the top-left one |
| TraceExamples.IsolatedRound | HoleFIlling/MooreTrace.cs:55-70 | from there, seven turns, one unit of fuel each, and the stop give all eight neighbours clockwise from the left one |
| TraceExamples.IsolatedHoleTrace | HoleFIlling/MooreTrace.cs:40-70 | the trace of an isolated hole, with fuel for seven turns, is its eight neighbours clockwise from the left one |
| TraceExamples.SingleHoleFirst | HoleFillingTests/MooreTraceTests.cs:22-27 | in the 3x3 test image the centre is the first holed pixel, and the only one |
| TraceExamples.SingleHoleTrace | HoleFillingTests/MooreTraceTests.cs:19-35 | tracing the 3x3 test image with fuel for seven turns gives the eight neighbours of the centre, clockwise from `(1, 0)` |
| TraceExamples.SingleHoleList | HoleFillingTests/MooreTraceTests.cs:36 | in the 3x3 test image the hole list of any rectangle containing the centre is just the centre |
| TraceExamples.SingleHoleFound | HoleFillingTests/MooreTraceTests.cs:29-36 | a hole found in the 3x3 test image, as `FindHoleWith` states it, has a boundary of 8 pixels and exactly one holed pixel |
| TraceExamples.LastRowSkip | HoleFIlling/MooreTrace.cs:102-113 | from a pixel of the last row, away from the first and last column, looking South-East the search skips the three neighbours below the grid and takes the left one |
| TraceExamples.LastRowHoleTrace | HoleFIlling/MooreTrace.cs:8-70 | tracing the 4x5 image whose only holed pixel is `(3, 2)` gives `(3, 1), (2, 1), (2, 2), (2, 3), (3, 3)` |
| EdgeTraceExample.CornerHoleHoled | HoleFillingTests/MooreTraceTests.cs:140-149 | in the 7x7 corner test image a pixel holds the sentinel exactly when it lies in rows 0..1 and columns 0..1 |
| EdgeTraceExample.CornerHoleImageHoled | HoleFillingTests/MooreTraceTests.cs:140-149 | the corner test image is a 7x7 image holed exactly on the top-left 2x2 block |
| EdgeTraceExample.CornerHoleFirst | HoleFIlling/MooreTrace.cs:11-19 | in the 7x7 corner test image `(0, 0)` is the first holed pixel in row-major order, and no other pixel is |
| EdgeTraceExample.CornerHoleEdgeSeed | HoleFIlling/MooreTrace.cs:27-34 | from the column-0 hole `(0, 0)` the walk over holed pixels ends at `(0, 1)`, which a non-holed pixel follows |
| EdgeTraceExample.CornerHoleSeed | HoleFIlling/MooreTrace.cs:27-40 | tracing the corner test image is tracing from the seed `(0, 1)` looking East, and the column-0 requirement of the trace holds there |
| EdgeTraceExample.StartFrom | HoleFIlling/MooreTrace.cs:40-47 | when the first two searches around the seed take given neighbours, the trace is the main loop from the state those searches leave |
| EdgeTraceExample.CornerHoleStart | HoleFIlling/MooreTrace.cs:40-47 | from `(0, 1)` looking East, the first boundary pixel is `(0, 2)` and the first candidate `(1, 2)` |
| EdgeTraceExample.LeftColumnSkip | HoleFIlling/MooreTrace.cs:99-116 | looking South-West from a pixel of column 0 below the first row, the search skips the three neighbours left of the grid and takes the one above |
| EdgeTraceExample.CornerSkip | HoleFIlling/MooreTrace.cs:99-116 | looking West from the top-left pixel, the search skips the four neighbours outside the grid and takes the right one |
| EdgeTraceExample.TopRowSkip | HoleFIlling/MooreTrace.cs:99-116 | looking North from a pixel of the first row left of the last column, the search skips the two neighbours above the grid and takes the right one |
| EdgeTraceExample.StepKeeps | HoleFIlling/MooreTrace.cs:55-61 | a turn on a non-holed candidate adds it to the boundary unless it is there already, searches on around the same hole pixel, and uses one unit of fuel |
| EdgeTraceExample.StepBacktracks | HoleFIlling/MooreTrace.cs:62-67 | a turn on a holed candidate backtracks, searches around the candidate, keeps the boundary, and uses one unit of fuel |
| EdgeTraceExample.StopHere | HoleFIlling/MooreTrace.cs:55-70 | when the candidate is the first boundary pixel and the direction is one past the start, the trace returns the boundary collected |
| EdgeTraceExample.SouthFirst | HoleFIlling/MooreTrace.cs:99-116 | looking South from a pixel above the last row, the search takes the pixel below |
| EdgeTraceExample.LeftColumnKeeps | HoleFIlling/MooreTrace.cs:55-116 | a turn on a non-holed candidate around a pixel of column 0 below the first row, looking South-West, keeps the boundary rule and makes the pixel above the next candidate, with the direction North-East |
| EdgeTraceExample.SouthBacktracks | HoleFIlling/MooreTrace.cs:55-116 | a backtrack that looks South from a pixel above the last row makes the pixel below the next candidate, with the direction South-West |
| EdgeTraceExample.CornerBacktracks | HoleFIlling/MooreTrace.cs:55-116 | a backtrack onto the top-left pixel, looking West, makes the pixel to its right the next candidate, with the direction South-East |
| EdgeTraceExample.TopRowBacktracks | HoleFIlling/MooreTrace.cs:55-116 | a backtrack onto a first-row pixel left of the last column, looking North, makes the pixel to its right the next candidate, with the direction South-East |
| EdgeTraceExample.CornerTurn1 | HoleFIlling/MooreTrace.cs:55-68 | turn 1 of the corner trace, in any 7x7 image where the candidate `(1, 2)` is not holed: `(1, 2)` joins the boundary and the holed `(1, 1)` is next |
| EdgeTraceExample.CornerTurn2 | HoleFIlling/MooreTrace.cs:55-68 | turn 2, where `(1, 1)` is holed: a backtrack onto it |
| EdgeTraceExample.CornerTurn3 | HoleFIlling/MooreTrace.cs:55-68 | turn 3, where `(1, 2)` is not holed: it is on the boundary already and is not added twice |
| EdgeTraceExample.CornerTurn4 | HoleFIlling/MooreTrace.cs:55-68 | turn 4, where `(2, 2)` is not holed: it joins the boundary |
| EdgeTraceExample.CornerTurn5 | HoleFIlling/MooreTrace.cs:55-68 | turn 5, where `(2, 1)` is not holed: it joins the boundary |
| EdgeTraceExample.CornerTurn6 | HoleFIlling/MooreTrace.cs:55-68 | turn 6, where `(2, 0)` is not holed: it joins the boundary |
| EdgeTraceExample.CornerTurn7 | HoleFIlling/MooreTrace.cs:55-68 | turn 7, where `(1, 0)` is holed: a backtrack onto it |
| EdgeTraceExample.CornerTurn8 | HoleFIlling/MooreTrace.cs:55-68 | turn 8, where `(2, 0)` is not holed: it is on the boundary already; the search skips the pixels left of the grid and reaches `(0, 0)` |
| EdgeTraceExample.CornerTurn9 | HoleFIlling/MooreTrace.cs:55-68 | turn 9, where `(0, 0)` is holed: a backtrack onto the corner, whose search skips four outside neighbours |
| EdgeTraceExample.CornerTurn10 | HoleFIlling/MooreTrace.cs:55-68 | turn 10, where `(0, 1)` is holed: a backtrack onto it; the search skips the pixels above the grid and reaches `(0, 2)` with the direction one past East |
| EdgeTraceExample.CornerFirstHalf | HoleFIlling/MooreTrace.cs:55-68 | in every 7x7 image holed exactly on the top-left 2x2 block, turns 1 to 5 lead from the start state to state 5, one unit of fuel each |
| EdgeTraceExample.CornerSecondHalf | HoleFIlling/MooreTrace.cs:55-68 | in every such image, turns 6 to 10 lead from state 5 to state 10 |
| EdgeTraceExample.CornerStop | HoleFIlling/MooreTrace.cs:55-70 | Jacob's criterion stops the loop in state 10, returning its five-pixel boundary |
| EdgeTraceExample.CornerTail | HoleFIlling/MooreTrace.cs:55-70 | in every such image, from state 5 the loop returns the boundary `(0, 2), (1, 2), (2, 2), (2, 1), (2, 0)` |
| EdgeTraceExample.CornerLoop | HoleFIlling/MooreTrace.cs:55-70 | in every such image, with fuel for ten turns, the main loop returns that boundary |
| EdgeTraceExample.CornerHoleTrace | HoleFIlling/MooreTrace.cs:8-70 | tracing the 7x7 corner test image, with fuel for ten turns, gives the boundary `(0, 2), (1, 2), (2, 2), (2, 1), (2, 0)` |
| EdgeTraceExample.CornerHoleRectangle | HoleFIlling/HoleFinder.cs:54-80 | the covering rectangle of that boundary spans rows 0..2 and columns 0..2 |
| EdgeTraceExample.CornerHoleList | HoleFIlling/HoleFinder.cs:83-99 | in the corner test image the hole list of any rectangle containing `(0, 0)` and `(1, 1)` is the 2x2 block in row-major order |
| EdgeTraceExample.CornerHoleFound | HoleFillingTests/MooreTraceTests.cs:137-159 | a hole found in the corner test image, as `FindHoleWith` states it, has a boundary of 5 pixels and exactly 4 holed pixels, the test's counts |
| HoleFinder.HoleFinder.constructor | HoleFIlling/HoleFinder.cs:16-19 | a new finder holds the image and no hole |
| HoleFinder.HoleFinder.FindHoleWith | HoleFIlling/HoleFinder.cs:35-47 | the image is unchanged; `outOfFuel` exactly when the trace of the image runs out of fuel; no hole exactly when the image has none; otherwise the hole stored and returned has the trace `TraceOf` of the image as its boundary (non-empty, without repeats, in the image, non-holed after the first pixel, next to a holed pixel throughout), the covering rectangle of that boundary, and exactly that rectangle's holed pixels in row-major order |
| HoleFinder.HoleFinder.FindHole | HoleFIlling/HoleFinder.cs:25-28 | finding with a fresh Moore tracer states all of `FindHoleWith`'s guarantees: the image unchanged, the boundary the trace of the image with its properties, the covering rectangle and the hole list |
| Spiral.TrailStep | HoleFIlling/SpiralTraverser.cs:58-93 | yielding the current pixel and stepping to a neighbour inside the box keeps the walk a unit-step trail through the box that starts along the top row |
| Spiral.TrailFinish | HoleFIlling/SpiralTraverser.cs:98 | yielding the last pixel completes a walk that stays in the box, moves by unit steps and whose first `width` pixels are the top row |
| Spiral.AreaIsProduct | HoleFIlling/SpiralTraverser.cs:33 | the area of a box is its width times its height |
| Spiral.RoundKeepsRing | HoleFIlling/SpiralTraverser.cs:55-96 | one round strictly lowers the counter and leaves it equal to the area of the next inner ring; a round begun at the left edge yields at least a full row |
| Spiral.HeadFinish | HoleFIlling/SpiralTraverser.cs:96-98 | when the counter runs out, the positions yielded plus the last cover at least the area, stay in the box, move by unit steps, start with the top row, and a 1x1 box yields just its pixel |
| Spiral.RoundUnfold | HoleFIlling/SpiralTraverser.cs:55-96 | from a round head with budget left, the traversal is the four runs with their lengths worked out, then the traversal from the next head with every bound moved in and a strictly smaller counter |
| Spiral.RoundYields | HoleFIlling/SpiralTraverser.cs:55-96 | the positions yielded before a round plus its four runs, followed by the traversal from the next head, are the positions yielded before it followed by the traversal from this head |
| Spiral.RoundCovers | HoleFIlling/SpiralTraverser.cs:58-95 | a position still pending at a round head is on one of the round's four runs or still pending at the next head |
| Spiral.SpiralFromCovers | HoleFIlling/SpiralTraverser.cs:55-98 | every position pending at a round head is yielded from there on |
| Spiral.SpiralCovers | HoleFIlling/SpiralTraverser.cs:42-99 | the traversal yields every pixel of the rectangle at least once |
| Spiral.SpiralOneByThree | HoleFIlling/SpiralTraverser.cs:42-99 | a one-row rectangle of three pixels yields `(0,0), (0,1), (0,2), (0,1), (0,0)`: it goes right, comes back, and ends where it began |
| Spiral.SpiralTraverser.constructor | HoleFIlling/SpiralTraverser.cs:24-35 | the bounds are the rectangle's top, left, bottom and right |
| Spiral.SpiralTraverser.Traverse | HoleFIlling/SpiralTraverser.cs:42-99 | the enumeration is `SpiralOf` the rectangle's bounds, a function of the bounds alone, so enumerating twice yields the same sequence; it is at least as long as the area, stays inside the rectangle, moves by unit steps, yields the first row left to right first, and a 1x1 rectangle yields its one pixel |
| Spiral.SpiralTraverser.Round | HoleFIlling/SpiralTraverser.cs:55-96 | one pass of the round loop keeps the loop state and strictly lowers the counter, and what it yields followed by `SpiralFrom` of the new state is what `SpiralFrom` of the old state yields |
| Spiral.SpiralTraverser.GoRight | HoleFIlling/SpiralTraverser.cs:58-63 | the run right yields row `x` from the current column up to, not including, the right bound, ends on the bound and lowers the counter by the number yielded |
| Spiral.SpiralTraverser.GoDown | HoleFIlling/SpiralTraverser.cs:68-73 | the run down yields column `y` from the current row up to, not including, the bottom bound, ends on the bound and lowers the counter by the number yielded |
| Spiral.SpiralTraverser.GoLeft | HoleFIlling/SpiralTraverser.cs:78-83 | the run left yields row `x` from the current column down to, not including, the left bound, ends on the bound and lowers the counter by the number yielded |
| Spiral.SpiralTraverser.GoUp | HoleFIlling/SpiralTraverser.cs:88-93 | the run up yields column `y` while the row is below the upper bound, ends on that bound (or stays put when already above it) and lowers the counter by the number yielded |
| Fills.DefaultWeight | HoleFIlling/DefaultWeightFunction.cs:18-22 | the weight `1 / (e + d^z)` is positive |
| Fills.CloserWeighsMore | HoleFIlling/DefaultWeightFunction.cs:18-22 | a boundary pixel closer to the filled pixel weighs at least as much |
| Fills.DefaultWeightFunction | HoleFIlling/HoleHandler.cs:14-21 | the default weight function (z = 5, e = 0.0001) gives only positive weights |
| Fills.PixelWeightedWithin | HoleFIlling/HoleHandler.cs:148-165 | a pixel filled from boundary samples in `[lo, hi]` gets a value in `[lo, hi]` |
| Fills.FillWeighted | HoleFIlling/HoleFixer.cs:60-82 | the weighted fill keeps the grid's shape, and with an empty boundary (then nothing is holed) changes nothing |
| Fills.FillWeightedValues | HoleFIlling/HoleFixer.cs:60-82 | when no boundary pixel is among the filled ones: pixels not listed keep their value; a listed holed pixel gets the weighted mean of the original boundary samples; a listed non-holed pixel keeps its value |
| Fills.FillUniform | HoleFIlling/HoleFixer.cs:94-95 | setting listed pixels to one value keeps the grid's shape |
| Fills.FillUniformValues | HoleFIlling/HoleFixer.cs:94-95 | after the uniform fill, exactly the listed pixels hold the value, and every other pixel keeps its own |
| Fills.FillWeightedFillsHole | HoleFIlling/HoleFixer.cs:60-82 | with positive weights and boundary samples in `[lo, hi]` above the sentinel, no listed pixel is left holed after the weighted fill, and each that was holed holds a value in `[lo, hi]` |
| Fills.FillUniformFillsHole | HoleFIlling/HoleFixer.cs:87-99 | with boundary samples in `[lo, hi]` above the sentinel, every listed pixel holds a value in `[lo, hi]` after the average fill, so none is left holed |
| Fills.BoundaryMeanWithin | HoleFIlling/HoleFixer.cs:89-92 | the plain mean of boundary samples in `[lo, hi]` is in `[lo, hi]` |
| Fills.Clamp | HoleFIlling/HoleFixer.cs:140-143 | the clamped value is in `[0, 1]`: it is the value itself when in range, 1 above and 0 below |
| Fills.ShareEnds | HoleFIlling/HoleFixer.cs:125-136 | a share of a change is 0 at the start of a span and the whole change at its end |
| Fills.GradientValue | HoleFIlling/HoleFixer.cs:117-146 | the gradient value of every pixel is in `[0, 1]` |
| Fills.GradientAtDiagonalCorners | HoleFIlling/HoleFixer.cs:123-138 | the unclamped gradient reproduces the top-left and bottom-right corner samples at those corners |
| Fills.GradientAtOffCorners | HoleFIlling/HoleFixer.cs:123-138 | the unclamped gradient reproduces the top-right and bottom-left corner samples at those corners |
| Fills.GradientStep | HoleFIlling/HoleFixer.cs:119-145 | filling one pixel puts a value in `[0, 1]` there and changes no other pixel |
| Fills.FillGradient | HoleFIlling/HoleFixer.cs:117-146 | the gradient fill changes only listed pixels, and puts a value in `[0, 1]` in each |
| Fills.FillGradientValues | HoleFIlling/HoleFixer.cs:117-146 | when no corner is listed, each listed pixel gets the gradient of the original corner samples, whatever order the pixels come in |
| Fills.NeighbourValues | HoleFIlling/HoleFixer.cs:168-179 | at most one sample is taken per direction inspected |
| Fills.NeighbourValuesNormalized | HoleFIlling/HoleFixer.cs:168-179 | in a normalized grid every neighbour sample is in `[0, 1]` |
| Fills.NeighbourValuesKeep | HoleFIlling/HoleFixer.cs:168-179 | once an in-grid non-holed neighbour is inspected, the neighbour list is non-empty |
| Fills.NeighbourFound | HoleFIlling/HoleFixer.cs:168-182 | a non-holed pixel one unit step away makes the neighbour count positive, so the division at line 184 is defined |
| Fills.ConnectedStep | HoleFIlling/HoleFixer.cs:166-185 | after one step the pixel is not holed, the grid stays normalized, and no other pixel (and no non-holed one) changes |
| Fills.FillConnected | HoleFIlling/HoleFixer.cs:163-186 | along a unit-step walk from a non-holed pixel in a normalized grid: every visited pixel ends non-holed, samples stay in `[0, 1]`, and non-holed or unvisited pixels keep their value |
| HoleFixing.WeightedSums | HoleFIlling/HoleFixer.cs:71-79 | the loop computes numerator `sum(w * v)` and denominator `sum(w)` over the boundary |
| HoleFixing.FillPixelWithWeightFunction | HoleFIlling/HoleFixer.cs:66-82 | a non-holed pixel leaves the image unchanged; a holed one gets the weighted mean of the boundary, and nothing else changes |
| HoleFixing.FillWeightedPixels | HoleFIlling/HoleFixer.cs:60-64 | the loop over the hole pixels leaves the image equal to the weighted fill `FillWeighted` |
| HoleFixing.BoundarySum | HoleFIlling/HoleFixer.cs:89-91 | the loop computes the sum of the boundary samples |
| HoleFixing.FillUniformPixels | HoleFIlling/HoleFixer.cs:94-95 | the loop leaves the image equal to the uniform fill `FillUniform` |
| HoleFixing.GradientPixel | HoleFIlling/HoleFixer.cs:119-143 | the value computed for one pixel is its clamped gradient value |
| HoleFixing.FillGradientPixels | HoleFIlling/HoleFixer.cs:117-146 | the loop leaves the image equal to the gradient fill `FillGradient` |
| HoleFixing.CornerCheck | HoleFIlling/HoleFixer.cs:108-111 | the check reports a holed corner if and only if one of the four corners holds the sentinel |
| HoleFixing.NeighbourSum | HoleFIlling/HoleFixer.cs:168-182 | the sum and count are those of the non-holed in-grid neighbour samples |
| HoleFixing.ConnectedPixel | HoleFIlling/HoleFixer.cs:166-185 | one pass extends the connected fold by the next position of the walk |
| HoleFixing.FillConnectedPixels | HoleFIlling/HoleFixer.cs:164-186 | the loop over the walk leaves the image equal to the connected fill `FillConnected` |
| HoleFixing.SpiralOrder | HoleFIlling/HoleFixer.cs:163-164 | the order of the enumeration is `SpiralOf` the covering rectangle: it visits every pixel of the rectangle, is at least as long as its area, starts at the top-left corner, moves by unit steps, and stays in the rectangle and the grid |
| HoleFixing.FillAlongSpiral | HoleFIlling/HoleFixer.cs:163-186 | filling along the spiral order `SpiralOf` the rectangle gives `FillConnected` over exactly that order |
| HoleFixing.LookupAsWrittenThrowsAtFarEdge | HoleFIlling/HoleFixer.cs:168-178 | with the distant-element guard as written, the eight-neighbour lookup around an in-grid pixel reaches outside the array exactly when the pixel is in the last row or the last column |
| TraceExamples.LastRowHoleAsWrittenThrows | HoleFIlling/HoleFixer.cs:157-178 | for the 4x5 image whose only holed pixel is `(3, 2)`, the traced boundary spans rows 2..3 and columns 1..3, no corner of that rectangle is holed, the spiral walk reaches `(3, 2)`, and the lookup as written reaches outside the array there |
| HoleFixing.HoleFixer.constructor | HoleFIlling/HoleFixer.cs:12-15 | the fixer holds the image |
| HoleFixing.HoleFixer.FillHoleWithWeightFunction | HoleFIlling/HoleFixer.cs:53-58 | the hole pixels are filled as `FillWeighted` states, and the image is no longer marked holed |
| HoleFixing.HoleFixer.FillHoleWithDefaultWeight | HoleFIlling/HoleFixer.cs:38-47 | the same, with the default weight function |
| HoleFixing.HoleFixer.FillHoleApproximateAverage | HoleFIlling/HoleFixer.cs:87-99 | every hole pixel gets the plain mean of the boundary samples, and the image is no longer marked holed |
| HoleFixing.HoleFixer.FillHoleApproximateGradient | HoleFIlling/HoleFixer.cs:106-149 | fails, changing nothing, if and only if a corner is holed; otherwise the image is the gradient fill of the hole pixels and is no longer marked holed |
| HoleFixing.HoleFixer.FillHoleApproximateConnected | HoleFIlling/HoleFixer.cs:155-189 | fails, changing nothing, if and only if a corner is holed; otherwise the image is the connected fill along the spiral order `SpiralOf` the rectangle, every pixel of the rectangle ends non-holed, and the image is no longer marked holed (corrected lookup, see Findings) |
| HoleHandling.RowCellsComplete | HoleFIlling/HoleHandler.cs:120-121 | the inner loop visits every pixel of row `i` in columns `[ys, ye)` |
| HoleHandling.RangeCellsComplete | HoleFIlling/HoleHandler.cs:119-121 | the nested loops visit every pixel of rows `[xs, xe)` and columns `[ys, ye)`, and only those |
| HoleHandling.RowCellsSorted | HoleFIlling/HoleHandler.cs:120-121 | the inner loop visits its pixels in increasing row-major order |
| HoleHandling.RangeCellsSorted | HoleFIlling/HoleHandler.cs:119-121 | the nested loops visit their pixels in increasing row-major order |
| HoleHandling.HoleInRange | HoleFIlling/HoleHandler.cs:47-57 | setting the range's pixels to the sentinel holes exactly the range, and every other pixel keeps its value |
| HoleHandling.HoleHandler.constructor | HoleFIlling/HoleHandler.cs:14-21 | a new handler holds the image, no boundary and no hole, and the default weight function |
| HoleHandling.HoleHandler.WithWeight | HoleFIlling/HoleHandler.cs:23-27 | a new handler holds the image and the given weight function |
| HoleHandling.HoleHandler.FindBoundary | HoleFIlling/HoleHandler.cs:34-38 | the boundary stored and returned is the trace `TraceOf` of the image: none exactly when there is no hole; otherwise non-empty, without repeats, in the image, non-holed after the first pixel and next to a holed pixel throughout; `outOfFuel` exactly when that trace runs out of fuel |
| HoleHandling.HoleHandler.CreateHole | HoleFIlling/HoleHandler.cs:47-57 | exactly the pixels of the range become the sentinel, every other pixel keeps its value, and the image is marked holed |
| HoleHandling.HoleHandler.FindHole | HoleFIlling/HoleHandler.cs:63-83 | without a boundary nothing changes; otherwise the stored hole has the covering rectangle of the boundary and exactly its holed pixels, in row-major order |
| HoleHandling.HoleHandler.EnsureHole | HoleFIlling/HoleHandler.cs:134-135 | a stored hole is kept; otherwise one is found as `FindHole` states |
| HoleHandling.HoleHandler.FillNextPixel | HoleFIlling/HoleHandler.cs:144-165 | filling one more pixel extends the weighted fold by that pixel |
| HoleHandling.HoleHandler.FillRangePixel | HoleFIlling/HoleHandler.cs:121 | one pass of the inner loop extends the weighted fold by pixel `(i, j)` |
| HoleHandling.HoleHandler.FillRowWithWeightFunction | HoleFIlling/HoleHandler.cs:120-121 | the inner loop extends the weighted fold by row `i` of the range |
| HoleHandling.HoleHandler.FillRangeRow | HoleFIlling/HoleHandler.cs:119-121 | one pass of the outer loop extends the weighted fold by one whole row |
| HoleHandling.HoleHandler.FillRangeWithWeightFunction | HoleFIlling/HoleHandler.cs:119-121 | the nested loops leave the image equal to the weighted fill of the range's pixels in row-major order |
| HoleHandling.HoleHandler.FillHoleInRange | HoleFIlling/HoleHandler.cs:118-127 | each holed pixel of the range, in row-major order, gets the weighted mean of the stored boundary as `FillWeighted` states, and other pixels keep their value; the boundary and hole are forgotten; the image is no longer marked holed |
| HoleHandling.HoleHandler.FillHole | HoleFIlling/HoleHandler.cs:132-142 | the hole is found first if none is stored; its pixels are filled as `FillWeighted` states; the boundary and hole are forgotten; the image is no longer marked holed |
| HoleHandling.HoleHandler.FillHoleApproximate | HoleFIlling/HoleHandler.cs:170-186 | every hole pixel gets the plain mean of the boundary, taken before the hole is found; the boundary and hole are forgotten; the image is no longer marked holed |
| HoleHandling.HoleHandler.FillStoredHoleWithGradient | HoleFIlling/HoleHandler.cs:198-241 | fails, changing nothing, if and only if a corner of the stored hole's rectangle is holed; otherwise the image is the gradient fill, and the boundary and hole are forgotten |
| HoleHandling.HoleHandler.FillHoleBetterApproximate | HoleFIlling/HoleHandler.cs:193-242 | the hole is found first if none is stored; fails, changing the image not at all, if and only if a corner is holed; otherwise the gradient fill of the hole's pixels; the boundary and hole are forgotten |
| HoleHandling.FoundHoleGradient | HoleFIlling/HoleHandler.cs:204-236 | with no holed corner, every pixel of a found hole gets exactly the clamped gradient of the original corner samples |

## Left out

- `ImageHandler` (image file I/O and conversion), the console program and the interfaces are not part of this model. The weight-function interface is a function value.
- `float` arithmetic is modelled as exact `real` arithmetic: no rounding, and no NaN or infinity. `Math.Pow` with the integer exponent 5 is a natural-number power.
- Divisions by zero that would store NaN are excluded by preconditions. This covers the weighted fill of a holed pixel with an empty boundary, the plain mean of an empty boundary when there are pixels to fill, and a gradient over a rectangle only one row high or one column wide.
- Null-reference crashes are excluded by preconditions: a missing boundary or hole, and a missing covering rectangle.
- Holes.FindCoveringRectangle, HoleHandling.HoleHandler.FindHole, HoleHandling.HoleHandler.EnsureHole, HoleHandling.HoleHandler.FillHole, HoleHandling.HoleHandler.FillHoleApproximate, HoleHandling.HoleHandler.FillHoleBetterApproximate: require an image of at least one row and one column when a covering rectangle must be built. With zero rows or columns a seed of the minimum is `-1`, and reading the corner pixel at it (HoleFinder.cs:75, HoleHandler.cs:103) throws `IndexOutOfRangeException` (ImageMatrix.cs:47); that exception is not modelled.
- A null boundary or hole is modelled as `Option`. An exception is an `Outcome` failure.
- MooreTrace.MooreTrace.Trace: the trace takes a `fuel` bound on its steps and reports `OutOfFuel` when the bound runs out. The model does not prove that Jacob's criterion always stops the loop.
- MooreTrace.MooreTrace.Trace: requires that a first hole found in column 0 has a non-holed pixel after it. Otherwise the column-0 walk reaches the last pixel, `GetNextPixel` returns null (MooreTrace.cs:128-129) and reading its value throws `NullReferenceException` (MooreTrace.cs:29-30). A 1x1 holed image is such a case; `HoledGridIsLarge` shows this requirement leaves only images of two or more pixels to trace.
- MooreTrace.MooreTrace.Trace: the result is tied to the reference trace `TraceOf`, and its boundary is proved non-empty, without repeats, in the image and next to a hole. That the boundary is a connected, closed curve around the whole hole is not proved in general, only on the 3x3, 4x5 and 7x7 example images. Of the expectations in HoleFillingTests/MooreTraceTests.cs, those of `BasicSanityTest` (8 boundary pixels, 1 hole pixel) and `Edges1Test` (5 and 4) are proved, by `TraceExamples.SingleHoleFound` and `EdgeTraceExample.CornerHoleFound`. Those of `BasicTestTest` (16 and 5), `DumbbellShapeTest` (18 and 9), `Enclave1Test` (27 and 7), `Enclave2Test` (30 and 8), `Edges2Test`, `Edges3Test`, `Edges4Test` (5 and 4 each), `Edges5Test` and `Edges6Test` (7 and 6 each) are not proved.
- `HoleFixer.FixHole` (HoleFixer.cs:21-33) only forwards to `FillHoleWithWeightFunction`. It is not modelled separately. The private `Fix` loop is `HoleFixing.FillWeightedPixels`.
- HoleFinder's private `FindBoundary`, `FindCoveringRectangle` and `FindHole(rectangle)` are inlined into `FindHoleWith`, using `Holes.FindCoveringRectangle` and `Holes.FindHolePixels`.
- The `ImageMatrix(Pixel[,])` constructor is not modelled. It only wraps an existing array of pixel objects.
- `HoleHandler.FillHole(x_start, x_end, y_start, y_end)` is named `FillHoleInRange`, because Dafny has no overloading.
- The source's single loops are modelled as a method per loop pass, which keeps each proof small.
- Spiral.SpiralTraverser.Traverse: yields the whole sequence at once rather than a lazy enumerator. Positions may repeat (the 1x3 example goes right and comes back), so the model proves that every pixel appears at least once, not exactly once.
- HoleHandling.HoleHandler.CreateHole: requires the range to lie inside the grid. For a range that sticks out, the source writes the sentinel into the cells visited in row-major order before the first out-of-grid one, and then throws `IndexOutOfRangeException` (HoleHandler.cs:49-53). A range sticking out on the right is written only in the in-grid prefix of its first row; one whose first cell lies outside the grid (a negative start row or column) is not written at all. That partial write is not captured.
- HoleHandling.HoleHandler.FillHoleInRange: requires the range to lie inside the grid. For a range that sticks out, the source fills the cells visited in row-major order before the first out-of-grid one, and then throws `IndexOutOfRangeException` (HoleHandler.cs:120-122). A range sticking out on the right is filled only in the in-grid prefix of its first row; one whose first cell lies outside the grid (a negative start row or column) is not filled at all. That partial fill is not captured.
- HoleFixing.HoleFixer.FillHoleApproximateConnected: uses the corrected neighbour lookup. A holed pixel in the last row or column is filled from its in-grid neighbours, where the source indexes out of range and throws (see Findings).
- Spiral.SpiralTraverser.constructor: requires a rectangle whose top-left corner is not below or right of its bottom-right corner. The source never builds another.
- Fills.NeighbourValues: inspects the offset table's eight directions in the source's order. The source builds an array and filters it with `Where`.
- HoleFixing.HoleFixer.FillHoleApproximateAverage: the source's `hole = null` only clears a parameter, so it has no effect and is not modelled.
- HoleFixing.HoleFixer.FillHoleWithWeightFunction: requires `PositiveWeights`, every weight positive. The source accepts any weight function; with weights summing to zero it stores NaN, and with negative weights the mean can fall outside the boundary's range. The default weight `1 / (0.0001 + d^5)` is proved positive (`Fills.DefaultWeightFunction`).
- HoleFixing.FillWeightedPixels: requires `PositiveWeights`, for the same reason as `FillHoleWithWeightFunction`.
- HoleFixing.FillPixelWithWeightFunction: requires `PositiveWeights`, for the same reason as `FillHoleWithWeightFunction`.
- HoleHandling.HoleHandler.FillHole: requires `PositiveWeights` of the stored weight function, for the same reason as `FillHoleWithWeightFunction`.
- HoleHandling.HoleHandler.FillHoleInRange: requires `PositiveWeights` of the stored weight function, for the same reason as `FillHoleWithWeightFunction`.

## Findings

| source | as written | input that shows it | evidently intended | confidence | as-written member | corrected member |
|---|---|---|---|---|---|---|
| HoleFIlling/DataObjects/ImageMatrix.cs:60-61 | the guard returns null only when `start.Xi + x > LenX` or `start.Yi + y > LenY`, so index `LenX` (or `LenY`) passes | a pixel in the last row with offset `(1, 0)` reaches row `LenX` and `GetArrayElement` indexes out of range | `>=`, returning null for every position outside the grid | not executed | Grid.DistantGuardAsWrittenOnePastEnd | Grid.GetDistantElement |
| HoleFIlling/HoleFixer.cs:166-179 | the connected fill looks up the eight neighbours of each holed pixel through the `>` guard of `GetDistantElement` | the 4x5 image whose only holed pixel is `(3, 2)`: its boundary `(3, 1), (2, 1), (2, 2), (2, 3), (3, 3)` spans rows 2..3 and columns 1..3, no corner is holed, the spiral reaches `(3, 2)` and offset `(1, 1)` reaches row 4, which is `LenX`, so the fill throws | fill from the in-grid neighbours, skipping positions outside the grid | not executed | TraceExamples.LastRowHoleAsWrittenThrows | HoleFixing.HoleFixer.FillHoleApproximateConnected |
