/**
 * The older all-in-one hole handler: it keeps the traced boundary, the found
 * hole and the weight function as state, can punch a rectangular hole into
 * the image, and fills the hole with the weighted mean, the plain boundary
 * mean or the corner gradient.  Every successful fill forgets the boundary
 * and the hole and marks the image as no longer holed.
 */
module HoleHandling {
  import opened Wrappers
  import opened Grid
  import opened Holes
  import opened MooreTrace
  import opened Fills
  import opened HoleFixing

  // ---------------------------------------------------------------------------
  // Half-open index ranges, scanned row by row

  /** `q` lies in rows `[xs, xe)` and columns `[ys, ye)`. */
  predicate InRange(xs: int, xe: int, ys: int, ye: int, q: Pos)
  {
    xs <= q.row < xe && ys <= q.col < ye
  }

  /** A non-empty range lies inside the grid. */
  predicate RangeInGrid(lenX: int, lenY: int, xs: int, xe: int, ys: int, ye: int)
  {
    xs < xe && ys < ye ==> 0 <= xs && xe <= lenX && 0 <= ys && ye <= lenY
  }

  /** The cells `(i, ys) .. (i, j - 1)`, in the order the inner loop visits them. */
  function RowCells(i: int, ys: int, j: int): (cells: seq<Pos>)
    ensures forall k :: 0 <= k < |cells| ==> cells[k].row == i && ys <= cells[k].col < j
    decreases j - ys
  {
    if j <= ys then [] else RowCells(i, ys, j - 1) + [Pos(i, j - 1)]
  }

  /** The cells of rows `[xs, xe)` and columns `[ys, ye)`, in the order the nested loops visit them. */
  function RangeCells(xs: int, xe: int, ys: int, ye: int): (cells: seq<Pos>)
    ensures forall k :: 0 <= k < |cells| ==> InRange(xs, xe, ys, ye, cells[k])
    decreases xe - xs
  {
    if xe <= xs then [] else RangeCells(xs, xe - 1, ys, ye) + RowCells(xe - 1, ys, ye)
  }

  /** Every cell of the row segment is visited. */
  lemma {:induction false} RowCellsComplete(i: int, ys: int, j: int)
    ensures forall q: Pos :: q.row == i && ys <= q.col < j ==> q in RowCells(i, ys, j)
    decreases j - ys
  {
    if ys < j {
      RowCellsComplete(i, ys, j - 1);
      assert forall q :: q in RowCells(i, ys, j - 1) ==> q in RowCells(i, ys, j);
      assert Pos(i, j - 1) in RowCells(i, ys, j);
    }
  }

  /** Every cell of the range is visited. */
  lemma {:induction false} RangeCellsComplete(xs: int, xe: int, ys: int, ye: int)
    ensures forall q :: InRange(xs, xe, ys, ye, q) ==> q in RangeCells(xs, xe, ys, ye)
    decreases xe - xs
  {
    if xs < xe {
      RangeCellsComplete(xs, xe - 1, ys, ye);
      RowCellsComplete(xe - 1, ys, ye);
      var front, row := RangeCells(xs, xe - 1, ys, ye), RowCells(xe - 1, ys, ye);
      assert forall q :: q in front || q in row ==> q in front + row;
    }
  }

  /**
   * Setting the cells of a range inside the grid to the sentinel holes
   * exactly the range and leaves every other pixel as it was.
   */
  lemma HoleInRange(g: Samples, lenX: nat, lenY: nat, xs: int, xe: int, ys: int, ye: int)
    requires IsGrid(g, lenX, lenY) && RangeInGrid(lenX, lenY, xs, xe, ys, ye)
    ensures AllInGrid(lenX, lenY, RangeCells(xs, xe, ys, ye))
    ensures forall q :: InGrid(lenX, lenY, q) ==>
      At(FillUniform(g, lenX, lenY, RangeCells(xs, xe, ys, ye), Sentinel), q) ==
        if InRange(xs, xe, ys, ye, q) then Sentinel else At(g, q)
  {
    RangeCellsComplete(xs, xe, ys, ye);
    FillUniformValues(g, lenX, lenY, RangeCells(xs, xe, ys, ye), Sentinel);
  }

  /** The row segment is scanned left to right. */
  lemma {:induction false} RowCellsSorted(i: int, ys: int, j: int)
    ensures RowMajorSorted(RowCells(i, ys, j))
    decreases j - ys
  {
    if ys < j {
      RowCellsSorted(i, ys, j - 1);
    }
  }

  /** The range is scanned in row-major order, hence visits no cell twice. */
  lemma {:induction false} RangeCellsSorted(xs: int, xe: int, ys: int, ye: int)
    ensures RowMajorSorted(RangeCells(xs, xe, ys, ye))
    decreases xe - xs
  {
    if xs < xe {
      RangeCellsSorted(xs, xe - 1, ys, ye);
      RowCellsSorted(xe - 1, ys, ye);
      var front, row := RangeCells(xs, xe - 1, ys, ye), RowCells(xe - 1, ys, ye);
      var all := front + row;
      forall a, b | 0 <= a < b < |all|
        ensures Before(all[a], all[b])
      {
        if b < |front| {
          assert all[a] == front[a] && all[b] == front[b];
        } else if a >= |front| {
          assert all[a] == row[a - |front|] && all[b] == row[b - |front|];
        } else {
          assert all[a] == front[a] && all[b] == row[b - |front|];
        }
      }
    }
  }

  /**
   * The cells `cells` of `g` can be filled with the weighted mean of `bs`:
   * they lie in the grid, and when `bs` is empty none of them is holed (a
   * holed pixel would get the mean of no values).
   */
  ghost predicate Fillable(g: Samples, lenX: nat, lenY: nat, bs: seq<Pos>, cells: seq<Pos>)
  {
    IsGrid(g, lenX, lenY) && AllInGrid(lenX, lenY, cells) &&
    (|bs| > 0 || forall k :: 0 <= k < |cells| ==> At(g, cells[k]) != Sentinel)
  }

  /** The boundary as the fills see it: no boundary reads as an empty one. */
  function BoundaryOrEmpty(b: Option<seq<Pos>>): (bs: seq<Pos>)
    ensures b.Some? ==> bs == b.value
    ensures b.None? ==> bs == []
  {
    if b.Some? then b.value else []
  }

  class HoleHandler {
    const image: ImageMatrix
    /** The boundary traced last; `None` before any trace and after a fill. */
    var boundary: Option<seq<Pos>>
    /** The hole found last; `None` before any search and after a fill. */
    var hole: Option<PixelHole>
    var weightFunction: WeightFunction

    /** The stored boundary and hole lie in the image. */
    ghost predicate Valid()
      reads this
    {
      (boundary.Some? ==> AllInGrid(image.LenX(), image.LenY(), boundary.value)) &&
      (hole.Some? ==> AllInGrid(image.LenX(), image.LenY(), hole.value.holePixels)) &&
      (hole.Some? && hole.value.coveringRectangle.Some? ==>
         CornersInGrid(image.LenX(), image.LenY(), hole.value.coveringRectangle.value))
    }

    /** A handler with the default weight function (exponent 5, epsilon 0.0001). */
    constructor (image: ImageMatrix)
      ensures this.image == image && boundary == None && hole == None
      ensures weightFunction == DefaultWeightFunction() && Valid()
    {
      this.image := image;
      boundary := None;
      hole := None;
      weightFunction := DefaultWeightFunction();
    }

    /** A handler with a weight function of the caller's choice. */
    constructor WithWeight(image: ImageMatrix, weight: WeightFunction)
      ensures this.image == image && boundary == None && hole == None
      ensures weightFunction == weight && Valid()
    {
      this.image := image;
      boundary := None;
      hole := None;
      weightFunction := weight;
    }

    /**
     * Traces the boundary with `trace` and stores it; `None` when the image
     * has no hole.  `outOfFuel` reports a trace that did not finish within
     * `fuel` steps; nothing is stored then.
     */
    method FindBoundary(trace: MooreTrace, fuel: nat) returns (b: Option<seq<Pos>>, outOfFuel: bool)
      requires Valid()
      requires forall p :: IsFirstHole(image.Snapshot(), image.LenX(), image.LenY(), p) && p.col == 0 ==>
        NonHoleAfter(image.Snapshot(), image.LenX(), image.LenY(), p)
      modifies this, trace
      ensures Valid() && hole == old(hole) && weightFunction == old(weightFunction)
      ensures outOfFuel ==> b == None && boundary == old(boundary)
      ensures !outOfFuel ==> boundary == b
      ensures !outOfFuel ==> (b == None <==> !HasHole(image.Snapshot(), image.LenX(), image.LenY()))
      ensures b.Some? ==> |b.value| >= 1 && Distinct(b.value)
      ensures b.Some? ==> forall k :: 0 <= k < |b.value| ==>
        image.Contains(b.value[k]) && (k >= 1 ==> At(image.Snapshot(), b.value[k]) != Sentinel)
      ensures b.Some? ==> forall k :: 0 <= k < |b.value| ==>
        NextToHole(image.Snapshot(), image.LenX(), image.LenY(), b.value[k])
      ensures outOfFuel <==> TraceOf(image.Snapshot(), image.LenX(), image.LenY(), fuel).OutOfFuel?
      ensures b.Some? ==> TraceOf(image.Snapshot(), image.LenX(), image.LenY(), fuel) == Traced(b.value)
    {
      var traced, seed := trace.Trace(image, fuel);
      if traced.OutOfFuel? {
        return None, true;
      }
      outOfFuel := false;
      b := if traced.Traced? then Some(traced.boundary) else None;
      boundary := b;
    }

    /**
     * Sets every pixel of rows `[xs, xe)` and columns `[ys, ye)` to the
     * sentinel and marks the image as holed.
     */
    method CreateHole(xs: int, xe: int, ys: int, ye: int)
      requires RangeInGrid(image.LenX(), image.LenY(), xs, xe, ys, ye)
      modifies image, image.cells
      ensures forall q :: image.Contains(q) ==>
        At(image.Snapshot(), q) == if InRange(xs, xe, ys, ye, q) then Sentinel else At(old(image.Snapshot()), q)
      ensures AllInGrid(image.LenX(), image.LenY(), RangeCells(xs, xe, ys, ye))
      ensures image.Snapshot() == FillUniform(old(image.Snapshot()), image.LenX(), image.LenY(),
                                              RangeCells(xs, xe, ys, ye), Sentinel)
      ensures image.IsHoled
    {
      ghost var g0 := image.Snapshot();
      var i := xs;
      while i < xe
        invariant xs <= i && (i <= xe || i == xs)
        invariant forall q :: image.Contains(q) ==>
          At(image.Snapshot(), q) == if InRange(xs, i, ys, ye, q) then Sentinel else At(g0, q)
      {
        var j := ys;
        while j < ye
          invariant ys <= j && (j <= ye || j == ys)
          invariant forall q :: image.Contains(q) ==>
            At(image.Snapshot(), q) ==
              if InRange(xs, i, ys, ye, q) || (q.row == i && ys <= q.col < j) then Sentinel else At(g0, q)
        {
          image.SetValue(Pos(i, j), Sentinel);
          j := j + 1;
        }
        i := i + 1;
      }
      HoleInRange(g0, image.LenX(), image.LenY(), xs, xe, ys, ye);
      ghost var filled := FillUniform(g0, image.LenX(), image.LenY(), RangeCells(xs, xe, ys, ye), Sentinel);
      forall a, b | 0 <= a < image.LenX() && 0 <= b < image.LenY()
        ensures image.Snapshot()[a][b] == filled[a][b]
      {
        assert image.Contains(Pos(a, b));
      }
      GridExtensionality(image.Snapshot(), filled, image.LenX(), image.LenY());
      image.IsHoled := true;
    }

    /**
     * Builds the covering rectangle of the stored boundary and lists the holed
     * pixels inside it, storing both as the hole; without a boundary there is
     * nothing to find and the stored hole stays as it was.
     */
    method FindHole() returns (h: Option<PixelHole>)
      requires Valid()
      requires boundary.Some? ==> image.LenX() >= 1 && image.LenY() >= 1
      modifies this
      ensures Valid() && boundary == old(boundary) && weightFunction == old(weightFunction)
      ensures boundary.None? ==> h == None && hole == old(hole)
      ensures boundary.Some? ==> h == hole && h.Some?
      ensures boundary.Some? ==>
        h.value.coveringRectangle == Some(CoveringRectangleOf(boundary.value, image.LenX(), image.LenY()))
      ensures boundary.Some? ==> IsHoleList(image.Snapshot(), image.LenX(), image.LenY(),
                                            CoveringRectangleOf(boundary.value, image.LenX(), image.LenY()),
                                            h.value.holePixels)
    {
      if boundary.None? {
        return None;
      }
      var rectangle := FindCoveringRectangle(image, boundary.value);
      var pixels := FindHolePixels(image, rectangle);
      hole := Some(PixelHole(pixels, Some(rectangle)));
      h := hole;
    }

    /** Finds the hole when none is stored yet, as each fill does first. */
    method EnsureHole()
      requires Valid() && (hole.Some? || boundary.Some?)
      requires hole.None? ==> image.LenX() >= 1 && image.LenY() >= 1
      modifies this
      ensures Valid() && boundary == old(boundary) && weightFunction == old(weightFunction)
      ensures hole.Some? && (old(hole).Some? ==> hole == old(hole))
      ensures old(hole).None? ==>
        hole.value.coveringRectangle == Some(CoveringRectangleOf(boundary.value, image.LenX(), image.LenY()))
      ensures old(hole).None? ==> IsHoleList(image.Snapshot(), image.LenX(), image.LenY(),
                                             CoveringRectangleOf(boundary.value, image.LenX(), image.LenY()),
                                             hole.value.holePixels)
    {
      if hole.None? {
        var found := FindHole();
      }
    }

    /** Fills pixel `p` with the weighted mean of `bs`, after the cells `done`. */
    method FillNextPixel(ghost g0: Samples, bs: seq<Pos>, ghost done: seq<Pos>, p: Pos)
      requires AllInGrid(image.LenX(), image.LenY(), bs) && image.Contains(p) && PositiveWeights(weightFunction)
      requires Fillable(g0, image.LenX(), image.LenY(), bs, done)
      requires |bs| > 0 || At(g0, p) != Sentinel
      requires image.Snapshot() == FillWeighted(g0, image.LenX(), image.LenY(), bs, done, weightFunction)
      modifies image.cells
      ensures Fillable(g0, image.LenX(), image.LenY(), bs, done + [p])
      ensures image.Snapshot() == FillWeighted(g0, image.LenX(), image.LenY(), bs, done + [p], weightFunction)
    {
      assert forall k :: 0 <= k < |done| ==> (done + [p])[k] == done[k];
      FillWeightedNext(g0, image.LenX(), image.LenY(), bs, done + [p], weightFunction, |done|);
      assert (done + [p])[..|done|] == done;
      assert (done + [p])[..|done| + 1] == done + [p];
      FillPixelWithWeightFunction(image, bs, p, weightFunction);
    }

    /** One pass of the inner loop of the range fill: pixel `(i, j)` after the cells before it. */
    method FillRangePixel(ghost g0: Samples, bs: seq<Pos>, ghost prefix: seq<Pos>, i: int, ys: int, j: int)
      returns (next: int)
      requires AllInGrid(image.LenX(), image.LenY(), bs)
      requires image.Contains(Pos(i, j)) && PositiveWeights(weightFunction) && ys <= j
      requires Fillable(g0, image.LenX(), image.LenY(), bs, prefix + RowCells(i, ys, j))
      requires |bs| > 0 || At(g0, Pos(i, j)) != Sentinel
      requires image.Snapshot() == FillWeighted(g0, image.LenX(), image.LenY(), bs, prefix + RowCells(i, ys, j), weightFunction)
      modifies image.cells
      ensures next == j + 1
      ensures Fillable(g0, image.LenX(), image.LenY(), bs, prefix + RowCells(i, ys, next))
      ensures image.Snapshot() ==
        FillWeighted(g0, image.LenX(), image.LenY(), bs, prefix + RowCells(i, ys, next), weightFunction)
    {
      FillNextPixel(g0, bs, prefix + RowCells(i, ys, j), Pos(i, j));
      next := j + 1;
      assert RowCells(i, ys, next) == RowCells(i, ys, j) + [Pos(i, j)];
      assert prefix + RowCells(i, ys, next) == prefix + RowCells(i, ys, j) + [Pos(i, j)];
    }

    /** The inner loop of the range fill: row `i`, columns `[ys, ye)`, with the weighted mean of `bs`. */
    method FillRowWithWeightFunction(ghost g0: Samples, bs: seq<Pos>, ghost prefix: seq<Pos>, i: int, ys: int, ye: int)
      requires IsGrid(g0, image.LenX(), image.LenY()) && AllInGrid(image.LenX(), image.LenY(), bs)
      requires PositiveWeights(weightFunction)
      requires ys < ye ==> 0 <= i < image.LenX() && 0 <= ys && ye <= image.LenY()
      requires Fillable(g0, image.LenX(), image.LenY(), bs, prefix)
      requires |bs| == 0 ==> forall j :: ys <= j < ye ==> At(g0, Pos(i, j)) != Sentinel
      requires image.Snapshot() == FillWeighted(g0, image.LenX(), image.LenY(), bs, prefix, weightFunction)
      modifies image.cells
      ensures Fillable(g0, image.LenX(), image.LenY(), bs, prefix + RowCells(i, ys, ye))
      ensures image.Snapshot() ==
        FillWeighted(g0, image.LenX(), image.LenY(), bs, prefix + RowCells(i, ys, ye), weightFunction)
    {
      var j := ys;
      assert prefix + RowCells(i, ys, j) == prefix;
      while j < ye
        invariant ys <= j && (j <= ye || j == ys)
        invariant Fillable(g0, image.LenX(), image.LenY(), bs, prefix + RowCells(i, ys, j))
        invariant image.Snapshot() ==
          FillWeighted(g0, image.LenX(), image.LenY(), bs, prefix + RowCells(i, ys, j), weightFunction)
      {
        j := FillRangePixel(g0, bs, prefix, i, ys, j);
      }
      assert RowCells(i, ys, j) == RowCells(i, ys, ye);
    }

    /** One pass of the outer loop of the range fill: row `i` after rows `[xs, i)`. */
    method FillRangeRow(ghost g0: Samples, bs: seq<Pos>, xs: int, xe: int, ys: int, ye: int, i: int) returns (next: int)
      requires IsGrid(g0, image.LenX(), image.LenY()) && AllInGrid(image.LenX(), image.LenY(), bs)
      requires PositiveWeights(weightFunction) && RangeInGrid(image.LenX(), image.LenY(), xs, xe, ys, ye)
      requires xs <= i < xe
      requires |bs| == 0 ==>
        forall q :: InGrid(image.LenX(), image.LenY(), q) && InRange(xs, xe, ys, ye, q) ==> At(g0, q) != Sentinel
      requires Fillable(g0, image.LenX(), image.LenY(), bs, RangeCells(xs, i, ys, ye))
      requires image.Snapshot() == FillWeighted(g0, image.LenX(), image.LenY(), bs, RangeCells(xs, i, ys, ye), weightFunction)
      modifies image.cells
      ensures next == i + 1
      ensures Fillable(g0, image.LenX(), image.LenY(), bs, RangeCells(xs, next, ys, ye))
      ensures image.Snapshot() == FillWeighted(g0, image.LenX(), image.LenY(), bs, RangeCells(xs, next, ys, ye), weightFunction)
    {
      if |bs| == 0 {
        assert forall j :: ys <= j < ye ==> InGrid(image.LenX(), image.LenY(), Pos(i, j)) && InRange(xs, xe, ys, ye, Pos(i, j));
      }
      FillRowWithWeightFunction(g0, bs, RangeCells(xs, i, ys, ye), i, ys, ye);
      next := i + 1;
      assert RangeCells(xs, next, ys, ye) == RangeCells(xs, i, ys, ye) + RowCells(i, ys, ye);
    }

    /**
     * The nested loops of the range fill: every pixel of rows `[xs, xe)` and
     * columns `[ys, ye)`, row by row, gets the weighted mean of `bs`.
     */
    method FillRangeWithWeightFunction(bs: seq<Pos>, xs: int, xe: int, ys: int, ye: int)
      requires AllInGrid(image.LenX(), image.LenY(), bs) && PositiveWeights(weightFunction)
      requires RangeInGrid(image.LenX(), image.LenY(), xs, xe, ys, ye)
      requires |bs| == 0 ==>
        forall q :: image.Contains(q) && InRange(xs, xe, ys, ye, q) ==> At(image.Snapshot(), q) != Sentinel
      modifies image.cells
      ensures Fillable(old(image.Snapshot()), image.LenX(), image.LenY(), bs, RangeCells(xs, xe, ys, ye))
      ensures image.Snapshot() == FillWeighted(old(image.Snapshot()), image.LenX(), image.LenY(), bs,
                                               RangeCells(xs, xe, ys, ye), weightFunction)
    {
      ghost var g0 := image.Snapshot();
      var i := xs;
      while i < xe
        invariant xs <= i && (i <= xe || i == xs)
        invariant Fillable(g0, image.LenX(), image.LenY(), bs, RangeCells(xs, i, ys, ye))
        invariant image.Snapshot() == FillWeighted(g0, image.LenX(), image.LenY(), bs, RangeCells(xs, i, ys, ye), weightFunction)
      {
        i := FillRangeRow(g0, bs, xs, xe, ys, ye, i);
      }
      assert RangeCells(xs, i, ys, ye) == RangeCells(xs, xe, ys, ye);
    }

    /**
     * Fills rows `[xs, xe)` and columns `[ys, ye)` pixel by pixel with the
     * weighted mean of the stored boundary (pixels that are not holed keep
     * their value), then forgets the boundary and the hole.
     */
    method FillHoleInRange(xs: int, xe: int, ys: int, ye: int)
      requires Valid() && PositiveWeights(weightFunction)
      requires RangeInGrid(image.LenX(), image.LenY(), xs, xe, ys, ye)
      requires (boundary.None? || |boundary.value| == 0) ==>
        forall q :: image.Contains(q) && InRange(xs, xe, ys, ye, q) ==> At(image.Snapshot(), q) != Sentinel
      modifies this, image, image.cells
      ensures weightFunction == old(weightFunction) && Valid()
      ensures Fillable(old(image.Snapshot()), image.LenX(), image.LenY(), BoundaryOrEmpty(old(boundary)),
                       RangeCells(xs, xe, ys, ye))
      ensures image.Snapshot() == FillWeighted(old(image.Snapshot()), image.LenX(), image.LenY(),
                                               BoundaryOrEmpty(old(boundary)), RangeCells(xs, xe, ys, ye),
                                               weightFunction)
      ensures boundary == None && hole == None && !image.IsHoled
    {
      FillRangeWithWeightFunction(BoundaryOrEmpty(boundary), xs, xe, ys, ye);
      boundary := None;
      hole := None;
      image.IsHoled := false;
    }

    /**
     * Fills the stored hole, finding it first when there is none, with the
     * weighted mean of the stored boundary, then forgets the boundary and the
     * hole.  `pixels` are the pixels visited.
     */
    method FillHole() returns (ghost pixels: seq<Pos>)
      requires Valid() && PositiveWeights(weightFunction)
      requires hole.Some? || boundary.Some?
      requires hole.None? ==> image.LenX() >= 1 && image.LenY() >= 1
      requires (boundary.None? || |boundary.value| == 0) && hole.Some? ==>
        forall k :: 0 <= k < |hole.value.holePixels| ==> At(image.Snapshot(), hole.value.holePixels[k]) != Sentinel
      requires (boundary.None? || |boundary.value| == 0) && hole.None? ==>
        forall q :: image.Contains(q) && InRect(CoveringRectangleOf(boundary.value, image.LenX(), image.LenY()), q) ==>
          At(image.Snapshot(), q) != Sentinel
      modifies this, image, image.cells
      ensures weightFunction == old(weightFunction) && Valid()
      ensures old(hole).Some? ==> pixels == old(hole).value.holePixels
      ensures old(hole).None? ==> IsHoleList(old(image.Snapshot()), image.LenX(), image.LenY(),
                                             CoveringRectangleOf(old(boundary).value, image.LenX(), image.LenY()), pixels)
      ensures AllInGrid(image.LenX(), image.LenY(), pixels)
      ensures |BoundaryOrEmpty(old(boundary))| > 0 ||
        forall k :: 0 <= k < |pixels| ==> At(old(image.Snapshot()), pixels[k]) != Sentinel
      ensures image.Snapshot() == FillWeighted(old(image.Snapshot()), image.LenX(), image.LenY(),
                                               BoundaryOrEmpty(old(boundary)), pixels, weightFunction)
      ensures boundary == None && hole == None && !image.IsHoled
    {
      ghost var g0 := image.Snapshot();
      EnsureHole();
      var ps := hole.value.holePixels;
      pixels := ps;
      var bs := BoundaryOrEmpty(boundary);
      if |bs| == 0 {
        forall k | 0 <= k < |ps|
          ensures At(g0, ps[k]) != Sentinel
        {
          if old(hole).None? {
            assert image.Contains(ps[k]);
          }
        }
      }
      FillWeightedPixels(image, bs, ps, weightFunction);
      boundary := None;
      hole := None;
      image.IsHoled := false;
    }

    /**
     * Fills the stored hole, finding it first when there is none, with the
     * plain mean of the stored boundary, then forgets the boundary and the
     * hole.  An empty boundary leaves the image as it is: there is then
     * nothing to fill.
     */
    method FillHoleApproximate() returns (ghost pixels: seq<Pos>)
      requires Valid() && boundary.Some?
      requires hole.None? ==> image.LenX() >= 1 && image.LenY() >= 1
      requires |boundary.value| == 0 && hole.Some? ==> |hole.value.holePixels| == 0
      requires |boundary.value| == 0 && hole.None? ==>
        forall q :: image.Contains(q) && InRect(CoveringRectangleOf(boundary.value, image.LenX(), image.LenY()), q) ==>
          At(image.Snapshot(), q) != Sentinel
      modifies this, image, image.cells
      ensures weightFunction == old(weightFunction) && Valid()
      ensures old(hole).Some? ==> pixels == old(hole).value.holePixels
      ensures old(hole).None? ==> IsHoleList(old(image.Snapshot()), image.LenX(), image.LenY(),
                                             CoveringRectangleOf(old(boundary).value, image.LenX(), image.LenY()), pixels)
      ensures AllInGrid(image.LenX(), image.LenY(), pixels)
      ensures |old(boundary).value| > 0 ==>
        var g := old(image.Snapshot());
        image.Snapshot() == FillUniform(g, image.LenX(), image.LenY(), pixels,
                                        BoundaryMean(g, image.LenX(), image.LenY(), old(boundary).value))
      ensures |old(boundary).value| == 0 ==> image.Snapshot() == old(image.Snapshot())
      ensures boundary == None && hole == None && !image.IsHoled
    {
      ghost var g0 := image.Snapshot();
      var bs := boundary.value;
      var sum := BoundarySum(image, bs);
      // An empty boundary gives a mean of 0/0, which is never stored: there
      // are no pixels to fill then.
      var avg := 0.0;
      if |bs| > 0 {
        avg := sum / |bs| as real;
      }
      EnsureHole();
      var ps := hole.value.holePixels;
      pixels := ps;
      FillUniformPixels(image, ps, avg);
      boundary := None;
      hole := None;
      image.IsHoled := false;
    }

    /**
     * The gradient fill of the stored hole: fails, changing nothing, when a
     * corner of its covering rectangle is holed; otherwise fills its pixels
     * and forgets the boundary and the hole.
     */
    method FillStoredHoleWithGradient() returns (o: Outcome)
      requires Valid() && hole.Some? && hole.value.coveringRectangle.Some?
      requires (|hole.value.holePixels| > 0 &&
                !CornerHoled(image.Snapshot(), image.LenX(), image.LenY(), hole.value.coveringRectangle.value)) ==>
        Spans(hole.value.coveringRectangle.value)
      modifies this, image, image.cells
      ensures weightFunction == old(weightFunction) && Valid()
      ensures var r := old(hole).value.coveringRectangle.value;
        o.Fail? <==> CornerHoled(old(image.Snapshot()), image.LenX(), image.LenY(), r)
      ensures o.Fail? ==> image.Snapshot() == old(image.Snapshot()) && image.IsHoled == old(image.IsHoled)
      ensures o.Fail? ==> boundary == old(boundary) && hole == old(hole)
      ensures o.Pass? ==> var r := old(hole).value.coveringRectangle.value;
        (|old(hole).value.holePixels| > 0 ==> Spans(r)) &&
        image.Snapshot() == FillGradient(old(image.Snapshot()), image.LenX(), image.LenY(), r, old(hole).value.holePixels)
      ensures o.Pass? ==> boundary == None && hole == None && !image.IsHoled
    {
      var r := hole.value.coveringRectangle.value;
      var ps := hole.value.holePixels;
      var holed := CornerCheck(image, r);
      if holed {
        return Fail(TouchesEdge);
      }
      FillGradientPixels(image, r, ps);
      boundary := None;
      hole := None;
      image.IsHoled := false;
      o := Pass;
    }

    /**
     * Fills the stored hole, finding it first when there is none, with the
     * clamped gradient between the corners of its covering rectangle, then
     * forgets the boundary and the hole.  Fails when a corner is holed; the
     * image, the boundary and the hole just found are kept then.
     */
    method FillHoleBetterApproximate() returns (o: Outcome, ghost pixels: seq<Pos>, ghost rect: Rectangle)
      requires Valid()
      requires hole.Some? || boundary.Some?
      requires hole.None? ==> image.LenX() >= 1 && image.LenY() >= 1
      requires hole.Some? ==> hole.value.coveringRectangle.Some?
      requires hole.Some? ==>
        (|hole.value.holePixels| > 0 &&
         !CornerHoled(image.Snapshot(), image.LenX(), image.LenY(), hole.value.coveringRectangle.value)) ==>
        Spans(hole.value.coveringRectangle.value)
      requires hole.None? ==>
        var r := CoveringRectangleOf(boundary.value, image.LenX(), image.LenY());
        (CornersInGrid(image.LenX(), image.LenY(), r) &&
         (exists q :: image.Contains(q) && InRect(r, q) && At(image.Snapshot(), q) == Sentinel) &&
         !CornerHoled(image.Snapshot(), image.LenX(), image.LenY(), r)) ==>
        Spans(r)
      modifies this, image, image.cells
      ensures weightFunction == old(weightFunction) && Valid()
      ensures old(hole).Some? ==> pixels == old(hole).value.holePixels && rect == old(hole).value.coveringRectangle.value
      ensures old(hole).None? ==> rect == CoveringRectangleOf(old(boundary).value, image.LenX(), image.LenY())
      ensures old(hole).None? ==> IsHoleList(old(image.Snapshot()), image.LenX(), image.LenY(), rect, pixels)
      ensures CornersInGrid(image.LenX(), image.LenY(), rect) && AllInGrid(image.LenX(), image.LenY(), pixels)
      ensures o.Fail? <==> CornerHoled(old(image.Snapshot()), image.LenX(), image.LenY(), rect)
      ensures o.Fail? ==> image.Snapshot() == old(image.Snapshot()) && image.IsHoled == old(image.IsHoled)
      ensures o.Fail? ==> boundary == old(boundary) && hole == Some(PixelHole(pixels, Some(rect)))
      ensures o.Pass? ==> |pixels| > 0 ==> Spans(rect)
      ensures o.Pass? ==> image.Snapshot() == FillGradient(old(image.Snapshot()), image.LenX(), image.LenY(), rect, pixels)
      ensures o.Pass? ==> boundary == None && hole == None && !image.IsHoled
    {
      ghost var g0 := image.Snapshot();
      EnsureHole();
      pixels, rect := hole.value.holePixels, hole.value.coveringRectangle.value;
      assert |pixels| > 0 && !CornerHoled(g0, image.LenX(), image.LenY(), rect) ==> Spans(rect) by {
        if |pixels| > 0 && old(hole).None? {
          assert image.Contains(pixels[0]) && InRect(rect, pixels[0]) && At(g0, pixels[0]) == Sentinel;
        }
      }
      o := FillStoredHoleWithGradient();
    }
  }

  /**
   * A hole list found inside a rectangle whose corners are not holed never
   * contains a corner, so the gradient fill gives each of its pixels the
   * gradient of the original corner samples.
   */
  lemma FoundHoleGradient(g: Samples, lenX: nat, lenY: nat, r: Rectangle, pixels: seq<Pos>)
    requires IsGrid(g, lenX, lenY) && CornersInGrid(lenX, lenY, r)
    requires IsHoleList(g, lenX, lenY, r, pixels) && !CornerHoled(g, lenX, lenY, r)
    requires |pixels| > 0 ==> Spans(r)
    ensures forall q :: q in pixels ==> At(FillGradient(g, lenX, lenY, r, pixels), q) == GradientValue(g, lenX, lenY, r, q)
  {
    assert r.topLeft !in pixels && r.bottomRight !in pixels && r.topRight !in pixels && r.bottomLeft !in pixels;
    FillGradientValues(g, lenX, lenY, r, pixels);
  }
}
