/**
 * The fill strategies applied to a found hole, in place on the image: a
 * weighted mean of the boundary, the plain boundary mean, a gradient between
 * the corners of the covering rectangle, and a spiral walk averaging the
 * non-holed neighbours.  The per-pixel loops are shared with the hole
 * handler, which repeats them.
 */
module HoleFixing {
  import opened Wrappers
  import opened Grid
  import opened Holes
  import opened DistanceMeasures
  import opened Means
  import opened Fills
  import opened Spiral

  /** The message of the better approximations when a corner of the covering rectangle is holed. */
  const TouchesEdge: string := "Better-Approximation does not work if the hole touches the edges of the image."

  // ---------------------------------------------------------------------------
  // Weighted fill

  /** The numerator `sum(w * v)` and denominator `sum(w)` of the weighted mean at `p`. */
  method WeightedSums(img: ImageMatrix, bs: seq<Pos>, p: Pos, weight: WeightFunction)
    returns (numerator: real, denominator: real)
    requires AllInGrid(img.LenX(), img.LenY(), bs)
    ensures numerator == Dot(Weights(bs, p, weight), Values(img.Snapshot(), img.LenX(), img.LenY(), bs))
    ensures denominator == Sum(Weights(bs, p, weight))
  {
    ghost var ws, vs := Weights(bs, p, weight), Values(img.Snapshot(), img.LenX(), img.LenY(), bs);
    numerator, denominator := 0.0, 0.0;
    var k := 0;
    while k < |bs|
      invariant 0 <= k <= |bs|
      invariant numerator == Dot(ws[..k], vs[..k]) && denominator == Sum(ws[..k])
    {
      var w := weight(bs[k], p);
      var v := img.GetArrayElement(bs[k].row, bs[k].col);
      DotNext(ws, vs, k);
      SumNext(ws, k);
      numerator := numerator + w * v;
      denominator := denominator + w;
      k := k + 1;
    }
    assert ws[..k] == ws && vs[..k] == vs;
  }

  /**
   * A holed `p` gets `sum(w * v) / sum(w)` over the boundary `bs`; any other
   * pixel is left alone.
   */
  method FillPixelWithWeightFunction(img: ImageMatrix, bs: seq<Pos>, p: Pos, weight: WeightFunction)
    requires AllInGrid(img.LenX(), img.LenY(), bs) && img.Contains(p)
    requires PositiveWeights(weight)
    requires |bs| > 0 || At(img.Snapshot(), p) != Sentinel
    modifies img.cells
    ensures var g := old(img.Snapshot());
      img.Snapshot() ==
        if At(g, p) != Sentinel then g
        else Set(g, p, PixelWeighted(g, img.LenX(), img.LenY(), bs, p, weight))
  {
    var value := img.GetArrayElement(p.row, p.col);
    if value != Sentinel {
      return;
    }
    var numerator, denominator := WeightedSums(img, bs, p, weight);
    SumPositive(Weights(bs, p, weight));
    img.SetValue(p, numerator / denominator);
  }

  /** The weighted fill loop over `pixels`, in order. */
  method FillWeightedPixels(img: ImageMatrix, bs: seq<Pos>, pixels: seq<Pos>, weight: WeightFunction)
    requires AllInGrid(img.LenX(), img.LenY(), bs) && AllInGrid(img.LenX(), img.LenY(), pixels)
    requires PositiveWeights(weight)
    requires |bs| > 0 || forall k :: 0 <= k < |pixels| ==> At(img.Snapshot(), pixels[k]) != Sentinel
    modifies img.cells
    ensures img.Snapshot() == FillWeighted(old(img.Snapshot()), img.LenX(), img.LenY(), bs, pixels, weight)
  {
    ghost var g0 := img.Snapshot();
    var i := 0;
    while i < |pixels|
      invariant 0 <= i <= |pixels|
      invariant img.Snapshot() == FillWeighted(g0, img.LenX(), img.LenY(), bs, pixels[..i], weight)
    {
      FillWeightedNext(g0, img.LenX(), img.LenY(), bs, pixels, weight, i);
      FillPixelWithWeightFunction(img, bs, pixels[i], weight);
      i := i + 1;
    }
    assert pixels[..i] == pixels;
  }

  // ---------------------------------------------------------------------------
  // Average fill

  /** The sum of the boundary samples. */
  method BoundarySum(img: ImageMatrix, bs: seq<Pos>) returns (sum: real)
    requires AllInGrid(img.LenX(), img.LenY(), bs)
    ensures sum == Sum(Values(img.Snapshot(), img.LenX(), img.LenY(), bs))
  {
    ghost var vs := Values(img.Snapshot(), img.LenX(), img.LenY(), bs);
    sum := 0.0;
    var k := 0;
    while k < |bs|
      invariant 0 <= k <= |bs| && sum == Sum(vs[..k])
    {
      var v := img.GetArrayElement(bs[k].row, bs[k].col);
      SumNext(vs, k);
      sum := sum + v;
      k := k + 1;
    }
    assert vs[..k] == vs;
  }

  /** Sets every position of `pixels` to `v`. */
  method FillUniformPixels(img: ImageMatrix, pixels: seq<Pos>, v: real)
    requires AllInGrid(img.LenX(), img.LenY(), pixels)
    modifies img.cells
    ensures img.Snapshot() == FillUniform(old(img.Snapshot()), img.LenX(), img.LenY(), pixels, v)
  {
    ghost var g0 := img.Snapshot();
    var i := 0;
    while i < |pixels|
      invariant 0 <= i <= |pixels|
      invariant img.Snapshot() == FillUniform(g0, img.LenX(), img.LenY(), pixels[..i], v)
    {
      FillUniformNext(g0, img.LenX(), img.LenY(), pixels, v, i);
      img.SetValue(pixels[i], v);
      i := i + 1;
    }
    assert pixels[..i] == pixels;
  }

  // ---------------------------------------------------------------------------
  // Gradient fill

  /**
   * The gradient value at `pix`: measured from the top-left corner when
   * `pix` is at least as close to it as to the bottom-right one (in
   * Chebyshev distance), from the bottom-right corner otherwise, and
   * clamped to `[0, 1]`.
   */
  method GradientPixel(img: ImageMatrix, r: Rectangle, pix: Pos) returns (pixValue: real)
    requires CornersInGrid(img.LenX(), img.LenY(), r) && Spans(r) && img.Contains(pix)
    ensures pixValue == GradientValue(img.Snapshot(), img.LenX(), img.LenY(), r, pix)
  {
    var horizontalDistance := r.bottomRight.col - r.topLeft.col;
    var verticalDistance := r.bottomRight.row - r.topLeft.row;
    var distanceToStart := ChebyshevDistance(pix, r.topLeft);
    var distanceToEnd := ChebyshevDistance(pix, r.bottomRight);
    var topLeft := img.GetArrayElement(r.topLeft.row, r.topLeft.col);
    var bottomRight := img.GetArrayElement(r.bottomRight.row, r.bottomRight.col);
    var topRight := img.GetArrayElement(r.topRight.row, r.topRight.col);
    var bottomLeft := img.GetArrayElement(r.bottomLeft.row, r.bottomLeft.col);

    if distanceToStart <= distanceToEnd {
      var valueY := Share(topRight - topLeft, pix.col - r.topLeft.col, horizontalDistance);
      var valueX := Share(bottomLeft - topLeft, pix.row - r.topLeft.row, verticalDistance);
      pixValue := topLeft + valueX + valueY;
    } else {
      var valueY := Share(bottomLeft - bottomRight, r.bottomRight.col - pix.col, horizontalDistance);
      var valueX := Share(topRight - bottomRight, r.bottomRight.row - pix.row, verticalDistance);
      pixValue := bottomRight + valueX + valueY;
    }

    if pixValue > 1.0 {
      pixValue := 1.0;
    } else if pixValue < 0.0 {
      pixValue := 0.0;
    }
  }

  /** The gradient loop: each listed pixel in turn gets its clamped gradient value. */
  method FillGradientPixels(img: ImageMatrix, r: Rectangle, pixels: seq<Pos>)
    requires AllInGrid(img.LenX(), img.LenY(), pixels)
    requires CornersInGrid(img.LenX(), img.LenY(), r)
    requires |pixels| > 0 ==> Spans(r)
    modifies img.cells
    ensures img.Snapshot() == FillGradient(old(img.Snapshot()), img.LenX(), img.LenY(), r, pixels)
  {
    ghost var g0 := img.Snapshot();
    var i := 0;
    while i < |pixels|
      invariant 0 <= i <= |pixels|
      invariant img.Snapshot() == FillGradient(g0, img.LenX(), img.LenY(), r, pixels[..i])
    {
      FillGradientNext(g0, img.LenX(), img.LenY(), r, pixels, i);
      var pixValue := GradientPixel(img, r, pixels[i]);
      img.SetValue(pixels[i], pixValue);
      i := i + 1;
    }
    assert pixels[..i] == pixels;
  }

  /** Whether a corner of `r` is holed, read corner by corner as the better approximations do. */
  method CornerCheck(img: ImageMatrix, r: Rectangle) returns (holed: bool)
    requires CornersInGrid(img.LenX(), img.LenY(), r)
    ensures holed <==> CornerHoled(img.Snapshot(), img.LenX(), img.LenY(), r)
  {
    holed := img.GetArrayElement(r.topRight.row, r.topRight.col) == Sentinel
      || img.GetArrayElement(r.bottomLeft.row, r.bottomLeft.col) == Sentinel
      || img.GetArrayElement(r.topLeft.row, r.topLeft.col) == Sentinel
      || img.GetArrayElement(r.bottomRight.row, r.bottomRight.col) == Sentinel;
  }

  // ---------------------------------------------------------------------------
  // Connected fill

  /**
   * The walk the spiral traversal of rectangle `r` produces: exactly the
   * positions `SpiralOf` lists, which visit every pixel of `r` at least once,
   * start at the top-left corner, move by unit steps and stay inside `r`
   * (and so inside the grid).
   */
  ghost predicate SpiralWalk(lenX: int, lenY: int, r: Rectangle, order: seq<Pos>)
  {
    r.topLeft.row <= r.bottomRight.row && r.topLeft.col <= r.bottomRight.col &&
    order == SpiralOf(r.topLeft.row, r.bottomRight.row, r.topLeft.col, r.bottomRight.col) &&
    |order| >= (r.bottomRight.col - r.topLeft.col + 1) * (r.bottomRight.row - r.topLeft.row + 1) &&
    (forall p :: InRect(r, p) ==> p in order) &&
    |order| > 0 && order[0] == r.topLeft && Chain(order) &&
    (forall k :: 0 <= k < |order| ==> InRect(r, order[k])) &&
    AllInGrid(lenX, lenY, order)
  }

  /** The sum and the number of the non-holed samples among the eight neighbours of `pix`. */
  method NeighbourSum(img: ImageMatrix, pix: Pos) returns (sum: real, count: nat)
    ensures var vs := NeighbourValues(img.Snapshot(), img.LenX(), img.LenY(), pix, 8);
      sum == Sum(vs) && count == |vs|
  {
    ghost var g := img.Snapshot();
    var lenX, lenY := img.LenX(), img.LenY();
    sum, count := 0.0, 0;
    var d := 0;
    while d < 8
      invariant 0 <= d <= 8
      invariant sum == Sum(NeighbourValues(g, lenX, lenY, pix, d))
      invariant count == |NeighbourValues(g, lenX, lenY, pix, d)|
    {
      ghost var before := NeighbourValues(g, lenX, lenY, pix, d);
      var offset := Offset(d);
      var neighbour := GetDistantElement(lenX, lenY, pix, offset.row, offset.col);
      if neighbour.Some? {
        var v := img.GetArrayElement(neighbour.value.row, neighbour.value.col);
        if v != Sentinel {
          assert NeighbourValues(g, lenX, lenY, pix, d + 1) == before + [v];
          SumAppend(before, v);
          sum := sum + v;
          count := count + 1;
        } else {
          assert NeighbourValues(g, lenX, lenY, pix, d + 1) == before;
        }
      } else {
        assert NeighbourValues(g, lenX, lenY, pix, d + 1) == before;
      }
      d := d + 1;
    }
  }

  /** One step of the spiral fill: a holed `order[i]` gets the mean of its non-holed neighbours. */
  method ConnectedPixel(img: ImageMatrix, ghost g0: Samples, order: seq<Pos>, i: nat)
    requires IsGrid(g0, img.LenX(), img.LenY()) && Normalized(g0)
    requires AllInGrid(img.LenX(), img.LenY(), order) && Chain(order)
    requires i < |order| && At(g0, order[0]) != Sentinel
    requires img.Snapshot() == FillConnected(g0, img.LenX(), img.LenY(), order[..i])
    modifies img.cells
    ensures img.Snapshot() == FillConnected(g0, img.LenX(), img.LenY(), order[..i + 1])
  {
    var pix := order[i];
    var value := img.GetArrayElement(pix.row, pix.col);
    if i == 0 {
      assert order[..1] == [pix];
      return;
    }
    FillConnectedNext(g0, img.LenX(), img.LenY(), order, i);
    if value == Sentinel {
      NeighbourFound(img.Snapshot(), img.LenX(), img.LenY(), pix, order[i - 1]);
      var sum, count := NeighbourSum(img, pix);
      img.SetValue(pix, sum / count as real);
    }
  }

  /** The spiral loop: each position of the walk in turn, holed ones getting their neighbour mean. */
  method FillConnectedPixels(img: ImageMatrix, order: seq<Pos>)
    requires Normalized(img.Snapshot())
    requires AllInGrid(img.LenX(), img.LenY(), order) && Chain(order)
    requires |order| > 0 ==> At(img.Snapshot(), order[0]) != Sentinel
    modifies img.cells
    ensures img.Snapshot() == FillConnected(old(img.Snapshot()), img.LenX(), img.LenY(), order)
  {
    ghost var g0 := img.Snapshot();
    var i := 0;
    while i < |order|
      invariant 0 <= i <= |order|
      invariant img.Snapshot() == FillConnected(g0, img.LenX(), img.LenY(), order[..i])
    {
      ConnectedPixel(img, g0, order, i);
      i := i + 1;
    }
    assert order[..i] == order;
  }

  /** The spiral order of the pixels of `r`, as a fresh traverser produces it. */
  method SpiralOrder(lenX: nat, lenY: nat, r: Rectangle) returns (positions: seq<Pos>)
    requires CornersInGrid(lenX, lenY, r)
    requires r.topLeft.row <= r.bottomRight.row && r.topLeft.col <= r.bottomRight.col
    ensures SpiralWalk(lenX, lenY, r, positions)
  {
    var spiralTraverser := new SpiralTraverser(r);
    positions := spiralTraverser.Traverse();
    assert positions[0] == r.topLeft;
    assert forall k :: 0 <= k < |positions| ==> InRect(r, positions[k]) by {
      forall k | 0 <= k < |positions|
        ensures InRect(r, positions[k])
      {
        assert InBox(positions[k], r.topLeft.row, r.bottomRight.row, r.topLeft.col, r.bottomRight.col);
      }
    }
    forall p | InRect(r, p)
      ensures p in positions
    {
      SpiralCovers(r.topLeft.row, r.bottomRight.row, r.topLeft.col, r.bottomRight.col, p);
    }
  }

  /** Fills along the spiral walk of `r`, which starts on the non-holed top-left corner. */
  method FillAlongSpiral(img: ImageMatrix, r: Rectangle) returns (ghost order: seq<Pos>)
    requires CornersInGrid(img.LenX(), img.LenY(), r)
    requires r.topLeft.row <= r.bottomRight.row && r.topLeft.col <= r.bottomRight.col
    requires Normalized(img.Snapshot()) && At(img.Snapshot(), r.topLeft) != Sentinel
    modifies img.cells
    ensures SpiralWalk(img.LenX(), img.LenY(), r, order)
    ensures img.Snapshot() == FillConnected(old(img.Snapshot()), img.LenX(), img.LenY(), order)
  {
    var positions := SpiralOrder(img.LenX(), img.LenY(), r);
    order := positions;
    FillConnectedPixels(img, positions);
  }

  /**
   * The neighbour lookup of the connected fill with the distant-element guard
   * as written: some direction of the table passes that guard although its
   * neighbour lies outside the grid, so the array access behind it is out of
   * range and the fill throws.
   */
  ghost predicate LookupThrowsAsWritten(lenX: int, lenY: int, p: Pos)
  {
    exists d :: 0 <= d < 8 && DistantGuardAsWritten(lenX, lenY, p, Offset(d).row, Offset(d).col) &&
      !InGrid(lenX, lenY, Step(p, d))
  }

  /** As written, the lookup around a pixel throws exactly when the pixel is in the last row or column. */
  lemma LookupAsWrittenThrowsAtFarEdge(lenX: int, lenY: int, p: Pos)
    requires InGrid(lenX, lenY, p)
    ensures LookupThrowsAsWritten(lenX, lenY, p) <==> p.row == lenX - 1 || p.col == lenY - 1
  {
    if p.row == lenX - 1 {
      assert DistantGuardAsWritten(lenX, lenY, p, Offset(6).row, Offset(6).col) && !InGrid(lenX, lenY, Step(p, 6));
    } else if p.col == lenY - 1 {
      assert DistantGuardAsWritten(lenX, lenY, p, Offset(4).row, Offset(4).col) && !InGrid(lenX, lenY, Step(p, 4));
    } else {
      forall d | 0 <= d < 8 && DistantGuardAsWritten(lenX, lenY, p, Offset(d).row, Offset(d).col)
        ensures InGrid(lenX, lenY, Step(p, d))
      {
      }
    }
  }

  // ---------------------------------------------------------------------------

  class HoleFixer {
    const image: ImageMatrix

    constructor (image: ImageMatrix)
      ensures this.image == image
    {
      this.image := image;
    }

    /**
     * Fills the hole with the weighted mean of the boundary, pixel by pixel,
     * and marks the image as no longer holed.
     */
    method FillHoleWithWeightFunction(hole: Hole, weight: WeightFunction)
      requires AllInGrid(image.LenX(), image.LenY(), hole.boundary)
      requires AllInGrid(image.LenX(), image.LenY(), hole.holePixels)
      requires PositiveWeights(weight)
      requires |hole.boundary| > 0 ||
        forall k :: 0 <= k < |hole.holePixels| ==> At(image.Snapshot(), hole.holePixels[k]) != Sentinel
      modifies image, image.cells
      ensures image.Snapshot() ==
        FillWeighted(old(image.Snapshot()), image.LenX(), image.LenY(), hole.boundary, hole.holePixels, weight)
      ensures !image.IsHoled
    {
      FillWeightedPixels(image, hole.boundary, hole.holePixels, weight);
      image.IsHoled := false;
    }

    /** The weighted fill with the default weight function (exponent 5, epsilon 0.0001). */
    method FillHoleWithDefaultWeight(hole: Hole)
      requires AllInGrid(image.LenX(), image.LenY(), hole.boundary)
      requires AllInGrid(image.LenX(), image.LenY(), hole.holePixels)
      requires |hole.boundary| > 0 ||
        forall k :: 0 <= k < |hole.holePixels| ==> At(image.Snapshot(), hole.holePixels[k]) != Sentinel
      modifies image, image.cells
      ensures image.Snapshot() == FillWeighted(old(image.Snapshot()), image.LenX(), image.LenY(),
                                               hole.boundary, hole.holePixels, DefaultWeightFunction())
      ensures !image.IsHoled
    {
      FillHoleWithWeightFunction(hole, DefaultWeightFunction());
    }

    /**
     * Sets every hole pixel to the mean of the boundary samples.  With an
     * empty boundary the mean is not a number, so only a hole without
     * pixels, where nothing is written, is in reach of the model.
     */
    method FillHoleApproximateAverage(hole: Hole)
      requires AllInGrid(image.LenX(), image.LenY(), hole.boundary)
      requires AllInGrid(image.LenX(), image.LenY(), hole.holePixels)
      requires |hole.boundary| > 0 || |hole.holePixels| == 0
      modifies image, image.cells
      ensures var g := old(image.Snapshot());
        |hole.boundary| > 0 ==>
        image.Snapshot() == FillUniform(g, image.LenX(), image.LenY(), hole.holePixels,
                                        BoundaryMean(g, image.LenX(), image.LenY(), hole.boundary))
      ensures |hole.boundary| == 0 ==> image.Snapshot() == old(image.Snapshot())
      ensures !image.IsHoled
    {
      var sum := BoundarySum(image, hole.boundary);
      var avg := 0.0;
      if |hole.boundary| > 0 {
        avg := sum / |hole.boundary| as real;
      }
      FillUniformPixels(image, hole.holePixels, avg);
      image.IsHoled := false;
    }

    /**
     * Fills every hole pixel with the clamped gradient between the corners of
     * the covering rectangle; fails, changing nothing, when a corner is holed.
     */
    method FillHoleApproximateGradient(hole: Hole) returns (o: Outcome)
      requires AllInGrid(image.LenX(), image.LenY(), hole.holePixels)
      requires CornersInGrid(image.LenX(), image.LenY(), hole.coveringRectangle)
      requires |hole.holePixels| > 0 && !CornerHoled(image.Snapshot(), image.LenX(), image.LenY(), hole.coveringRectangle) ==>
        Spans(hole.coveringRectangle)
      modifies image, image.cells
      ensures o.Fail? <==> CornerHoled(old(image.Snapshot()), image.LenX(), image.LenY(), hole.coveringRectangle)
      ensures o.Fail? ==> image.Snapshot() == old(image.Snapshot()) && image.IsHoled == old(image.IsHoled)
      ensures o.Pass? ==> !image.IsHoled
      ensures o.Pass? ==>
        image.Snapshot() == FillGradient(old(image.Snapshot()), image.LenX(), image.LenY(), hole.coveringRectangle, hole.holePixels)
    {
      var holed := CornerCheck(image, hole.coveringRectangle);
      if holed {
        return Fail(TouchesEdge);
      }
      FillGradientPixels(image, hole.coveringRectangle, hole.holePixels);
      image.IsHoled := false;
      return Pass;
    }

    /**
     * Walks the covering rectangle in spiral order and gives each pixel that
     * is still holed the mean of its non-holed neighbours; fails, changing
     * nothing, when a corner is holed.  `order` is the walk taken.
     */
    method FillHoleApproximateConnected(hole: Hole) returns (o: Outcome, ghost order: seq<Pos>)
      requires CornersInGrid(image.LenX(), image.LenY(), hole.coveringRectangle)
      requires hole.coveringRectangle.topLeft.row <= hole.coveringRectangle.bottomRight.row
      requires hole.coveringRectangle.topLeft.col <= hole.coveringRectangle.bottomRight.col
      requires Normalized(image.Snapshot())
      modifies image, image.cells
      ensures o.Fail? <==> CornerHoled(old(image.Snapshot()), image.LenX(), image.LenY(), hole.coveringRectangle)
      ensures o.Fail? ==> image.Snapshot() == old(image.Snapshot()) && image.IsHoled == old(image.IsHoled)
      ensures o.Pass? ==> !image.IsHoled
      ensures o.Pass? ==> SpiralWalk(image.LenX(), image.LenY(), hole.coveringRectangle, order)
      ensures o.Pass? ==> image.Snapshot() == FillConnected(old(image.Snapshot()), image.LenX(), image.LenY(), order)
      ensures o.Pass? ==> forall p :: InRect(hole.coveringRectangle, p) ==>
        InGrid(image.LenX(), image.LenY(), p) && At(image.Snapshot(), p) != Sentinel
    {
      order := [];
      var holed := CornerCheck(image, hole.coveringRectangle);
      if holed {
        return Fail(TouchesEdge), order;
      }
      order := FillAlongSpiral(image, hole.coveringRectangle);
      image.IsHoled := false;
      return Pass, order;
    }
  }
}
