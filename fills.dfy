/**
 * What the fill strategies compute, as functions of the grid's samples.
 *
 * Each strategy walks a list of positions and rewrites samples one at a
 * time, and every value it computes is read from the grid as it stands at
 * that moment; the folds below do the same, so a method that fills in place
 * is specified by the fold over the positions it has visited so far.
 */
module Fills {
  import opened Wrappers
  import opened Grid
  import opened Holes
  import opened DistanceMeasures
  import opened Means

  /** The weight of boundary pixel `b` when filling pixel `p`. */
  type WeightFunction = (Pos, Pos) -> real

  ghost predicate PositiveWeights(w: WeightFunction)
  {
    forall b, p :: w(b, p) > 0.0
  }

  // ---------------------------------------------------------------------------
  // The default weight function: 1 / (e + d^z), d the Chebyshev distance

  function Power(d: nat, z: nat): nat
  {
    if z == 0 then 1 else d * Power(d, z - 1)
  }

  /** A larger base gives a larger power. */
  lemma {:induction false} PowerMonotone(a: nat, b: nat, z: nat)
    requires a <= b
    ensures Power(a, z) <= Power(b, z)
  {
    if z > 0 {
      PowerMonotone(a, b, z - 1);
      MulMonotone(a, b, Power(a, z - 1), Power(b, z - 1));
    }
  }

  lemma MulMonotone(a: nat, b: nat, c: nat, d: nat)
    requires a <= b && c <= d
    ensures a * c <= b * d
  {
    assert a * c <= b * c;
    assert b * c <= b * d;
  }

  /** A larger positive denominator gives a smaller reciprocal. */
  lemma ReciprocalAntitone(x1: real, x2: real)
    requires 0.0 < x1 <= x2
    ensures 1.0 / x1 >= 1.0 / x2
  {
    var r1, r2 := 1.0 / x1, 1.0 / x2;
    assert r1 * x1 == 1.0 && r2 * x2 == 1.0;
    assert r1 > 0.0 && r2 > 0.0;
    assert r1 * r2 * x1 <= r1 * r2 * x2;
    assert r2 == r1 * r2 * x1;
    assert r1 == r1 * r2 * x2;
  }

  const DefaultExponent: nat := 5
  const DefaultEpsilon: real := 0.0001

  /** The weight `1 / (e + distance^z)`; positive whenever `e` is. */
  function DefaultWeight(z: nat, e: real, b: Pos, p: Pos): (w: real)
    requires e > 0.0
    ensures w > 0.0
  {
    1.0 / (e + Power(ChebyshevDistance(b, p), z) as real)
  }

  /** A boundary pixel closer to the filled pixel weighs at least as much. */
  lemma CloserWeighsMore(z: nat, e: real, b1: Pos, b2: Pos, p: Pos)
    requires e > 0.0
    requires ChebyshevDistance(b1, p) <= ChebyshevDistance(b2, p)
    ensures DefaultWeight(z, e, b1, p) >= DefaultWeight(z, e, b2, p)
  {
    PowerMonotone(ChebyshevDistance(b1, p), ChebyshevDistance(b2, p), z);
    var x1 := e + Power(ChebyshevDistance(b1, p), z) as real;
    var x2 := e + Power(ChebyshevDistance(b2, p), z) as real;
    ReciprocalAntitone(x1, x2);
  }

  /** The weight function with exponent 5 and epsilon 0.0001. */
  function DefaultWeightFunction(): (w: WeightFunction)
    ensures PositiveWeights(w)
  {
    (b, p) => DefaultWeight(DefaultExponent, DefaultEpsilon, b, p)
  }

  // ---------------------------------------------------------------------------
  // Weighted fill

  function Weights(bs: seq<Pos>, p: Pos, w: WeightFunction): (ws: seq<real>)
    ensures |ws| == |bs| && forall k :: 0 <= k < |bs| ==> ws[k] == w(bs[k], p)
  {
    seq(|bs|, k requires 0 <= k < |bs| => w(bs[k], p))
  }

  /** The current samples at `bs`, in order. */
  function Values(g: Samples, lenX: nat, lenY: nat, bs: seq<Pos>): (vs: seq<real>)
    requires IsGrid(g, lenX, lenY) && AllInGrid(lenX, lenY, bs)
    ensures |vs| == |bs| && forall k :: 0 <= k < |bs| ==> vs[k] == At(g, bs[k])
  {
    seq(|bs|, k requires 0 <= k < |bs| => At(g, bs[k]))
  }

  /** The value the weighted fill gives `p`: the weighted mean of the boundary samples. */
  function PixelWeighted(g: Samples, lenX: nat, lenY: nat, bs: seq<Pos>, p: Pos, w: WeightFunction): real
    requires IsGrid(g, lenX, lenY) && AllInGrid(lenX, lenY, bs)
    requires |bs| > 0 && PositiveWeights(w)
  {
    SumPositive(Weights(bs, p, w));
    WeightedMean(Weights(bs, p, w), Values(g, lenX, lenY, bs))
  }

  /** The weighted value depends on the samples at the boundary only. */
  lemma PixelWeightedFrame(g: Samples, h: Samples, lenX: nat, lenY: nat, bs: seq<Pos>, p: Pos, w: WeightFunction)
    requires IsGrid(g, lenX, lenY) && IsGrid(h, lenX, lenY) && AllInGrid(lenX, lenY, bs)
    requires |bs| > 0 && PositiveWeights(w)
    requires forall k :: 0 <= k < |bs| ==> At(g, bs[k]) == At(h, bs[k])
    ensures PixelWeighted(g, lenX, lenY, bs, p, w) == PixelWeighted(h, lenX, lenY, bs, p, w)
  {
    assert Values(g, lenX, lenY, bs) == Values(h, lenX, lenY, bs);
  }

  /** With boundary samples in `[lo, hi]`, the weighted value is in `[lo, hi]`. */
  lemma PixelWeightedWithin(g: Samples, lenX: nat, lenY: nat, bs: seq<Pos>, p: Pos, w: WeightFunction,
                            lo: real, hi: real)
    requires IsGrid(g, lenX, lenY) && AllInGrid(lenX, lenY, bs)
    requires |bs| > 0 && PositiveWeights(w)
    requires forall k :: 0 <= k < |bs| ==> lo <= At(g, bs[k]) <= hi
    ensures lo <= PixelWeighted(g, lenX, lenY, bs, p, w) <= hi
  {
    WeightedMeanWithin(Weights(bs, p, w), Values(g, lenX, lenY, bs), lo, hi);
  }

  /**
   * The weighted fill of `pixels` in order: a pixel still holed when its turn
   * comes gets the weighted mean of the boundary as the grid then stands;
   * any other pixel is left alone.
   */
  function FillWeighted(g: Samples, lenX: nat, lenY: nat, bs: seq<Pos>, pixels: seq<Pos>, w: WeightFunction): (r: Samples)
    requires IsGrid(g, lenX, lenY) && AllInGrid(lenX, lenY, bs) && AllInGrid(lenX, lenY, pixels)
    requires PositiveWeights(w)
    requires |bs| > 0 || forall k :: 0 <= k < |pixels| ==> At(g, pixels[k]) != Sentinel
    ensures IsGrid(r, lenX, lenY)
    ensures |bs| == 0 ==> r == g
    decreases |pixels|
  {
    if |pixels| == 0 then g
    else
      var n := |pixels| - 1;
      var h := FillWeighted(g, lenX, lenY, bs, pixels[..n], w);
      if At(h, pixels[n]) != Sentinel then h
      else Set(h, pixels[n], PixelWeighted(h, lenX, lenY, bs, pixels[n], w))
  }

  /** The weighted fill of a prefix one pixel longer is one more weighted step. */
  lemma FillWeightedNext(g: Samples, lenX: nat, lenY: nat, bs: seq<Pos>, pixels: seq<Pos>, w: WeightFunction, i: nat)
    requires IsGrid(g, lenX, lenY) && AllInGrid(lenX, lenY, bs) && AllInGrid(lenX, lenY, pixels)
    requires PositiveWeights(w)
    requires |bs| > 0 || forall k :: 0 <= k < |pixels| ==> At(g, pixels[k]) != Sentinel
    requires i < |pixels|
    ensures var h := FillWeighted(g, lenX, lenY, bs, pixels[..i], w);
      FillWeighted(g, lenX, lenY, bs, pixels[..i + 1], w) ==
        if At(h, pixels[i]) != Sentinel then h
        else Set(h, pixels[i], PixelWeighted(h, lenX, lenY, bs, pixels[i], w))
  {
    assert pixels[..i + 1][..i] == pixels[..i];
  }

  /**
   * When no boundary pixel is in the pixel list, the weighted fill gives
   * every holed pixel of the list the weighted mean of the original boundary
   * samples and changes nothing else; a repeated pixel keeps the value its
   * first visit gave it.
   */
  lemma {:induction false} FillWeightedValues(g: Samples, lenX: nat, lenY: nat, bs: seq<Pos>, pixels: seq<Pos>,
                                              w: WeightFunction)
    requires IsGrid(g, lenX, lenY) && AllInGrid(lenX, lenY, bs) && AllInGrid(lenX, lenY, pixels)
    requires PositiveWeights(w) && |bs| > 0
    requires forall k :: 0 <= k < |bs| ==> bs[k] !in pixels
    ensures var r := FillWeighted(g, lenX, lenY, bs, pixels, w);
      (forall q :: InGrid(lenX, lenY, q) && q !in pixels ==> At(r, q) == At(g, q)) &&
      (forall q :: q in pixels ==>
         At(r, q) == if At(g, q) == Sentinel then PixelWeighted(g, lenX, lenY, bs, q, w) else At(g, q))
    decreases |pixels|
  {
    if |pixels| > 0 {
      var n := |pixels| - 1;
      var front, p := pixels[..n], pixels[n];
      assert forall q :: q in pixels <==> q in front || q == p;
      FillWeightedValues(g, lenX, lenY, bs, front, w);
      var h := FillWeighted(g, lenX, lenY, bs, front, w);
      PixelWeightedFrame(g, h, lenX, lenY, bs, p, w);
    }
  }

  /**
   * After the weighted fill with boundary samples in `[lo, hi]` above the
   * sentinel, no listed pixel is left holed, and each one that was holed
   * holds a value in `[lo, hi]`.
   */
  lemma FillWeightedFillsHole(g: Samples, lenX: nat, lenY: nat, bs: seq<Pos>, pixels: seq<Pos>,
                              w: WeightFunction, lo: real, hi: real)
    requires IsGrid(g, lenX, lenY) && AllInGrid(lenX, lenY, bs) && AllInGrid(lenX, lenY, pixels)
    requires PositiveWeights(w) && |bs| > 0
    requires forall k :: 0 <= k < |bs| ==> bs[k] !in pixels
    requires Sentinel < lo && forall k :: 0 <= k < |bs| ==> lo <= At(g, bs[k]) <= hi
    ensures var r := FillWeighted(g, lenX, lenY, bs, pixels, w);
      forall q :: q in pixels ==> At(r, q) != Sentinel && (At(g, q) == Sentinel ==> lo <= At(r, q) <= hi)
  {
    FillWeightedValues(g, lenX, lenY, bs, pixels, w);
    forall q | q in pixels && At(g, q) == Sentinel
      ensures lo <= PixelWeighted(g, lenX, lenY, bs, q, w) <= hi
    {
      PixelWeightedWithin(g, lenX, lenY, bs, q, w, lo, hi);
    }
  }

  // ---------------------------------------------------------------------------
  // Average fill

  /** Every position of `pixels` set to `v`. */
  function FillUniform(g: Samples, lenX: nat, lenY: nat, pixels: seq<Pos>, v: real): (r: Samples)
    requires IsGrid(g, lenX, lenY) && AllInGrid(lenX, lenY, pixels)
    ensures IsGrid(r, lenX, lenY)
    decreases |pixels|
  {
    if |pixels| == 0 then g
    else
      var n := |pixels| - 1;
      Set(FillUniform(g, lenX, lenY, pixels[..n], v), pixels[n], v)
  }

  /** The uniform fill holds `v` exactly at the listed positions and the old sample elsewhere. */
  lemma {:induction false} FillUniformValues(g: Samples, lenX: nat, lenY: nat, pixels: seq<Pos>, v: real)
    requires IsGrid(g, lenX, lenY) && AllInGrid(lenX, lenY, pixels)
    ensures forall q :: InGrid(lenX, lenY, q) ==>
      At(FillUniform(g, lenX, lenY, pixels, v), q) == if q in pixels then v else At(g, q)
    decreases |pixels|
  {
    if |pixels| > 0 {
      var n := |pixels| - 1;
      FillUniformValues(g, lenX, lenY, pixels[..n], v);
      assert forall q :: q in pixels <==> q in pixels[..n] || q == pixels[n];
    }
  }

  lemma FillUniformNext(g: Samples, lenX: nat, lenY: nat, pixels: seq<Pos>, v: real, i: nat)
    requires IsGrid(g, lenX, lenY) && AllInGrid(lenX, lenY, pixels) && i < |pixels|
    ensures FillUniform(g, lenX, lenY, pixels[..i + 1], v) == Set(FillUniform(g, lenX, lenY, pixels[..i], v), pixels[i], v)
  {
    assert pixels[..i + 1][..i] == pixels[..i];
  }

  /** The plain mean of the boundary samples. */
  function BoundaryMean(g: Samples, lenX: nat, lenY: nat, bs: seq<Pos>): real
    requires IsGrid(g, lenX, lenY) && AllInGrid(lenX, lenY, bs) && |bs| > 0
  {
    Mean(Values(g, lenX, lenY, bs))
  }

  /** With boundary samples in `[lo, hi]`, their mean is in `[lo, hi]`. */
  lemma BoundaryMeanWithin(g: Samples, lenX: nat, lenY: nat, bs: seq<Pos>, lo: real, hi: real)
    requires IsGrid(g, lenX, lenY) && AllInGrid(lenX, lenY, bs) && |bs| > 0
    requires forall k :: 0 <= k < |bs| ==> lo <= At(g, bs[k]) <= hi
    ensures lo <= BoundaryMean(g, lenX, lenY, bs) <= hi
  {
    MeanWithin(Values(g, lenX, lenY, bs), lo, hi);
  }

  /**
   * After the average fill with boundary samples in `[lo, hi]` above the
   * sentinel, every listed pixel holds a value in `[lo, hi]`: none is left holed.
   */
  lemma FillUniformFillsHole(g: Samples, lenX: nat, lenY: nat, bs: seq<Pos>, pixels: seq<Pos>, lo: real, hi: real)
    requires IsGrid(g, lenX, lenY) && AllInGrid(lenX, lenY, bs) && AllInGrid(lenX, lenY, pixels) && |bs| > 0
    requires Sentinel < lo && forall k :: 0 <= k < |bs| ==> lo <= At(g, bs[k]) <= hi
    ensures var r := FillUniform(g, lenX, lenY, pixels, BoundaryMean(g, lenX, lenY, bs));
      forall q :: q in pixels ==> lo <= At(r, q) <= hi && At(r, q) != Sentinel
  {
    BoundaryMeanWithin(g, lenX, lenY, bs, lo, hi);
    FillUniformValues(g, lenX, lenY, pixels, BoundaryMean(g, lenX, lenY, bs));
  }

  // ---------------------------------------------------------------------------
  // Gradient fill

  /** Limits a value to `[0, 1]`. */
  function Clamp(x: real): (c: real)
    ensures 0.0 <= c <= 1.0
    ensures 0.0 <= x <= 1.0 ==> c == x
    ensures x > 1.0 ==> c == 1.0
    ensures x < 0.0 ==> c == 0.0
  {
    if x > 1.0 then 1.0 else if x < 0.0 then 0.0 else x
  }

  predicate CornersInGrid(lenX: int, lenY: int, r: Rectangle)
  {
    InGrid(lenX, lenY, r.topLeft) && InGrid(lenX, lenY, r.bottomRight) &&
    InGrid(lenX, lenY, r.topRight) && InGrid(lenX, lenY, r.bottomLeft)
  }

  /** The rectangle is more than one row high and more than one column wide. */
  predicate Spans(r: Rectangle)
  {
    r.bottomRight.row != r.topLeft.row && r.bottomRight.col != r.topLeft.col
  }

  /** Some corner of the rectangle is holed. */
  predicate CornerHoled(g: Samples, lenX: nat, lenY: nat, r: Rectangle)
    requires IsGrid(g, lenX, lenY) && CornersInGrid(lenX, lenY, r)
  {
    At(g, r.topRight) == Sentinel || At(g, r.bottomLeft) == Sentinel ||
    At(g, r.topLeft) == Sentinel || At(g, r.bottomRight) == Sentinel
  }

  /** The part `delta * travelled / span` of a change across a span. */
  function Share(delta: real, travelled: int, span: int): real
    requires span != 0
  {
    delta * travelled as real / span as real
  }

  lemma ShareEnds(delta: real, span: int)
    requires span != 0
    ensures Share(delta, 0, span) == 0.0 && Share(delta, span, span) == delta
  {
  }

  /**
   * The unclamped gradient value at `p`: from the nearer of the top-left and
   * bottom-right corners (top-left on a tie), the corner sample plus the
   * changes towards the two adjacent corners in proportion to the distance
   * travelled along each axis.
   */
  function GradientRaw(g: Samples, lenX: nat, lenY: nat, r: Rectangle, p: Pos): real
    requires IsGrid(g, lenX, lenY) && CornersInGrid(lenX, lenY, r) && Spans(r)
  {
    var tl, br := At(g, r.topLeft), At(g, r.bottomRight);
    var tr, bl := At(g, r.topRight), At(g, r.bottomLeft);
    var horizontal := r.bottomRight.col - r.topLeft.col;
    var vertical := r.bottomRight.row - r.topLeft.row;
    if ChebyshevDistance(p, r.topLeft) <= ChebyshevDistance(p, r.bottomRight) then
      tl + Share(bl - tl, p.row - r.topLeft.row, vertical) + Share(tr - tl, p.col - r.topLeft.col, horizontal)
    else
      br + Share(tr - br, r.bottomRight.row - p.row, vertical) + Share(bl - br, r.bottomRight.col - p.col, horizontal)
  }

  function GradientValue(g: Samples, lenX: nat, lenY: nat, r: Rectangle, p: Pos): (v: real)
    requires IsGrid(g, lenX, lenY) && CornersInGrid(lenX, lenY, r) && Spans(r)
    ensures 0.0 <= v <= 1.0
  {
    Clamp(GradientRaw(g, lenX, lenY, r, p))
  }

  /** The gradient depends on the corner samples only. */
  lemma GradientFrame(g: Samples, h: Samples, lenX: nat, lenY: nat, r: Rectangle, p: Pos)
    requires IsGrid(g, lenX, lenY) && IsGrid(h, lenX, lenY) && CornersInGrid(lenX, lenY, r) && Spans(r)
    requires At(g, r.topLeft) == At(h, r.topLeft) && At(g, r.bottomRight) == At(h, r.bottomRight)
    requires At(g, r.topRight) == At(h, r.topRight) && At(g, r.bottomLeft) == At(h, r.bottomLeft)
    ensures GradientValue(g, lenX, lenY, r, p) == GradientValue(h, lenX, lenY, r, p)
  {
  }

  /** The rectangle has the shape a covering rectangle has. */
  predicate WellShaped(r: Rectangle)
  {
    r.topLeft.row < r.bottomRight.row && r.topLeft.col < r.bottomRight.col &&
    r.topRight == Pos(r.topLeft.row, r.bottomRight.col) &&
    r.bottomLeft == Pos(r.bottomRight.row, r.topLeft.col)
  }

  /** The unclamped gradient reproduces the samples at the top-left and bottom-right corners. */
  lemma GradientAtDiagonalCorners(g: Samples, lenX: nat, lenY: nat, r: Rectangle)
    requires IsGrid(g, lenX, lenY) && CornersInGrid(lenX, lenY, r) && WellShaped(r)
    ensures GradientRaw(g, lenX, lenY, r, r.topLeft) == At(g, r.topLeft)
    ensures GradientRaw(g, lenX, lenY, r, r.bottomRight) == At(g, r.bottomRight)
  {
    var horizontal := r.bottomRight.col - r.topLeft.col;
    var vertical := r.bottomRight.row - r.topLeft.row;
    ShareEnds(At(g, r.bottomLeft) - At(g, r.topLeft), vertical);
    ShareEnds(At(g, r.topRight) - At(g, r.topLeft), horizontal);
    ShareEnds(At(g, r.topRight) - At(g, r.bottomRight), vertical);
    ShareEnds(At(g, r.bottomLeft) - At(g, r.bottomRight), horizontal);
    assert ChebyshevDistance(r.topLeft, r.topLeft) == 0;
    assert ChebyshevDistance(r.bottomRight, r.bottomRight) == 0;
  }

  /** The unclamped gradient reproduces the samples at the top-right and bottom-left corners. */
  lemma GradientAtOffCorners(g: Samples, lenX: nat, lenY: nat, r: Rectangle)
    requires IsGrid(g, lenX, lenY) && CornersInGrid(lenX, lenY, r) && WellShaped(r)
    ensures GradientRaw(g, lenX, lenY, r, r.topRight) == At(g, r.topRight)
    ensures GradientRaw(g, lenX, lenY, r, r.bottomLeft) == At(g, r.bottomLeft)
  {
    var tl, br := At(g, r.topLeft), At(g, r.bottomRight);
    var tr, bl := At(g, r.topRight), At(g, r.bottomLeft);
    var horizontal := r.bottomRight.col - r.topLeft.col;
    var vertical := r.bottomRight.row - r.topLeft.row;
    ShareEnds(bl - tl, vertical);
    ShareEnds(tr - tl, horizontal);
    ShareEnds(tr - br, vertical);
    ShareEnds(bl - br, horizontal);
    assert ChebyshevDistance(r.topRight, r.topLeft) == horizontal;
    assert ChebyshevDistance(r.topRight, r.bottomRight) == vertical;
    assert ChebyshevDistance(r.bottomLeft, r.topLeft) == vertical;
    assert ChebyshevDistance(r.bottomLeft, r.bottomRight) == horizontal;
  }

  /** One step of the gradient fill: `p` gets the clamped gradient. */
  function GradientStep(h: Samples, lenX: nat, lenY: nat, r: Rectangle, p: Pos): (res: Samples)
    requires IsGrid(h, lenX, lenY) && CornersInGrid(lenX, lenY, r) && Spans(r) && InGrid(lenX, lenY, p)
    ensures IsGrid(res, lenX, lenY)
    ensures 0.0 <= At(res, p) <= 1.0
    ensures forall q :: InGrid(lenX, lenY, q) && q != p ==> At(res, q) == At(h, q)
  {
    Set(h, p, GradientValue(h, lenX, lenY, r, p))
  }

  /**
   * The gradient fill of `pixels` in order: every listed pixel, holed or not,
   * gets the clamped gradient value computed from the corners as they then
   * stand.
   */
  function FillGradient(g: Samples, lenX: nat, lenY: nat, r: Rectangle, pixels: seq<Pos>): (res: Samples)
    requires IsGrid(g, lenX, lenY) && CornersInGrid(lenX, lenY, r) && AllInGrid(lenX, lenY, pixels)
    requires |pixels| > 0 ==> Spans(r)
    ensures IsGrid(res, lenX, lenY)
    ensures forall q :: InGrid(lenX, lenY, q) && q !in pixels ==> At(res, q) == At(g, q)
    ensures forall q :: q in pixels ==> 0.0 <= At(res, q) <= 1.0
    decreases |pixels|
  {
    if |pixels| == 0 then g
    else
      var n := |pixels| - 1;
      var h := FillGradient(g, lenX, lenY, r, pixels[..n]);
      assert forall q :: q in pixels <==> q in pixels[..n] || q == pixels[n];
      GradientStep(h, lenX, lenY, r, pixels[n])
  }

  lemma FillGradientNext(g: Samples, lenX: nat, lenY: nat, r: Rectangle, pixels: seq<Pos>, i: nat)
    requires IsGrid(g, lenX, lenY) && CornersInGrid(lenX, lenY, r) && AllInGrid(lenX, lenY, pixels)
    requires Spans(r) && i < |pixels|
    ensures FillGradient(g, lenX, lenY, r, pixels[..i + 1]) ==
      GradientStep(FillGradient(g, lenX, lenY, r, pixels[..i]), lenX, lenY, r, pixels[i])
  {
    assert pixels[..i + 1][..i] == pixels[..i];
  }

  /**
   * When no corner is among the filled pixels, every filled pixel gets the
   * clamped gradient of the original corner samples.
   */
  lemma {:induction false} FillGradientValues(g: Samples, lenX: nat, lenY: nat, r: Rectangle, pixels: seq<Pos>)
    requires IsGrid(g, lenX, lenY) && CornersInGrid(lenX, lenY, r) && AllInGrid(lenX, lenY, pixels)
    requires |pixels| > 0 ==> Spans(r)
    requires r.topLeft !in pixels && r.bottomRight !in pixels && r.topRight !in pixels && r.bottomLeft !in pixels
    ensures forall q :: q in pixels ==>
      At(FillGradient(g, lenX, lenY, r, pixels), q) == GradientValue(g, lenX, lenY, r, q)
    decreases |pixels|
  {
    if |pixels| > 0 {
      var n := |pixels| - 1;
      var front := pixels[..n];
      assert forall q :: q in pixels <==> q in front || q == pixels[n];
      FillGradientValues(g, lenX, lenY, r, front);
      var h := FillGradient(g, lenX, lenY, r, front);
      GradientFrame(g, h, lenX, lenY, r, pixels[n]);
    }
  }

  // ---------------------------------------------------------------------------
  // Connected fill

  /**
   * The samples of the non-holed neighbours of `p` among the first `n`
   * directions, clockwise from west, skipping positions outside the grid.
   */
  function NeighbourValues(g: Samples, lenX: nat, lenY: nat, p: Pos, n: nat): (vs: seq<real>)
    requires IsGrid(g, lenX, lenY) && n <= 8
    ensures |vs| <= n
  {
    if n == 0 then []
    else
      var before := NeighbourValues(g, lenX, lenY, p, n - 1);
      var d := Offset(n - 1);
      match GetDistantElement(lenX, lenY, p, d.row, d.col)
      case Some(q) => if At(g, q) != Sentinel then before + [At(g, q)] else before
      case None => before
  }

  /** In a normalized grid every neighbour sample is in `[0, 1]`. */
  lemma {:induction false} NeighbourValuesNormalized(g: Samples, lenX: nat, lenY: nat, p: Pos, n: nat)
    requires IsGrid(g, lenX, lenY) && n <= 8 && Normalized(g)
    ensures AllWithin(NeighbourValues(g, lenX, lenY, p, n), 0.0, 1.0)
  {
    if n > 0 {
      NeighbourValuesNormalized(g, lenX, lenY, p, n - 1);
    }
  }

  /** Once a direction has contributed a sample, later prefixes keep at least one. */
  lemma {:induction false} NeighbourValuesKeep(g: Samples, lenX: nat, lenY: nat, p: Pos, d: nat, n: nat)
    requires IsGrid(g, lenX, lenY) && d < n <= 8
    requires InGrid(lenX, lenY, Step(p, d)) && At(g, Step(p, d)) != Sentinel
    ensures |NeighbourValues(g, lenX, lenY, p, n)| > 0
  {
    if n > d + 1 {
      NeighbourValuesKeep(g, lenX, lenY, p, d, n - 1);
    }
  }

  /** A non-holed pixel one unit step away is among the neighbours. */
  lemma NeighbourFound(g: Samples, lenX: nat, lenY: nat, p: Pos, q: Pos)
    requires IsGrid(g, lenX, lenY) && InGrid(lenX, lenY, q)
    requires UnitStep(q, p) && At(g, q) != Sentinel
    ensures |NeighbourValues(g, lenX, lenY, p, 8)| > 0
  {
    var d := if q.col == p.col - 1 && q.row == p.row then 0
             else if q.row == p.row - 1 && q.col == p.col then 2
             else if q.col == p.col + 1 && q.row == p.row then 4
             else 6;
    assert Step(p, d) == q;
    NeighbourValuesKeep(g, lenX, lenY, p, d, 8);
  }

  /** A chain of positions, each one unit step from the one before. */
  predicate Chain(order: seq<Pos>)
  {
    forall k :: 0 <= k < |order| - 1 ==> UnitStep(order[k], order[k + 1])
  }

  /**
   * One step of the connected fill at `p`, whose chain predecessor `prev` is
   * not holed: a holed `p` gets the mean of its non-holed neighbours.
   */
  function ConnectedStep(h: Samples, lenX: nat, lenY: nat, p: Pos, prev: Pos): (res: Samples)
    requires IsGrid(h, lenX, lenY) && Normalized(h) && InGrid(lenX, lenY, p) && InGrid(lenX, lenY, prev)
    requires UnitStep(prev, p) && At(h, prev) != Sentinel
    ensures IsGrid(res, lenX, lenY) && Normalized(res)
    ensures At(res, p) != Sentinel
    ensures forall q :: InGrid(lenX, lenY, q) && (q != p || At(h, q) != Sentinel) ==> At(res, q) == At(h, q)
  {
    if At(h, p) != Sentinel then h
    else
      NeighbourFound(h, lenX, lenY, p, prev);
      NeighbourValuesNormalized(h, lenX, lenY, p, 8);
      MeanWithin(NeighbourValues(h, lenX, lenY, p, 8), 0.0, 1.0);
      Set(h, p, Mean(NeighbourValues(h, lenX, lenY, p, 8)))
  }

  /**
   * The connected fill along `order`: a pixel still holed when its turn comes
   * gets the mean of its non-holed neighbours as the grid then stands.  In a
   * normalized grid whose walk starts on a non-holed pixel and moves by unit
   * steps, the pixel visited just before always supplies a neighbour, so the
   * mean is always defined; every visited pixel ends up non-holed, samples
   * stay normalized, and no non-holed or unvisited sample changes.
   */
  function FillConnected(g: Samples, lenX: nat, lenY: nat, order: seq<Pos>): (r: Samples)
    requires IsGrid(g, lenX, lenY) && Normalized(g) && AllInGrid(lenX, lenY, order) && Chain(order)
    requires |order| > 0 ==> At(g, order[0]) != Sentinel
    ensures IsGrid(r, lenX, lenY) && Normalized(r)
    ensures forall k :: 0 <= k < |order| ==> At(r, order[k]) != Sentinel
    ensures forall q :: InGrid(lenX, lenY, q) && At(g, q) != Sentinel ==> At(r, q) == At(g, q)
    ensures forall q :: InGrid(lenX, lenY, q) && q !in order ==> At(r, q) == At(g, q)
    decreases |order|
  {
    if |order| <= 1 then g
    else
      var n := |order| - 1;
      var front := order[..n];
      assert forall k :: 0 <= k < n ==> order[k] == front[k];
      var h := FillConnected(g, lenX, lenY, front);
      ConnectedStep(h, lenX, lenY, order[n], order[n - 1])
  }

  lemma FillConnectedNext(g: Samples, lenX: nat, lenY: nat, order: seq<Pos>, i: nat)
    requires IsGrid(g, lenX, lenY) && Normalized(g) && AllInGrid(lenX, lenY, order) && Chain(order)
    requires 1 <= i < |order| && At(g, order[0]) != Sentinel
    ensures var h := FillConnected(g, lenX, lenY, order[..i]);
      At(h, order[i - 1]) != Sentinel &&
      FillConnected(g, lenX, lenY, order[..i + 1]) == ConnectedStep(h, lenX, lenY, order[i], order[i - 1])
  {
    assert order[..i + 1][..i] == order[..i];
    assert order[..i][i - 1] == order[i - 1];
  }
}
