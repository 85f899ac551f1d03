/** Locates the hole of an image: its traced boundary, covering rectangle and holed pixels. */
module HoleFinder {
  import opened Wrappers
  import opened Grid
  import opened Holes
  import opened MooreTrace

  class HoleFinder {
    const image: ImageMatrix
    /** The hole found last; `None` before any search and after one that found nothing. */
    var hole: Option<Hole>

    constructor (image: ImageMatrix)
      ensures this.image == image && hole == None
    {
      this.image := image;
      hole := None;
    }

    /**
     * Traces the boundary with `trace`, then builds the covering rectangle
     * and the hole-pixel list from it.  `outOfFuel` reports a trace that did
     * not finish within `fuel` steps; nothing is stored then.
     */
    method FindHoleWith(trace: MooreTrace, fuel: nat) returns (h: Option<Hole>, outOfFuel: bool)
      requires forall p :: IsFirstHole(image.Snapshot(), image.LenX(), image.LenY(), p) && p.col == 0 ==>
        NonHoleAfter(image.Snapshot(), image.LenX(), image.LenY(), p)
      modifies this, trace
      ensures image.Snapshot() == old(image.Snapshot())
      ensures outOfFuel ==> h == None && hole == old(hole)
      ensures !outOfFuel ==> hole == h
      ensures !outOfFuel ==> (h == None <==> !HasHole(image.Snapshot(), image.LenX(), image.LenY()))
      ensures h.Some? ==> |h.value.boundary| >= 1 && Distinct(h.value.boundary)
      ensures h.Some? ==> forall k :: 0 <= k < |h.value.boundary| ==>
        image.Contains(h.value.boundary[k]) && (k >= 1 ==> At(image.Snapshot(), h.value.boundary[k]) != Sentinel)
      ensures h.Some? ==> forall k :: 0 <= k < |h.value.boundary| ==>
        NextToHole(image.Snapshot(), image.LenX(), image.LenY(), h.value.boundary[k])
      ensures outOfFuel <==> TraceOf(image.Snapshot(), image.LenX(), image.LenY(), fuel).OutOfFuel?
      ensures h.Some? ==> TraceOf(image.Snapshot(), image.LenX(), image.LenY(), fuel) == Traced(h.value.boundary)
      ensures h.Some? ==> h.value.coveringRectangle == CoveringRectangleOf(h.value.boundary, image.LenX(), image.LenY())
      ensures h.Some? ==> IsHoleList(image.Snapshot(), image.LenX(), image.LenY(), h.value.coveringRectangle, h.value.holePixels)
    {
      var traced, seed := trace.Trace(image, fuel);
      if traced.OutOfFuel? {
        return None, true;
      }
      outOfFuel := false;
      if traced.NoHole? {
        hole := None;
        return None, false;
      }
      var boundary := traced.boundary;
      var rectangle := FindCoveringRectangle(image, boundary);
      CoveringRectangleIsBoundingBox(boundary, image.LenX(), image.LenY());
      var pixels := FindHolePixels(image, rectangle);
      hole := Some(Hole(boundary, pixels, rectangle));
      h := hole;
    }

    /** Searches with a fresh Moore tracer. */
    method FindHole(fuel: nat) returns (h: Option<Hole>, outOfFuel: bool)
      requires forall p :: IsFirstHole(image.Snapshot(), image.LenX(), image.LenY(), p) && p.col == 0 ==>
        NonHoleAfter(image.Snapshot(), image.LenX(), image.LenY(), p)
      modifies this
      ensures image.Snapshot() == old(image.Snapshot())
      ensures outOfFuel ==> h == None && hole == old(hole)
      ensures !outOfFuel ==> hole == h
      ensures !outOfFuel ==> (h == None <==> !HasHole(image.Snapshot(), image.LenX(), image.LenY()))
      ensures h.Some? ==> |h.value.boundary| >= 1 && Distinct(h.value.boundary)
      ensures h.Some? ==> forall k :: 0 <= k < |h.value.boundary| ==>
        image.Contains(h.value.boundary[k]) && (k >= 1 ==> At(image.Snapshot(), h.value.boundary[k]) != Sentinel)
      ensures h.Some? ==> forall k :: 0 <= k < |h.value.boundary| ==>
        NextToHole(image.Snapshot(), image.LenX(), image.LenY(), h.value.boundary[k])
      ensures outOfFuel <==> TraceOf(image.Snapshot(), image.LenX(), image.LenY(), fuel).OutOfFuel?
      ensures h.Some? ==> TraceOf(image.Snapshot(), image.LenX(), image.LenY(), fuel) == Traced(h.value.boundary)
      ensures h.Some? ==> h.value.coveringRectangle == CoveringRectangleOf(h.value.boundary, image.LenX(), image.LenY())
      ensures h.Some? ==> IsHoleList(image.Snapshot(), image.LenX(), image.LenY(), h.value.coveringRectangle, h.value.holePixels)
    {
      var trace := new MooreTrace();
      h, outOfFuel := FindHoleWith(trace, fuel);
    }
  }
}
