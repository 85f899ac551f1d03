/**
 * The trace on concrete images.  In a 3x3 grid whose only holed pixel is the
 * centre one the boundary is the ring of all eight neighbours, found in seven
 * turns of the main loop.  In a 4x5 grid whose only holed pixel is in the
 * last row the boundary is the five neighbours inside the grid, and the
 * connected fill of that hole reaches the lookup that throws as written.
 */
module TraceExamples {
  import opened Grid
  import opened Holes
  import opened Fills
  import opened Spiral
  import opened MooreTrace
  import opened HoleFixing

  /** A 3x3 image with a single holed pixel in the centre. */
  function SingleHoleImage(): (g: Samples)
    ensures IsGrid(g, 3, 3)
  {
    [[0.1, 0.2, 0.3], [0.1, Sentinel, 0.3], [0.1, 0.2, 0.3]]
  }

  /** The centre is the only holed pixel of the image. */
  lemma SingleHoleOnly(p: Pos)
    requires InGrid(3, 3, p) && At(SingleHoleImage(), p) == Sentinel
    ensures p == Pos(1, 1)
  {
  }

  /** `p` is a holed pixel whose eight neighbours are all in the grid and not holed. */
  ghost predicate IsolatedHole(g: Samples, lenX: nat, lenY: nat, p: Pos)
    requires IsGrid(g, lenX, lenY)
  {
    InGrid(lenX, lenY, p) && At(g, p) == Sentinel &&
    forall d :: 0 <= d < 8 ==> InGrid(lenX, lenY, Step(p, d)) && At(g, Step(p, d)) != Sentinel
  }

  /** Around an isolated hole the search takes the first neighbour it looks at. */
  lemma IsolatedNext(g: Samples, lenX: nat, lenY: nat, p: Pos, d: int)
    requires IsGrid(g, lenX, lenY) && IsolatedHole(g, lenX, lenY, p) && 0 <= d < 8
    ensures lenX >= 2 || lenY >= 2
    ensures NextClockwise(lenX, lenY, p, d) == (Step(p, d), (d + 1) % 8)
  {
    OffsetTable(d, 0);
    assert InGrid(lenX, lenY, Step(p, d));
    FirstClockwiseIsNext(lenX, lenY, p, d, 0, Step(p, d));
  }

  /** A turn around an isolated hole adds the candidate and moves one direction on. */
  lemma IsolatedTurn(g: Samples, lenX: nat, lenY: nat, p: Pos, st: TraceState, d: int)
    requires IsGrid(g, lenX, lenY) && IsolatedHole(g, lenX, lenY, p)
    requires 0 <= d < 8 && st.holePixel == p && st.boundaryPixel == Step(p, d) && 0 <= st.direction < 8
    requires st.boundaryPixel !in st.boundary
    ensures lenX >= 2 || lenY >= 2
    ensures StateInGrid(lenX, lenY, st)
    ensures TraceTurn(g, lenX, lenY, st) ==
      TraceState(p, Step(p, st.direction), (st.direction + 1) % 8, st.boundary + [st.boundaryPixel])
  {
    IsolatedNext(g, lenX, lenY, p, st.direction);
  }

  /** A turn around an isolated hole that does not stop the loop costs one unit of fuel. */
  lemma IsolatedLoopStep(g: Samples, lenX: nat, lenY: nat, p: Pos, first: Pos, st: TraceState, d: int,
                         st1: TraceState, fuel: nat, fuel1: nat)
    requires IsGrid(g, lenX, lenY) && IsolatedHole(g, lenX, lenY, p)
    requires 0 <= d < 8 && st.holePixel == p && st.boundaryPixel == Step(p, d) && 0 <= st.direction < 8
    requires st.boundaryPixel !in st.boundary
    requires !(st.boundaryPixel == first && st.direction - 1 == West) && fuel == fuel1 + 1
    requires st1 == TraceState(p, Step(p, st.direction), (st.direction + 1) % 8, st.boundary + [st.boundaryPixel])
    ensures lenX >= 2 || lenY >= 2
    ensures StateInGrid(lenX, lenY, st) && StateInGrid(lenX, lenY, st1)
    ensures TraceLoop(g, lenX, lenY, West, first, st, fuel) == TraceLoop(g, lenX, lenY, West, first, st1, fuel1)
  {
    IsolatedTurn(g, lenX, lenY, p, st, d);
    TraceLoopNext(g, lenX, lenY, West, first, st, fuel, fuel1);
  }

  /** Two neighbours in different directions are different pixels. */
  lemma StepsDiffer(p: Pos, d: int, e: int)
    requires 0 <= d < 8 && 0 <= e < 8 && d != e
    ensures Step(p, d) != Step(p, e)
  {
    OffsetTable(d, e);
  }

  /** Turn 1 around an isolated hole: the top-left neighbour joins the boundary. */
  lemma IsolatedTurn1(g: Samples, lenX: nat, lenY: nat, p: Pos, fuel: nat, fuel1: nat)
    requires IsGrid(g, lenX, lenY) && IsolatedHole(g, lenX, lenY, p) && fuel == fuel1 + 1
    ensures lenX >= 2 || lenY >= 2
    ensures TraceLoop(g, lenX, lenY, West, Step(p, 0), TraceState(p, Step(p, 1), 2, [Step(p, 0)]), fuel) ==
      TraceLoop(g, lenX, lenY, West, Step(p, 0), TraceState(p, Step(p, 2), 3, [Step(p, 0), Step(p, 1)]), fuel1)
  {
    StepsDiffer(p, 1, 0);
    IsolatedLoopStep(g, lenX, lenY, p, Step(p, 0), TraceState(p, Step(p, 1), 2, [Step(p, 0)]), 1,
                     TraceState(p, Step(p, 2), 3, [Step(p, 0), Step(p, 1)]), fuel, fuel1);
  }

  /** Turn 2 around an isolated hole: the top neighbour joins the boundary. */
  lemma IsolatedTurn2(g: Samples, lenX: nat, lenY: nat, p: Pos, fuel: nat, fuel1: nat)
    requires IsGrid(g, lenX, lenY) && IsolatedHole(g, lenX, lenY, p) && fuel == fuel1 + 1
    ensures lenX >= 2 || lenY >= 2
    ensures TraceLoop(g, lenX, lenY, West, Step(p, 0), TraceState(p, Step(p, 2), 3, [Step(p, 0), Step(p, 1)]), fuel) ==
      TraceLoop(g, lenX, lenY, West, Step(p, 0), TraceState(p, Step(p, 3), 4, [Step(p, 0), Step(p, 1), Step(p, 2)]), fuel1)
  {
    StepsDiffer(p, 2, 0);
    StepsDiffer(p, 2, 1);
    IsolatedLoopStep(g, lenX, lenY, p, Step(p, 0), TraceState(p, Step(p, 2), 3, [Step(p, 0), Step(p, 1)]), 2,
                     TraceState(p, Step(p, 3), 4, [Step(p, 0), Step(p, 1), Step(p, 2)]), fuel, fuel1);
  }

  /** Turn 3 around an isolated hole: the top-right neighbour joins the boundary. */
  lemma IsolatedTurn3(g: Samples, lenX: nat, lenY: nat, p: Pos, fuel: nat, fuel1: nat)
    requires IsGrid(g, lenX, lenY) && IsolatedHole(g, lenX, lenY, p) && fuel == fuel1 + 1
    ensures lenX >= 2 || lenY >= 2
    ensures TraceLoop(g, lenX, lenY, West, Step(p, 0), TraceState(p, Step(p, 3), 4, [Step(p, 0), Step(p, 1), Step(p, 2)]), fuel) ==
      TraceLoop(g, lenX, lenY, West, Step(p, 0), TraceState(p, Step(p, 4), 5, [Step(p, 0), Step(p, 1), Step(p, 2), Step(p, 3)]), fuel1)
  {
    StepsDiffer(p, 3, 0);
    StepsDiffer(p, 3, 1);
    StepsDiffer(p, 3, 2);
    IsolatedLoopStep(g, lenX, lenY, p, Step(p, 0), TraceState(p, Step(p, 3), 4, [Step(p, 0), Step(p, 1), Step(p, 2)]), 3,
                     TraceState(p, Step(p, 4), 5, [Step(p, 0), Step(p, 1), Step(p, 2), Step(p, 3)]), fuel, fuel1);
  }

  /** Turn 4 around an isolated hole: the right neighbour joins the boundary. */
  lemma IsolatedTurn4(g: Samples, lenX: nat, lenY: nat, p: Pos, fuel: nat, fuel1: nat)
    requires IsGrid(g, lenX, lenY) && IsolatedHole(g, lenX, lenY, p) && fuel == fuel1 + 1
    ensures lenX >= 2 || lenY >= 2
    ensures TraceLoop(g, lenX, lenY, West, Step(p, 0), TraceState(p, Step(p, 4), 5, [Step(p, 0), Step(p, 1), Step(p, 2), Step(p, 3)]), fuel) ==
      TraceLoop(g, lenX, lenY, West, Step(p, 0), TraceState(p, Step(p, 5), 6, [Step(p, 0), Step(p, 1), Step(p, 2), Step(p, 3), Step(p, 4)]), fuel1)
  {
    StepsDiffer(p, 4, 0);
    StepsDiffer(p, 4, 1);
    StepsDiffer(p, 4, 2);
    StepsDiffer(p, 4, 3);
    IsolatedLoopStep(g, lenX, lenY, p, Step(p, 0), TraceState(p, Step(p, 4), 5, [Step(p, 0), Step(p, 1), Step(p, 2), Step(p, 3)]), 4,
                     TraceState(p, Step(p, 5), 6, [Step(p, 0), Step(p, 1), Step(p, 2), Step(p, 3), Step(p, 4)]), fuel, fuel1);
  }

  /** Turn 5 around an isolated hole: the bottom-right neighbour joins the boundary. */
  lemma IsolatedTurn5(g: Samples, lenX: nat, lenY: nat, p: Pos, fuel: nat, fuel1: nat)
    requires IsGrid(g, lenX, lenY) && IsolatedHole(g, lenX, lenY, p) && fuel == fuel1 + 1
    ensures lenX >= 2 || lenY >= 2
    ensures TraceLoop(g, lenX, lenY, West, Step(p, 0), TraceState(p, Step(p, 5), 6, [Step(p, 0), Step(p, 1), Step(p, 2), Step(p, 3), Step(p, 4)]), fuel) ==
      TraceLoop(g, lenX, lenY, West, Step(p, 0), TraceState(p, Step(p, 6), 7, [Step(p, 0), Step(p, 1), Step(p, 2), Step(p, 3), Step(p, 4), Step(p, 5)]), fuel1)
  {
    StepsDiffer(p, 5, 0);
    StepsDiffer(p, 5, 1);
    StepsDiffer(p, 5, 2);
    StepsDiffer(p, 5, 3);
    StepsDiffer(p, 5, 4);
    IsolatedLoopStep(g, lenX, lenY, p, Step(p, 0), TraceState(p, Step(p, 5), 6, [Step(p, 0), Step(p, 1), Step(p, 2), Step(p, 3), Step(p, 4)]), 5,
                     TraceState(p, Step(p, 6), 7, [Step(p, 0), Step(p, 1), Step(p, 2), Step(p, 3), Step(p, 4), Step(p, 5)]), fuel, fuel1);
  }

  /** Turn 6 around an isolated hole: the bottom neighbour joins the boundary. */
  lemma IsolatedTurn6(g: Samples, lenX: nat, lenY: nat, p: Pos, fuel: nat, fuel1: nat)
    requires IsGrid(g, lenX, lenY) && IsolatedHole(g, lenX, lenY, p) && fuel == fuel1 + 1
    ensures lenX >= 2 || lenY >= 2
    ensures TraceLoop(g, lenX, lenY, West, Step(p, 0), TraceState(p, Step(p, 6), 7, [Step(p, 0), Step(p, 1), Step(p, 2), Step(p, 3), Step(p, 4), Step(p, 5)]), fuel) ==
      TraceLoop(g, lenX, lenY, West, Step(p, 0), TraceState(p, Step(p, 7), 0, [Step(p, 0), Step(p, 1), Step(p, 2), Step(p, 3), Step(p, 4), Step(p, 5), Step(p, 6)]), fuel1)
  {
    StepsDiffer(p, 6, 0);
    StepsDiffer(p, 6, 1);
    StepsDiffer(p, 6, 2);
    StepsDiffer(p, 6, 3);
    StepsDiffer(p, 6, 4);
    StepsDiffer(p, 6, 5);
    IsolatedLoopStep(g, lenX, lenY, p, Step(p, 0), TraceState(p, Step(p, 6), 7, [Step(p, 0), Step(p, 1), Step(p, 2), Step(p, 3), Step(p, 4), Step(p, 5)]), 6,
                     TraceState(p, Step(p, 7), 0, [Step(p, 0), Step(p, 1), Step(p, 2), Step(p, 3), Step(p, 4), Step(p, 5), Step(p, 6)]), fuel, fuel1);
  }

  /** Turn 7 around an isolated hole: the bottom-left neighbour joins the boundary. */
  lemma IsolatedTurn7(g: Samples, lenX: nat, lenY: nat, p: Pos, fuel: nat, fuel1: nat)
    requires IsGrid(g, lenX, lenY) && IsolatedHole(g, lenX, lenY, p) && fuel == fuel1 + 1
    ensures lenX >= 2 || lenY >= 2
    ensures TraceLoop(g, lenX, lenY, West, Step(p, 0), TraceState(p, Step(p, 7), 0, [Step(p, 0), Step(p, 1), Step(p, 2), Step(p, 3), Step(p, 4), Step(p, 5), Step(p, 6)]), fuel) ==
      TraceLoop(g, lenX, lenY, West, Step(p, 0), TraceState(p, Step(p, 0), 1, [Step(p, 0), Step(p, 1), Step(p, 2), Step(p, 3), Step(p, 4), Step(p, 5), Step(p, 6), Step(p, 7)]), fuel1)
  {
    StepsDiffer(p, 7, 0);
    StepsDiffer(p, 7, 1);
    StepsDiffer(p, 7, 2);
    StepsDiffer(p, 7, 3);
    StepsDiffer(p, 7, 4);
    StepsDiffer(p, 7, 5);
    StepsDiffer(p, 7, 6);
    IsolatedLoopStep(g, lenX, lenY, p, Step(p, 0), TraceState(p, Step(p, 7), 0, [Step(p, 0), Step(p, 1), Step(p, 2), Step(p, 3), Step(p, 4), Step(p, 5), Step(p, 6)]), 7,
                     TraceState(p, Step(p, 0), 1, [Step(p, 0), Step(p, 1), Step(p, 2), Step(p, 3), Step(p, 4), Step(p, 5), Step(p, 6), Step(p, 7)]), fuel, fuel1);
  }

  /** Back at the first neighbour, looking West: the loop stops with all eight neighbours. */
  lemma IsolatedStop(g: Samples, lenX: nat, lenY: nat, p: Pos, fuel: nat)
    requires IsGrid(g, lenX, lenY) && IsolatedHole(g, lenX, lenY, p)
    ensures lenX >= 2 || lenY >= 2
    ensures TraceLoop(g, lenX, lenY, West, Step(p, 0), TraceState(p, Step(p, 0), 1, [Step(p, 0), Step(p, 1), Step(p, 2), Step(p, 3), Step(p, 4), Step(p, 5), Step(p, 6), Step(p, 7)]), fuel) ==
      Traced([Step(p, 0), Step(p, 1), Step(p, 2), Step(p, 3), Step(p, 4), Step(p, 5), Step(p, 6), Step(p, 7)])
  {
    IsolatedNext(g, lenX, lenY, p, 0);
  }

  /** The seven turns around an isolated hole, one unit of fuel each, and the stop. */
  lemma IsolatedRound(g: Samples, lenX: nat, lenY: nat, p: Pos,
                      f1: nat, f2: nat, f3: nat, f4: nat, f5: nat, f6: nat, f7: nat, f8: nat)
    requires IsGrid(g, lenX, lenY) && IsolatedHole(g, lenX, lenY, p)
    requires f1 == f2 + 1 && f2 == f3 + 1 && f3 == f4 + 1 && f4 == f5 + 1
    requires f5 == f6 + 1 && f6 == f7 + 1 && f7 == f8 + 1
    ensures lenX >= 2 || lenY >= 2
    ensures TraceLoop(g, lenX, lenY, West, Step(p, 0), TraceState(p, Step(p, 1), 2, [Step(p, 0)]), f1) ==
      Traced([Step(p, 0), Step(p, 1), Step(p, 2), Step(p, 3), Step(p, 4), Step(p, 5), Step(p, 6), Step(p, 7)])
  {
    IsolatedTurn1(g, lenX, lenY, p, f1, f2);
    IsolatedTurn2(g, lenX, lenY, p, f2, f3);
    IsolatedTurn3(g, lenX, lenY, p, f3, f4);
    IsolatedTurn4(g, lenX, lenY, p, f4, f5);
    IsolatedTurn5(g, lenX, lenY, p, f5, f6);
    IsolatedTurn6(g, lenX, lenY, p, f6, f7);
    IsolatedTurn7(g, lenX, lenY, p, f7, f8);
    IsolatedStop(g, lenX, lenY, p, f8);
  }

  /** Once both searches around the seed are known, the trace is the loop from the state they give. */
  lemma TraceSpecStart(g: Samples, lenX: nat, lenY: nat, seed: Pos, start: int, a: Pos, da: int, b: Pos, db: int,
                       fuel: nat)
    requires IsGrid(g, lenX, lenY) && (lenX >= 2 || lenY >= 2) && InGrid(lenX, lenY, seed) && 0 <= start < 8
    requires NextClockwise(lenX, lenY, seed, start) == (a, da)
    requires 0 <= da < 8 && NextClockwise(lenX, lenY, seed, da) == (b, db)
    ensures StateInGrid(lenX, lenY, TraceState(seed, b, db, [a]))
    ensures TraceSpec(g, lenX, lenY, seed, start, fuel) ==
      TraceLoop(g, lenX, lenY, start, a, TraceState(seed, b, db, [a]), fuel)
  {
  }

  /** From an isolated hole, the trace starts at the left neighbour and looks at the top-left one next. */
  lemma IsolatedStart(g: Samples, lenX: nat, lenY: nat, p: Pos, fuel: nat)
    requires IsGrid(g, lenX, lenY) && IsolatedHole(g, lenX, lenY, p)
    ensures lenX >= 2 || lenY >= 2
    ensures StateInGrid(lenX, lenY, TraceState(p, Step(p, 1), 2, [Step(p, 0)]))
    ensures TraceSpec(g, lenX, lenY, p, West, fuel) ==
      TraceLoop(g, lenX, lenY, West, Step(p, 0), TraceState(p, Step(p, 1), 2, [Step(p, 0)]), fuel)
  {
    IsolatedNext(g, lenX, lenY, p, West);
    IsolatedNext(g, lenX, lenY, p, 1);
    TraceSpecStart(g, lenX, lenY, p, West, Step(p, 0), 1, Step(p, 1), 2, fuel);
  }

  /**
   * The trace of an isolated hole, from the hole with start direction West,
   * is its eight neighbours clockwise from the left one, found in seven turns.
   */
  lemma IsolatedHoleTrace(g: Samples, lenX: nat, lenY: nat, p: Pos, fuel: nat)
    requires IsGrid(g, lenX, lenY) && IsolatedHole(g, lenX, lenY, p) && fuel >= 7
    ensures lenX >= 2 || lenY >= 2
    ensures TraceSpec(g, lenX, lenY, p, West, fuel) == Traced([Step(p, 0), Step(p, 1), Step(p, 2), Step(p, 3), Step(p, 4), Step(p, 5), Step(p, 6), Step(p, 7)])
  {
    IsolatedStart(g, lenX, lenY, p, fuel);
    IsolatedRound(g, lenX, lenY, p, fuel, fuel - 1, fuel - 2, fuel - 3, fuel - 4, fuel - 5, fuel - 6, fuel - 7);
  }

  /** The centre is the first holed pixel, and the only one. */
  lemma SingleHoleFirst()
    ensures forall p :: IsFirstHole(SingleHoleImage(), 3, 3, p) <==> p == Pos(1, 1)
  {
    var g := SingleHoleImage();
    forall p | IsFirstHole(g, 3, 3, p)
      ensures p == Pos(1, 1)
    {
      SingleHoleOnly(p);
    }
    forall q | InGrid(3, 3, q) && Before(q, Pos(1, 1))
      ensures At(g, q) != Sentinel
    {
      if At(g, q) == Sentinel {
        SingleHoleOnly(q);
      }
    }
  }

  /** The centre of the image is an isolated hole. */
  lemma SingleHoleIsolated()
    ensures IsolatedHole(SingleHoleImage(), 3, 3, Pos(1, 1))
  {
    forall d | 0 <= d < 8
      ensures InGrid(3, 3, Step(Pos(1, 1), d)) && At(SingleHoleImage(), Step(Pos(1, 1), d)) != Sentinel
    {
      OffsetTable(d, 0);
      if At(SingleHoleImage(), Step(Pos(1, 1), d)) == Sentinel {
        SingleHoleOnly(Step(Pos(1, 1), d));
      }
    }
  }

  /** Tracing the image starts at its centre, looking West. */
  lemma SingleHoleSeed(fuel: nat)
    ensures TraceOf(SingleHoleImage(), 3, 3, fuel) == TraceSpec(SingleHoleImage(), 3, 3, Pos(1, 1), West, fuel)
  {
    SingleHoleFirst();
    TraceOfSeed(SingleHoleImage(), 3, 3, Pos(1, 1), West, fuel);
  }

  /** The eight neighbours of the centre, clockwise from the left one. */
  lemma SingleHoleRing()
    ensures [Step(Pos(1, 1), 0), Step(Pos(1, 1), 1), Step(Pos(1, 1), 2), Step(Pos(1, 1), 3),
             Step(Pos(1, 1), 4), Step(Pos(1, 1), 5), Step(Pos(1, 1), 6), Step(Pos(1, 1), 7)] ==
      [Pos(1, 0), Pos(0, 0), Pos(0, 1), Pos(0, 2), Pos(1, 2), Pos(2, 2), Pos(2, 1), Pos(2, 0)]
  {
    assert Step(Pos(1, 1), 0) == Pos(1, 0);
    assert Step(Pos(1, 1), 1) == Pos(0, 0);
    assert Step(Pos(1, 1), 2) == Pos(0, 1);
    assert Step(Pos(1, 1), 3) == Pos(0, 2);
    assert Step(Pos(1, 1), 4) == Pos(1, 2);
    assert Step(Pos(1, 1), 5) == Pos(2, 2);
    assert Step(Pos(1, 1), 6) == Pos(2, 1);
    assert Step(Pos(1, 1), 7) == Pos(2, 0);
  }

  /**
   * With fuel for at least seven turns, tracing the image gives the eight
   * neighbours of the centre, clockwise from the left one.
   */
  lemma SingleHoleTrace(fuel: nat)
    requires fuel >= 7
    ensures TraceOf(SingleHoleImage(), 3, 3, fuel) ==
      Traced([Pos(1, 0), Pos(0, 0), Pos(0, 1), Pos(0, 2), Pos(1, 2), Pos(2, 2), Pos(2, 1), Pos(2, 0)])
  {
    SingleHoleSeed(fuel);
    SingleHoleIsolated();
    IsolatedHoleTrace(SingleHoleImage(), 3, 3, Pos(1, 1), fuel);
    SingleHoleRing();
  }

  /** The holed pixels of any rectangle containing the centre are just the centre. */
  lemma SingleHoleList(r: Rectangle, list: seq<Pos>)
    requires InRect(r, Pos(1, 1)) && IsHoleList(SingleHoleImage(), 3, 3, r, list)
    ensures list == [Pos(1, 1)]
  {
    forall p | InGrid(3, 3, p) && InRect(r, p) && At(SingleHoleImage(), p) == Sentinel
      ensures p in [Pos(1, 1)]
    {
      SingleHoleOnly(p);
    }
    assert IsHoleList(SingleHoleImage(), 3, 3, r, [Pos(1, 1)]);
    HoleListUnique(SingleHoleImage(), 3, 3, r, list, [Pos(1, 1)]);
  }

  /**
   * A hole found in the image, with the boundary the trace gives, its
   * covering rectangle and that rectangle's hole list, has eight boundary
   * pixels and one holed pixel.
   */
  lemma SingleHoleFound(fuel: nat, h: Hole)
    requires fuel >= 7
    requires TraceOf(SingleHoleImage(), 3, 3, fuel) == Traced(h.boundary)
    requires h.coveringRectangle == CoveringRectangleOf(h.boundary, 3, 3)
    requires IsHoleList(SingleHoleImage(), 3, 3, h.coveringRectangle, h.holePixels)
    ensures |h.boundary| == 8 && h.holePixels == [Pos(1, 1)]
  {
    SingleHoleTrace(fuel);
    SingleHoleRectangle();
    SingleHoleList(h.coveringRectangle, h.holePixels);
  }

  /** The covering rectangle of the ring is the whole image. */
  lemma SingleHoleRectangle()
    ensures CoveringRectangleOf([Pos(1, 0), Pos(0, 0), Pos(0, 1), Pos(0, 2), Pos(1, 2), Pos(2, 2), Pos(2, 1), Pos(2, 0)], 3, 3)
      == Rectangle(Pos(0, 0), Pos(2, 2), Pos(0, 2), Pos(2, 0))
  {
    var b := [Pos(1, 0), Pos(0, 0), Pos(0, 1), Pos(0, 2), Pos(1, 2), Pos(2, 2), Pos(2, 1), Pos(2, 0)];
    CoveringRectangleIsBoundingBox(b, 3, 3);
    assert b[1] == Pos(0, 0) && b[5] == Pos(2, 2);
  }

  /** A turn whose candidate is not holed and not yet on the boundary, when the loop does not stop there. */
  lemma LoopStepAdds(g: Samples, lenX: nat, lenY: nat, first: Pos, st: TraceState, q: Pos, dir: int,
                     st1: TraceState, fuel: nat, fuel1: nat)
    requires IsGrid(g, lenX, lenY) && (lenX >= 2 || lenY >= 2) && StateInGrid(lenX, lenY, st)
    requires At(g, st.boundaryPixel) != Sentinel && st.boundaryPixel !in st.boundary
    requires !(st.boundaryPixel == first && st.direction - 1 == West) && fuel == fuel1 + 1
    requires NextClockwise(lenX, lenY, st.holePixel, st.direction) == (q, dir)
    requires st1 == TraceState(st.holePixel, q, dir, st.boundary + [st.boundaryPixel])
    ensures StateInGrid(lenX, lenY, st1)
    ensures TraceLoop(g, lenX, lenY, West, first, st, fuel) == TraceLoop(g, lenX, lenY, West, first, st1, fuel1)
  {
    TraceLoopNext(g, lenX, lenY, West, first, st, fuel, fuel1);
  }

  /** A 4x5 image whose only holed pixel, `(3, 2)`, is in the last row. */
  function LastRowHoleImage(): (g: Samples)
    ensures IsGrid(g, 4, 5) && Normalized(g)
  {
    [[0.1, 0.2, 0.3, 0.4, 0.5], [0.1, 0.2, 0.3, 0.4, 0.5], [0.1, 0.2, 0.3, 0.4, 0.5], [0.1, 0.2, Sentinel, 0.4, 0.5]]
  }

  /** `(3, 2)` is the only holed pixel of the image. */
  lemma LastRowHoleOnly(p: Pos)
    requires InGrid(4, 5, p) && At(LastRowHoleImage(), p) == Sentinel
    ensures p == Pos(3, 2)
  {
  }

  /** `(3, 2)` is the first holed pixel, and the only one. */
  lemma LastRowHoleFirst()
    ensures forall p :: IsFirstHole(LastRowHoleImage(), 4, 5, p) <==> p == Pos(3, 2)
  {
    var g := LastRowHoleImage();
    forall p | IsFirstHole(g, 4, 5, p)
      ensures p == Pos(3, 2)
    {
      LastRowHoleOnly(p);
    }
    forall q | InGrid(4, 5, q) && Before(q, Pos(3, 2))
      ensures At(g, q) != Sentinel
    {
      if At(g, q) == Sentinel {
        LastRowHoleOnly(q);
      }
    }
  }

  /** Tracing the image starts at `(3, 2)`, looking West. */
  lemma LastRowHoleSeed(fuel: nat)
    ensures TraceOf(LastRowHoleImage(), 4, 5, fuel) == TraceSpec(LastRowHoleImage(), 4, 5, Pos(3, 2), West, fuel)
  {
    LastRowHoleFirst();
    TraceOfSeed(LastRowHoleImage(), 4, 5, Pos(3, 2), West, fuel);
  }

  /** Looking West from `(3, 2)`, the search takes `(3, 1)`. */
  lemma LastRowHoleNextWest()
    ensures NextClockwise(4, 5, Pos(3, 2), West) == (Pos(3, 1), 1)
  {
    FirstClockwiseIsNext(4, 5, Pos(3, 2), West, 0, Pos(3, 1));
  }

  /** Looking North-West from `(3, 2)`, the search takes `(2, 1)`. */
  lemma LastRowHoleNextNorthWest()
    ensures NextClockwise(4, 5, Pos(3, 2), 1) == (Pos(2, 1), 2)
  {
    FirstClockwiseIsNext(4, 5, Pos(3, 2), 1, 0, Pos(2, 1));
  }

  /** The trace starts at the left neighbour `(3, 1)` and looks at `(2, 1)` next. */
  lemma LastRowHoleStart(fuel: nat)
    ensures StateInGrid(4, 5, TraceState(Pos(3, 2), Pos(2, 1), 2, [Pos(3, 1)]))
    ensures TraceSpec(LastRowHoleImage(), 4, 5, Pos(3, 2), West, fuel) ==
      TraceLoop(LastRowHoleImage(), 4, 5, West, Pos(3, 1), TraceState(Pos(3, 2), Pos(2, 1), 2, [Pos(3, 1)]), fuel)
  {
    LastRowHoleNextWest();
    LastRowHoleNextNorthWest();
  }

  /**
   * Looking South-East from a pixel of the last row that is not in the first
   * or last column, the search skips the three neighbours below the grid and
   * takes the left one, leaving the running direction one past West.
   */
  lemma LastRowSkip(lenX: int, lenY: int, p: Pos)
    requires lenX >= 2 && p.row == lenX - 1 && 1 <= p.col < lenY - 1
    ensures NextClockwise(lenX, lenY, p, 5) == (Step(p, 0), 1)
  {
    assert FirstClockwiseFrom(lenX, lenY, p, 5, 3, Step(p, 0));
    FirstClockwiseIsNext(lenX, lenY, p, 5, 3, Step(p, 0));
  }

  /** Turn 1: `(2, 1)` joins the boundary, `(2, 2)` is next. */
  lemma LastRowHoleTurn1(fuel: nat, fuel1: nat)
    requires fuel == fuel1 + 1
    ensures StateInGrid(4, 5, TraceState(Pos(3, 2), Pos(2, 1), 2, [Pos(3, 1)]))
    ensures TraceLoop(LastRowHoleImage(), 4, 5, West, Pos(3, 1), TraceState(Pos(3, 2), Pos(2, 1), 2, [Pos(3, 1)]), fuel) ==
      TraceLoop(LastRowHoleImage(), 4, 5, West, Pos(3, 1),
                TraceState(Pos(3, 2), Pos(2, 2), 3, [Pos(3, 1), Pos(2, 1)]), fuel1)
  {
    FirstClockwiseIsNext(4, 5, Pos(3, 2), 2, 0, Pos(2, 2));
    LoopStepAdds(LastRowHoleImage(), 4, 5, Pos(3, 1), TraceState(Pos(3, 2), Pos(2, 1), 2, [Pos(3, 1)]), Pos(2, 2), 3,
                 TraceState(Pos(3, 2), Pos(2, 2), 3, [Pos(3, 1), Pos(2, 1)]), fuel, fuel1);
  }

  /** Turn 2: `(2, 2)` joins the boundary, `(2, 3)` is next. */
  lemma LastRowHoleTurn2(fuel: nat, fuel1: nat)
    requires fuel == fuel1 + 1
    ensures StateInGrid(4, 5, TraceState(Pos(3, 2), Pos(2, 2), 3, [Pos(3, 1), Pos(2, 1)]))
    ensures TraceLoop(LastRowHoleImage(), 4, 5, West, Pos(3, 1),
                      TraceState(Pos(3, 2), Pos(2, 2), 3, [Pos(3, 1), Pos(2, 1)]), fuel) ==
      TraceLoop(LastRowHoleImage(), 4, 5, West, Pos(3, 1),
                TraceState(Pos(3, 2), Pos(2, 3), 4, [Pos(3, 1), Pos(2, 1), Pos(2, 2)]), fuel1)
  {
    FirstClockwiseIsNext(4, 5, Pos(3, 2), 3, 0, Pos(2, 3));
    LoopStepAdds(LastRowHoleImage(), 4, 5, Pos(3, 1), TraceState(Pos(3, 2), Pos(2, 2), 3, [Pos(3, 1), Pos(2, 1)]),
                 Pos(2, 3), 4, TraceState(Pos(3, 2), Pos(2, 3), 4, [Pos(3, 1), Pos(2, 1), Pos(2, 2)]), fuel, fuel1);
  }

  /** Turn 3: `(2, 3)` joins the boundary, `(3, 3)` is next. */
  lemma LastRowHoleTurn3(fuel: nat, fuel1: nat)
    requires fuel == fuel1 + 1
    ensures StateInGrid(4, 5, TraceState(Pos(3, 2), Pos(2, 3), 4, [Pos(3, 1), Pos(2, 1), Pos(2, 2)]))
    ensures TraceLoop(LastRowHoleImage(), 4, 5, West, Pos(3, 1),
                      TraceState(Pos(3, 2), Pos(2, 3), 4, [Pos(3, 1), Pos(2, 1), Pos(2, 2)]), fuel) ==
      TraceLoop(LastRowHoleImage(), 4, 5, West, Pos(3, 1),
                TraceState(Pos(3, 2), Pos(3, 3), 5, [Pos(3, 1), Pos(2, 1), Pos(2, 2), Pos(2, 3)]), fuel1)
  {
    FirstClockwiseIsNext(4, 5, Pos(3, 2), 4, 0, Pos(3, 3));
    LoopStepAdds(LastRowHoleImage(), 4, 5, Pos(3, 1),
                 TraceState(Pos(3, 2), Pos(2, 3), 4, [Pos(3, 1), Pos(2, 1), Pos(2, 2)]), Pos(3, 3), 5,
                 TraceState(Pos(3, 2), Pos(3, 3), 5, [Pos(3, 1), Pos(2, 1), Pos(2, 2), Pos(2, 3)]), fuel, fuel1);
  }

  /**
   * Turn 4: `(3, 3)` joins the boundary; the three neighbours below the last
   * row are skipped, and the search comes back to `(3, 1)` looking one past West.
   */
  lemma LastRowHoleTurn4(fuel: nat, fuel1: nat)
    requires fuel == fuel1 + 1
    ensures StateInGrid(4, 5, TraceState(Pos(3, 2), Pos(3, 3), 5, [Pos(3, 1), Pos(2, 1), Pos(2, 2), Pos(2, 3)]))
    ensures TraceLoop(LastRowHoleImage(), 4, 5, West, Pos(3, 1),
                      TraceState(Pos(3, 2), Pos(3, 3), 5, [Pos(3, 1), Pos(2, 1), Pos(2, 2), Pos(2, 3)]), fuel) ==
      TraceLoop(LastRowHoleImage(), 4, 5, West, Pos(3, 1),
                TraceState(Pos(3, 2), Pos(3, 1), 1, [Pos(3, 1), Pos(2, 1), Pos(2, 2), Pos(2, 3), Pos(3, 3)]), fuel1)
  {
    LastRowSkip(4, 5, Pos(3, 2));
    LoopStepAdds(LastRowHoleImage(), 4, 5, Pos(3, 1),
                 TraceState(Pos(3, 2), Pos(3, 3), 5, [Pos(3, 1), Pos(2, 1), Pos(2, 2), Pos(2, 3)]), Pos(3, 1), 1,
                 TraceState(Pos(3, 2), Pos(3, 1), 1, [Pos(3, 1), Pos(2, 1), Pos(2, 2), Pos(2, 3), Pos(3, 3)]),
                 fuel, fuel1);
  }

  /**
   * With fuel for at least four turns, tracing the image gives the five
   * neighbours of `(3, 2)` inside the grid, clockwise from the left one.
   */
  lemma LastRowHoleTrace(fuel: nat)
    requires fuel >= 4
    ensures TraceOf(LastRowHoleImage(), 4, 5, fuel) == Traced([Pos(3, 1), Pos(2, 1), Pos(2, 2), Pos(2, 3), Pos(3, 3)])
  {
    LastRowHoleSeed(fuel);
    LastRowHoleStart(fuel);
    LastRowHoleRound(fuel, fuel - 1, fuel - 2, fuel - 3, fuel - 4);
  }

  /** The four turns and the stop, one unit of fuel each turn. */
  lemma LastRowHoleRound(f1: nat, f2: nat, f3: nat, f4: nat, f5: nat)
    requires f1 == f2 + 1 && f2 == f3 + 1 && f3 == f4 + 1 && f4 == f5 + 1
    ensures StateInGrid(4, 5, TraceState(Pos(3, 2), Pos(2, 1), 2, [Pos(3, 1)]))
    ensures TraceLoop(LastRowHoleImage(), 4, 5, West, Pos(3, 1), TraceState(Pos(3, 2), Pos(2, 1), 2, [Pos(3, 1)]), f1) ==
      Traced([Pos(3, 1), Pos(2, 1), Pos(2, 2), Pos(2, 3), Pos(3, 3)])
  {
    LastRowHoleTurn1(f1, f2);
    LastRowHoleTurn2(f2, f3);
    LastRowHoleTurn3(f3, f4);
    LastRowHoleTurn4(f4, f5);
  }

  /** The covering rectangle of the traced boundary: rows 2..3, columns 1..3. */
  lemma LastRowHoleRectangle()
    ensures CoveringRectangleOf([Pos(3, 1), Pos(2, 1), Pos(2, 2), Pos(2, 3), Pos(3, 3)], 4, 5) ==
      Rectangle(Pos(2, 1), Pos(3, 3), Pos(2, 3), Pos(3, 1))
  {
    var b := [Pos(3, 1), Pos(2, 1), Pos(2, 2), Pos(2, 3), Pos(3, 3)];
    CoveringRectangleIsBoundingBox(b, 4, 5);
    assert forall k :: 0 <= k < |b| ==> 2 <= b[k].row <= 3 && 1 <= b[k].col <= 3;
    assert b[1].row == 2 && b[0].row == 3 && b[0].col == 1 && b[3].col == 3;
  }

  /**
   * The hole of `LastRowHoleImage` spans rows 2..3 and columns 1..3, a
   * covering rectangle with no holed corner.  So the connected fill goes
   * ahead, its spiral walk reaches the holed pixel `(3, 2)` in the last row,
   * and there the neighbour lookup as written throws.
   */
  lemma LastRowHoleAsWrittenThrows(fuel: nat)
    requires fuel >= 4
    ensures TraceOf(LastRowHoleImage(), 4, 5, fuel).Traced?
    ensures var r := CoveringRectangleOf(TraceOf(LastRowHoleImage(), 4, 5, fuel).boundary, 4, 5);
      r == Rectangle(Pos(2, 1), Pos(3, 3), Pos(2, 3), Pos(3, 1)) &&
      !CornerHoled(LastRowHoleImage(), 4, 5, r) &&
      Pos(3, 2) in SpiralOf(2, 3, 1, 3) && At(LastRowHoleImage(), Pos(3, 2)) == Sentinel &&
      LookupThrowsAsWritten(4, 5, Pos(3, 2))
  {
    LastRowHoleTrace(fuel);
    LastRowHoleRectangle();
    SpiralCovers(2, 3, 1, 3, Pos(3, 2));
    LookupAsWrittenThrowsAtFarEdge(4, 5, Pos(3, 2));
  }
}
