/**
 * The trace of a hole in the top-left corner of a 7x7 image: the 2x2 block
 * of rows 0..1 and columns 0..1.  The first hole is in column 0, so the
 * trace starts from the end of the column-0 walk, `(0, 1)`, looking East; it
 * backtracks three times around the block and stops by Jacob's criterion
 * with a boundary of five pixels around a hole of four.
 */
module EdgeTraceExample {
  import opened Grid
  import opened Holes
  import opened MooreTrace
  import opened TraceExamples

  /** The 7x7 image of the corner-hole test. */
  function CornerHoleImage(): (g: Samples)
    ensures IsGrid(g, 7, 7)
  {
    [[Sentinel, Sentinel, 0.2, 0.2, 0.3, 0.4, 0.5],
     [Sentinel, Sentinel, 0.2, 0.2, 0.3, 0.4, 0.5],
     [0.1, 0.2, 0.3, 0.2, 0.3, 0.4, 0.5],
     [0.1, 0.2, 0.3, 0.2, 0.3, 0.4, 0.5],
     [0.1, 0.2, 0.3, 0.2, 0.3, 0.4, 0.5],
     [0.1, 0.2, 0.3, 0.2, 0.3, 0.4, 0.5],
     [0.1, 0.2, 0.3, 0.2, 0.3, 0.4, 0.5]]
  }

  /** The holed pixels are exactly those of the top-left 2x2 block. */
  lemma CornerHoleHoled(p: Pos)
    requires InGrid(7, 7, p)
    ensures At(CornerHoleImage(), p) == Sentinel <==> p.row < 2 && p.col < 2
  {
    var g := CornerHoleImage();
    if p.row < 2 {
      assert g[p.row] == [Sentinel, Sentinel, 0.2, 0.2, 0.3, 0.4, 0.5];
    } else {
      assert g[p.row] == [0.1, 0.2, 0.3, 0.2, 0.3, 0.4, 0.5];
    }
  }

  /**
   * A 7x7 image whose holed pixels are exactly those of the top-left 2x2
   * block.  The trace looks at samples only to tell holed from non-holed, so
   * the turns below hold for every such image.
   */
  ghost predicate CornerHoled(g: Samples)
  {
    IsGrid(g, 7, 7) && forall p :: InGrid(7, 7, p) ==> (At(g, p) == Sentinel <==> p.row < 2 && p.col < 2)
  }

  /** In such an image, the one pixel a turn looks at. */
  lemma CornerHoledAt(g: Samples, p: Pos)
    requires CornerHoled(g) && InGrid(7, 7, p)
    ensures At(g, p) == Sentinel <==> p.row < 2 && p.col < 2
  {
  }

  /** The corner test image is such an image. */
  lemma CornerHoleImageHoled()
    ensures CornerHoled(CornerHoleImage())
  {
    forall p | InGrid(7, 7, p)
      ensures At(CornerHoleImage(), p) == Sentinel <==> p.row < 2 && p.col < 2
    {
      CornerHoleHoled(p);
    }
  }

  /** `(0, 0)` is the first holed pixel. */
  lemma CornerHoleFirst()
    ensures forall p :: IsFirstHole(CornerHoleImage(), 7, 7, p) <==> p == Pos(0, 0)
  {
    CornerHoleHoled(Pos(0, 0));
    forall p | IsFirstHole(CornerHoleImage(), 7, 7, p)
      ensures p == Pos(0, 0)
    {
      assert !Before(Pos(0, 0), p);
    }
  }

  /** The column-0 walk from `(0, 0)` ends at `(0, 1)`, followed by the non-holed `(0, 2)`. */
  lemma CornerHoleEdgeSeed()
    ensures IsEdgeSeed(CornerHoleImage(), 7, 7, Pos(0, 0), Pos(0, 1))
    ensures NonHoleAfter(CornerHoleImage(), 7, 7, Pos(0, 0))
  {
    CornerHoleHoled(Pos(0, 0));
    CornerHoleHoled(Pos(0, 1));
    CornerHoleHoled(Pos(0, 2));
    forall q | InGrid(7, 7, q) && !Before(q, Pos(0, 0)) && !Before(Pos(0, 1), q)
      ensures At(CornerHoleImage(), q) == Sentinel
    {
      CornerHoleHoled(q);
    }
  }

  /** Tracing the image starts from `(0, 1)`, looking East. */
  lemma CornerHoleSeed(fuel: nat)
    ensures forall p :: IsFirstHole(CornerHoleImage(), 7, 7, p) && p.col == 0 ==> NonHoleAfter(CornerHoleImage(), 7, 7, p)
    ensures TraceOf(CornerHoleImage(), 7, 7, fuel) == TraceSpec(CornerHoleImage(), 7, 7, Pos(0, 1), East, fuel)
  {
    CornerHoleFirst();
    CornerHoleEdgeSeed();
    TraceOfSeed(CornerHoleImage(), 7, 7, Pos(0, 1), East, fuel);
  }

  /** The boundary found around the block, clockwise from `(0, 2)`. */
  function CornerBoundary(): seq<Pos>
  {
    [Pos(0, 2), Pos(1, 2), Pos(2, 2), Pos(2, 1), Pos(2, 0)]
  }

  /**
   * The state of the main loop before turn `i + 1`: the pixel searched
   * around, the candidate, the running direction and the boundary so far.
   * State 10 is the one Jacob's criterion stops on.
   */
  function CornerState(i: nat): (st: TraceState)
    requires i <= 10
    ensures StateInGrid(7, 7, st)
  {
    var b := CornerBoundary();
    if i == 0 then TraceState(Pos(0, 1), Pos(1, 2), 6, [Pos(0, 2)])
    else if i == 1 then TraceState(Pos(0, 1), Pos(1, 1), 7, [Pos(0, 2), Pos(1, 2)])
    else if i == 2 then TraceState(Pos(1, 1), Pos(1, 2), 5, [Pos(0, 2), Pos(1, 2)])
    else if i == 3 then TraceState(Pos(1, 1), Pos(2, 2), 6, [Pos(0, 2), Pos(1, 2)])
    else if i == 4 then TraceState(Pos(1, 1), Pos(2, 1), 7, [Pos(0, 2), Pos(1, 2), Pos(2, 2)])
    else if i == 5 then TraceState(Pos(1, 1), Pos(2, 0), 0, [Pos(0, 2), Pos(1, 2), Pos(2, 2), Pos(2, 1)])
    else if i == 6 then TraceState(Pos(1, 1), Pos(1, 0), 1, b)
    else if i == 7 then TraceState(Pos(1, 0), Pos(2, 0), 7, b)
    else if i == 8 then TraceState(Pos(1, 0), Pos(0, 0), 3, b)
    else if i == 9 then TraceState(Pos(0, 0), Pos(0, 1), 5, b)
    else TraceState(Pos(0, 1), Pos(0, 2), 5, b)
  }

  /**
   * When the first search around the seed takes the `ka`-th neighbour `a`
   * and the second the `kb`-th neighbour `b`, the trace is the loop from the
   * state they give.
   */
  lemma StartFrom(g: Samples, lenX: nat, lenY: nat, seed: Pos, start: int, a: Pos, ka: int, da: int,
                  b: Pos, kb: int, db: int, st: TraceState, fuel: nat)
    requires IsGrid(g, lenX, lenY) && (lenX >= 2 || lenY >= 2) && InGrid(lenX, lenY, seed) && 0 <= start < 8
    requires FirstClockwiseFrom(lenX, lenY, seed, start, ka, a) && da == (start + ka + 1) % 8
    requires FirstClockwiseFrom(lenX, lenY, seed, da, kb, b) && db == (da + kb + 1) % 8
    requires st == TraceState(seed, b, db, [a])
    ensures StateInGrid(lenX, lenY, st)
    ensures TraceSpec(g, lenX, lenY, seed, start, fuel) == TraceLoop(g, lenX, lenY, start, a, st, fuel)
  {
    FirstClockwiseIsNext(lenX, lenY, seed, start, ka, a);
    FirstClockwiseIsNext(lenX, lenY, seed, da, kb, b);
  }

  /** The trace starts at `(0, 2)` and looks at `(1, 2)` next. */
  lemma CornerHoleStart(g: Samples, seed: Pos, fuel: nat)
    requires g == CornerHoleImage() && seed == Pos(0, 1)
    ensures TraceSpec(g, 7, 7, seed, East, fuel) == TraceLoop(g, 7, 7, East, Pos(0, 2), CornerState(0), fuel)
  {
    StartFrom(g, 7, 7, seed, East, Pos(0, 2), 0, 5, Pos(1, 2), 0, 6, CornerState(0), fuel);
  }

  /**
   * Looking South-West from a pixel of column 0 below the first row, the
   * search skips the three neighbours left of the grid and takes the one above.
   */
  lemma LeftColumnSkip(lenX: int, lenY: int, p: Pos)
    requires lenY >= 1 && p.col == 0 && 1 <= p.row < lenX
    ensures FirstClockwiseFrom(lenX, lenY, p, 7, 3, Step(p, 2))
  {
    assert Clockwise(p, 7, 0) == Step(p, 7);
    assert Clockwise(p, 7, 1) == Step(p, 0);
    assert Clockwise(p, 7, 2) == Step(p, 1);
    assert Clockwise(p, 7, 3) == Step(p, 2);
  }

  /**
   * Looking West from the top-left pixel, the search skips the four
   * neighbours outside the grid and takes the right one.
   */
  lemma CornerSkip(lenX: int, lenY: int, p: Pos)
    requires lenX >= 1 && lenY >= 2 && 0 <= p.row < 1 && 0 <= p.col < 1
    ensures FirstClockwiseFrom(lenX, lenY, p, 0, 4, Step(p, 4))
  {
  }

  /**
   * Looking North from a pixel of the first row left of the last column, the
   * search skips the two neighbours above the grid and takes the right one.
   */
  lemma TopRowSkip(lenX: int, lenY: int, p: Pos)
    requires lenX >= 1 && p.row == 0 && 0 <= p.col < lenY - 1
    ensures FirstClockwiseFrom(lenX, lenY, p, 2, 2, Step(p, 4))
  {
    assert Clockwise(p, 2, 0) == Step(p, 2);
    assert Clockwise(p, 2, 1) == Step(p, 3);
    assert Clockwise(p, 2, 2) == Step(p, 4);
  }

  /** Looking South from a pixel above the last row, the search takes the one below. */
  lemma SouthFirst(lenX: int, lenY: int, p: Pos)
    requires 0 <= p.row < lenX - 1 && 0 <= p.col < lenY
    ensures FirstClockwiseFrom(lenX, lenY, p, 6, 0, Step(p, 6))
  {
    assert Clockwise(p, 6, 0) == Step(p, 6);
  }

  /** A turn whose candidate is not holed, when the loop does not stop there. */
  lemma StepKeeps(g: Samples, lenX: nat, lenY: nat, start: int, first: Pos, st: TraceState, p: Pos, d0: int, k: int,
                  q: Pos, dir: int, st1: TraceState, fuel: nat, fuel1: nat)
    requires IsGrid(g, lenX, lenY) && (lenX >= 2 || lenY >= 2) && StateInGrid(lenX, lenY, st)
    requires At(g, st.boundaryPixel) != Sentinel
    requires !(st.boundaryPixel == first && st.direction - 1 == start) && fuel == fuel1 + 1
    requires p == st.holePixel && d0 == st.direction
    requires FirstClockwiseFrom(lenX, lenY, p, d0, k, q) && dir == (d0 + k + 1) % 8
    requires st1 == TraceState(st.holePixel, q, dir,
                               if st.boundaryPixel in st.boundary then st.boundary else st.boundary + [st.boundaryPixel])
    ensures StateInGrid(lenX, lenY, st1)
    ensures TraceLoop(g, lenX, lenY, start, first, st, fuel) == TraceLoop(g, lenX, lenY, start, first, st1, fuel1)
  {
    FirstClockwiseIsNext(lenX, lenY, p, d0, k, q);
    assert TraceTurn(g, lenX, lenY, st) == st1;
    TraceLoopNext(g, lenX, lenY, start, first, st, fuel, fuel1);
  }

  /** A turn whose candidate is holed: a backtrack, and the search goes on around the candidate. */
  lemma StepBacktracks(g: Samples, lenX: nat, lenY: nat, start: int, first: Pos, st: TraceState, p: Pos, d0: int,
                       k: int, q: Pos, dir: int, st1: TraceState, fuel: nat, fuel1: nat)
    requires IsGrid(g, lenX, lenY) && (lenX >= 2 || lenY >= 2) && StateInGrid(lenX, lenY, st)
    requires At(g, st.boundaryPixel) == Sentinel
    requires !(st.boundaryPixel == first && st.direction - 1 == start) && fuel == fuel1 + 1
    requires p == st.boundaryPixel && d0 == BacktrackDirection(st.direction)
    requires FirstClockwiseFrom(lenX, lenY, p, d0, k, q) && dir == (d0 + k + 1) % 8
    requires st1 == TraceState(st.boundaryPixel, q, dir, st.boundary)
    ensures StateInGrid(lenX, lenY, st1)
    ensures TraceLoop(g, lenX, lenY, start, first, st, fuel) == TraceLoop(g, lenX, lenY, start, first, st1, fuel1)
  {
    FirstClockwiseIsNext(lenX, lenY, p, d0, k, q);
    assert TraceTurn(g, lenX, lenY, st) == st1;
    TraceLoopNext(g, lenX, lenY, start, first, st, fuel, fuel1);
  }

  /**
   * A turn on a non-holed candidate around a pixel of column 0 below the
   * first row, looking South-West: the next candidate is the pixel above.
   */
  lemma LeftColumnKeeps(g: Samples, lenX: nat, lenY: nat, start: int, first: Pos, st: TraceState, st1: TraceState,
                        fuel: nat, fuel1: nat)
    requires IsGrid(g, lenX, lenY) && lenY >= 1 && StateInGrid(lenX, lenY, st)
    requires At(g, st.boundaryPixel) != Sentinel
    requires !(st.boundaryPixel == first && st.direction - 1 == start) && fuel == fuel1 + 1
    requires st.holePixel.col == 0 && 1 <= st.holePixel.row && st.direction == 7
    requires st1 == TraceState(st.holePixel, Pos(st.holePixel.row - 1, 0), 3,
                               if st.boundaryPixel in st.boundary then st.boundary else st.boundary + [st.boundaryPixel])
    ensures TraceLoop(g, lenX, lenY, start, first, st, fuel) == TraceLoop(g, lenX, lenY, start, first, st1, fuel1)
  {
    var p := st.holePixel;
    LeftColumnSkip(lenX, lenY, p);
    StepKeeps(g, lenX, lenY, start, first, st, p, 7, 3, Step(p, 2), 3, st1, fuel, fuel1);
  }

  /** A backtrack looking South from a pixel above the last row: the next candidate is the pixel below. */
  lemma SouthBacktracks(g: Samples, lenX: nat, lenY: nat, start: int, first: Pos, st: TraceState, st1: TraceState,
                        fuel: nat, fuel1: nat)
    requires IsGrid(g, lenX, lenY) && StateInGrid(lenX, lenY, st)
    requires At(g, st.boundaryPixel) == Sentinel
    requires !(st.boundaryPixel == first && st.direction - 1 == start) && fuel == fuel1 + 1
    requires st.boundaryPixel.row < lenX - 1 && BacktrackDirection(st.direction) == 6
    requires st1 == TraceState(st.boundaryPixel, Pos(st.boundaryPixel.row + 1, st.boundaryPixel.col), 7, st.boundary)
    ensures TraceLoop(g, lenX, lenY, start, first, st, fuel) == TraceLoop(g, lenX, lenY, start, first, st1, fuel1)
  {
    var p := st.boundaryPixel;
    SouthFirst(lenX, lenY, p);
    StepBacktracks(g, lenX, lenY, start, first, st, p, 6, 0, Step(p, 6), 7, st1, fuel, fuel1);
  }

  /** A backtrack onto the top-left pixel, looking West: the next candidate is the pixel to its right. */
  lemma CornerBacktracks(g: Samples, lenX: nat, lenY: nat, start: int, first: Pos, st: TraceState, st1: TraceState,
                         fuel: nat, fuel1: nat)
    requires IsGrid(g, lenX, lenY) && lenY >= 2 && StateInGrid(lenX, lenY, st)
    requires At(g, st.boundaryPixel) == Sentinel
    requires !(st.boundaryPixel == first && st.direction - 1 == start) && fuel == fuel1 + 1
    requires st.boundaryPixel.row < 1 && st.boundaryPixel.col < 1 && BacktrackDirection(st.direction) == 0
    requires st1 == TraceState(st.boundaryPixel, Pos(st.boundaryPixel.row, st.boundaryPixel.col + 1), 5, st.boundary)
    ensures TraceLoop(g, lenX, lenY, start, first, st, fuel) == TraceLoop(g, lenX, lenY, start, first, st1, fuel1)
  {
    var p := st.boundaryPixel;
    CornerSkip(lenX, lenY, p);
    StepBacktracks(g, lenX, lenY, start, first, st, p, 0, 4, Step(p, 4), 5, st1, fuel, fuel1);
  }

  /**
   * A backtrack onto a pixel of the first row left of the last column,
   * looking North: the next candidate is the pixel to its right.
   */
  lemma TopRowBacktracks(g: Samples, lenX: nat, lenY: nat, start: int, first: Pos, st: TraceState, st1: TraceState,
                         fuel: nat, fuel1: nat)
    requires IsGrid(g, lenX, lenY) && StateInGrid(lenX, lenY, st)
    requires At(g, st.boundaryPixel) == Sentinel
    requires !(st.boundaryPixel == first && st.direction - 1 == start) && fuel == fuel1 + 1
    requires st.boundaryPixel.row == 0 && st.boundaryPixel.col < lenY - 1 && BacktrackDirection(st.direction) == 2
    requires st1 == TraceState(st.boundaryPixel, Pos(0, st.boundaryPixel.col + 1), 5, st.boundary)
    ensures TraceLoop(g, lenX, lenY, start, first, st, fuel) == TraceLoop(g, lenX, lenY, start, first, st1, fuel1)
  {
    var p := st.boundaryPixel;
    TopRowSkip(lenX, lenY, p);
    StepBacktracks(g, lenX, lenY, start, first, st, p, 2, 2, Step(p, 4), 5, st1, fuel, fuel1);
  }

  /** Turn 1: `(1, 2)` joins the boundary; the holed `(1, 1)` is next. */
  lemma CornerTurn1(g: Samples, fuel: nat, fuel1: nat)
    requires IsGrid(g, 7, 7) && At(g, Pos(1, 2)) != Sentinel && fuel == fuel1 + 1
    ensures TraceLoop(g, 7, 7, East, Pos(0, 2), CornerState(0), fuel) ==
      TraceLoop(g, 7, 7, East, Pos(0, 2), CornerState(1), fuel1)
  {
    StepKeeps(g, 7, 7, East, Pos(0, 2), CornerState(0), Pos(0, 1), 6, 0, Pos(1, 1), 7, CornerState(1), fuel, fuel1);
  }

  /**
   * Turn 2: a straight backtrack onto `(1, 1)`, whose search finds `(1, 2)`
   * again.
   */
  lemma CornerTurn2(g: Samples, fuel: nat, fuel1: nat)
    requires IsGrid(g, 7, 7) && At(g, Pos(1, 1)) == Sentinel && fuel == fuel1 + 1
    ensures TraceLoop(g, 7, 7, East, Pos(0, 2), CornerState(1), fuel) ==
      TraceLoop(g, 7, 7, East, Pos(0, 2), CornerState(2), fuel1)
  {
    assert BacktrackDirection(CornerState(1).direction) == 4;
    StepBacktracks(g, 7, 7, East, Pos(0, 2), CornerState(1), Pos(1, 1), 4, 0, Pos(1, 2), 5, CornerState(2), fuel, fuel1);
  }

  /** Turn 3: `(1, 2)` is on the boundary already; `(2, 2)` is next. */
  lemma CornerTurn3(g: Samples, fuel: nat, fuel1: nat)
    requires IsGrid(g, 7, 7) && At(g, Pos(1, 2)) != Sentinel && fuel == fuel1 + 1
    ensures TraceLoop(g, 7, 7, East, Pos(0, 2), CornerState(2), fuel) ==
      TraceLoop(g, 7, 7, East, Pos(0, 2), CornerState(3), fuel1)
  {
    StepKeeps(g, 7, 7, East, Pos(0, 2), CornerState(2), Pos(1, 1), 5, 0, Pos(2, 2), 6, CornerState(3), fuel, fuel1);
  }

  /** Turn 4: `(2, 2)` joins the boundary; `(2, 1)` is next. */
  lemma CornerTurn4(g: Samples, fuel: nat, fuel1: nat)
    requires IsGrid(g, 7, 7) && At(g, Pos(2, 2)) != Sentinel && fuel == fuel1 + 1
    ensures TraceLoop(g, 7, 7, East, Pos(0, 2), CornerState(3), fuel) ==
      TraceLoop(g, 7, 7, East, Pos(0, 2), CornerState(4), fuel1)
  {
    StepKeeps(g, 7, 7, East, Pos(0, 2), CornerState(3), Pos(1, 1), 6, 0, Pos(2, 1), 7, CornerState(4), fuel, fuel1);
  }

  /** Turn 5: `(2, 1)` joins the boundary; `(2, 0)` is next. */
  lemma CornerTurn5(g: Samples, fuel: nat, fuel1: nat)
    requires IsGrid(g, 7, 7) && At(g, Pos(2, 1)) != Sentinel && fuel == fuel1 + 1
    ensures TraceLoop(g, 7, 7, East, Pos(0, 2), CornerState(4), fuel) ==
      TraceLoop(g, 7, 7, East, Pos(0, 2), CornerState(5), fuel1)
  {
    StepKeeps(g, 7, 7, East, Pos(0, 2), CornerState(4), Pos(1, 1), 7, 0, Pos(2, 0), 0, CornerState(5), fuel, fuel1);
  }

  /** Turn 6: `(2, 0)` joins the boundary; the holed `(1, 0)` is next. */
  lemma CornerTurn6(g: Samples, fuel: nat, fuel1: nat)
    requires IsGrid(g, 7, 7) && At(g, Pos(2, 0)) != Sentinel && fuel == fuel1 + 1
    ensures TraceLoop(g, 7, 7, East, Pos(0, 2), CornerState(5), fuel) ==
      TraceLoop(g, 7, 7, East, Pos(0, 2), CornerState(6), fuel1)
  {
    StepKeeps(g, 7, 7, East, Pos(0, 2), CornerState(5), Pos(1, 1), 0, 0, Pos(1, 0), 1, CornerState(6), fuel, fuel1);
  }

  /**
   * Turn 7: a straight backtrack onto `(1, 0)`, whose search finds `(2, 0)`
   * again.
   */
  lemma CornerTurn7(g: Samples, fuel: nat, fuel1: nat)
    requires IsGrid(g, 7, 7) && At(g, Pos(1, 0)) == Sentinel && fuel == fuel1 + 1
    ensures TraceLoop(g, 7, 7, East, Pos(0, 2), CornerState(6), fuel) ==
      TraceLoop(g, 7, 7, East, Pos(0, 2), CornerState(7), fuel1)
  {
    assert BacktrackDirection(CornerState(6).direction) == 6;
    SouthBacktracks(g, 7, 7, East, Pos(0, 2), CornerState(6), CornerState(7), fuel, fuel1);
  }

  /**
   * Turn 8: `(2, 0)` is on the boundary already; the three neighbours left
   * of column 0 are skipped and the holed `(0, 0)` is next.
   */
  lemma CornerTurn8(g: Samples, fuel: nat, fuel1: nat)
    requires IsGrid(g, 7, 7) && At(g, Pos(2, 0)) != Sentinel && fuel == fuel1 + 1
    ensures TraceLoop(g, 7, 7, East, Pos(0, 2), CornerState(7), fuel) ==
      TraceLoop(g, 7, 7, East, Pos(0, 2), CornerState(8), fuel1)
  {
    LeftColumnKeeps(g, 7, 7, East, Pos(0, 2), CornerState(7), CornerState(8), fuel, fuel1);
  }

  /**
   * Turn 9: a straight backtrack onto the corner `(0, 0)`; the four
   * neighbours outside the grid are skipped and the holed `(0, 1)` is next.
   */
  lemma CornerTurn9(g: Samples, fuel: nat, fuel1: nat)
    requires IsGrid(g, 7, 7) && At(g, Pos(0, 0)) == Sentinel && fuel == fuel1 + 1
    ensures TraceLoop(g, 7, 7, East, Pos(0, 2), CornerState(8), fuel) ==
      TraceLoop(g, 7, 7, East, Pos(0, 2), CornerState(9), fuel1)
  {
    assert BacktrackDirection(CornerState(8).direction) == 0;
    CornerBacktracks(g, 7, 7, East, Pos(0, 2), CornerState(8), CornerState(9), fuel, fuel1);
  }

  /**
   * Turn 10: a straight backtrack onto `(0, 1)`; the two neighbours above
   * the grid are skipped and the first boundary pixel `(0, 2)` is next, with
   * the running direction one past East.
   */
  lemma CornerTurn10(g: Samples, fuel: nat, fuel1: nat)
    requires IsGrid(g, 7, 7) && At(g, Pos(0, 1)) == Sentinel && fuel == fuel1 + 1
    ensures TraceLoop(g, 7, 7, East, Pos(0, 2), CornerState(9), fuel) ==
      TraceLoop(g, 7, 7, East, Pos(0, 2), CornerState(10), fuel1)
  {
    assert BacktrackDirection(CornerState(9).direction) == 2;
    TopRowBacktracks(g, 7, 7, East, Pos(0, 2), CornerState(9), CornerState(10), fuel, fuel1);
  }

  /** The loop stops on a state back on the first pixel, one direction past the start. */
  lemma StopHere(g: Samples, lenX: nat, lenY: nat, start: int, first: Pos, st: TraceState, fuel: nat)
    requires IsGrid(g, lenX, lenY) && (lenX >= 2 || lenY >= 2) && StateInGrid(lenX, lenY, st)
    requires st.boundaryPixel == first && st.direction - 1 == start
    ensures TraceLoop(g, lenX, lenY, start, first, st, fuel) == Traced(st.boundary)
  {
  }

  /** Turns 1 to 5, one unit of fuel each. */
  lemma CornerFirstHalf(g: Samples, f0: nat, f1: nat, f2: nat, f3: nat, f4: nat, f5: nat)
    requires CornerHoled(g)
    requires f0 == f1 + 1 && f1 == f2 + 1 && f2 == f3 + 1 && f3 == f4 + 1 && f4 == f5 + 1
    ensures TraceLoop(g, 7, 7, East, Pos(0, 2), CornerState(0), f0) ==
      TraceLoop(g, 7, 7, East, Pos(0, 2), CornerState(5), f5)
  {
    CornerHoledAt(g, Pos(1, 2));
    CornerTurn1(g, f0, f1);
    CornerHoledAt(g, Pos(1, 1));
    CornerTurn2(g, f1, f2);
    CornerHoledAt(g, Pos(1, 2));
    CornerTurn3(g, f2, f3);
    CornerHoledAt(g, Pos(2, 2));
    CornerTurn4(g, f3, f4);
    CornerHoledAt(g, Pos(2, 1));
    CornerTurn5(g, f4, f5);
  }

  /** Turns 6 to 10, one unit of fuel each. */
  lemma CornerSecondHalf(g: Samples, f5: nat, f6: nat, f7: nat, f8: nat, f9: nat, f10: nat)
    requires CornerHoled(g)
    requires f5 == f6 + 1 && f6 == f7 + 1 && f7 == f8 + 1 && f8 == f9 + 1 && f9 == f10 + 1
    ensures TraceLoop(g, 7, 7, East, Pos(0, 2), CornerState(5), f5) ==
      TraceLoop(g, 7, 7, East, Pos(0, 2), CornerState(10), f10)
  {
    CornerHoledAt(g, Pos(2, 0));
    CornerTurn6(g, f5, f6);
    CornerHoledAt(g, Pos(1, 0));
    CornerTurn7(g, f6, f7);
    CornerHoledAt(g, Pos(2, 0));
    CornerTurn8(g, f7, f8);
    CornerHoledAt(g, Pos(0, 0));
    CornerTurn9(g, f8, f9);
    CornerHoledAt(g, Pos(0, 1));
    CornerTurn10(g, f9, f10);
  }

  /**
   * State 10 is back on the first boundary pixel `(0, 2)` with the running
   * direction one past East, so Jacob's criterion stops the loop there.
   */
  lemma CornerStop(g: Samples, fuel: nat)
    requires CornerHoled(g)
    ensures TraceLoop(g, 7, 7, East, Pos(0, 2), CornerState(10), fuel) == Traced(CornerBoundary())
  {
    StopHere(g, 7, 7, East, Pos(0, 2), CornerState(10), fuel);
  }

  /** From state 5, with fuel for the last five turns, the loop ends with the five boundary pixels. */
  lemma CornerTail(g: Samples, f5: nat, f6: nat, f7: nat, f8: nat, f9: nat, f10: nat)
    requires CornerHoled(g)
    requires f5 == f6 + 1 && f6 == f7 + 1 && f7 == f8 + 1 && f8 == f9 + 1 && f9 == f10 + 1
    ensures TraceLoop(g, 7, 7, East, Pos(0, 2), CornerState(5), f5) == Traced(CornerBoundary())
  {
    CornerSecondHalf(g, f5, f6, f7, f8, f9, f10);
    CornerStop(g, f10);
  }

  /**
   * From the first state, with fuel for the ten turns, the loop ends with the
   * five boundary pixels, in every image holed like the corner test image.
   */
  lemma CornerLoop(g: Samples, fuel: nat)
    requires CornerHoled(g) && fuel >= 10
    ensures TraceLoop(g, 7, 7, East, Pos(0, 2), CornerState(0), fuel) == Traced(CornerBoundary())
  {
    var f1, f2, f3, f4, f5 := fuel - 1, fuel - 2, fuel - 3, fuel - 4, fuel - 5;
    var f6, f7, f8, f9, f10 := f5 - 1, f5 - 2, f5 - 3, f5 - 4, f5 - 5;
    CornerFirstHalf(g, fuel, f1, f2, f3, f4, f5);
    CornerTail(g, f5, f6, f7, f8, f9, f10);
  }

  /**
   * Tracing the corner-hole image gives the five pixels around the 2x2 block,
   * clockwise from `(0, 2)`.
   */
  lemma CornerHoleTrace(fuel: nat)
    requires fuel >= 10
    ensures forall p :: IsFirstHole(CornerHoleImage(), 7, 7, p) && p.col == 0 ==> NonHoleAfter(CornerHoleImage(), 7, 7, p)
    ensures TraceOf(CornerHoleImage(), 7, 7, fuel) == Traced(CornerBoundary())
  {
    var g, seed := CornerHoleImage(), Pos(0, 1);
    CornerHoleSeed(fuel);
    CornerHoleStart(g, seed, fuel);
    CornerHoleImageHoled();
    CornerLoop(g, fuel);
  }

  /** The covering rectangle of the five boundary pixels: rows 0..2, columns 0..2. */
  lemma CornerHoleRectangle()
    ensures CoveringRectangleOf(CornerBoundary(), 7, 7) == Rectangle(Pos(0, 0), Pos(2, 2), Pos(0, 2), Pos(2, 0))
  {
    var b := CornerBoundary();
    CoveringRectangleIsBoundingBox(b, 7, 7);
    assert forall k :: 0 <= k < |b| ==> 0 <= b[k].row <= 2 && 0 <= b[k].col <= 2;
    assert b[0].row == 0 && b[2].row == 2 && b[4].col == 0 && b[0].col == 2;
  }

  /** The holed pixels of a rectangle holding the whole block are the block, in row-major order. */
  lemma CornerHoleList(r: Rectangle, list: seq<Pos>)
    requires InRect(r, Pos(0, 0)) && InRect(r, Pos(1, 1))
    requires IsHoleList(CornerHoleImage(), 7, 7, r, list)
    ensures list == [Pos(0, 0), Pos(0, 1), Pos(1, 0), Pos(1, 1)]
  {
    var block := [Pos(0, 0), Pos(0, 1), Pos(1, 0), Pos(1, 1)];
    forall p | InGrid(7, 7, p) && InRect(r, p) && At(CornerHoleImage(), p) == Sentinel
      ensures p in block
    {
      CornerHoleHoled(p);
    }
    forall k | 0 <= k < |block|
      ensures InRect(r, block[k]) && InGrid(7, 7, block[k]) && At(CornerHoleImage(), block[k]) == Sentinel
    {
      CornerHoleHoled(block[k]);
    }
    assert IsHoleList(CornerHoleImage(), 7, 7, r, block);
    HoleListUnique(CornerHoleImage(), 7, 7, r, list, block);
  }

  /**
   * A hole found in the corner-hole image, with the boundary the trace
   * gives, its covering rectangle and that rectangle's hole list, has five
   * boundary pixels and four holed pixels.  (The first requirement, which
   * the trace needs, holds: `CornerHoleTrace` proves it.)
   */
  lemma CornerHoleFound(fuel: nat, h: Hole)
    requires fuel >= 10
    requires forall p :: IsFirstHole(CornerHoleImage(), 7, 7, p) && p.col == 0 ==> NonHoleAfter(CornerHoleImage(), 7, 7, p)
    requires TraceOf(CornerHoleImage(), 7, 7, fuel) == Traced(h.boundary)
    requires h.coveringRectangle == CoveringRectangleOf(h.boundary, 7, 7)
    requires IsHoleList(CornerHoleImage(), 7, 7, h.coveringRectangle, h.holePixels)
    ensures |h.boundary| == 5 && |h.holePixels| == 4
    ensures h.holePixels == [Pos(0, 0), Pos(0, 1), Pos(1, 0), Pos(1, 1)]
  {
    CornerHoleTrace(fuel);
    CornerHoleRectangle();
    CornerHoleList(h.coveringRectangle, h.holePixels);
  }
}
