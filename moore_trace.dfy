/**
 * Moore-neighbour boundary tracing with backtracking and Jacob's stopping
 * criterion.  The tracer keeps its start direction and its running direction
 * in two fields that its helper methods update.
 */
module MooreTrace {
  import opened Wrappers
  import opened Grid
  import opened DistanceMeasures

  const West: int := 0
  const East: int := 4
  const BacktrackStraight: int := 5
  const BacktrackDiagonal: int := 4

  /** The result of a trace; `OutOfFuel` when the step budget ran out first. */
  datatype TraceResult = NoHole | Traced(boundary: seq<Pos>) | OutOfFuel

  /** Some pixel of the grid holds the sentinel. */
  ghost predicate HasHole(g: Samples, lenX: nat, lenY: nat)
    requires IsGrid(g, lenX, lenY)
  {
    exists q :: InGrid(lenX, lenY, q) && At(g, q) == Sentinel
  }

  /** `p` is the first holed pixel in row-major order. */
  ghost predicate IsFirstHole(g: Samples, lenX: nat, lenY: nat, p: Pos)
    requires IsGrid(g, lenX, lenY)
  {
    InGrid(lenX, lenY, p) && At(g, p) == Sentinel &&
    forall q :: InGrid(lenX, lenY, q) && Before(q, p) ==> At(g, q) != Sentinel
  }

  /** Some pixel after `p` in row-major order is not holed. */
  ghost predicate NonHoleAfter(g: Samples, lenX: nat, lenY: nat, p: Pos)
    requires IsGrid(g, lenX, lenY)
  {
    exists q :: InGrid(lenX, lenY, q) && Before(p, q) && At(g, q) != Sentinel
  }

  /** The offset table: distinct unit steps, each the negation of the one four places on. */
  lemma OffsetTable(d: int, e: int)
    requires 0 <= d < 8 && 0 <= e < 8
    ensures d != e ==> Offset(d) != Offset(e)
    ensures Offset((d + 4) % 8) == Pos(-Offset(d).row, -Offset(d).col)
    ensures Offset(d) != Pos(0, 0)
    ensures -1 <= Offset(d).row <= 1 && -1 <= Offset(d).col <= 1
  {
  }

  /** The direction after a backtrack: +5 from an odd index, +4 from an even one. */
  function BacktrackDirection(d: int): int
    requires 0 <= d < 8
  {
    if d % 2 == 1 then (d + BacktrackStraight) % 8 else (d + BacktrackDiagonal) % 8
  }

  /** A backtrack always lands on an even direction of the table. */
  lemma BacktrackIsEven(d: int)
    requires 0 <= d < 8
    ensures 0 <= BacktrackDirection(d) < 8 && BacktrackDirection(d) % 2 == 0
  {
  }

  /**
   * After a holed candidate was found in direction `d` (the running direction
   * is then `d + 1`), the backtracked direction, seen from the candidate,
   * points at the neighbour examined just before it.
   */
  lemma BacktrackPointsBack(p: Pos, d: int)
    requires 0 <= d < 8
    ensures Step(Step(p, d), BacktrackDirection((d + 1) % 8)) == Step(p, (d + 7) % 8)
  {
    if d == 0 { assert BacktrackDirection(1) == 6; }
    else if d == 1 { assert BacktrackDirection(2) == 6; }
    else if d == 2 { assert BacktrackDirection(3) == 0; }
    else if d == 3 { assert BacktrackDirection(4) == 0; }
    else if d == 4 { assert BacktrackDirection(5) == 2; }
    else if d == 5 { assert BacktrackDirection(6) == 2; }
    else if d == 6 { assert BacktrackDirection(7) == 4; }
    else { assert BacktrackDirection(0) == 4; }
  }

  /**
   * `q` is the first in-grid neighbour of `p` met clockwise from direction
   * `d0`, found `k` steps on.
   */
  predicate FirstClockwiseFrom(lenX: int, lenY: int, p: Pos, d0: int, k: int, q: Pos)
  {
    0 <= k < 8 && q == Clockwise(p, d0, k) && InGrid(lenX, lenY, q) &&
    forall j :: 0 <= j < k ==> !InGrid(lenX, lenY, Clockwise(p, d0, j))
  }

  /** The neighbour of `p` `j` directions clockwise from direction `d0`. */
  function Clockwise(p: Pos, d0: int, j: int): Pos
  {
    Step(p, (d0 + j) % 8)
  }

  /** A grid of two or more pixels gives every pixel an in-grid neighbour. */
  lemma NeighbourInGrid(lenX: int, lenY: int, p: Pos, d0: int)
    requires InGrid(lenX, lenY, p) && (lenX >= 2 || lenY >= 2) && 0 <= d0 < 8
    ensures exists j :: 0 <= j < 8 && InGrid(lenX, lenY, Clockwise(p, d0, j))
  {
    var e :=
      if lenY >= 2 then (if p.col >= 1 then 0 else 4)
      else (if p.row >= 1 then 2 else 6);
    var j := if e >= d0 then e - d0 else e - d0 + 8;
    assert d0 + j == e || d0 + j == e + 8;
    assert (d0 + j) % 8 == e;
    assert InGrid(lenX, lenY, Clockwise(p, d0, j));
  }

  /** One more direction found outside the grid extends the run of such directions. */
  lemma OutsideRunNext(lenX: int, lenY: int, p: Pos, d0: int, k: int)
    requires forall j :: 0 <= j < k ==> !InGrid(lenX, lenY, Clockwise(p, d0, j))
    requires !InGrid(lenX, lenY, Clockwise(p, d0, k))
    ensures forall j :: 0 <= j < k + 1 ==> !InGrid(lenX, lenY, Clockwise(p, d0, j))
  {
  }

  /**
   * One pass of the neighbour search: when the `k`-th neighbour clockwise is
   * outside the grid, the search moves to the `k + 1`-th, which still leaves
   * an in-grid neighbour ahead.
   */
  lemma ClockwiseAdvance(lenX: int, lenY: int, p: Pos, d0: int, k: int, k1: int, dir: int)
    requires 0 <= k < 8 && k1 == k + 1 && dir == (d0 + k + 1) % 8
    requires forall j :: 0 <= j < k ==> !InGrid(lenX, lenY, Clockwise(p, d0, j))
    requires exists j :: k <= j < 8 && InGrid(lenX, lenY, Clockwise(p, d0, j))
    requires !InGrid(lenX, lenY, Clockwise(p, d0, k))
    ensures 0 <= k1 < 8
    ensures Step(p, dir) == Clockwise(p, d0, k1) && (dir + 1) % 8 == (d0 + k1 + 1) % 8
    ensures forall j :: 0 <= j < k1 ==> !InGrid(lenX, lenY, Clockwise(p, d0, j))
    ensures exists j :: k1 <= j < 8 && InGrid(lenX, lenY, Clockwise(p, d0, j))
  {
    ClockwiseNext(p, d0, k, dir);
    OutsideRunNext(lenX, lenY, p, d0, k);
  }

  /** The search stops on the first in-grid neighbour, which is one step from `p`. */
  lemma ClockwiseFound(lenX: int, lenY: int, p: Pos, d0: int, k: int, q: Pos)
    requires 0 <= k < 8 && q == Clockwise(p, d0, k) && InGrid(lenX, lenY, q)
    requires forall j :: 0 <= j < k ==> !InGrid(lenX, lenY, Clockwise(p, d0, j))
    ensures FirstClockwiseFrom(lenX, lenY, p, d0, k, q) && ChebyshevDistance(p, q) == 1
  {
    NeighbourAtDistanceOne(p, (d0 + k) % 8);
  }

  /** Advancing the running direction by one moves to the next clockwise neighbour. */
  lemma ClockwiseNext(p: Pos, d0: int, k: int, dir: int)
    requires dir == (d0 + k + 1) % 8
    ensures Step(p, dir) == Clockwise(p, d0, k + 1)
    ensures (dir + 1) % 8 == (d0 + (k + 1) + 1) % 8
  {
    assert d0 + (k + 1) == d0 + k + 1;
  }

  /**
   * How far clockwise from direction `d0`, looking first at the `k`-th
   * neighbour of `p`, the search goes before it meets one in the grid; 8
   * when no neighbour from the `k`-th on is in the grid.
   */
  function ClockwiseSteps(lenX: int, lenY: int, p: Pos, d0: int, k: nat): (i: nat)
    requires k <= 8
    ensures k <= i <= 8
    ensures i < 8 ==> InGrid(lenX, lenY, Clockwise(p, d0, i))
    ensures forall j :: k <= j < i ==> !InGrid(lenX, lenY, Clockwise(p, d0, j))
    decreases 8 - k
  {
    if k == 8 || InGrid(lenX, lenY, Clockwise(p, d0, k)) then k
    else ClockwiseSteps(lenX, lenY, p, d0, k + 1)
  }

  /**
   * The neighbour search of the tracer as a function: the first in-grid
   * neighbour of `p` clockwise from `d0`, and the running direction left one
   * past the direction that reached it.
   */
  function NextClockwise(lenX: int, lenY: int, p: Pos, d0: int): (r: (Pos, int))
    requires InGrid(lenX, lenY, p) && (lenX >= 2 || lenY >= 2) && 0 <= d0 < 8
    ensures InGrid(lenX, lenY, r.0) && ChebyshevDistance(p, r.0) == 1 && 0 <= r.1 < 8
  {
    var i := ClockwiseSteps(lenX, lenY, p, d0, 0);
    ClockwiseStepsFind(lenX, lenY, p, d0);
    (Clockwise(p, d0, i), (d0 + i + 1) % 8)
  }

  /** In a grid of two or more pixels the search stops on a neighbour, one step away. */
  lemma ClockwiseStepsFind(lenX: int, lenY: int, p: Pos, d0: int)
    requires InGrid(lenX, lenY, p) && (lenX >= 2 || lenY >= 2) && 0 <= d0 < 8
    ensures var i := ClockwiseSteps(lenX, lenY, p, d0, 0);
      i < 8 && FirstClockwiseFrom(lenX, lenY, p, d0, i, Clockwise(p, d0, i)) &&
      ChebyshevDistance(p, Clockwise(p, d0, i)) == 1
  {
    var i := ClockwiseSteps(lenX, lenY, p, d0, 0);
    NeighbourInGrid(lenX, lenY, p, d0);
    var j :| 0 <= j < 8 && InGrid(lenX, lenY, Clockwise(p, d0, j));
    assert i <= j;
    ClockwiseFound(lenX, lenY, p, d0, i, Clockwise(p, d0, i));
  }

  /** The first in-grid neighbour clockwise is the one `NextClockwise` gives. */
  lemma FirstClockwiseIsNext(lenX: int, lenY: int, p: Pos, d0: int, k: int, q: Pos)
    requires InGrid(lenX, lenY, p) && (lenX >= 2 || lenY >= 2) && 0 <= d0 < 8
    requires FirstClockwiseFrom(lenX, lenY, p, d0, k, q)
    ensures NextClockwise(lenX, lenY, p, d0) == (q, (d0 + k + 1) % 8)
  {
    ClockwiseStepsFind(lenX, lenY, p, d0);
  }

  /** Some holed pixel of the grid is one step from `q`. */
  ghost predicate NextToHole(g: Samples, lenX: nat, lenY: nat, q: Pos)
    requires IsGrid(g, lenX, lenY)
  {
    exists h :: InGrid(lenX, lenY, h) && At(g, h) == Sentinel && ChebyshevDistance(h, q) == 1
  }

  /**
   * The state of the main loop of the trace: the pixel searched around, the
   * candidate found around it, the running direction and the boundary so far.
   */
  datatype TraceState = TraceState(holePixel: Pos, boundaryPixel: Pos, direction: int, boundary: seq<Pos>)

  /** The loop state is inside the grid and its direction is an index of the offset table. */
  predicate StateInGrid(lenX: int, lenY: int, st: TraceState)
  {
    InGrid(lenX, lenY, st.holePixel) && InGrid(lenX, lenY, st.boundaryPixel) && 0 <= st.direction < 8
  }

  /**
   * One turn of the main loop: a non-holed candidate joins the boundary
   * unless it is on it already, and a holed one becomes the pixel to search
   * around, after a backtrack; then the next candidate is searched for.
   */
  ghost function TraceTurn(g: Samples, lenX: nat, lenY: nat, st: TraceState): (next: TraceState)
    requires IsGrid(g, lenX, lenY) && (lenX >= 2 || lenY >= 2) && StateInGrid(lenX, lenY, st)
    ensures StateInGrid(lenX, lenY, next)
  {
    if At(g, st.boundaryPixel) != Sentinel then
      var next := NextClockwise(lenX, lenY, st.holePixel, st.direction);
      var grown := if st.boundaryPixel in st.boundary then st.boundary else st.boundary + [st.boundaryPixel];
      TraceState(st.holePixel, next.0, next.1, grown)
    else
      var next := NextClockwise(lenX, lenY, st.boundaryPixel, BacktrackDirection(st.direction));
      TraceState(st.boundaryPixel, next.0, next.1, st.boundary)
  }

  /**
   * A turn searches around a holed pixel, or the one it started from, finds
   * a candidate one step away, and adds to the boundary at most the previous
   * candidate, when it is not holed and not on the boundary yet.
   */
  lemma TraceTurnKeeps(g: Samples, lenX: nat, lenY: nat, st: TraceState)
    requires IsGrid(g, lenX, lenY) && (lenX >= 2 || lenY >= 2) && StateInGrid(lenX, lenY, st)
    ensures var next := TraceTurn(g, lenX, lenY, st);
      (At(g, next.holePixel) == Sentinel || next.holePixel == st.holePixel) &&
      ChebyshevDistance(next.holePixel, next.boundaryPixel) == 1 &&
      (next.boundary == st.boundary ||
       (next.boundary == st.boundary + [st.boundaryPixel] && st.boundaryPixel !in st.boundary &&
        At(g, st.boundaryPixel) != Sentinel))
  {
  }

  /**
   * The main loop of the trace as a function of its state: it stops when the
   * candidate is the first boundary pixel again and the running direction is
   * one past the start direction, and otherwise takes another turn while
   * steps are left.
   */
  ghost function TraceLoop(g: Samples, lenX: nat, lenY: nat, start: int, first: Pos, st: TraceState,
                           fuel: nat): TraceResult
    requires IsGrid(g, lenX, lenY) && (lenX >= 2 || lenY >= 2) && StateInGrid(lenX, lenY, st)
    decreases fuel
  {
    if st.boundaryPixel == first && st.direction - 1 == start then Traced(st.boundary)
    else if fuel == 0 then OutOfFuel
    else TraceLoop(g, lenX, lenY, start, first, TraceTurn(g, lenX, lenY, st), fuel - 1)
  }

  /** One turn of the loop that does not stop it. */
  lemma TraceLoopNext(g: Samples, lenX: nat, lenY: nat, start: int, first: Pos, st: TraceState,
                      fuel: nat, fuel1: nat)
    requires IsGrid(g, lenX, lenY) && (lenX >= 2 || lenY >= 2) && StateInGrid(lenX, lenY, st)
    requires !(st.boundaryPixel == first && st.direction - 1 == start) && fuel == fuel1 + 1
    ensures TraceLoop(g, lenX, lenY, start, first, st, fuel) ==
      TraceLoop(g, lenX, lenY, start, first, TraceTurn(g, lenX, lenY, st), fuel1)
  {
  }

  /**
   * What a boundary traced from first pixel `first` is: non-empty, starting
   * with `first`, free of repeats, inside the grid, not holed after its
   * first pixel, and every pixel of it one step from a holed pixel.
   */
  ghost predicate TracedBoundary(g: Samples, lenX: nat, lenY: nat, first: Pos, b: seq<Pos>)
    requires IsGrid(g, lenX, lenY)
  {
    |b| >= 1 && b[0] == first && Distinct(b) && AllInGrid(lenX, lenY, b) &&
    (forall k :: 1 <= k < |b| ==> At(g, b[k]) != Sentinel) &&
    (forall k :: 0 <= k < |b| ==> NextToHole(g, lenX, lenY, b[k]))
  }

  /** The invariant of the main loop: a holed pixel searched around, a candidate next to it. */
  ghost predicate TraceInvariant(g: Samples, lenX: nat, lenY: nat, first: Pos, st: TraceState)
    requires IsGrid(g, lenX, lenY)
  {
    StateInGrid(lenX, lenY, st) && At(g, st.holePixel) == Sentinel &&
    ChebyshevDistance(st.holePixel, st.boundaryPixel) == 1 &&
    TracedBoundary(g, lenX, lenY, first, st.boundary)
  }

  /** A turn of the loop keeps its invariant. */
  lemma TraceTurnInvariant(g: Samples, lenX: nat, lenY: nat, first: Pos, st: TraceState)
    requires IsGrid(g, lenX, lenY) && (lenX >= 2 || lenY >= 2) && TraceInvariant(g, lenX, lenY, first, st)
    ensures TraceInvariant(g, lenX, lenY, first, TraceTurn(g, lenX, lenY, st))
  {
    TraceTurnKeeps(g, lenX, lenY, st);
    assert NextToHole(g, lenX, lenY, st.boundaryPixel) by {
      assert InGrid(lenX, lenY, st.holePixel) && At(g, st.holePixel) == Sentinel;
    }
  }

  /** The loop never reports a missing hole, and a boundary it returns is a traced boundary. */
  lemma {:induction false} TraceLoopInvariant(g: Samples, lenX: nat, lenY: nat, start: int, first: Pos,
                                              st: TraceState, fuel: nat)
    requires IsGrid(g, lenX, lenY) && (lenX >= 2 || lenY >= 2) && TraceInvariant(g, lenX, lenY, first, st)
    ensures var r := TraceLoop(g, lenX, lenY, start, first, st, fuel);
      !r.NoHole? && (r.Traced? ==> TracedBoundary(g, lenX, lenY, first, r.boundary))
    decreases fuel
  {
    if !(st.boundaryPixel == first && st.direction - 1 == start) && fuel > 0 {
      var next := TraceTurn(g, lenX, lenY, st);
      TraceTurnInvariant(g, lenX, lenY, first, st);
      TraceLoopNext(g, lenX, lenY, start, first, st, fuel, fuel - 1);
      TraceLoopInvariant(g, lenX, lenY, start, first, next, fuel - 1);
    }
  }

  /**
   * A trace from `seed` with start direction `start`: the first neighbour
   * found is the first boundary pixel, and the search for the next candidate
   * goes on from there.
   */
  ghost function TraceSpec(g: Samples, lenX: nat, lenY: nat, seed: Pos, start: int, fuel: nat): TraceResult
    requires IsGrid(g, lenX, lenY) && (lenX >= 2 || lenY >= 2)
    requires InGrid(lenX, lenY, seed) && 0 <= start < 8
  {
    var first := NextClockwise(lenX, lenY, seed, start);
    var candidate := NextClockwise(lenX, lenY, seed, first.1);
    TraceLoop(g, lenX, lenY, start, first.0, TraceState(seed, candidate.0, candidate.1, [first.0]), fuel)
  }

  /** The row-major successor of `p`, or none for the last pixel. */
  function GetNextPixel(lenX: int, lenY: int, p: Pos): (r: Option<Pos>)
    requires InGrid(lenX, lenY, p)
    ensures r.None? <==> (p.row == lenX - 1 && p.col == lenY - 1)
    ensures r.Some? ==> InGrid(lenX, lenY, r.value) && Before(p, r.value)
    ensures r.Some? ==> forall q :: InGrid(lenX, lenY, q) && Before(p, q) ==> q == r.value || Before(r.value, q)
  {
    if p.col + 1 < lenY then Some(Pos(p.row, p.col + 1))
    else if p.row + 1 < lenX then Some(Pos(p.row + 1, 0))
    else None
  }

  /** The seed after the column-0 correction, starting from the first holed pixel `first`. */
  ghost predicate IsEdgeSeed(g: Samples, lenX: nat, lenY: nat, first: Pos, seed: Pos)
    requires IsGrid(g, lenX, lenY)
  {
    InGrid(lenX, lenY, seed) && At(g, seed) == Sentinel && !Before(seed, first) &&
    (forall q :: InGrid(lenX, lenY, q) && !Before(q, first) && !Before(seed, q) ==> At(g, q) == Sentinel) &&
    GetNextPixel(lenX, lenY, seed).Some? && At(g, GetNextPixel(lenX, lenY, seed).value) != Sentinel
  }

  /**
   * A trace from a holed seed never reports a missing hole, and a boundary
   * it returns starts with the first in-grid neighbour of the seed.
   */
  lemma TraceSpecInvariant(g: Samples, lenX: nat, lenY: nat, seed: Pos, start: int, fuel: nat)
    requires IsGrid(g, lenX, lenY) && (lenX >= 2 || lenY >= 2)
    requires InGrid(lenX, lenY, seed) && At(g, seed) == Sentinel && 0 <= start < 8
    ensures var r := TraceSpec(g, lenX, lenY, seed, start, fuel);
      !r.NoHole? && (r.Traced? ==> TracedBoundary(g, lenX, lenY, NextClockwise(lenX, lenY, seed, start).0, r.boundary))
  {
    var first := NextClockwise(lenX, lenY, seed, start);
    var candidate := NextClockwise(lenX, lenY, seed, first.1);
    assert NextToHole(g, lenX, lenY, first.0) by {
      assert InGrid(lenX, lenY, seed) && At(g, seed) == Sentinel;
    }
    TraceLoopInvariant(g, lenX, lenY, start, first.0, TraceState(seed, candidate.0, candidate.1, [first.0]), fuel);
  }

  /** A grid with a holed pixel has a first one. */
  lemma {:induction false} FirstHoleExists(g: Samples, lenX: nat, lenY: nat, q: Pos)
    requires IsGrid(g, lenX, lenY) && InGrid(lenX, lenY, q) && At(g, q) == Sentinel
    ensures exists p :: IsFirstHole(g, lenX, lenY, p)
    decreases q.row, q.col
  {
    if !IsFirstHole(g, lenX, lenY, q) {
      var r :| InGrid(lenX, lenY, r) && Before(r, q) && At(g, r) == Sentinel;
      FirstHoleExists(g, lenX, lenY, r);
    }
  }

  /**
   * From a holed pixel `cur` at or after the first hole, with every pixel
   * between them holed and a non-holed pixel somewhere after it, the
   * column-0 walk has an end.
   */
  lemma {:induction false} EdgeSeedExists(g: Samples, lenX: nat, lenY: nat, first: Pos, cur: Pos)
    requires IsGrid(g, lenX, lenY)
    requires InGrid(lenX, lenY, cur) && At(g, cur) == Sentinel && !Before(cur, first)
    requires forall q :: InGrid(lenX, lenY, q) && !Before(q, first) && !Before(cur, q) ==> At(g, q) == Sentinel
    requires NonHoleAfter(g, lenX, lenY, cur)
    ensures exists seed :: IsEdgeSeed(g, lenX, lenY, first, seed)
    decreases lenX - cur.row, lenY - cur.col
  {
    var w :| InGrid(lenX, lenY, w) && Before(cur, w) && At(g, w) != Sentinel;
    var next := GetNextPixel(lenX, lenY, cur);
    if At(g, next.value) == Sentinel {
      assert Before(next.value, w);
      EdgeSeedExists(g, lenX, lenY, first, next.value);
    } else {
      assert IsEdgeSeed(g, lenX, lenY, first, cur);
    }
  }

  /** The end of the column-0 walk is unique. */
  lemma EdgeSeedUnique(g: Samples, lenX: nat, lenY: nat, first: Pos, s1: Pos, s2: Pos)
    requires IsGrid(g, lenX, lenY)
    requires IsEdgeSeed(g, lenX, lenY, first, s1) && IsEdgeSeed(g, lenX, lenY, first, s2)
    ensures s1 == s2
  {
  }

  /**
   * A holed grid whose first hole, when in column 0, has a non-holed pixel
   * after it has at least two pixels: a one-pixel holed grid has its only
   * hole in column 0 with nothing after it.
   */
  lemma HoledGridIsLarge(g: Samples, lenX: nat, lenY: nat)
    requires IsGrid(g, lenX, lenY) && HasHole(g, lenX, lenY)
    requires forall p :: IsFirstHole(g, lenX, lenY, p) && p.col == 0 ==> NonHoleAfter(g, lenX, lenY, p)
    ensures lenX >= 2 || lenY >= 2
  {
    var q :| InGrid(lenX, lenY, q) && At(g, q) == Sentinel;
    FirstHoleExists(g, lenX, lenY, q);
    var first :| IsFirstHole(g, lenX, lenY, first);
    if first.col == 0 {
      var w :| InGrid(lenX, lenY, w) && Before(first, w) && At(g, w) != Sentinel;
      assert w != first;
    }
  }

  /**
   * The whole trace of an image: no hole, or the trace from the first holed
   * pixel with start direction West, or, when that pixel is in column 0,
   * from the end of the column-0 walk with start direction East.
   */
  ghost function TraceOf(g: Samples, lenX: nat, lenY: nat, fuel: nat): TraceResult
    requires IsGrid(g, lenX, lenY)
    requires forall p :: IsFirstHole(g, lenX, lenY, p) && p.col == 0 ==> NonHoleAfter(g, lenX, lenY, p)
  {
    if !HasHole(g, lenX, lenY) then NoHole
    else
      HoledGridIsLarge(g, lenX, lenY);
      var q :| InGrid(lenX, lenY, q) && At(g, q) == Sentinel;
      FirstHoleExists(g, lenX, lenY, q);
      var first :| IsFirstHole(g, lenX, lenY, first);
      if first.col != 0 then TraceSpec(g, lenX, lenY, first, West, fuel)
      else
        EdgeSeedExists(g, lenX, lenY, first, first);
        var seed :| IsEdgeSeed(g, lenX, lenY, first, seed);
        TraceSpec(g, lenX, lenY, seed, East, fuel)
  }

  /** Scans the grid row by row for the first holed pixel. */
  method FindFirstHole(img: ImageMatrix) returns (o: Option<Pos>)
    ensures o.None? <==> !HasHole(img.Snapshot(), img.LenX(), img.LenY())
    ensures o.Some? ==> IsFirstHole(img.Snapshot(), img.LenX(), img.LenY(), o.value)
  {
    ghost var g := img.Snapshot();
    var i := 0;
    while i < img.LenX()
      invariant 0 <= i <= img.LenX()
      invariant forall q :: InGrid(img.LenX(), img.LenY(), q) && q.row < i ==> At(g, q) != Sentinel
    {
      var j := 0;
      while j < img.LenY()
        invariant 0 <= j <= img.LenY()
        invariant forall q :: InGrid(img.LenX(), img.LenY(), q) && (q.row < i || (q.row == i && q.col < j)) ==>
          At(g, q) != Sentinel
      {
        if img.GetArrayElement(i, j) == Sentinel {
          return Some(Pos(i, j));
        }
        j := j + 1;
      }
      i := i + 1;
    }
    return None;
  }

  /**
   * The column-0 correction: walks on in row-major order while the next pixel
   * is holed, and stops on the last holed pixel before a non-holed one.
   */
  method WalkToEdgeSeed(img: ImageMatrix, first: Pos) returns (seed: Pos)
    requires IsFirstHole(img.Snapshot(), img.LenX(), img.LenY(), first)
    requires NonHoleAfter(img.Snapshot(), img.LenX(), img.LenY(), first)
    ensures IsEdgeSeed(img.Snapshot(), img.LenX(), img.LenY(), first, seed)
  {
    ghost var g := img.Snapshot();
    var lenX, lenY := img.LenX(), img.LenY();
    seed := first;
    var next := GetNextPixel(lenX, lenY, seed);
    while img.GetArrayElement(next.value.row, next.value.col) == Sentinel
      invariant InGrid(lenX, lenY, seed) && At(g, seed) == Sentinel && !Before(seed, first)
      invariant forall q :: InGrid(lenX, lenY, q) && !Before(q, first) && !Before(seed, q) ==> At(g, q) == Sentinel
      invariant NonHoleAfter(g, lenX, lenY, seed)
      invariant next == GetNextPixel(lenX, lenY, seed) && next.Some?
      decreases lenX - seed.row, lenY - seed.col
    {
      ghost var w :| InGrid(lenX, lenY, w) && Before(seed, w) && At(g, w) != Sentinel;
      assert Before(next.value, w);
      seed := next.value;
      next := GetNextPixel(lenX, lenY, seed);
    }
  }

  class MooreTrace {
    /** The direction the trace started from: West, or East for a hole met in column 0. */
    var start: int
    /** The running clockwise direction, an index into the offset table. */
    var direction: int

    constructor ()
      ensures start == West && direction == West
    {
      start := West;
      direction := West;
    }

    /**
     * The next in-grid neighbour of `input` clockwise from the running
     * direction; the direction moves one past the one used.
     */
    method GetClockWisePixel(img: ImageMatrix, input: Pos) returns (q: Pos)
      requires img.Contains(input) && (img.LenX() >= 2 || img.LenY() >= 2)
      requires 0 <= direction < 8
      modifies this`direction
      ensures exists k ::
        FirstClockwiseFrom(img.LenX(), img.LenY(), input, old(direction), k, q) && direction == (old(direction) + k + 1) % 8
      ensures (q, direction) == NextClockwise(img.LenX(), img.LenY(), input, old(direction))
      ensures img.Contains(q) && ChebyshevDistance(input, q) == 1
      ensures 0 <= direction < 8
    {
      var d0 := direction;
      ghost var k := 0;
      NeighbourInGrid(img.LenX(), img.LenY(), input, d0);
      var newPos := Step(input, direction);
      direction := (direction + 1) % 8;
      while !img.Contains(newPos)
        invariant 0 <= k < 8
        invariant newPos == Clockwise(input, d0, k) && direction == (d0 + k + 1) % 8
        invariant forall j :: 0 <= j < k ==> !InGrid(img.LenX(), img.LenY(), Clockwise(input, d0, j))
        invariant exists j :: k <= j < 8 && InGrid(img.LenX(), img.LenY(), Clockwise(input, d0, j))
        decreases 8 - k
      {
        ghost var k1 := k + 1;
        ClockwiseAdvance(img.LenX(), img.LenY(), input, d0, k, k1, direction);
        k := k1;
        newPos := Step(input, direction);
        direction := (direction + 1) % 8;
      }
      q := newPos;
      ClockwiseFound(img.LenX(), img.LenY(), input, d0, k, q);
      FirstClockwiseIsNext(img.LenX(), img.LenY(), input, d0, k, q);
    }

    /** Rotates the running direction back towards the last connected pixel. */
    method Backtrack()
      requires 0 <= direction < 8
      modifies this`direction
      ensures direction == BacktrackDirection(old(direction))
    {
      if direction % 2 == 1 {
        direction := (direction + BacktrackStraight) % 8;
      } else {
        direction := (direction + BacktrackDiagonal) % 8;
      }
    }

    /**
     * Traces the boundary of the hole.  `fuel` bounds the number of steps of
     * the main loop; the ghost `seed` is the holed pixel the trace started from.
     */
    method Trace(img: ImageMatrix, fuel: nat) returns (r: TraceResult, ghost seed: Pos)
      requires forall p :: IsFirstHole(img.Snapshot(), img.LenX(), img.LenY(), p) && p.col == 0 ==>
        NonHoleAfter(img.Snapshot(), img.LenX(), img.LenY(), p)
      modifies this
      ensures r.NoHole? <==> !HasHole(img.Snapshot(), img.LenX(), img.LenY())
      ensures !r.NoHole? ==> forall p :: IsFirstHole(img.Snapshot(), img.LenX(), img.LenY(), p) ==>
        (p.col == 0 ==> start == East && IsEdgeSeed(img.Snapshot(), img.LenX(), img.LenY(), p, seed)) &&
        (p.col != 0 ==> start == West && seed == p)
      ensures r.Traced? ==> |r.boundary| >= 1 && Distinct(r.boundary)
      ensures r.Traced? ==> forall k :: 0 <= k < |r.boundary| ==>
        img.Contains(r.boundary[k]) && (k >= 1 ==> At(img.Snapshot(), r.boundary[k]) != Sentinel)
      ensures r.Traced? ==> exists k :: FirstClockwiseFrom(img.LenX(), img.LenY(), seed, start, k, r.boundary[0])
      ensures r.Traced? && img.Contains(Clockwise(seed, start, 0)) ==>
        r.boundary[0] == Clockwise(seed, start, 0) && At(img.Snapshot(), r.boundary[0]) != Sentinel
      ensures r.Traced? ==> direction == start + 1
      ensures r == TraceOf(img.Snapshot(), img.LenX(), img.LenY(), fuel)
      ensures r.Traced? ==> forall k :: 0 <= k < |r.boundary| ==>
        NextToHole(img.Snapshot(), img.LenX(), img.LenY(), r.boundary[k])
    {
      seed := Pos(0, 0);
      var found, startDirection := LocateSeed(img);
      if found.None? {
        return NoHole, seed;
      }
      seed := found.value;
      HoledGridIsLarge(img.Snapshot(), img.LenX(), img.LenY());
      start := startDirection;
      direction := start;
      r := TraceFrom(img, found.value, fuel);
      TraceOfSeed(img.Snapshot(), img.LenX(), img.LenY(), seed, start, fuel);
    }

    /**
     * One turn of the main loop: a non-holed candidate joins the boundary
     * unless it is on it already, a holed one becomes the pixel to search
     * around after a backtrack, and the next candidate is searched for.
     */
    method Turn(img: ImageMatrix, holePixel: Pos, boundaryPixel: Pos, boundary: seq<Pos>)
      returns (hole1: Pos, candidate: Pos, boundary1: seq<Pos>)
      requires img.Contains(holePixel) && img.Contains(boundaryPixel) && 0 <= direction < 8
      requires img.LenX() >= 2 || img.LenY() >= 2
      modifies this`direction
      ensures TraceState(hole1, candidate, direction, boundary1) ==
        TraceTurn(img.Snapshot(), img.LenX(), img.LenY(), TraceState(holePixel, boundaryPixel, old(direction), boundary))
    {
      hole1, boundary1 := holePixel, boundary;
      if img.GetArrayElement(boundaryPixel.row, boundaryPixel.col) != Sentinel {
        if boundaryPixel !in boundary {
          boundary1 := boundary + [boundaryPixel];
        }
      } else {
        Backtrack();
        hole1 := boundaryPixel;
      }
      candidate := GetClockWisePixel(img, hole1);
    }

    /**
     * The main loop of the trace, from a holed seed and with
     * `direction == start`; it runs as `TraceSpec` says.
     */
    method TraceFrom(img: ImageMatrix, seed: Pos, fuel: nat) returns (r: TraceResult)
      requires img.Contains(seed) && At(img.Snapshot(), seed) == Sentinel
      requires img.LenX() >= 2 || img.LenY() >= 2
      requires (start == West || start == East) && direction == start
      requires img.Contains(Clockwise(seed, start, 0)) ==> At(img.Snapshot(), Clockwise(seed, start, 0)) != Sentinel
      modifies this`direction
      ensures r == TraceSpec(img.Snapshot(), img.LenX(), img.LenY(), seed, start, fuel)
      ensures r.NoHole? == false
      ensures r.Traced? ==> |r.boundary| >= 1 && Distinct(r.boundary)
      ensures r.Traced? ==> forall k :: 0 <= k < |r.boundary| ==>
        img.Contains(r.boundary[k]) && (k >= 1 ==> At(img.Snapshot(), r.boundary[k]) != Sentinel)
      ensures r.Traced? ==> forall k :: 0 <= k < |r.boundary| ==>
        NextToHole(img.Snapshot(), img.LenX(), img.LenY(), r.boundary[k])
      ensures r.Traced? ==> exists k :: FirstClockwiseFrom(img.LenX(), img.LenY(), seed, start, k, r.boundary[0])
      ensures r.Traced? && img.Contains(Clockwise(seed, start, 0)) ==>
        r.boundary[0] == Clockwise(seed, start, 0) && At(img.Snapshot(), r.boundary[0]) != Sentinel
      ensures r.Traced? ==> direction == start + 1
    {
      ghost var g, lenX, lenY := img.Snapshot(), img.LenX(), img.LenY();
      var first := GetClockWisePixel(img, seed);
      ghost var k0 :| FirstClockwiseFrom(img.LenX(), img.LenY(), seed, start, k0, first);
      if img.Contains(Clockwise(seed, start, 0)) {
        assert k0 == 0;
      }
      var boundaryPixel := GetClockWisePixel(img, seed);
      r := Loop(img, first, seed, boundaryPixel, [first], fuel);
      TraceSpecInvariant(g, lenX, lenY, seed, start, fuel);
    }

    /**
     * The turns of the main loop, until the first boundary pixel comes
     * round again with direction `start + 1`; it runs as `TraceLoop` says,
     * with `fuel` bounding the number of turns.
     */
    method Loop(img: ImageMatrix, first: Pos, holePixel0: Pos, boundaryPixel0: Pos, boundary0: seq<Pos>, fuel: nat)
      returns (r: TraceResult)
      requires img.Contains(holePixel0) && img.Contains(boundaryPixel0) && 0 <= direction < 8
      requires img.LenX() >= 2 || img.LenY() >= 2
      modifies this`direction
      ensures r == TraceLoop(img.Snapshot(), img.LenX(), img.LenY(), start, first,
                             TraceState(holePixel0, boundaryPixel0, old(direction), boundary0), fuel)
      ensures r.Traced? ==> direction == start + 1
    {
      ghost var g, lenX, lenY := img.Snapshot(), img.LenX(), img.LenY();
      ghost var goal := TraceLoop(g, lenX, lenY, start, first, TraceState(holePixel0, boundaryPixel0, direction, boundary0), fuel);
      var holePixel, boundaryPixel, boundary := holePixel0, boundaryPixel0, boundary0;
      ghost var st := TraceState(holePixel, boundaryPixel, direction, boundary);
      var remaining := fuel;
      while !(boundaryPixel == first && direction - 1 == start)
        invariant img.Contains(holePixel) && img.Contains(boundaryPixel) && 0 <= direction < 8
        invariant st == TraceState(holePixel, boundaryPixel, direction, boundary)
        invariant TraceLoop(g, lenX, lenY, start, first, st, remaining) == goal
        decreases remaining
      {
        if remaining == 0 {
          return OutOfFuel;
        }
        TraceLoopNext(g, lenX, lenY, start, first, st, remaining, remaining - 1);
        remaining := remaining - 1;
        st := TraceTurn(g, lenX, lenY, st);
        holePixel, boundaryPixel, boundary := Turn(img, holePixel, boundaryPixel, boundary);
      }
      r := Traced(boundary);
    }
  }

  /**
   * Where the trace starts: the first holed pixel with direction West, or,
   * when that pixel is in column 0, the end of the column-0 walk with
   * direction East.
   */
  method LocateSeed(img: ImageMatrix) returns (o: Option<Pos>, startDirection: int)
    requires forall p :: IsFirstHole(img.Snapshot(), img.LenX(), img.LenY(), p) && p.col == 0 ==>
      NonHoleAfter(img.Snapshot(), img.LenX(), img.LenY(), p)
    ensures o.None? <==> !HasHole(img.Snapshot(), img.LenX(), img.LenY())
    ensures startDirection == West || startDirection == East
    ensures o.Some? ==> img.Contains(o.value) && At(img.Snapshot(), o.value) == Sentinel
    ensures o.Some? ==> forall p :: IsFirstHole(img.Snapshot(), img.LenX(), img.LenY(), p) ==>
      (p.col == 0 ==> startDirection == East && IsEdgeSeed(img.Snapshot(), img.LenX(), img.LenY(), p, o.value)) &&
      (p.col != 0 ==> startDirection == West && o.value == p)
    ensures o.Some? && img.Contains(Clockwise(o.value, startDirection, 0)) ==>
      At(img.Snapshot(), Clockwise(o.value, startDirection, 0)) != Sentinel
  {
    ghost var g := img.Snapshot();
    o := FindFirstHole(img);
    startDirection := West;
    if o.None? {
      return;
    }
    var first := o.value;
    FirstHoleUnique(g, img.LenX(), img.LenY(), first);
    if first.col == 0 {
      var seed := WalkToEdgeSeed(img, first);
      o := Some(seed);
      startDirection := East;
      if img.Contains(Clockwise(seed, East, 0)) {
        assert Clockwise(seed, East, 0) == GetNextPixel(img.LenX(), img.LenY(), seed).value;
      }
    } else {
      assert Before(Clockwise(first, West, 0), first);
    }
  }

  /** The first holed pixel is unique. */
  lemma FirstHoleUnique(g: Samples, lenX: nat, lenY: nat, p: Pos)
    requires IsGrid(g, lenX, lenY) && IsFirstHole(g, lenX, lenY, p)
    ensures forall q :: IsFirstHole(g, lenX, lenY, q) ==> q == p
  {
    forall q | IsFirstHole(g, lenX, lenY, q)
      ensures q == p
    {
      assert !Before(q, p) && !Before(p, q);
    }
  }

  /** Once the first holed pixel and the seed are known, the whole trace is the trace from that seed. */
  lemma TraceOfSeed(g: Samples, lenX: nat, lenY: nat, seed: Pos, start: int, fuel: nat)
    requires IsGrid(g, lenX, lenY) && (lenX >= 2 || lenY >= 2)
    requires forall p :: IsFirstHole(g, lenX, lenY, p) && p.col == 0 ==> NonHoleAfter(g, lenX, lenY, p)
    requires InGrid(lenX, lenY, seed) && At(g, seed) == Sentinel && 0 <= start < 8
    requires forall p :: IsFirstHole(g, lenX, lenY, p) ==>
      (p.col == 0 ==> start == East && IsEdgeSeed(g, lenX, lenY, p, seed)) &&
      (p.col != 0 ==> start == West && seed == p)
    ensures TraceOf(g, lenX, lenY, fuel) == TraceSpec(g, lenX, lenY, seed, start, fuel)
  {
    FirstHoleExists(g, lenX, lenY, seed);
    var first :| IsFirstHole(g, lenX, lenY, first);
    FirstHoleUnique(g, lenX, lenY, first);
    if first.col == 0 {
      forall s | IsEdgeSeed(g, lenX, lenY, first, s)
        ensures s == seed
      {
        EdgeSeedUnique(g, lenX, lenY, first, s, seed);
      }
    }
  }
}
