/**
 * Clockwise spiral traversal of a rectangle, from the top-left corner inwards.
 * The traversal keeps a budget of cells and finishes the round it is in
 * before looking at it, so thin rectangles revisit positions.
 */
module Spiral {
  import opened Grid
  import opened Holes

  /** Rows `top..bottom` and columns `left..right`, all inclusive. */
  predicate InBox(p: Pos, top: int, bottom: int, left: int, right: int)
  {
    top <= p.row <= bottom && left <= p.col <= right
  }

  /**
   * The positions `ps` yielded so far, followed by the current position
   * `cur`: all in the box, each one a unit step from the one before, and the
   * first `width` of them the top row from the left.
   */
  predicate Trail(ps: seq<Pos>, cur: Pos, top: int, bottom: int, left: int, right: int, width: int)
  {
    InBox(cur, top, bottom, left, right) &&
    (forall k :: 0 <= k < |ps| ==> InBox(ps[k], top, bottom, left, right)) &&
    (forall k :: 0 <= k < |ps| - 1 ==> UnitStep(ps[k], ps[k + 1])) &&
    (|ps| > 0 ==> UnitStep(ps[|ps| - 1], cur)) &&
    (forall k :: 0 <= k < |ps| && k < width ==> ps[k] == Pos(top, left + k)) &&
    (|ps| < width ==> cur == Pos(top, left + |ps|))
  }

  /** Yielding the current position and moving one step keeps the trail. */
  lemma TrailStep(ps: seq<Pos>, cur: Pos, next: Pos, top: int, bottom: int, left: int, right: int, width: int)
    requires Trail(ps, cur, top, bottom, left, right, width)
    requires InBox(next, top, bottom, left, right) && UnitStep(cur, next)
    requires |ps| + 1 < width ==> next == Pos(top, left + |ps| + 1)
    ensures Trail(ps + [cur], next, top, bottom, left, right, width)
  {
  }

  /** Yielding the position the traversal stopped on completes the trail. */
  lemma TrailFinish(ps: seq<Pos>, cur: Pos, top: int, bottom: int, left: int, right: int, width: int)
    requires Trail(ps, cur, top, bottom, left, right, width)
    requires |ps| + 1 >= width
    ensures var qs := ps + [cur];
      (forall k :: 0 <= k < |qs| ==> InBox(qs[k], top, bottom, left, right)) &&
      (forall k :: 0 <= k < |qs| - 1 ==> UnitStep(qs[k], qs[k + 1])) &&
      (forall k :: 0 <= k < width ==> qs[k] == Pos(top, left + k))
  {
  }

  /** The cell count of a `w` by `h` block, as repeated addition. */
  function Area(w: int, h: int): int
    decreases h
  {
    if h <= 0 then 0 else w + Area(w, h - 1)
  }

  lemma {:induction false} AreaIsProduct(w: int, h: nat)
    ensures Area(w, h) == w * h
  {
    if h > 0 {
      AreaIsProduct(w, h - 1);
    }
  }

  /**
   * The state at the head of a round while budget is left: the ring
   * `left..right` by `upper - 1..bottom` is non-empty, the current position
   * is on its top row at or just left of its left bound, and the budget is
   * the ring's cell count plus that offset, less one.
   */
  predicate Ring(counter: int, x: int, y: int, upper: int, bottom: int, left: int, right: int)
  {
    counter > 0 ==>
      right - left + 1 >= 1 && bottom - upper + 2 >= 1 &&
      x == upper - 1 && (y == left || y == left - 1) &&
      counter == Area(right - left + 1, bottom - upper + 2) + (left - y) - 1
  }

  /**
   * One round of the spiral strictly spends budget and leaves the inner ring
   * in the same shape; a first round entered at the left bound yields at
   * least one row's worth of positions.
   */
  lemma {:induction false} RoundKeepsRing(c0: int, x0: int, y0: int, u0: int, b0: int, l0: int, r0: int,
                                          c1: int, x1: int)
    requires c0 > 0 && Ring(c0, x0, y0, u0, b0, l0, r0)
    requires x1 == (if b0 > u0 then u0 else b0)
    requires c1 == c0 - (r0 - y0) - (b0 - x0) - (r0 - l0) - (b0 - x1)
    ensures c1 < c0
    ensures Ring(c1, x1, l0, u0 + 1, b0 - 1, l0 + 1, r0 - 1)
    ensures Spent(c1, x1, l0, u0 + 1, b0 - 1, l0 + 1, r0 - 1)
    ensures y0 == l0 ==> c0 - c1 >= r0 - l0 + 1
  {
    var w, h, d := r0 - l0 + 1, b0 - u0 + 2, l0 - y0;
    AreaIsProduct(w, h);
    if h >= 2 {
      AreaIsProduct(w - 2, h - 2);
    }
    assert c1 == c0 - (w - 1 + d) - (h - 1) - (w - 1) - (if h >= 2 then h - 2 else 0);
    if h >= 2 {
      assert (w - 2) * (h - 2) == w * h - 2 * w - 2 * h + 4;
      assert c1 == (w - 2) * (h - 2);
      if w >= 3 && h >= 3 {
        assert (w - 2) * (h - 2) >= 1;
      }
    } else {
      assert w * h == w;
    }
    if w == 1 && h == 1 {
      assert w * h == 1;
    }
  }

  /**
   * Once the budget is spent, nothing of the ring `left..right` by
   * `upper - 1..bottom` is left except, at most, the current position.
   */
  predicate Spent(counter: int, x: int, y: int, upper: int, bottom: int, left: int, right: int)
  {
    counter <= 0 ==>
      right < left || bottom < upper - 1 ||
      (upper - 1 == bottom && left == right && x == bottom && y == left)
  }

  /** `n` positions along row `x`, rightwards from column `y`. */
  function RightRun(x: int, y: int, n: nat): seq<Pos>
  {
    seq(n, k => Pos(x, y + k))
  }

  /** `n` positions along column `y`, downwards from row `x`. */
  function DownRun(x: int, y: int, n: nat): seq<Pos>
  {
    seq(n, k => Pos(x + k, y))
  }

  /** `n` positions along row `x`, leftwards from column `y`. */
  function LeftRun(x: int, y: int, n: nat): seq<Pos>
  {
    seq(n, k => Pos(x, y - k))
  }

  /** `n` positions along column `y`, upwards from row `x`. */
  function UpRun(x: int, y: int, n: nat): seq<Pos>
  {
    seq(n, k => Pos(x - k, y))
  }

  /**
   * The positions the traversal yields from the head of a round on: the
   * four passes of the round, each running while its guard against the
   * current bound holds, then the rounds after it with every bound moved one
   * step in; once the budget is spent, the position the traversal stopped on.
   */
  function SpiralFrom(x: int, y: int, upper: int, bottom: int, left: int, right: int, counter: int): (ps: seq<Pos>)
    requires Ring(counter, x, y, upper, bottom, left, right)
    ensures |ps| > 0
    decreases if counter > 0 then counter else 0
  {
    if counter <= 0 then [Pos(x, y)]
    else
      var nr := if y < right then right - y else 0;
      var y1 := y + nr;
      var nd := if x < bottom then bottom - x else 0;
      var x1 := x + nd;
      var nl := if y1 > left then y1 - left else 0;
      var y2 := y1 - nl;
      var nu := if x1 > upper then x1 - upper else 0;
      var x2 := x1 - nu;
      var counter1 := counter - nr - nd - nl - nu;
      RoundKeepsRing(counter, x, y, upper, bottom, left, right, counter1, x2);
      RightRun(x, y, nr) + DownRun(x, y1, nd) + LeftRun(x1, y1, nl) + UpRun(x1, y2, nu) +
      SpiralFrom(x2, y2, upper + 1, bottom - 1, left + 1, right - 1, counter1)
  }

  /**
   * The whole traversal of rows `top..bottom` by columns `left..right`, from
   * the state the constructor and the first line of the traversal set up.
   */
  function SpiralOf(top: int, bottom: int, left: int, right: int): seq<Pos>
    requires top <= bottom && left <= right
  {
    AreaIsProduct(right - left + 1, bottom - top + 1);
    SpiralFrom(top, left, top + 1, bottom, left, right, (right - left + 1) * (bottom - top + 1) - 1)
  }

  /** A position a round head still has to yield: on its ring, or the one it stands on. */
  predicate Pending(p: Pos, x: int, y: int, upper: int, bottom: int, left: int, right: int)
  {
    p == Pos(x, y) || InBox(p, upper - 1, bottom, left, right)
  }

  /** One round from a head with budget left, its pass lengths worked out from `Ring`. */
  lemma RoundUnfold(x: int, y: int, upper: int, bottom: int, left: int, right: int, counter: int)
    returns (x2: int, counter1: int)
    requires counter > 0 && Ring(counter, x, y, upper, bottom, left, right)
    ensures x2 == (if bottom > upper then upper else bottom) && counter1 < counter
    ensures counter1 == counter - (right - y) - (bottom - x) - (right - left) - (bottom - x2)
    ensures Ring(counter1, x2, left, upper + 1, bottom - 1, left + 1, right - 1)
    ensures Spent(counter1, x2, left, upper + 1, bottom - 1, left + 1, right - 1)
    ensures SpiralFrom(x, y, upper, bottom, left, right, counter) ==
      RightRun(x, y, right - y) + DownRun(x, right, bottom - x) + LeftRun(bottom, right, right - left) +
      UpRun(bottom, left, bottom - x2) + SpiralFrom(x2, left, upper + 1, bottom - 1, left + 1, right - 1, counter1)
  {
    x2 := if bottom > upper then upper else bottom;
    counter1 := counter - (right - y) - (bottom - x) - (right - left) - (bottom - x2);
    RoundKeepsRing(counter, x, y, upper, bottom, left, right, counter1, x2);
  }

  /**
   * A position pending at a round head is on one of the round's four passes
   * or still pending at the next head.
   */
  lemma RoundCovers(x: int, y: int, upper: int, bottom: int, left: int, right: int, x2: int, p: Pos)
    requires x == upper - 1 && (y == left || y == left - 1) && left <= right && x <= bottom
    requires x2 == (if bottom > upper then upper else bottom)
    requires Pending(p, x, y, upper, bottom, left, right)
    ensures p in RightRun(x, y, right - y) || p in DownRun(x, right, bottom - x) ||
      p in LeftRun(bottom, right, right - left) || p in UpRun(bottom, left, bottom - x2) ||
      Pending(p, x2, left, upper + 1, bottom - 1, left + 1, right - 1)
  {
    if p.row == x && y <= p.col < right {
      assert RightRun(x, y, right - y)[p.col - y] == p;
    } else if p.col == right && x <= p.row < bottom {
      assert DownRun(x, right, bottom - x)[p.row - x] == p;
    } else if p.row == bottom && left < p.col <= right {
      assert LeftRun(bottom, right, right - left)[right - p.col] == p;
    } else if p.col == left && upper < p.row <= bottom {
      assert UpRun(bottom, left, bottom - x2)[bottom - p.row] == p;
    }
  }

  /** Every position still pending at the head of a round is yielded from there on. */
  lemma {:induction false} SpiralFromCovers(x: int, y: int, upper: int, bottom: int, left: int, right: int,
                                            counter: int, p: Pos)
    requires Ring(counter, x, y, upper, bottom, left, right) && Spent(counter, x, y, upper, bottom, left, right)
    requires Pending(p, x, y, upper, bottom, left, right)
    ensures p in SpiralFrom(x, y, upper, bottom, left, right, counter)
    decreases if counter > 0 then counter else 0
  {
    if counter > 0 {
      var x2, counter1 := RoundUnfold(x, y, upper, bottom, left, right, counter);
      RoundCovers(x, y, upper, bottom, left, right, x2, p);
      if Pending(p, x2, left, upper + 1, bottom - 1, left + 1, right - 1) {
        SpiralFromCovers(x2, left, upper + 1, bottom - 1, left + 1, right - 1, counter1, p);
      }
    }
  }

  /** The traversal yields every position of the box at least once. */
  lemma SpiralCovers(top: int, bottom: int, left: int, right: int, p: Pos)
    requires top <= bottom && left <= right && InBox(p, top, bottom, left, right)
    ensures p in SpiralOf(top, bottom, left, right)
  {
    var W, H := right - left + 1, bottom - top + 1;
    AreaIsProduct(W, H);
    var c := W * H - 1;
    assert c <= 0 ==> W == 1 && H == 1 by {
      if W > 1 {
        assert W * H == (W - 1) * H + H;
        assert (W - 1) * H >= 1;
      } else if H > 1 {
        assert W * H == H;
      }
    }
    SpiralFromCovers(top, left, top + 1, bottom, left, right, c, p);
  }

  /** A one-row box of three pixels: the traversal goes right, comes back, and ends where it began. */
  lemma SpiralOneByThree()
    ensures SpiralOf(0, 0, 0, 2) == [Pos(0, 0), Pos(0, 1), Pos(0, 2), Pos(0, 1), Pos(0, 0)]
  {
    assert RightRun(0, 0, 2) == [Pos(0, 0), Pos(0, 1)];
    assert LeftRun(0, 2, 2) == [Pos(0, 2), Pos(0, 1)];
    assert SpiralFrom(0, 0, 1, 0, 0, 2, 2) ==
      RightRun(0, 0, 2) + DownRun(0, 2, 0) + LeftRun(0, 2, 2) + UpRun(0, 0, 0) + SpiralFrom(0, 0, 2, -1, 1, 1, -2);
  }

  /**
   * A round's four passes appended to the positions yielded before it,
   * followed by what the next head yields, is what this head yields.
   */
  lemma RoundYields(ps0: seq<Pos>, ps: seq<Pos>, x0: int, y0: int, upper0: int, bottom0: int, left0: int,
                    right0: int, counter0: int, x: int, counter: int)
    requires counter0 > 0 && Ring(counter0, x0, y0, upper0, bottom0, left0, right0)
    requires x == (if bottom0 > upper0 then upper0 else bottom0)
    requires counter == counter0 - (right0 - y0) - (bottom0 - x0) - (right0 - left0) - (bottom0 - x)
    requires ps == ps0 + RightRun(x0, y0, right0 - y0) + DownRun(x0, right0, bottom0 - x0) +
      LeftRun(bottom0, right0, right0 - left0) + UpRun(bottom0, left0, bottom0 - x)
    ensures Ring(counter, x, left0, upper0 + 1, bottom0 - 1, left0 + 1, right0 - 1)
    ensures ps + SpiralFrom(x, left0, upper0 + 1, bottom0 - 1, left0 + 1, right0 - 1, counter) ==
      ps0 + SpiralFrom(x0, y0, upper0, bottom0, left0, right0, counter0)
  {
    var x2, counter1 := RoundUnfold(x0, y0, upper0, bottom0, left0, right0, counter0);
    var r, d, l, u := RightRun(x0, y0, right0 - y0), DownRun(x0, right0, bottom0 - x0),
      LeftRun(bottom0, right0, right0 - left0), UpRun(bottom0, left0, bottom0 - x);
    var rest := SpiralFrom(x, left0, upper0 + 1, bottom0 - 1, left0 + 1, right0 - 1, counter);
    assert SpiralFrom(x0, y0, upper0, bottom0, left0, right0, counter0) == r + d + l + u + rest;
    AppendAssoc(ps0, r, d);
    AppendAssoc(ps0, r + d, l);
    AppendAssoc(ps0, r + d + l, u);
    AppendAssoc(ps0, r + d + l + u, rest);
  }

  lemma AppendAssoc(a: seq<Pos>, b: seq<Pos>, c: seq<Pos>)
    ensures a + (b + c) == (a + b) + c
  {
  }

  /**
   * The loop state at the head of a round of a traversal of the box
   * `T..Bt` by `Lf..Rt`: the yielded positions and the current one form a
   * trail, the budget plus the yield count is one less than the area, the
   * remaining ring has the shape `Ring` describes, and until a row has been
   * yielded nothing has moved.
   */
  predicate Head(ps: seq<Pos>, x: int, y: int, upper: int, bottom: int, left: int, right: int, counter: int,
                 T: int, Bt: int, Lf: int, Rt: int)
  {
    T + 1 <= upper && bottom <= Bt && Lf <= left && right <= Rt &&
    Trail(ps, Pos(x, y), T, Bt, Lf, Rt, Rt - Lf + 1) &&
    |ps| + counter == Area(Rt - Lf + 1, Bt - T + 1) - 1 &&
    Ring(counter, x, y, upper, bottom, left, right) &&
    (|ps| < Rt - Lf + 1 ==>
       ps == [] && upper == T + 1 && bottom == Bt && left == Lf && right == Rt && x == T && y == Lf) &&
    (Rt == Lf && Bt == T ==> ps == [])
  }

  /** Once the budget is spent, yielding the current position completes the traversal. */
  lemma HeadFinish(ps: seq<Pos>, x: int, y: int, upper: int, bottom: int, left: int, right: int, counter: int,
                   T: int, Bt: int, Lf: int, Rt: int)
    requires T <= Bt && Lf <= Rt
    requires counter <= 0 && Head(ps, x, y, upper, bottom, left, right, counter, T, Bt, Lf, Rt)
    ensures var qs := ps + [Pos(x, y)];
      |qs| >= (Rt - Lf + 1) * (Bt - T + 1) && |qs| >= Rt - Lf + 1 &&
      (forall k :: 0 <= k < |qs| ==> InBox(qs[k], T, Bt, Lf, Rt)) &&
      (forall k :: 0 <= k < |qs| - 1 ==> UnitStep(qs[k], qs[k + 1])) &&
      (forall k :: 0 <= k < Rt - Lf + 1 ==> qs[k] == Pos(T, Lf + k)) &&
      (Rt == Lf && Bt == T ==> qs == [Pos(T, Lf)])
  {
    var W, H := Rt - Lf + 1, Bt - T + 1;
    AreaIsProduct(W, H);
    assert W <= W * H by {
      assert W * H >= W * 1;
    }
    TrailFinish(ps, Pos(x, y), T, Bt, Lf, Rt, W);
  }

  class SpiralTraverser {
    var x: int
    var y: int
    var upperBound: int
    var rightBound: int
    var bottomBound: int
    var leftBound: int
    var counter: int

    /** The fields as the constructor leaves them; the traversal never writes them. */
    predicate Valid()
      reads this
    {
      upperBound <= bottomBound && leftBound <= rightBound &&
      x == upperBound && y == leftBound &&
      counter == Area(rightBound - leftBound + 1, bottomBound - upperBound + 1) - 1
    }

    constructor (rectangle: Rectangle)
      requires rectangle.topLeft.row <= rectangle.bottomRight.row
      requires rectangle.topLeft.col <= rectangle.bottomRight.col
      ensures Valid()
      ensures upperBound == rectangle.topLeft.row && leftBound == rectangle.topLeft.col
      ensures bottomBound == rectangle.bottomRight.row && rightBound == rectangle.bottomRight.col
    {
      upperBound := rectangle.topLeft.row;
      leftBound := rectangle.topLeft.col;
      rightBound := rectangle.bottomRight.col;
      bottomBound := rectangle.bottomRight.row;
      x := rectangle.topLeft.row;
      y := rectangle.topLeft.col;
      counter := (rectangle.bottomRight.col - rectangle.topLeft.col + 1) *
        (rectangle.bottomRight.row - rectangle.topLeft.row + 1) - 1;
      AreaIsProduct(rectangle.bottomRight.col - rectangle.topLeft.col + 1,
        rectangle.bottomRight.row - rectangle.topLeft.row + 1);
    }

    /**
     * The positions of the traversal, in order.  Each round goes right along
     * the top, down the right side, left along the bottom and up the left
     * side, then shrinks the bounds; one more position is yielded at the end.
     */
    method Traverse() returns (ps: seq<Pos>)
      requires Valid()
      ensures |ps| >= (rightBound - leftBound + 1) * (bottomBound - upperBound + 1)
      ensures |ps| >= rightBound - leftBound + 1
      ensures forall k :: 0 <= k < |ps| ==> InBox(ps[k], upperBound, bottomBound, leftBound, rightBound)
      ensures forall k :: 0 <= k < |ps| - 1 ==> UnitStep(ps[k], ps[k + 1])
      ensures forall k :: 0 <= k < rightBound - leftBound + 1 ==> ps[k] == Pos(upperBound, leftBound + k)
      ensures upperBound == bottomBound && leftBound == rightBound ==> ps == [Pos(upperBound, leftBound)]
      ensures ps == SpiralOf(upperBound, bottomBound, leftBound, rightBound)
    {
      ghost var T, Bt, Lf, Rt := this.upperBound, this.bottomBound, this.leftBound, this.rightBound;

      var upperBound := this.upperBound;
      var bottomBound := this.bottomBound;
      var leftBound := this.leftBound;
      var rightBound := this.rightBound;
      var counter := this.counter;
      var x := this.x;
      var y := this.y;
      ps := [];

      upperBound := upperBound + 1;
      AreaIsProduct(Rt - Lf + 1, Bt - T + 1);

      while counter > 0
        invariant Head(ps, x, y, upperBound, bottomBound, leftBound, rightBound, counter, T, Bt, Lf, Rt)
        invariant ps + SpiralFrom(x, y, upperBound, bottomBound, leftBound, rightBound, counter) == SpiralOf(T, Bt, Lf, Rt)
        decreases counter
      {
        x, y, upperBound, bottomBound, leftBound, rightBound, counter, ps :=
          Round(x, y, upperBound, bottomBound, leftBound, rightBound, counter, ps, T, Bt, Lf, Rt);
      }

      // the position the last round stopped on
      HeadFinish(ps, x, y, upperBound, bottomBound, leftBound, rightBound, counter, T, Bt, Lf, Rt);
      ps := ps + [Pos(x, y)];
    }

    /** One round of the spiral: a pass along each side, each followed by moving its bound in. */
    method Round(x0: int, y0: int, upper0: int, bottom0: int, left0: int, right0: int, counter0: int,
                 ps0: seq<Pos>, ghost T: int, ghost Bt: int, ghost Lf: int, ghost Rt: int)
      returns (x: int, y: int, upperBound: int, bottomBound: int, leftBound: int, rightBound: int,
               counter: int, ps: seq<Pos>)
      requires counter0 > 0 && Head(ps0, x0, y0, upper0, bottom0, left0, right0, counter0, T, Bt, Lf, Rt)
      ensures counter < counter0
      ensures Head(ps, x, y, upperBound, bottomBound, leftBound, rightBound, counter, T, Bt, Lf, Rt)
      ensures ps + SpiralFrom(x, y, upperBound, bottomBound, leftBound, rightBound, counter) ==
        ps0 + SpiralFrom(x0, y0, upper0, bottom0, left0, right0, counter0)
    {
      ghost var W := Rt - Lf + 1;
      x, upperBound, bottomBound, leftBound, rightBound := x0, upper0, bottom0, left0, right0;

      y, counter, ps := GoRight(x, y0, rightBound, counter0, ps0, T, Bt, Lf, Rt, W);
      rightBound := rightBound - 1;
      ghost var ps1 := ps;
      x, counter, ps := GoDown(x0, y, bottomBound, counter, ps, T, Bt, Lf, Rt, W);
      bottomBound := bottomBound - 1;
      ghost var ps2 := ps;
      y, counter, ps := GoLeft(x, y, leftBound, counter, ps, T, Bt, Lf, Rt, W);
      leftBound := leftBound + 1;
      ghost var ps3 := ps;
      x, counter, ps := GoUp(x, y, upperBound, counter, ps, T, Bt, Lf, Rt, W);
      upperBound := upperBound + 1;

      RoundKeepsRing(counter0, x0, y0, upper0, bottom0, left0, right0, counter, x);
      RoundYields(ps0, ps, x0, y0, upper0, bottom0, left0, right0, counter0, x, counter);
    }

    /**
     * Right along row `x` while the column is short of `rightBound`; every
     * step yields the current position, then moves.
     */
    method GoRight(x: int, y0: int, rightBound: int, counter0: int, ps0: seq<Pos>,
                   ghost T: int, ghost Bt: int, ghost Lf: int, ghost Rt: int, ghost W: int)
      returns (y: int, counter: int, ps: seq<Pos>)
      requires y0 <= rightBound <= Rt && W == Rt - Lf + 1
      requires Trail(ps0, Pos(x, y0), T, Bt, Lf, Rt, W)
      requires |ps0| < W ==> |ps0| == 0 && x == T && y0 == Lf && rightBound == Rt
      ensures y == rightBound && counter == counter0 - (rightBound - y0)
      ensures ps == ps0 + RightRun(x, y0, rightBound - y0)
      ensures Trail(ps, Pos(x, y), T, Bt, Lf, Rt, W) && |ps| + 1 >= W
    {
      y, counter, ps := y0, counter0, ps0;
      while y < rightBound
        invariant y0 <= y <= rightBound && counter == counter0 - (y - y0)
        invariant ps == ps0 + RightRun(x, y0, y - y0)
        invariant Trail(ps, Pos(x, y), T, Bt, Lf, Rt, W)
      {
        assert RightRun(x, y0, y + 1 - y0) == RightRun(x, y0, y - y0) + [Pos(x, y)];
        TrailStep(ps, Pos(x, y), Pos(x, y + 1), T, Bt, Lf, Rt, W);
        ps := ps + [Pos(x, y)];
        y := y + 1;
        counter := counter - 1;
      }
    }

    /** Down column `y` while the row is short of `bottomBound`. */
    method GoDown(x0: int, y: int, bottomBound: int, counter0: int, ps0: seq<Pos>,
                  ghost T: int, ghost Bt: int, ghost Lf: int, ghost Rt: int, ghost W: int)
      returns (x: int, counter: int, ps: seq<Pos>)
      requires x0 <= bottomBound <= Bt
      requires Trail(ps0, Pos(x0, y), T, Bt, Lf, Rt, W) && |ps0| + 1 >= W
      ensures x == bottomBound && counter == counter0 - (bottomBound - x0)
      ensures ps == ps0 + DownRun(x0, y, bottomBound - x0)
      ensures Trail(ps, Pos(x, y), T, Bt, Lf, Rt, W) && |ps| + 1 >= W
    {
      x, counter, ps := x0, counter0, ps0;
      while x < bottomBound
        invariant x0 <= x <= bottomBound && counter == counter0 - (x - x0)
        invariant ps == ps0 + DownRun(x0, y, x - x0)
        invariant Trail(ps, Pos(x, y), T, Bt, Lf, Rt, W) && |ps| + 1 >= W
      {
        assert DownRun(x0, y, x + 1 - x0) == DownRun(x0, y, x - x0) + [Pos(x, y)];
        TrailStep(ps, Pos(x, y), Pos(x + 1, y), T, Bt, Lf, Rt, W);
        ps := ps + [Pos(x, y)];
        x := x + 1;
        counter := counter - 1;
      }
    }

    /** Left along row `x` while the column is beyond `leftBound`. */
    method GoLeft(x: int, y0: int, leftBound: int, counter0: int, ps0: seq<Pos>,
                  ghost T: int, ghost Bt: int, ghost Lf: int, ghost Rt: int, ghost W: int)
      returns (y: int, counter: int, ps: seq<Pos>)
      requires Lf <= leftBound <= y0
      requires Trail(ps0, Pos(x, y0), T, Bt, Lf, Rt, W) && |ps0| + 1 >= W
      ensures y == leftBound && counter == counter0 - (y0 - leftBound)
      ensures ps == ps0 + LeftRun(x, y0, y0 - leftBound)
      ensures Trail(ps, Pos(x, y), T, Bt, Lf, Rt, W) && |ps| + 1 >= W
    {
      y, counter, ps := y0, counter0, ps0;
      while y > leftBound
        invariant leftBound <= y <= y0 && counter == counter0 - (y0 - y)
        invariant ps == ps0 + LeftRun(x, y0, y0 - y)
        invariant Trail(ps, Pos(x, y), T, Bt, Lf, Rt, W) && |ps| + 1 >= W
      {
        assert LeftRun(x, y0, y0 - y + 1) == LeftRun(x, y0, y0 - y) + [Pos(x, y)];
        TrailStep(ps, Pos(x, y), Pos(x, y - 1), T, Bt, Lf, Rt, W);
        ps := ps + [Pos(x, y)];
        y := y - 1;
        counter := counter - 1;
      }
    }

    /** Up column `y` while the row is below `upperBound`; a row above it is left as it is. */
    method GoUp(x0: int, y: int, upperBound: int, counter0: int, ps0: seq<Pos>,
                ghost T: int, ghost Bt: int, ghost Lf: int, ghost Rt: int, ghost W: int)
      returns (x: int, counter: int, ps: seq<Pos>)
      requires T <= upperBound
      requires Trail(ps0, Pos(x0, y), T, Bt, Lf, Rt, W) && |ps0| + 1 >= W
      ensures x == (if x0 > upperBound then upperBound else x0) && counter == counter0 - (x0 - x)
      ensures ps == ps0 + UpRun(x0, y, x0 - x)
      ensures Trail(ps, Pos(x, y), T, Bt, Lf, Rt, W) && |ps| + 1 >= W
    {
      x, counter, ps := x0, counter0, ps0;
      while x > upperBound
        invariant x <= x0 && (x >= upperBound || x == x0) && counter == counter0 - (x0 - x)
        invariant ps == ps0 + UpRun(x0, y, x0 - x)
        invariant Trail(ps, Pos(x, y), T, Bt, Lf, Rt, W) && |ps| + 1 >= W
      {
        assert UpRun(x0, y, x0 - x + 1) == UpRun(x0, y, x0 - x) + [Pos(x, y)];
        TrailStep(ps, Pos(x, y), Pos(x - 1, y), T, Bt, Lf, Rt, W);
        ps := ps + [Pos(x, y)];
        x := x - 1;
        counter := counter - 1;
      }
    }
  }
}
