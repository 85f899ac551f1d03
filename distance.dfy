/** The Chebyshev (chessboard) metric on pixel positions. */
module DistanceMeasures {
  import opened Grid

  function Abs(x: int): nat
  {
    if x < 0 then -x else x
  }

  /** The larger of the row distance and the column distance. */
  function ChebyshevDistance(a: Pos, b: Pos): (d: nat)
    ensures d >= Abs(a.row - b.row) && d >= Abs(a.col - b.col)
    ensures d == Abs(a.row - b.row) || d == Abs(a.col - b.col)
  {
    if Abs(a.row - b.row) >= Abs(a.col - b.col) then Abs(a.row - b.row) else Abs(a.col - b.col)
  }

  lemma ChebyshevZeroIffSame(a: Pos, b: Pos)
    ensures ChebyshevDistance(a, b) == 0 <==> a == b
  {
  }

  lemma ChebyshevSymmetric(a: Pos, b: Pos)
    ensures ChebyshevDistance(a, b) == ChebyshevDistance(b, a)
  {
  }

  lemma ChebyshevTriangle(a: Pos, b: Pos, c: Pos)
    ensures ChebyshevDistance(a, c) <= ChebyshevDistance(a, b) + ChebyshevDistance(b, c)
  {
    assert Abs(a.row - c.row) <= Abs(a.row - b.row) + Abs(b.row - c.row);
    assert Abs(a.col - c.col) <= Abs(a.col - b.col) + Abs(b.col - c.col);
  }

  /** Each of the eight neighbour offsets moves exactly one Chebyshev unit. */
  lemma NeighbourAtDistanceOne(p: Pos, d: int)
    requires 0 <= d < 8
    ensures ChebyshevDistance(p, Step(p, d)) == 1
  {
  }

  /** A step up, down, left or right is a Chebyshev unit. */
  lemma UnitStepAtDistanceOne(p: Pos, q: Pos)
    requires UnitStep(p, q)
    ensures ChebyshevDistance(p, q) == 1
  {
  }
}
