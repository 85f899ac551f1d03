/**
 * The pixel grid: a normalized grayscale image as a 2-D array of samples.
 *
 * A pixel of the image is referred to by its position; the grid owns the
 * samples, and every other structure (boundary, hole, rectangle corners) holds
 * positions into it, so an update made through one of them is seen by all.
 */
module Grid {
  import opened Wrappers

  /** The reserved sample value of a holed pixel. */
  const Sentinel: real := -1.0

  /** A pixel position: row first, column second. */
  datatype Pos = Pos(row: int, col: int)

  /** The samples of a grid as a value, row by row. */
  type Samples = seq<seq<real>>

  predicate IsGrid(g: Samples, lenX: nat, lenY: nat)
  {
    |g| == lenX && forall i :: 0 <= i < lenX ==> |g[i]| == lenY
  }

  predicate InGrid(lenX: int, lenY: int, p: Pos)
  {
    0 <= p.row < lenX && 0 <= p.col < lenY
  }

  function At(g: Samples, p: Pos): real
    requires 0 <= p.row < |g| && 0 <= p.col < |g[p.row]|
  {
    g[p.row][p.col]
  }

  /** `g` with the sample at `p` replaced by `v`. */
  function Set(g: Samples, p: Pos, v: real): (r: Samples)
    requires 0 <= p.row < |g| && 0 <= p.col < |g[p.row]|
    ensures |r| == |g| && forall i :: 0 <= i < |g| ==> |r[i]| == |g[i]|
    ensures forall i, j :: 0 <= i < |g| && 0 <= j < |g[i]| ==>
      r[i][j] == if i == p.row && j == p.col then v else g[i][j]
  {
    g[p.row := g[p.row][p.col := v]]
  }

  /** Every sample is a normalized intensity in [0,1] or the sentinel. */
  predicate Normalized(g: Samples)
  {
    forall i, j :: 0 <= i < |g| && 0 <= j < |g[i]| ==>
      g[i][j] == Sentinel || 0.0 <= g[i][j] <= 1.0
  }

  /** No position occurs twice. */
  predicate Distinct(s: seq<Pos>)
  {
    forall i, j :: 0 <= i < j < |s| ==> s[i] != s[j]
  }

  predicate AllInGrid(lenX: int, lenY: int, s: seq<Pos>)
  {
    forall k :: 0 <= k < |s| ==> InGrid(lenX, lenY, s[k])
  }

  /** Row-major order: `p` is scanned strictly before `q`. */
  predicate Before(p: Pos, q: Pos)
  {
    p.row < q.row || (p.row == q.row && p.col < q.col)
  }

  /**
   * The eight neighbour offsets, clockwise from west:
   * 0 = W, 1 = NW, 2 = N, 3 = NE, 4 = E, 5 = SE, 6 = S, 7 = SW.
   */
  function Offset(d: int): Pos
    requires 0 <= d < 8
  {
    if d == 0 then Pos(0, -1)
    else if d == 1 then Pos(-1, -1)
    else if d == 2 then Pos(-1, 0)
    else if d == 3 then Pos(-1, 1)
    else if d == 4 then Pos(0, 1)
    else if d == 5 then Pos(1, 1)
    else if d == 6 then Pos(1, 0)
    else Pos(1, -1)
  }

  /** The neighbour of `p` in direction `d`. */
  function Step(p: Pos, d: int): Pos
    requires 0 <= d < 8
  {
    Pos(p.row + Offset(d).row, p.col + Offset(d).col)
  }

  /** One step up, down, left or right. */
  predicate UnitStep(p: Pos, q: Pos)
  {
    (p.row == q.row && (q.col == p.col + 1 || q.col == p.col - 1)) ||
    (p.col == q.col && (q.row == p.row + 1 || q.row == p.row - 1))
  }

  /**
   * The pixel `x` rows and `y` columns away from `start`, or none when that
   * position lies outside the grid (the strict test the method promises).
   */
  function GetDistantElement(lenX: int, lenY: int, start: Pos, x: int, y: int): (r: Option<Pos>)
    ensures r.None? <==> !InGrid(lenX, lenY, Pos(start.row + x, start.col + y))
    ensures r.Some? ==> r.value == Pos(start.row + x, start.col + y)
  {
    if start.row + x >= lenX || start.row + x < 0 || start.col + y >= lenY || start.col + y < 0 then
      None
    else
      Some(Pos(start.row + x, start.col + y))
  }

  /** The guard of the distant-element lookup as written: `>` where `>=` is meant. */
  predicate DistantGuardAsWritten(lenX: int, lenY: int, start: Pos, x: int, y: int)
  {
    !(start.row + x > lenX || start.row + x < 0 || start.col + y > lenY || start.col + y < 0)
  }

  /**
   * The written guard admits exactly the in-grid targets plus those one past
   * the last row or the last column; the latter then index outside the array.
   */
  lemma DistantGuardAsWrittenAdmits(lenX: int, lenY: int, start: Pos, x: int, y: int)
    ensures DistantGuardAsWritten(lenX, lenY, start, x, y) <==>
      (GetDistantElement(lenX, lenY, start, x, y).Some? ||
       (0 <= start.row + x <= lenX && 0 <= start.col + y <= lenY &&
        (start.row + x == lenX || start.col + y == lenY)))
  {
  }

  /** A pixel in the last row, asked for the pixel below it, passes the written guard. */
  lemma DistantGuardAsWrittenOnePastEnd(lenX: int, lenY: int, start: Pos)
    requires InGrid(lenX, lenY, start) && start.row == lenX - 1
    ensures DistantGuardAsWritten(lenX, lenY, start, 1, 0)
    ensures !InGrid(lenX, lenY, Pos(start.row + 1, start.col))
    ensures GetDistantElement(lenX, lenY, start, 1, 0) == None
  {
  }

  /** Two grids of the same shape with the same samples are equal. */
  lemma GridExtensionality(a: Samples, b: Samples, lenX: nat, lenY: nat)
    requires IsGrid(a, lenX, lenY) && IsGrid(b, lenX, lenY)
    requires forall i, j :: 0 <= i < lenX && 0 <= j < lenY ==> a[i][j] == b[i][j]
    ensures a == b
  {
    forall i | 0 <= i < lenX
      ensures a[i] == b[i]
    {
      assert forall j :: 0 <= j < lenY ==> a[i][j] == b[i][j];
    }
  }

  /** The image matrix; it owns the samples, and the hole flag. */
  class ImageMatrix {
    const cells: array2<real>
    var IsHoled: bool

    function LenX(): nat { cells.Length0 }
    function LenY(): nat { cells.Length1 }

    predicate Contains(p: Pos)
    {
      InGrid(LenX(), LenY(), p)
    }

    /** Builds a grid whose pixel at (i,j) holds `source[i,j]`. */
    constructor (source: array2<real>)
      ensures LenX() == source.Length0 && LenY() == source.Length1
      ensures fresh(cells) && !IsHoled
      ensures forall i, j :: 0 <= i < source.Length0 && 0 <= j < source.Length1 ==>
        cells[i, j] == source[i, j]
    {
      var a := new real[source.Length0, source.Length1];
      var i := 0;
      while i < source.Length0
        invariant 0 <= i <= source.Length0
        invariant forall r, c :: 0 <= r < i && 0 <= c < source.Length1 ==> a[r, c] == source[r, c]
      {
        var j := 0;
        while j < source.Length1
          invariant 0 <= j <= source.Length1
          invariant forall r, c :: 0 <= r < i && 0 <= c < source.Length1 ==> a[r, c] == source[r, c]
          invariant forall c :: 0 <= c < j ==> a[i, c] == source[i, c]
        {
          a[i, j] := source[i, j];
          j := j + 1;
        }
        i := i + 1;
      }
      cells := a;
      IsHoled := false;
    }

    /** The samples as a value. */
    ghost function Snapshot(): (g: Samples)
      reads cells
      ensures IsGrid(g, LenX(), LenY())
      ensures forall i, j :: 0 <= i < LenX() && 0 <= j < LenY() ==> g[i][j] == cells[i, j]
    {
      seq(cells.Length0, i requires 0 <= i < cells.Length0 reads cells =>
        seq(cells.Length1, j requires 0 <= j < cells.Length1 reads cells => cells[i, j]))
    }

    /** The sample of the pixel at row `x`, column `y`; the index must be in range. */
    function GetArrayElement(x: int, y: int): (v: real)
      reads cells
      requires 0 <= x < LenX() && 0 <= y < LenY()
      ensures v == At(Snapshot(), Pos(x, y))
    {
      cells[x, y]
    }

    /** Writes the sample of one pixel. */
    method SetValue(p: Pos, v: real)
      requires Contains(p)
      modifies cells
      ensures Snapshot() == Set(old(Snapshot()), p, v)
    {
      ghost var before := Snapshot();
      cells[p.row, p.col] := v;
      GridExtensionality(Snapshot(), Set(before, p, v), LenX(), LenY());
    }
  }
}
