/**
 * The hole as a value: its boundary, the list of its holed pixels and the
 * rectangle that covers it, together with the two scans that compute the
 * rectangle and the pixel list.
 */
module Holes {
  import opened Wrappers
  import opened Grid

  /** The four corners, in the order the constructor takes them (not clockwise). */
  datatype Rectangle = Rectangle(topLeft: Pos, bottomRight: Pos, topRight: Pos, bottomLeft: Pos)

  /** A traced hole: its boundary, its holed pixels and its covering rectangle. */
  datatype Hole = Hole(boundary: seq<Pos>, holePixels: seq<Pos>, coveringRectangle: Rectangle)

  /** The older hole record: pixels first, the covering rectangle set afterwards. */
  datatype PixelHole = PixelHole(holePixels: seq<Pos>, coveringRectangle: Option<Rectangle>)

  /** A fresh older hole record has no pixels and no rectangle yet. */
  function NewPixelHole(): (h: PixelHole)
    ensures |h.holePixels| == 0 && h.coveringRectangle == None
  {
    PixelHole([], None)
  }

  /** `p` lies inside the rectangle, both corners included. */
  predicate InRect(r: Rectangle, p: Pos)
  {
    r.topLeft.row <= p.row <= r.bottomRight.row && r.topLeft.col <= p.col <= r.bottomRight.col
  }

  datatype Axis = RowAxis | ColAxis

  function Coord(p: Pos, a: Axis): int
  {
    if a == RowAxis then p.row else p.col
  }

  /** The running minimum of one coordinate over `b`, started from `seed`. */
  function MinOf(b: seq<Pos>, a: Axis, seed: int): int
  {
    if b == [] then seed
    else
      var m0 := MinOf(b[..|b| - 1], a, seed);
      if Coord(b[|b| - 1], a) < m0 then Coord(b[|b| - 1], a) else m0
  }

  /** The running maximum of one coordinate over `b`, started from `seed`. */
  function MaxOf(b: seq<Pos>, a: Axis, seed: int): int
  {
    if b == [] then seed
    else
      var m0 := MaxOf(b[..|b| - 1], a, seed);
      if Coord(b[|b| - 1], a) > m0 then Coord(b[|b| - 1], a) else m0
  }

  /**
   * The running minimum is a lower bound of the seed and of every coordinate,
   * and is the seed or one of the coordinates; dually for the maximum.
   */
  lemma {:induction false} ExtremesBound(b: seq<Pos>, a: Axis, seed: int)
    ensures MinOf(b, a, seed) <= seed && forall k :: 0 <= k < |b| ==> MinOf(b, a, seed) <= Coord(b[k], a)
    ensures MinOf(b, a, seed) == seed || exists k :: 0 <= k < |b| && MinOf(b, a, seed) == Coord(b[k], a)
    ensures MaxOf(b, a, seed) >= seed && forall k :: 0 <= k < |b| ==> MaxOf(b, a, seed) >= Coord(b[k], a)
    ensures MaxOf(b, a, seed) == seed || exists k :: 0 <= k < |b| && MaxOf(b, a, seed) == Coord(b[k], a)
  {
    if b != [] {
      var front := b[..|b| - 1];
      ExtremesBound(front, a, seed);
      assert forall k :: 0 <= k < |front| ==> front[k] == b[k];
    }
  }

  /** Extending the scanned prefix by `b[i]` updates the running extremes with it. */
  lemma ExtremesStep(b: seq<Pos>, i: int, a: Axis, seed: int)
    requires 0 <= i < |b|
    ensures MinOf(b[..i + 1], a, seed) ==
      if Coord(b[i], a) < MinOf(b[..i], a, seed) then Coord(b[i], a) else MinOf(b[..i], a, seed)
    ensures MaxOf(b[..i + 1], a, seed) ==
      if Coord(b[i], a) > MaxOf(b[..i], a, seed) then Coord(b[i], a) else MaxOf(b[..i], a, seed)
  {
    assert b[..i + 1][..i] == b[..i];
  }

  /**
   * The covering rectangle of a boundary: minima seeded with the last row and
   * column, maxima seeded with 0.
   */
  function CoveringRectangleOf(b: seq<Pos>, lenX: int, lenY: int): Rectangle
  {
    var minRow := MinOf(b, RowAxis, lenX - 1);
    var minCol := MinOf(b, ColAxis, lenY - 1);
    var maxRow := MaxOf(b, RowAxis, 0);
    var maxCol := MaxOf(b, ColAxis, 0);
    Rectangle(Pos(minRow, minCol), Pos(maxRow, maxCol), Pos(minRow, maxCol), Pos(maxRow, minCol))
  }

  /**
   * For a non-empty boundary inside the grid the covering rectangle is its
   * bounding box: every corner is in the grid, it contains every boundary
   * pixel, and each of its four sides touches one.
   */
  lemma {:induction false} CoveringRectangleIsBoundingBox(b: seq<Pos>, lenX: int, lenY: int)
    requires |b| > 0 && forall k :: 0 <= k < |b| ==> InGrid(lenX, lenY, b[k])
    ensures var r := CoveringRectangleOf(b, lenX, lenY);
      InGrid(lenX, lenY, r.topLeft) && InGrid(lenX, lenY, r.bottomRight) &&
      InGrid(lenX, lenY, r.topRight) && InGrid(lenX, lenY, r.bottomLeft) &&
      r.topLeft.row <= r.bottomRight.row && r.topLeft.col <= r.bottomRight.col &&
      r.topRight == Pos(r.topLeft.row, r.bottomRight.col) &&
      r.bottomLeft == Pos(r.bottomRight.row, r.topLeft.col) &&
      (forall k :: 0 <= k < |b| ==> InRect(r, b[k])) &&
      (exists k :: 0 <= k < |b| && b[k].row == r.topLeft.row) &&
      (exists k :: 0 <= k < |b| && b[k].row == r.bottomRight.row) &&
      (exists k :: 0 <= k < |b| && b[k].col == r.topLeft.col) &&
      (exists k :: 0 <= k < |b| && b[k].col == r.bottomRight.col)
  {
    var r := CoveringRectangleOf(b, lenX, lenY);
    ExtremesBound(b, RowAxis, lenX - 1);
    ExtremesBound(b, ColAxis, lenY - 1);
    ExtremesBound(b, RowAxis, 0);
    ExtremesBound(b, ColAxis, 0);
    assert InGrid(lenX, lenY, b[0]);
    if r.topLeft.row == lenX - 1 { assert b[0].row == r.topLeft.row; }
    if r.topLeft.col == lenY - 1 { assert b[0].col == r.topLeft.col; }
    if r.bottomRight.row == 0 { assert b[0].row == r.bottomRight.row; }
    if r.bottomRight.col == 0 { assert b[0].col == r.bottomRight.col; }
  }

  /** Strictly increasing in row-major order, hence without repeats. */
  predicate RowMajorSorted(s: seq<Pos>)
  {
    forall a, b :: 0 <= a < b < |s| ==> Before(s[a], s[b])
  }

  /**
   * `list` is the holed pixels of the rectangle `r`, in row-major order:
   * exactly the cells of `r` holding the sentinel.
   */
  ghost predicate IsHoleList(g: Samples, lenX: nat, lenY: nat, r: Rectangle, list: seq<Pos>)
    requires IsGrid(g, lenX, lenY)
  {
    RowMajorSorted(list) &&
    (forall k :: 0 <= k < |list| ==> InRect(r, list[k]) && InGrid(lenX, lenY, list[k]) && At(g, list[k]) == Sentinel) &&
    (forall p :: InGrid(lenX, lenY, p) && InRect(r, p) && At(g, p) == Sentinel ==> p in list)
  }

  lemma HeadIsMember(s: seq<Pos>)
    ensures s != [] ==> s[0] in s
  {
  }

  /** Two row-major sorted lists with the same members are the same list. */
  lemma {:induction false} SortedListsEqual(a: seq<Pos>, b: seq<Pos>)
    requires RowMajorSorted(a) && RowMajorSorted(b)
    requires forall p :: p in a <==> p in b
    ensures a == b
    decreases |a|
  {
    if a == [] {
      HeadIsMember(b);
    } else {
      assert a[0] in a;
      assert b != [];
      assert b[0] in b;
      var i :| 0 <= i < |a| && a[i] == b[0];
      var j :| 0 <= j < |b| && b[j] == a[0];
      assert a[0] == b[0];
      forall p
        ensures p in a[1..] <==> p in b[1..]
      {
        if p in a[1..] {
          var k :| 0 <= k < |a[1..]| && a[1..][k] == p;
          assert Before(a[0], a[k + 1]);
        }
        if p in b[1..] {
          var k :| 0 <= k < |b[1..]| && b[1..][k] == p;
          assert Before(b[0], b[k + 1]);
        }
        assert p in a <==> p == a[0] || p in a[1..];
        assert p in b <==> p == b[0] || p in b[1..];
      }
      SortedListsEqual(a[1..], b[1..]);
      assert a == [a[0]] + a[1..];
      assert b == [b[0]] + b[1..];
    }
  }

  /** The hole list of a rectangle is unique. */
  lemma HoleListUnique(g: Samples, lenX: nat, lenY: nat, r: Rectangle, a: seq<Pos>, b: seq<Pos>)
    requires IsGrid(g, lenX, lenY)
    requires IsHoleList(g, lenX, lenY, r, a) && IsHoleList(g, lenX, lenY, r, b)
    ensures a == b
  {
    forall p
      ensures p in a <==> p in b
    {
      if p in a {
        var k :| 0 <= k < |a| && a[k] == p;
      }
      if p in b {
        var k :| 0 <= k < |b| && b[k] == p;
      }
    }
    SortedListsEqual(a, b);
  }

  /** Computes the covering rectangle of the boundary in one pass over it. */
  method FindCoveringRectangle(img: ImageMatrix, boundary: seq<Pos>) returns (r: Rectangle)
    requires img.LenX() >= 1 && img.LenY() >= 1
    requires forall k :: 0 <= k < |boundary| ==> img.Contains(boundary[k])
    ensures r == CoveringRectangleOf(boundary, img.LenX(), img.LenY())
    ensures img.Contains(r.topLeft) && img.Contains(r.bottomRight)
    ensures img.Contains(r.topRight) && img.Contains(r.bottomLeft)
  {
    var lenX, lenY := img.LenX(), img.LenY();
    var minRow, minCol := lenX - 1, lenY - 1;
    var maxRow, maxCol := 0, 0;
    var i := 0;
    while i < |boundary|
      invariant 0 <= i <= |boundary|
      invariant minRow == MinOf(boundary[..i], RowAxis, lenX - 1)
      invariant minCol == MinOf(boundary[..i], ColAxis, lenY - 1)
      invariant maxRow == MaxOf(boundary[..i], RowAxis, 0)
      invariant maxCol == MaxOf(boundary[..i], ColAxis, 0)
    {
      var pix := boundary[i];
      ExtremesStep(boundary, i, RowAxis, lenX - 1);
      ExtremesStep(boundary, i, ColAxis, lenY - 1);
      ExtremesStep(boundary, i, RowAxis, 0);
      ExtremesStep(boundary, i, ColAxis, 0);
      minRow := if pix.row < minRow then pix.row else minRow;
      maxRow := if pix.row > maxRow then pix.row else maxRow;
      minCol := if pix.col < minCol then pix.col else minCol;
      maxCol := if pix.col > maxCol then pix.col else maxCol;
      i := i + 1;
    }
    assert boundary[..i] == boundary;
    r := Rectangle(Pos(minRow, minCol), Pos(maxRow, maxCol), Pos(minRow, maxCol), Pos(maxRow, minCol));
    if |boundary| > 0 {
      CoveringRectangleIsBoundingBox(boundary, lenX, lenY);
    }
  }

  /** Lists the holed pixels of the inclusive rectangle, row by row. */
  method FindHolePixels(img: ImageMatrix, r: Rectangle) returns (list: seq<Pos>)
    requires r.topLeft.row <= r.bottomRight.row && r.topLeft.col <= r.bottomRight.col ==>
      img.Contains(r.topLeft) && img.Contains(r.bottomRight)
    ensures IsHoleList(img.Snapshot(), img.LenX(), img.LenY(), r, list)
  {
    ghost var g := img.Snapshot();
    list := [];
    var i := r.topLeft.row;
    while i <= r.bottomRight.row
      invariant r.topLeft.row <= i && (i <= r.bottomRight.row + 1 || i == r.topLeft.row)
      invariant RowMajorSorted(list)
      invariant forall k :: 0 <= k < |list| ==>
        InRect(r, list[k]) && img.Contains(list[k]) && At(g, list[k]) == Sentinel && list[k].row < i
      invariant forall p :: img.Contains(p) && InRect(r, p) && At(g, p) == Sentinel && p.row < i ==> p in list
    {
      list := ScanHoleRow(img, r, i, list);
      i := i + 1;
    }
  }

  /** The inner loop of the hole scan: appends the holed pixels of row `i` of `r`, left to right. */
  method ScanHoleRow(img: ImageMatrix, r: Rectangle, i: int, list0: seq<Pos>) returns (list: seq<Pos>)
    requires r.topLeft.row <= i <= r.bottomRight.row
    requires r.topLeft.col <= r.bottomRight.col ==> img.Contains(r.topLeft) && img.Contains(r.bottomRight)
    requires RowMajorSorted(list0)
    requires forall k :: 0 <= k < |list0| ==>
      InRect(r, list0[k]) && img.Contains(list0[k]) && At(img.Snapshot(), list0[k]) == Sentinel && list0[k].row < i
    requires forall p :: img.Contains(p) && InRect(r, p) && At(img.Snapshot(), p) == Sentinel && p.row < i ==>
      p in list0
    ensures RowMajorSorted(list)
    ensures forall k :: 0 <= k < |list| ==>
      InRect(r, list[k]) && img.Contains(list[k]) && At(img.Snapshot(), list[k]) == Sentinel && list[k].row <= i
    ensures forall p :: img.Contains(p) && InRect(r, p) && At(img.Snapshot(), p) == Sentinel && p.row <= i ==>
      p in list
  {
    ghost var g := img.Snapshot();
    list := list0;
    var j := r.topLeft.col;
    while j <= r.bottomRight.col
      invariant r.topLeft.col <= j && (j <= r.bottomRight.col + 1 || j == r.topLeft.col)
      invariant RowMajorSorted(list)
      invariant forall k :: 0 <= k < |list| ==>
        InRect(r, list[k]) && img.Contains(list[k]) && At(g, list[k]) == Sentinel && Before(list[k], Pos(i, j))
      invariant forall p :: img.Contains(p) && InRect(r, p) && At(g, p) == Sentinel && Before(p, Pos(i, j)) ==>
        p in list
    {
      if img.GetArrayElement(i, j) == Sentinel {
        list := list + [Pos(i, j)];
      }
      j := j + 1;
    }
  }
}
