/** `GetNeighbours`: the 8-neighbourhood of a pixel, optionally clipped to
    a grid. */
module Neighbours {
  import opened Primitives

  /** The default `x_size` of `GetNeighbours`: no borders. */
  const NoBorders: int := -1

  predicate InBounds(c: Coord, xSize: int, ySize: int)
  {
    0 <= c.x < xSize && 0 <= c.y < ySize
  }

  /** A neighbour is kept unless borders are given and it lies outside them. */
  predicate Kept(c: Coord, xSize: int, ySize: int)
  {
    xSize == NoBorders || InBounds(c, xSize, ySize)
  }

  /** The neighbours of `point` are exactly the kept pixels at Chebyshev
      distance 1, listed x-major then y (strictly increasing under `<`),
      at most eight of them. */
  method GetNeighbours(point: Coord, xSize: int, ySize: int) returns (r: seq<Coord>)
    ensures forall c :: c in r <==> Adjacent(point, c) && Kept(c, xSize, ySize)
    ensures forall i, j :: 0 <= i < j < |r| ==> Less(r[i], r[j])
    ensures |r| <= 8
  {
    r := [];
    var x := point.x - 1;
    while x <= point.x + 1
      invariant point.x - 1 <= x <= point.x + 2
      invariant forall c :: c in r <==> Adjacent(point, c) && Kept(c, xSize, ySize) && c.x < x
      invariant forall i, j :: 0 <= i < j < |r| ==> Less(r[i], r[j])
      invariant |r| + (if x > point.x then 1 else 0) <= 3 * (x - point.x + 1)
    {
      var y := point.y - 1;
      while y <= point.y + 1
        invariant point.y - 1 <= y <= point.y + 2
        invariant forall c :: c in r <==>
          Adjacent(point, c) && Kept(c, xSize, ySize) && Less(c, Coord(x, y))
        invariant forall i :: 0 <= i < |r| ==> Less(r[i], Coord(x, y))
        invariant forall i, j :: 0 <= i < j < |r| ==> Less(r[i], r[j])
        invariant |r| + (if Less(point, Coord(x, y)) then 1 else 0) <= 3 * (x - point.x + 1) + (y - point.y + 1)
      {
        if xSize != NoBorders && (x < 0 || y < 0 || x >= xSize || y >= ySize) {
        } else if x == point.x && y == point.y {
        } else {
          r := r + [Coord(x, y)];
        }
        y := y + 1;
      }
      x := x + 1;
    }
  }
}
