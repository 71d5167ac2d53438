/** The older rasteriser of the top-level `primitives.cpp`: the same
    algorithm as `Raster`, with the normalisation written out, an intercept
    without a vertical guard, and an overload that draws a run of a given
    length from a start pixel. */
module LegacyRaster {
  import opened Primitives
  import Raster

  /** The older `Segment::GetBCoefficient`: the same quotient as the newer
      one, but it divides by `b.x - a.x` unconditionally, so a vertical
      segment is a division by zero. Away from that case both agree. */
  function BCoefficient(a: Coord, b: Coord): (r: int)
    requires a.x != b.x
    ensures r == Raster.BCoefficient(a, b)
  {
    Raster.ToInt32(Raster.TruncDiv(b.x * a.y - a.x * b.y, b.x - a.x))
  }

  /** The older normalisation: swap when `a.x > b.x`, or when the x
      coordinates tie and `a.y > b.y`; that is exactly when `a > b`, so it
      agrees with the newer one. */
  function Normalize(seg: Segment): (n: Segment)
    ensures n == Raster.Normalize(seg)
  {
    if (seg.a.x == seg.b.x && seg.a.y > seg.b.y) || seg.a.x > seg.b.x then Segment(seg.b, seg.a)
    else seg
  }

  /** The older `Segment::GetGraphic()`. It computes the intercept before
      testing for the vertical case, so it is defined only for segments with
      `a.x != b.x`; on those it draws exactly what the newer one draws. */
  method GetGraphic(seg: Segment, ops: Raster.FloatOps) returns (graphic: seq<Coord>)
    requires seg.a.x != seg.b.x
    ensures graphic == Raster.Graphic(seg, ops)
  {
    var n := Normalize(seg);
    var kc := Raster.KCoefficient(n.a, n.b);
    var bc := BCoefficient(n.a, n.b);
    Raster.KCoefficientSwap(seg.a, seg.b);
    graphic := [];
    // The C++ vertical branch is never reached: the intercept above has
    // already divided by `b.x - a.x`, so the slope here is finite.
    assert kc.Finite?;
    if kc.k <= 1.0 && kc.k >= -1.0 {
      var x := n.a.x;
      while x <= n.b.x
        invariant n.a.x <= x <= Max(n.a.x, n.b.x + 1)
        invariant |graphic| == x - n.a.x
        invariant forall i :: 0 <= i < |graphic| ==>
          graphic[i] == Coord(n.a.x + i, ops.shallowY(kc.k, bc, n.a.x + i))
      {
        graphic := graphic + [Coord(x, ops.shallowY(kc.k, bc, x))];
        x := x + 1;
      }
    } else {
      var inc := if kc.k >= 0.0 then 1 else -1;
      var y := n.a.y;
      while if inc > 0 then y <= n.b.y else y >= n.b.y
        invariant inc > 0 ==> n.a.y <= y <= Max(n.a.y, n.b.y + 1) && |graphic| == y - n.a.y
        invariant inc < 0 ==> Min(n.a.y, n.b.y - 1) <= y <= n.a.y && |graphic| == n.a.y - y
        invariant forall i :: 0 <= i < |graphic| ==>
          graphic[i] == Coord(ops.steepX(kc.k, bc, n.a.y + inc * i), n.a.y + inc * i)
        decreases if inc > 0 then n.b.y - y else y - n.b.y
      {
        graphic := graphic + [Coord(ops.steepX(kc.k, bc, y), y)];
        y := y + inc;
      }
    }
  }

  /** The overload `GetGraphic(a_point, lenth, k, b)`: `max(lenth, 0)`
      pixels from `aPoint`, one per x going right when `-1 <= k <= 1`,
      otherwise one per y going up or down with the sign of `k`. */
  method GetGraphicRun(aPoint: Coord, length: int, k: real, b: int, ops: Raster.FloatOps)
    returns (graphic: seq<Coord>)
    ensures |graphic| == Max(length, 0)
    ensures -1.0 <= k <= 1.0 ==> forall i :: 0 <= i < |graphic| ==>
      graphic[i] == Coord(aPoint.x + i, ops.shallowY(k, b, aPoint.x + i))
    ensures !(-1.0 <= k <= 1.0) ==>
      var inc := if k >= 0.0 then 1 else -1;
      forall i :: 0 <= i < |graphic| ==>
        graphic[i] == Coord(ops.steepX(k, b, aPoint.y + inc * i), aPoint.y + inc * i)
  {
    graphic := [];
    if k <= 1.0 && k >= -1.0 {
      var x := aPoint.x;
      while x < aPoint.x + length
        invariant aPoint.x <= x <= Max(aPoint.x, aPoint.x + length)
        invariant |graphic| == x - aPoint.x
        invariant forall i :: 0 <= i < |graphic| ==>
          graphic[i] == Coord(aPoint.x + i, ops.shallowY(k, b, aPoint.x + i))
      {
        graphic := graphic + [Coord(x, ops.shallowY(k, b, x))];
        x := x + 1;
      }
    } else {
      var inc := if k >= 0.0 then 1 else -1;
      var y := aPoint.y;
      while if inc > 0 then y < aPoint.y + length else y > aPoint.y - length
        invariant |graphic| == inc * (y - aPoint.y) <= Max(length, 0)
        invariant length <= 0 ==> y == aPoint.y
        invariant forall i :: 0 <= i < |graphic| ==>
          graphic[i] == Coord(ops.steepX(k, b, aPoint.y + inc * i), aPoint.y + inc * i)
        decreases length - |graphic|
      {
        graphic := graphic + [Coord(ops.steepX(k, b, y), y)];
        y := y + inc;
      }
    }
  }

  /** The vertical segment from (0,0) to (0,3): the older rasteriser's
      intercept divides by zero on it (its precondition fails), while the
      guarded rasteriser draws the four-pixel column. */
  lemma VerticalSegmentDividesByZero(ops: Raster.FloatOps)
    ensures var seg := Segment(Coord(0, 0), Coord(0, 3));
            Normalize(seg).b.x - Normalize(seg).a.x == 0 &&
            Raster.Graphic(seg, ops) == [Coord(0, 0), Coord(0, 1), Coord(0, 2), Coord(0, 3)]
  {
    var seg := Segment(Coord(0, 0), Coord(0, 3));
    Raster.GraphicVertical(seg, ops);
  }
}
