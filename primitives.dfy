/** Pixel coordinates and segments, with the comparison operators that the
    rasteriser and the extractor order pixels by. */
module Primitives {

  /** A pixel position. The C++ fields are 32-bit `int`s; here they are
      unbounded, and the places where the width matters say so. */
  datatype Coord = Coord(x: int, y: int)

  /** A segment from `a` to `b`. Its constructor and its `GetA`/`GetB`
      accessors are the datatype's constructor and fields. */
  datatype Segment = Segment(a: Coord, b: Coord)

  function Abs(v: int): nat { if v < 0 then -v else v }

  function Max(p: int, q: int): int { if p < q then q else p }

  function Min(p: int, q: int): int { if p < q then p else q }

  /** `operator==`: componentwise equality. */
  function Equal(first: Coord, second: Coord): (r: bool)
    ensures r <==> first == second
  {
    first.x == second.x && first.y == second.y
  }

  /** `operator!=`: the negation of `operator==`. */
  function NotEqual(first: Coord, second: Coord): (r: bool)
    ensures r <==> first != second
  {
    !Equal(first, second)
  }

  /** `operator<`: x decides unless the x coordinates tie, then y decides. */
  function Less(first: Coord, second: Coord): (r: bool)
    ensures r <==> first.x < second.x || (first.x == second.x && first.y < second.y)
  {
    if first.x != second.x then first.x < second.x else first.y < second.y
  }

  /** `operator<=`, written in the source as `==` or `<`: it is exactly
      "not greater", so `<` is total. */
  function LessEq(first: Coord, second: Coord): (r: bool)
    ensures r <==> !Less(second, first)
  {
    Equal(first, second) || Less(first, second)
  }

  /** `operator>`, written in the source as "not `<=`": it is `<` with the
      operands swapped. */
  function Greater(first: Coord, second: Coord): (r: bool)
    ensures r <==> Less(second, first)
  {
    !LessEq(first, second)
  }

  /** `operator>=`, written in the source as "not `<`": it is `<=` with the
      operands swapped. */
  function GreaterEq(first: Coord, second: Coord): (r: bool)
    ensures r <==> LessEq(second, first)
  {
    !Less(first, second)
  }

  /** `<` is a strict order: irreflexive and transitive. */
  lemma LessIsStrictOrder(a: Coord, b: Coord, c: Coord)
    ensures !Less(a, a)
    ensures Less(a, b) && Less(b, c) ==> Less(a, c)
  {
  }

  /** For any two coordinates exactly one of `a < b`, `a == b`, `a > b` holds. */
  lemma Trichotomy(a: Coord, b: Coord)
    ensures Less(a, b) || Equal(a, b) || Greater(a, b)
    ensures !(Less(a, b) && Equal(a, b))
    ensures !(Less(a, b) && Greater(a, b))
    ensures !(Equal(a, b) && Greater(a, b))
  {
  }

  /** The largest coordinate difference (Chebyshev distance). */
  function Chebyshev(a: Coord, b: Coord): nat
  {
    if Abs(a.x - b.x) < Abs(a.y - b.y) then Abs(a.y - b.y) else Abs(a.x - b.x)
  }

  /** 8-adjacency: distinct pixels whose coordinates differ by at most one. */
  predicate Adjacent(a: Coord, b: Coord)
  {
    Chebyshev(a, b) == 1
  }

  /** A chain of pixels in which every pixel is 8-adjacent to the next. */
  predicate Connected(chain: seq<Coord>)
  {
    forall k :: 0 < k < |chain| ==> Adjacent(chain[k - 1], chain[k])
  }

  /** Squared Euclidean distance. `GetDistance` returns its square root,
      and the square root is monotone, so both order pixel pairs alike. */
  function SquaredDistance(a: Coord, b: Coord): nat
  {
    (b.x - a.x) * (b.x - a.x) + (b.y - a.y) * (b.y - a.y)
  }
}
