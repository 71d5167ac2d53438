/** The slope-adaptive segment rasteriser, `Segment::GetGraphic`, with the
    slope and intercept helpers it is built on. */
module Raster {
  import opened Primitives

  /** `GetKCoefficient`'s result: the float slope `dy/dx`, or the `FLT_MAX`
      sentinel the source returns for a vertical segment, which is a variant
      of its own here. */
  datatype Slope = Vertical | Finite(k: real)

  /** The two float expressions that compute the dependent coordinate, left
      abstract: `shallowY(k, b, x)` stands for `static_cast<int>(k*x + b)`
      and `steepX(k, b, y)` for `static_cast<int>(float(y)/k - float(b)/k)`.
      Every property below holds whatever these functions are. */
  datatype FloatOps = FloatOps(shallowY: (real, int, int) -> int, steepX: (real, int, int) -> int)

  const TwoTo31: int := 0x8000_0000
  const TwoTo32: int := 0x1_0000_0000

  /** `GetKCoefficient(Segment{a, b})`: vertical exactly when the x
      coordinates agree, otherwise the ratio of the differences. */
  function KCoefficient(a: Coord, b: Coord): (s: Slope)
    ensures s.Vertical? <==> a.x == b.x
    ensures s.Finite? ==> s.k * (b.x - a.x) as real == (b.y - a.y) as real
  {
    if b.x == a.x then Vertical else Finite((b.y - a.y) as real / (b.x - a.x) as real)
  }

  /** Swapping the endpoints negates both differences and leaves the slope
      unchanged. */
  lemma KCoefficientSwap(a: Coord, b: Coord)
    ensures KCoefficient(a, b) == KCoefficient(b, a)
  {
    if a.x != b.x {
      var dy, dx := (b.y - a.y) as real, (b.x - a.x) as real;
      assert (-dy) / (-dx) == dy / dx;
    }
  }

  /** The branch test `-1 <= k <= 1`. */
  predicate IsShallow(s: Slope)
  {
    s.Finite? && -1.0 <= s.k <= 1.0
  }

  /** Over exact slopes the branch test is `|dy| <= |dx|`. */
  lemma ShallowIffRunDominates(a: Coord, b: Coord)
    requires a.x != b.x
    ensures IsShallow(KCoefficient(a, b)) <==> Abs(b.y - a.y) <= Abs(b.x - a.x)
  {
    var s := KCoefficient(a, b);
    var dy, dx := (b.y - a.y) as real, (b.x - a.x) as real;
    if dx > 0.0 {
      PositiveScale(s.k, dx, dy);
      assert Abs(b.y - a.y) <= Abs(b.x - a.x) <==> -dx <= dy <= dx;
    } else {
      NegativeScale(s.k, dx, dy);
      assert Abs(b.y - a.y) <= Abs(b.x - a.x) <==> dx <= dy <= -dx;
    }
  }

  /** With a positive run, comparing the slope with 1 and -1 compares the
      rise with the run. */
  lemma PositiveScale(k: real, dx: real, dy: real)
    requires dx > 0.0 && k * dx == dy
    ensures k <= 1.0 <==> dy <= dx
    ensures k >= -1.0 <==> dy >= -dx
  {
    assert dy - dx == (k - 1.0) * dx;
    assert dy + dx == (k + 1.0) * dx;
  }

  /** With a negative run the comparisons turn around. */
  lemma NegativeScale(k: real, dx: real, dy: real)
    requires dx < 0.0 && k * dx == dy
    ensures k <= 1.0 <==> dy >= dx
    ensures k >= -1.0 <==> dy <= -dx
  {
    PositiveScale(-k, -dx, dy);
  }

  /** For a segment drawn left to right, the slope is non-negative exactly
      when the segment does not go down. */
  lemma SlopeSign(a: Coord, b: Coord)
    requires a.x < b.x
    ensures KCoefficient(a, b).k >= 0.0 <==> a.y <= b.y
  {
    var k := KCoefficient(a, b).k;
    var dy, dx := (b.y - a.y) as real, (b.x - a.x) as real;
    assert k * dx == dy;
    assert k >= 0.0 <==> k * dx >= 0.0;
  }

  /** C++ integer division: the quotient truncated toward zero, whereas
      Dafny's `/` is Euclidean. Characterised by the C++ rule that the
      remainder `n - q*d` is smaller than the divisor and has the sign of `n`. */
  function TruncDiv(n: int, d: int): (q: int)
    requires d != 0
    ensures Abs(n - q * d) < Abs(d)
    ensures n - q * d == 0 || ((n - q * d > 0) <==> (n > 0))
  {
    var q := if (n < 0) == (d < 0) then Abs(n) / Abs(d) else -(Abs(n) / Abs(d));
    TruncRemainder(n, d, q);
    q
  }

  /** The remainder left by the truncated quotient is the Euclidean
      remainder of the magnitudes, carrying the sign of `n`. */
  lemma TruncRemainder(n: int, d: int, q: int)
    requires d != 0
    requires q == if (n < 0) == (d < 0) then Abs(n) / Abs(d) else -(Abs(n) / Abs(d))
    ensures Abs(n - q * d) < Abs(d)
    ensures n - q * d == 0 || ((n - q * d > 0) <==> (n > 0))
  {
    var an: int, ad: int := Abs(n), Abs(d);
    var m: int, r: int := an / ad, an % ad;
    DivMod(an, ad);
    assert an == 0 ==> r == 0;
    var p: int := m * ad;
    if n < 0 {
      if d < 0 {
        assert q == m && d == -ad;
        MulNeg(m, ad);
      } else {
        assert q == -m && d == ad;
        MulNeg(m, ad);
      }
      assert q * d == -p;
      assert n - q * d == -r;
    } else {
      if d < 0 {
        assert q == -m && d == -ad;
        MulNeg(m, ad);
        MulNeg(-m, ad);
      } else {
        assert q == m && d == ad;
      }
      assert q * d == p;
      assert n - q * d == r;
    }
  }

  lemma MulNeg(a: int, b: int)
    ensures a * (-b) == -(a * b)
    ensures (-a) * b == -(a * b)
  {
  }

  lemma DivMod(an: int, ad: int)
    requires an >= 0 && ad > 0
    ensures an == (an / ad) * ad + an % ad && 0 <= an % ad < ad
  {
  }

  /** Negating both operands of a truncating division leaves the quotient. */
  lemma TruncDivNegateBoth(n: int, d: int)
    requires d != 0
    ensures TruncDiv(-n, -d) == TruncDiv(n, d)
  {
  }

  /** Narrowing a 64-bit value to a 32-bit `int`: the two's-complement
      representative of `v` modulo 2^32. */
  function ToInt32(v: int): (r: int)
    ensures -TwoTo31 <= r < TwoTo31
    ensures (v - r) % TwoTo32 == 0
  {
    (v + TwoTo31) % TwoTo32 - TwoTo31
  }

  /** `Segment::GetBCoefficient` on the segment `(a, b)`: 0 when vertical,
      otherwise the truncated 64-bit quotient `(bx*ay - ax*by)/(bx - ax)`
      (the y-intercept of the line through both points) narrowed to `int`. */
  function BCoefficient(a: Coord, b: Coord): (r: int)
    ensures a.x == b.x ==> r == 0
    ensures -TwoTo31 <= r < TwoTo31
  {
    if b.x - a.x == 0 then 0
    else ToInt32(TruncDiv(b.x * a.y - a.x * b.y, b.x - a.x))
  }

  /** The intercept does not depend on the order of the endpoints. */
  lemma BCoefficientSwap(a: Coord, b: Coord)
    ensures BCoefficient(a, b) == BCoefficient(b, a)
  {
    if a.x != b.x {
      assert a.x * b.y - b.x * a.y == -(b.x * a.y - a.x * b.y);
      assert a.x - b.x == -(b.x - a.x);
      TruncDivNegateBoth(b.x * a.y - a.x * b.y, b.x - a.x);
    }
  }

  /** The normalisation at the start of `GetGraphic`: the endpoints are
      swapped when `a > b`, so that `a <= b` afterwards. */
  function Normalize(seg: Segment): (n: Segment)
    ensures LessEq(n.a, n.b)
    ensures n == seg || n == Segment(seg.b, seg.a)
  {
    if Greater(seg.a, seg.b) then Segment(seg.b, seg.a) else seg
  }

  /** Both orders of the endpoints normalise to the same segment. */
  lemma NormalizeSwap(a: Coord, b: Coord)
    ensures Normalize(Segment(a, b)) == Normalize(Segment(b, a))
  {
    Trichotomy(a, b);
  }

  /** The number of iterations of `for (v = from; v <= to; ++v)`. */
  function Span(from: int, to: int): nat
  {
    if from <= to then to - from + 1 else 0
  }

  /** The pixels `GetGraphic` emits, in order, as a closed form per branch:
      a column for a vertical segment, one pixel per x for a shallow one,
      one pixel per y (stepping by the slope's sign) for a steep one. The
      slope is taken from the segment as given, the intercept and the loop
      bounds from the normalised one. */
  function Graphic(seg: Segment, ops: FloatOps): seq<Coord>
  {
    var n := Normalize(seg);
    var bc := BCoefficient(n.a, n.b);
    match KCoefficient(seg.a, seg.b)
    case Vertical => seq(Span(n.a.y, n.b.y), i => Coord(n.b.x, n.a.y + i))
    case Finite(k) =>
      if -1.0 <= k <= 1.0 then
        seq(Span(n.a.x, n.b.x), i => Coord(n.a.x + i, ops.shallowY(k, bc, n.a.x + i)))
      else if k >= 0.0 then
        seq(Span(n.a.y, n.b.y), i => Coord(ops.steepX(k, bc, n.a.y + i), n.a.y + i))
      else
        seq(Span(n.b.y, n.a.y), i => Coord(ops.steepX(k, bc, n.a.y - i), n.a.y - i))
  }

  /** `Segment::GetGraphic()`: normalise, pick the iteration axis by the
      slope, and push one pixel per step. */
  method GetGraphic(seg: Segment, ops: FloatOps) returns (graphic: seq<Coord>)
    ensures graphic == Graphic(seg, ops)
  {
    var lo, hi := seg.a, seg.b;
    if Greater(seg.a, seg.b) {
      lo, hi := seg.b, seg.a;
    }
    var kc := KCoefficient(seg.a, seg.b);
    var bc := BCoefficient(lo, hi);
    if kc.Vertical? {
      graphic := VerticalRun(lo, hi);
    } else if kc.k <= 1.0 && kc.k >= -1.0 {
      graphic := ShallowRun(lo, hi, kc.k, bc, ops);
    } else {
      graphic := SteepRun(lo, hi, kc.k, bc, ops);
    }
  }

  /** The vertical loop: `x` is `b.x`, `y` runs from `a.y` up to `b.y`. */
  method VerticalRun(lo: Coord, hi: Coord) returns (graphic: seq<Coord>)
    ensures graphic == seq(Span(lo.y, hi.y), i => Coord(hi.x, lo.y + i))
  {
    graphic := [];
    var y := lo.y;
    while y <= hi.y
      invariant lo.y <= y <= Max(lo.y, hi.y + 1)
      invariant |graphic| == y - lo.y
      invariant forall i :: 0 <= i < |graphic| ==> graphic[i] == Coord(hi.x, lo.y + i)
    {
      graphic := graphic + [Coord(hi.x, y)];
      y := y + 1;
    }
  }

  /** The shallow loop: one pixel per `x` from `a.x` up to `b.x`. */
  method ShallowRun(lo: Coord, hi: Coord, k: real, bc: int, ops: FloatOps) returns (graphic: seq<Coord>)
    ensures graphic == seq(Span(lo.x, hi.x), i => Coord(lo.x + i, ops.shallowY(k, bc, lo.x + i)))
  {
    graphic := [];
    var x := lo.x;
    while x <= hi.x
      invariant lo.x <= x <= Max(lo.x, hi.x + 1)
      invariant |graphic| == x - lo.x
      invariant forall i :: 0 <= i < |graphic| ==>
        graphic[i] == Coord(lo.x + i, ops.shallowY(k, bc, lo.x + i))
    {
      graphic := graphic + [Coord(x, ops.shallowY(k, bc, x))];
      x := x + 1;
    }
  }

  /** The steep loop: one pixel per `y` from `a.y` towards `b.y`, stepping
      by the sign of the slope. */
  method SteepRun(lo: Coord, hi: Coord, k: real, bc: int, ops: FloatOps) returns (graphic: seq<Coord>)
    ensures k >= 0.0 ==>
      graphic == seq(Span(lo.y, hi.y), i => Coord(ops.steepX(k, bc, lo.y + i), lo.y + i))
    ensures k < 0.0 ==>
      graphic == seq(Span(hi.y, lo.y), i => Coord(ops.steepX(k, bc, lo.y - i), lo.y - i))
  {
    graphic := [];
    var inc := if k >= 0.0 then 1 else -1;
    var y := lo.y;
    while if inc > 0 then y <= hi.y else y >= hi.y
      invariant inc > 0 ==> lo.y <= y <= Max(lo.y, hi.y + 1) && |graphic| == y - lo.y
      invariant inc < 0 ==> Min(lo.y, hi.y - 1) <= y <= lo.y && |graphic| == lo.y - y
      invariant forall i :: 0 <= i < |graphic| ==>
        graphic[i] == Coord(ops.steepX(k, bc, lo.y + inc * i), lo.y + inc * i)
      decreases if inc > 0 then hi.y - y else y - hi.y
    {
      graphic := graphic + [Coord(ops.steepX(k, bc, y), y)];
      y := y + inc;
    }
  }

  /** The output does not depend on the order in which the endpoints are
      given. */
  lemma GraphicSwap(a: Coord, b: Coord, ops: FloatOps)
    ensures Graphic(Segment(a, b), ops) == Graphic(Segment(b, a), ops)
  {
    NormalizeSwap(a, b);
    KCoefficientSwap(a, b);
  }

  /** Vertical segments (including `a == b`): a column of `|dy| + 1` pixels at
      x = `a.x`, going up one pixel at a time from the smaller y. */
  lemma GraphicVertical(seg: Segment, ops: FloatOps)
    requires seg.a.x == seg.b.x
    ensures |Graphic(seg, ops)| == Abs(seg.b.y - seg.a.y) + 1
    ensures forall i :: 0 <= i < |Graphic(seg, ops)| ==>
      Graphic(seg, ops)[i] == Coord(seg.a.x, Min(seg.a.y, seg.b.y) + i)
  {
    var n := Normalize(seg);
    assert n.a.y <= n.b.y && n.a.x == n.b.x == seg.a.x;
  }

  /** Shallow segments: exactly one pixel per x, from the smaller x to the
      larger, `|dx| + 1` pixels, each with the y the coordinate function
      gives at that x for the segment's slope and intercept. */
  lemma GraphicShallow(seg: Segment, ops: FloatOps)
    requires seg.a.x != seg.b.x
    requires Abs(seg.b.y - seg.a.y) <= Abs(seg.b.x - seg.a.x)
    ensures |Graphic(seg, ops)| == Abs(seg.b.x - seg.a.x) + 1
    ensures forall i :: 0 <= i < |Graphic(seg, ops)| ==>
      Graphic(seg, ops)[i].x == Min(seg.a.x, seg.b.x) + i
    ensures KCoefficient(seg.a, seg.b).Finite? &&
      var k := KCoefficient(seg.a, seg.b).k;
      var bc := BCoefficient(Normalize(seg).a, Normalize(seg).b);
      forall i :: 0 <= i < |Graphic(seg, ops)| ==>
        Graphic(seg, ops)[i].y == ops.shallowY(k, bc, Min(seg.a.x, seg.b.x) + i)
  {
    ShallowIffRunDominates(seg.a, seg.b);
    var n := Normalize(seg);
    assert n.a.x < n.b.x;
  }

  /** Steep segments: exactly one pixel per y, `|dy| + 1` pixels, starting at
      the y of the left endpoint and stepping by one toward the right
      endpoint's y. */
  lemma GraphicSteep(seg: Segment, ops: FloatOps)
    requires seg.a.x != seg.b.x
    requires Abs(seg.b.y - seg.a.y) > Abs(seg.b.x - seg.a.x)
    ensures var left := if seg.a.x < seg.b.x then seg.a else seg.b;
            var right := if seg.a.x < seg.b.x then seg.b else seg.a;
            var inc := if left.y < right.y then 1 else -1;
            |Graphic(seg, ops)| == Abs(seg.b.y - seg.a.y) + 1 &&
            forall i :: 0 <= i < |Graphic(seg, ops)| ==> Graphic(seg, ops)[i].y == left.y + inc * i
  {
    ShallowIffRunDominates(seg.a, seg.b);
    var n := Normalize(seg);
    assert n.a.x < n.b.x;
    KCoefficientSwap(seg.a, seg.b);
    SlopeSign(n.a, n.b);
  }
}
