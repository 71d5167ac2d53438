/** `KRange`: an interval of slope angles in degrees, possibly empty, used
    by the extractor to decide whether a pixel continues a straight run.
    Angles are exact reals here; `TanToDeg` (an `atan`) is a parameter. */
module KRanges {
  import opened Primitives
  import Raster
  import Neighbours
  import Traversal

  const DegInCircle: int := 360

  /** `kDegAccuracy`: the tolerance of `InRange`, in degrees. */
  const DegAccuracy: real := 0.001

  /** The default bounds `-kDegInCircle / 4` and `kDegInCircle / 4`. */
  const QuarterTurn: real := (DegInCircle / 4) as real

  /** The angle, in degrees, of the segment from `a` to `b`, given the
      `TanToDeg` of a slope. */
  function Angle(toDeg: Raster.Slope -> real, a: Coord, b: Coord): real
  {
    toDeg(Raster.KCoefficient(a, b))
  }

  /** The comparison `AreIntersect` makes on two pairs of bounds: equal lower
      bounds meet; otherwise the one starting lower must reach the other. */
  function BoundsIntersect(min1: real, max1: real, min2: real, max2: real): (r: bool)
    ensures min1 <= max1 && min2 <= max2 ==> (r <==> min1 <= max2 && min2 <= max1)
  {
    if min1 == min2 then true
    else if min1 > min2 then max2 >= min1
    else max1 >= min2
  }

  /** The test is symmetric, whether or not the bounds are ordered. */
  lemma BoundsIntersectSymmetric(min1: real, max1: real, min2: real, max2: real)
    ensures BoundsIntersect(min1, max1, min2, max2) == BoundsIntersect(min2, max2, min1, max1)
  {
  }

  class KRange {
    var isEmpty: bool
    var minAngle: real
    var maxAngle: real

    /** `KRange(bool empty = false)`: the whole half turn, empty or not. */
    constructor(empty: bool)
      ensures isEmpty == empty
      ensures minAngle == -QuarterTurn && maxAngle == QuarterTurn
    {
      isEmpty := empty;
      minAngle := -QuarterTurn;
      maxAngle := QuarterTurn;
    }

    /** `KRange(min_angle, max_angle)`: the two bounds, put in order. */
    constructor Between(minAngle: real, maxAngle: real)
      ensures !isEmpty
      ensures this.minAngle <= this.maxAngle
      ensures (this.minAngle == minAngle && this.maxAngle == maxAngle) ||
              (this.minAngle == maxAngle && this.maxAngle == minAngle)
    {
      isEmpty := false;
      if maxAngle < minAngle {
        this.minAngle := maxAngle;
        this.maxAngle := minAngle;
      } else {
        this.minAngle := minAngle;
        this.maxAngle := maxAngle;
      }
    }

    /** `Intersect`: emptiness is sticky and spreads from `other`; otherwise
        the bounds become the intersection of the two intervals, and the
        range becomes empty when that intersection is. The interval only
        shrinks. */
    method Intersect(other: KRange)
      modifies this
      ensures old(isEmpty) || old(other.isEmpty) ==>
        isEmpty && minAngle == old(minAngle) && maxAngle == old(maxAngle)
      ensures !old(isEmpty) && !old(other.isEmpty) ==>
        minAngle == RealMax(old(minAngle), old(other.minAngle)) &&
        maxAngle == RealMin(old(maxAngle), old(other.maxAngle)) &&
        (isEmpty <==> minAngle > maxAngle)
      ensures old(minAngle) <= minAngle && maxAngle <= old(maxAngle)
      ensures old(isEmpty) ==> isEmpty
    {
      if isEmpty || other.isEmpty {
        isEmpty := true;
        return;
      }
      var otherMin, otherMax := other.minAngle, other.maxAngle;
      minAngle := RealMax(minAngle, otherMin);
      maxAngle := RealMin(maxAngle, otherMax);
      if minAngle > maxAngle {
        isEmpty := true;
      }
    }

    /** `AreIntersect`: for ordered bounds, true exactly when the two
        intervals overlap. Like the C++, it does not look at emptiness. */
    static function AreIntersect(first: KRange, second: KRange): (r: bool)
      reads first, second
      ensures first.minAngle <= first.maxAngle && second.minAngle <= second.maxAngle ==>
        (r <==> first.minAngle <= second.maxAngle && second.minAngle <= first.maxAngle)
    {
      BoundsIntersect(first.minAngle, first.maxAngle, second.minAngle, second.maxAngle)
    }

    /** `InRange`: an empty range holds no slope; otherwise the slope's
        angle, widened by the tolerance on both sides, must meet the range. */
    function InRange(toDeg: Raster.Slope -> real, k: Raster.Slope): (r: bool)
      reads this
      ensures isEmpty ==> !r
      ensures !isEmpty && minAngle <= maxAngle ==>
        (r <==> minAngle - DegAccuracy <= toDeg(k) <= maxAngle + DegAccuracy)
    {
      !isEmpty && BoundsIntersect(minAngle, maxAngle, toDeg(k) - DegAccuracy, toDeg(k) + DegAccuracy)
    }
  }

  function RealMax(p: real, q: real): real { if p < q then q else p }

  function RealMin(p: real, q: real): real { if q < p then q else p }

  /** `AreIntersect` is symmetric. */
  lemma AreIntersectSymmetric(first: KRange, second: KRange)
    ensures KRange.AreIntersect(first, second) == KRange.AreIntersect(second, first)
  {
    BoundsIntersectSymmetric(first.minAngle, first.maxAngle, second.minAngle, second.maxAngle);
  }

  /** `GetKRange`: the default range for a single point; otherwise the
      smallest interval holding the angle of the segment and the angles from
      `a` to each of the eight neighbours of `b`. */
  method GetKRange(seg: Segment, toDeg: Raster.Slope -> real) returns (r: KRange)
    ensures fresh(r)
    ensures seg.a == seg.b ==> !r.isEmpty && r.minAngle == -QuarterTurn && r.maxAngle == QuarterTurn
    ensures seg.a != seg.b ==> !r.isEmpty && r.minAngle <= r.maxAngle
    ensures seg.a != seg.b ==>
      r.minAngle <= Angle(toDeg, seg.a, seg.b) <= r.maxAngle &&
      forall c :: Adjacent(seg.b, c) ==> r.minAngle <= Angle(toDeg, seg.a, c) <= r.maxAngle
    ensures seg.a != seg.b ==>
      (r.minAngle == Angle(toDeg, seg.a, seg.b) ||
       exists c :: Adjacent(seg.b, c) && r.minAngle == Angle(toDeg, seg.a, c)) &&
      (r.maxAngle == Angle(toDeg, seg.a, seg.b) ||
       exists c :: Adjacent(seg.b, c) && r.maxAngle == Angle(toDeg, seg.a, c))
    ensures Represents(r, toDeg, Traversal.GetKRange(seg))
  {
    if seg.a == seg.b {
      r := new KRange(false);
      return;
    }
    var own := Angle(toDeg, seg.a, seg.b);
    var lo, hi := own, own;
    var around := Neighbours.GetNeighbours(seg.b, Neighbours.NoBorders, Neighbours.NoBorders);
    var i := 0;
    while i < |around|
      invariant 0 <= i <= |around|
      invariant lo <= own <= hi
      invariant forall j :: 0 <= j < i ==> lo <= Angle(toDeg, seg.a, around[j]) <= hi
      invariant lo == own || exists j :: 0 <= j < i && lo == Angle(toDeg, seg.a, around[j])
      invariant hi == own || exists j :: 0 <= j < i && hi == Angle(toDeg, seg.a, around[j])
    {
      var angle := Angle(toDeg, seg.a, around[i]);
      lo := RealMin(lo, angle);
      hi := RealMax(hi, angle);
      i := i + 1;
    }
    r := new KRange.Between(lo, hi);
    forall c | Adjacent(seg.b, c)
      ensures r.minAngle <= Angle(toDeg, seg.a, c) <= r.maxAngle
    {
      assert c in around;
    }
  }

  /** `lo` and `hi` are the bounds `GetKRange` computes for `seg`: the
      smallest interval holding the segment's angle and the angles to the
      neighbours of `b`. */
  ghost predicate SpanBounds(toDeg: Raster.Slope -> real, seg: Segment, lo: real, hi: real)
  {
    lo <= Angle(toDeg, seg.a, seg.b) <= hi &&
    (forall c :: Adjacent(seg.b, c) ==> lo <= Angle(toDeg, seg.a, c) <= hi) &&
    (lo == Angle(toDeg, seg.a, seg.b) || exists c :: Adjacent(seg.b, c) && lo == Angle(toDeg, seg.a, c)) &&
    (hi == Angle(toDeg, seg.a, seg.b) || exists c :: Adjacent(seg.b, c) && hi == Angle(toDeg, seg.a, c))
  }

  /** There is only one such interval. */
  lemma SpanBoundsUnique(toDeg: Raster.Slope -> real, seg: Segment, lo: real, hi: real, lo': real, hi': real)
    requires SpanBounds(toDeg, seg, lo, hi) && SpanBounds(toDeg, seg, lo', hi')
    ensures lo == lo' && hi == hi'
  {
    if lo != Angle(toDeg, seg.a, seg.b) {
      var c :| Adjacent(seg.b, c) && lo == Angle(toDeg, seg.a, c);
    }
    if lo' != Angle(toDeg, seg.a, seg.b) {
      var c :| Adjacent(seg.b, c) && lo' == Angle(toDeg, seg.a, c);
    }
    if hi != Angle(toDeg, seg.a, seg.b) {
      var c :| Adjacent(seg.b, c) && hi == Angle(toDeg, seg.a, c);
    }
    if hi' != Angle(toDeg, seg.a, seg.b) {
      var c :| Adjacent(seg.b, c) && hi' == Angle(toDeg, seg.a, c);
    }
  }

  /** The angle test of `KRange::InRange`, seen as the oracle the traversal
      takes: the full half turn, or the bounds of `GetKRange`, widened by
      the tolerance and tested against the slope's angle. */
  ghost function AngleOracle(toDeg: Raster.Slope -> real): Traversal.InRangeOracle
  {
    (range: Traversal.KRangeOf, k: Raster.Slope) =>
      match range
      case EmptyRange => false
      case FullRange => BoundsIntersect(-QuarterTurn, QuarterTurn, toDeg(k) - DegAccuracy, toDeg(k) + DegAccuracy)
      case SpanOf(seg) =>
        exists lo: real, hi: real :: SpanBounds(toDeg, seg, lo, hi) &&
          BoundsIntersect(lo, hi, toDeg(k) - DegAccuracy, toDeg(k) + DegAccuracy)
  }

  /** The object `kr` is the range the traversal names `range`: `KRange(true)`,
      `KRange()`, or what `GetKRange` builds for the segment. */
  ghost predicate Represents(kr: KRange, toDeg: Raster.Slope -> real, range: Traversal.KRangeOf)
    reads kr
  {
    match range
    case EmptyRange => kr.isEmpty
    case FullRange => !kr.isEmpty && kr.minAngle == -QuarterTurn && kr.maxAngle == QuarterTurn
    case SpanOf(seg) => !kr.isEmpty && SpanBounds(toDeg, seg, kr.minAngle, kr.maxAngle)
  }

  /** The concrete `KRange::InRange` answers what the traversal's `InRange`
      answers with the angle oracle, for every range it names. */
  lemma AngleOracleAgrees(kr: KRange, toDeg: Raster.Slope -> real, range: Traversal.KRangeOf, k: Raster.Slope)
    requires Represents(kr, toDeg, range)
    ensures kr.InRange(toDeg, k) == Traversal.InRange(AngleOracle(toDeg), range, k)
  {
    match range
    case EmptyRange =>
    case FullRange =>
    case SpanOf(seg) =>
      var lo, hi := toDeg(k) - DegAccuracy, toDeg(k) + DegAccuracy;
      if AngleOracle(toDeg)(range, k) {
        var lo', hi' :| SpanBounds(toDeg, seg, lo', hi') && BoundsIntersect(lo', hi', lo, hi);
        SpanBoundsUnique(toDeg, seg, kr.minAngle, kr.maxAngle, lo', hi');
      } else {
        assert !(SpanBounds(toDeg, seg, kr.minAngle, kr.maxAngle) &&
                 BoundsIntersect(kr.minAngle, kr.maxAngle, lo, hi));
      }
  }
}
