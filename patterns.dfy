/** The step-pattern algebra of the extractor: the sign of each pixel step
    along x and y (its deviation) and the single-axis step a chain may not
    take next (its restricted movement). */
module Patterns {
  import opened Primitives

  datatype EDeviation = Negative | Neutral | Positive

  /** The x component (`first`) and the y component (`second`). */
  datatype Deviation = Deviation(first: EDeviation, second: EDeviation)

  datatype Movement = XMove | YMove | None

  /** The pair `(Deviation, Movement)` the C++ code passes around. */
  datatype Connection = Connection(dev: Deviation, move: Movement)

  /** `{Neutral, Neutral}` with no restricted movement: nothing recorded. */
  const Unconstrained := Connection(Deviation(Neutral, Neutral), None)

  /** A step that changes x only. */
  predicate XStep(p: Coord, q: Coord) { p.x != q.x && p.y == q.y }

  /** A step that changes y only. */
  predicate YStep(p: Coord, q: Coord) { p.x == q.x && p.y != q.y }

  /** A recorded sign `d` forbids a step from `from` to `to` going the other way. */
  predicate Opposes(d: EDeviation, from: int, to: int)
  {
    (d == Positive && to < from) || (d == Negative && from < to)
  }

  /** `GetConnectionType`: the signs of the step's x and y differences, and
      which axis it moves along when it moves along exactly one. */
  function GetConnectionType(first: Coord, second: Coord): (c: Connection)
    ensures c.dev.first == Positive <==> first.x < second.x
    ensures c.dev.first == Negative <==> first.x > second.x
    ensures c.dev.second == Positive <==> first.y < second.y
    ensures c.dev.second == Negative <==> first.y > second.y
    ensures c.move == XMove <==> XStep(first, second)
    ensures c.move == YMove <==> YStep(first, second)
  {
    var dx := if first.x < second.x then Positive else if first.x > second.x then Negative else Neutral;
    var dy := if first.y < second.y then Positive else if first.y > second.y then Negative else Neutral;
    var move :=
      if dx == Neutral && dy != Neutral then YMove
      else if dx != Neutral && dy == Neutral then XMove
      else None;
    Connection(Deviation(dx, dy), move)
  }

  /** The lambda `deviation_check`: two signs agree unless both are set and differ. */
  predicate Compatible(f: EDeviation, s: EDeviation)
  {
    f == Neutral || s == Neutral || f == s
  }

  /** `CanBeConnected` on two pixels: the step may not go against a recorded
      sign on either axis, and may not be the restricted movement. */
  function CanBeConnected(first: Coord, second: Coord, dev: Deviation, restMove: Movement): (r: bool)
    ensures r <==>
      !Opposes(dev.first, first.x, second.x) && !Opposes(dev.second, first.y, second.y) &&
      !(restMove == XMove && XStep(first, second)) && !(restMove == YMove && YStep(first, second))
  {
    var local := GetConnectionType(first, second);
    Compatible(dev.first, local.dev.first) && Compatible(dev.second, local.dev.second) &&
    (restMove == None || restMove != local.move)
  }

  /** With nothing recorded every step is accepted. */
  lemma UnconstrainedAcceptsAll(first: Coord, second: Coord)
    ensures CanBeConnected(first, second, Unconstrained.dev, Unconstrained.move)
  {
  }

  /** `UpdateConnection`: record the step's non-Neutral signs, and after a
      single-axis step restrict the other axis. The C++ updates its two
      reference parameters; here the new pair is the result. */
  function UpdateConnection(c: Connection, first: Coord, second: Coord): (u: Connection)
    ensures u.dev.first == Positive <==> first.x < second.x || (first.x == second.x && c.dev.first == Positive)
    ensures u.dev.first == Negative <==> first.x > second.x || (first.x == second.x && c.dev.first == Negative)
    ensures u.dev.second == Positive <==> first.y < second.y || (first.y == second.y && c.dev.second == Positive)
    ensures u.dev.second == Negative <==> first.y > second.y || (first.y == second.y && c.dev.second == Negative)
    ensures XStep(first, second) ==> u.move == YMove
    ensures YStep(first, second) ==> u.move == XMove
    ensures !XStep(first, second) && !YStep(first, second) ==> u.move == c.move
  {
    var local := GetConnectionType(first, second);
    var dx := if local.dev.first != Neutral then local.dev.first else c.dev.first;
    var dy := if local.dev.second != Neutral then local.dev.second else c.dev.second;
    var move := if local.move != None then (if local.move == XMove then YMove else XMove) else c.move;
    Connection(Deviation(dx, dy), move)
  }

  /** A recorded sign is never turned back to Neutral, and a restricted
      movement is never lifted. */
  lemma UpdateNeverForgets(c: Connection, first: Coord, second: Coord)
    ensures c.dev.first != Neutral ==> UpdateConnection(c, first, second).dev.first != Neutral
    ensures c.dev.second != Neutral ==> UpdateConnection(c, first, second).dev.second != Neutral
    ensures c.move != None ==> UpdateConnection(c, first, second).move != None
  {
  }

  /** Once a step is recorded, the new state still accepts that same step. */
  lemma UpdateAcceptsOwnStep(c: Connection, first: Coord, second: Coord)
    ensures var u := UpdateConnection(c, first, second);
            CanBeConnected(first, second, u.dev, u.move)
  {
  }

  /** `UniteConnections`: every non-Neutral sign and a non-None movement of
      the second pattern override the first. */
  function UniteConnections(f: Connection, s: Connection): (u: Connection)
    ensures s.dev.first != Neutral ==> u.dev.first == s.dev.first
    ensures s.dev.second != Neutral ==> u.dev.second == s.dev.second
    ensures s.move != None ==> u.move == s.move
    ensures s.dev.first == Neutral ==> u.dev.first == f.dev.first
    ensures s.dev.second == Neutral ==> u.dev.second == f.dev.second
    ensures s.move == None ==> u.move == f.move
  {
    var dx := if s.dev.first != Neutral then s.dev.first else f.dev.first;
    var dy := if s.dev.second != Neutral then s.dev.second else f.dev.second;
    var move := if s.move != None then s.move else f.move;
    Connection(Deviation(dx, dy), move)
  }

  /** Uniting with nothing recorded changes nothing; uniting nothing with a
      pattern gives that pattern; uniting twice with the same pattern is
      uniting once. */
  lemma UniteIdentity(f: Connection, s: Connection)
    ensures UniteConnections(f, Unconstrained) == f
    ensures UniteConnections(Unconstrained, s) == s
    ensures UniteConnections(UniteConnections(f, s), s) == UniteConnections(f, s)
  {
  }

  /** Uniting is associative, so a chain of merges can be regrouped. */
  lemma UniteAssociative(f: Connection, s: Connection, t: Connection)
    ensures UniteConnections(UniteConnections(f, s), t) == UniteConnections(f, UniteConnections(s, t))
  {
  }

  /** Recording a step is uniting with that step's own pattern, with its
      movement turned into the restriction of the other axis. */
  lemma UpdateIsUnite(c: Connection, first: Coord, second: Coord)
    ensures UpdateConnection(c, first, second) ==
      var local := GetConnectionType(first, second);
      UniteConnections(c, Connection(local.dev, Restriction(local.move)))
  {
  }

  /** The movement a single-axis step restricts. */
  function Restriction(move: Movement): Movement
  {
    match move
    case XMove => YMove
    case YMove => XMove
    case None => None
  }

  function Reverse(e: EDeviation): EDeviation
  {
    match e
    case Positive => Negative
    case Negative => Positive
    case Neutral => Neutral
  }

  /** `ReverseDeviation`: flip every non-Neutral sign. */
  function ReverseDeviation(d: Deviation): (r: Deviation)
    ensures r.first == Neutral <==> d.first == Neutral
    ensures r.second == Neutral <==> d.second == Neutral
    ensures d.first != Neutral ==> r.first != d.first
    ensures d.second != Neutral ==> r.second != d.second
  {
    Deviation(Reverse(d.first), Reverse(d.second))
  }

  /** Reversing twice is the identity. */
  lemma ReverseInvolution(d: Deviation)
    ensures ReverseDeviation(ReverseDeviation(d)) == d
  {
  }

  /** The deviation of the step b -> a is the reverse of that of a -> b;
      the movement is the same either way. */
  lemma ReverseSwapsStep(a: Coord, b: Coord)
    ensures ReverseDeviation(GetConnectionType(a, b).dev) == GetConnectionType(b, a).dev
    ensures GetConnectionType(a, b).move == GetConnectionType(b, a).move
  {
  }

  /** The pattern and movement half of `CanBeConnected` on two segments:
      no axis has opposite recorded signs, and the restricted movements are
      equal unless one of them is None. Two patterns agree exactly when
      uniting them does not depend on which one comes first. */
  function PatternsAgree(f: Connection, s: Connection): (r: bool)
    ensures r <==> UniteConnections(f, s) == UniteConnections(s, f)
  {
    Compatible(f.dev.first, s.dev.first) && Compatible(f.dev.second, s.dev.second) &&
    (f.move == None || s.move == None || f.move == s.move)
  }

  /** The pattern check does not depend on the order of its arguments, and
      reversing both patterns does not change it. */
  lemma PatternsAgreeSymmetric(f: Connection, s: Connection)
    ensures PatternsAgree(f, s) <==> PatternsAgree(s, f)
    ensures PatternsAgree(f, s) <==>
      PatternsAgree(Connection(ReverseDeviation(f.dev), f.move), Connection(ReverseDeviation(s.dev), s.move))
  {
  }

  /** The pattern of two agreeing segments, once united, agrees with each. */
  lemma UnitedAgreesWithBoth(f: Connection, s: Connection)
    requires PatternsAgree(f, s)
    ensures PatternsAgree(f, UniteConnections(f, s))
    ensures PatternsAgree(s, UniteConnections(f, s))
  {
  }

  /** Both signs and a restricted movement are recorded: the pattern pass
      stops here. */
  predicate Saturated(c: Connection)
  {
    c.dev.first != Neutral && c.dev.second != Neutral && c.move != None
  }

  /** The pattern the scan records for `chain`, starting from `c` at the
      step `chain[k - 1] -> chain[k]` and stopping once `c` is saturated. */
  function PatternFrom(c: Connection, chain: seq<Coord>, k: nat): Connection
    requires 1 <= k
    decreases |chain| - k
  {
    if k >= |chain| || Saturated(c) then c
    else PatternFrom(UpdateConnection(c, chain[k - 1], chain[k]), chain, k + 1)
  }

  /** The pattern of a whole chain. */
  function ChainPatternOf(chain: seq<Coord>): Connection
  {
    PatternFrom(Unconstrained, chain, 1)
  }

  /** The pass over one raw chain in `BaseExtractPrimitives`: record every
      step in turn until both signs and a restriction are known. */
  method ChainPattern(chain: seq<Coord>) returns (c: Connection)
    ensures c == ChainPatternOf(chain)
  {
    c := Unconstrained;
    var k := 1;
    while k < |chain|
      invariant 1 <= k
      invariant PatternFrom(c, chain, k) == ChainPatternOf(chain)
      decreases |chain| - k
    {
      if Saturated(c) {
        break;
      }
      c := UpdateConnection(c, chain[k - 1], chain[k]);
      k := k + 1;
    }
  }

  lemma {:induction false} PatternFromXNeutral(c: Connection, chain: seq<Coord>, k: nat)
    requires 1 <= k
    ensures PatternFrom(c, chain, k).dev.first == Neutral <==>
      c.dev.first == Neutral && forall j :: k <= j < |chain| ==> chain[j - 1].x == chain[j].x
    decreases |chain| - k
  {
    if k < |chain| && !Saturated(c) {
      var u := UpdateConnection(c, chain[k - 1], chain[k]);
      PatternFromXNeutral(u, chain, k + 1);
    }
  }

  lemma {:induction false} PatternFromYNeutral(c: Connection, chain: seq<Coord>, k: nat)
    requires 1 <= k
    ensures PatternFrom(c, chain, k).dev.second == Neutral <==>
      c.dev.second == Neutral && forall j :: k <= j < |chain| ==> chain[j - 1].y == chain[j].y
    decreases |chain| - k
  {
    if k < |chain| && !Saturated(c) {
      var u := UpdateConnection(c, chain[k - 1], chain[k]);
      PatternFromYNeutral(u, chain, k + 1);
    }
  }

  lemma {:induction false} PatternFromNoMove(c: Connection, chain: seq<Coord>, k: nat)
    requires 1 <= k
    ensures PatternFrom(c, chain, k).move == None <==>
      c.move == None && forall j :: k <= j < |chain| ==> !XStep(chain[j - 1], chain[j]) && !YStep(chain[j - 1], chain[j])
    decreases |chain| - k
  {
    if k < |chain| && !Saturated(c) {
      var u := UpdateConnection(c, chain[k - 1], chain[k]);
      PatternFromNoMove(u, chain, k + 1);
    }
  }

  /** A chain's x sign stays Neutral exactly when no step changes x, its y
      sign exactly when no step changes y, and it restricts no movement
      exactly when it has no single-axis step: the early stop never hides a
      step that would have set one of them. */
  lemma ChainPatternNeutral(chain: seq<Coord>)
    ensures ChainPatternOf(chain).dev.first == Neutral <==>
      forall j :: 1 <= j < |chain| ==> chain[j - 1].x == chain[j].x
    ensures ChainPatternOf(chain).dev.second == Neutral <==>
      forall j :: 1 <= j < |chain| ==> chain[j - 1].y == chain[j].y
    ensures ChainPatternOf(chain).move == None <==>
      forall j :: 1 <= j < |chain| ==> !XStep(chain[j - 1], chain[j]) && !YStep(chain[j - 1], chain[j])
  {
    PatternFromXNeutral(Unconstrained, chain, 1);
    PatternFromYNeutral(Unconstrained, chain, 1);
    PatternFromNoMove(Unconstrained, chain, 1);
  }
}
