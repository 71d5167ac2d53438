/** The connecting stage of `BaseExtractPrimitives`: straight segments with
    their step patterns, kept in a `std::list` and indexed by an endpoint
    map, are merged end to end while the angle oracle and the patterns
    allow it. The list is an arena whose node indices stay valid across
    erasures (the C++ iterators), and the endpoint map is a grid of
    optional node indices. */
module Merging {
  import opened Primitives
  import opened Patterns
  import Raster
  import Neighbours
  import Traversal

  /** `SCont`: a segment with its deviation and restricted movement. */
  datatype SCont = SCont(seg: Segment, conn: Connection)

  /** One cell of `conn_bitmap`: `std::nullopt`, or an iterator into the
      list, given as a node index. */
  datatype Slot = Vacant | Entry(node: nat)

  /** What the C++ would do that has no defined result: `.value()` on an
      empty cell of the endpoint map (it throws `std::bad_optional_access`),
      or a dereference of a list iterator whose node was erased. */
  datatype Fault = MissingEndpoint | Dangling

  /** The result of `UniteNeighbours`: `true`, `false`, or a fault. */
  datatype Outcome = United | Separate | Failed(fault: Fault)

  /** A position of the connecting loop: at a node, or past the end. */
  datatype Iter = At(node: nat) | End

  /** The connecting loop ran to the end, or stopped at a fault. */
  datatype Status = Done | Stopped(fault: Fault)

  /** The position of `v` in a sequence that holds it. */
  function IndexOf(s: seq<nat>, v: nat): (i: nat)
    requires v in s
    ensures i < |s| && s[i] == v
    ensures forall j :: 0 <= j < i ==> s[j] != v
  {
    if s[0] == v then 0 else 1 + IndexOf(s[1..], v)
  }

  /** `std::list<SCont>`: every node ever pushed, by index, and the live
      nodes in list order. Erasing a node takes it out of `order` only, so
      the indices of the other nodes stay valid, as list iterators do. */
  class ContList {
    var nodes: seq<SCont>
    var order: seq<nat>

    ghost predicate Valid()
      reads this
    {
      (forall i :: 0 <= i < |order| ==> order[i] < |nodes|) &&
      (forall i, j :: 0 <= i < j < |order| ==> order[i] != order[j])
    }

    constructor()
      ensures Valid() && nodes == [] && order == []
    {
      nodes := [];
      order := [];
    }

    /** `push_back`, returning the iterator to the new last node. */
    method PushBack(c: SCont) returns (it: nat)
      requires Valid()
      modifies this
      ensures Valid()
      ensures it == |old(nodes)| && nodes == old(nodes) + [c] && order == old(order) + [it]
    {
      it := |nodes|;
      nodes := nodes + [c];
      order := order + [it];
    }

    /** `erase`: the node leaves the list; every other node keeps its place
        and its contents. */
    method Erase(it: nat)
      requires Valid() && it in order
      modifies this
      ensures Valid()
      ensures nodes == old(nodes)
      ensures var k := IndexOf(old(order), it); order == old(order)[..k] + old(order)[k + 1..]
      ensures |order| == |old(order)| - 1
      ensures forall v :: v in order <==> v in old(order) && v != it
    {
      var k := IndexOf(order, it);
      ghost var before := order;
      order := order[..k] + order[k + 1..];
      forall v
        ensures v in order <==> v in before && v != it
      {
        if v in before && v != it {
          var j := IndexOf(before, v);
          if j < k {
            assert order[j] == v;
          } else {
            assert order[j - 1] == v;
          }
        }
      }
    }

    /** `*it = c`. */
    method Assign(it: nat, c: SCont)
      requires Valid() && it < |nodes|
      modifies this
      ensures Valid()
      ensures nodes == old(nodes)[it := c] && order == old(order)
    {
      nodes := nodes[it := c];
    }
  }

  /** The list, the endpoint map and the set `ends` of pixels that may be
      endpoints fit together: the list is well formed, every endpoint of
      every node is in `ends`, `ends` lies inside the map, and every entry
      of the map names a node of the arena (live or erased). */
  ghost predicate Consistent(list: ContList, slots: array2<Slot>, ends: set<Coord>)
    reads list, slots
  {
    list.Valid() &&
    (forall c :: c in ends ==> Traversal.Within(c, slots.Length0, slots.Length1)) &&
    (forall i :: 0 <= i < |list.nodes| ==> list.nodes[i].seg.a in ends && list.nodes[i].seg.b in ends) &&
    (forall x, y :: 0 <= x < slots.Length0 && 0 <= y < slots.Length1 && slots[x, y].Entry? ==>
      slots[x, y].node < |list.nodes|)
  }

  /** The segment turned around: endpoints swapped and both signs reversed;
      the restricted movement is the same either way. */
  function Flip(c: SCont): (r: SCont)
    ensures r.seg.a == c.seg.b && r.seg.b == c.seg.a
    ensures ReverseDeviation(r.conn.dev) == c.conn.dev && r.conn.move == c.conn.move
  {
    ReverseInvolution(c.conn.dev);
    SCont(Segment(c.seg.b, c.seg.a), Connection(ReverseDeviation(c.conn.dev), c.conn.move))
  }

  /** Turning a segment around twice gives it back. */
  lemma FlipInvolution(c: SCont)
    ensures Flip(Flip(c)) == c
  {
    ReverseInvolution(c.conn.dev);
  }

  /** The neighbour's segment oriented to start at the pixel `nb` where it
      touches: turned around when `nb` is its end `b`. It keeps its two
      endpoints and its restricted movement; when `nb` is one of them, the
      result starts at `nb` and ends at the other. */
  function Oriented(n: SCont, nb: Coord): (r: SCont)
    ensures {r.seg.a, r.seg.b} == {n.seg.a, n.seg.b} && r.conn.move == n.conn.move
    ensures nb == n.seg.a || nb == n.seg.b ==>
      r.seg.a == nb && r.seg.b == (if n.seg.b == nb then n.seg.a else n.seg.b)
    ensures r == n || ReverseDeviation(r.conn.dev) == n.conn.dev
  {
    if n.seg.b == nb then Flip(n) else n
  }

  /** `CanBeConnected(SCont, SCont)`: the slope from `first.a` to
      `second.b` is in the angle range of `first`, the slope back from
      `second.b` to `first.a` is in the range of `second` taken backwards,
      and the two patterns agree. */
  function CanBeConnectedConts(oracle: Traversal.InRangeOracle, first: SCont, second: SCont): (r: bool)
    ensures r ==> PatternsAgree(first.conn, second.conn) && PatternsAgree(second.conn, first.conn)
    ensures !PatternsAgree(first.conn, second.conn) ==> !r
    ensures PatternsAgree(first.conn, second.conn) ==>
      (r <==>
        Traversal.InRange(oracle, Traversal.GetKRange(first.seg), Raster.KCoefficient(first.seg.a, second.seg.b)) &&
        Traversal.InRange(oracle, Traversal.GetKRange(Segment(second.seg.b, second.seg.a)),
                          Raster.KCoefficient(second.seg.b, first.seg.a)))
  {
    PatternsAgreeSymmetric(first.conn, second.conn);
    Traversal.InRange(oracle, Traversal.GetKRange(first.seg), Raster.KCoefficient(first.seg.a, second.seg.b)) &&
    Traversal.InRange(oracle, Traversal.GetKRange(Segment(second.seg.b, second.seg.a)),
                      Raster.KCoefficient(second.seg.b, first.seg.a)) &&
    PatternsAgree(first.conn, second.conn)
  }

  /** The united segment: from `cont.a` to the far end of the neighbour,
      with the two patterns united. */
  function Merge(cont: SCont, n: SCont): (r: SCont)
    ensures r.seg.a == cont.seg.a && r.seg.b == n.seg.b
  {
    SCont(Segment(cont.seg.a, n.seg.b), UniteConnections(cont.conn, n.conn))
  }

  /** When the patterns agree, the united pattern agrees with each part
      and keeps every sign and restriction either part recorded. */
  lemma MergeAgrees(cont: SCont, n: SCont)
    requires PatternsAgree(cont.conn, n.conn)
    ensures PatternsAgree(Merge(cont, n).conn, cont.conn) && PatternsAgree(Merge(cont, n).conn, n.conn)
    ensures var u := Merge(cont, n).conn;
      (cont.conn.dev.first != Neutral ==> u.dev.first != Neutral) &&
      (cont.conn.dev.second != Neutral ==> u.dev.second != Neutral) &&
      (n.conn.dev.first != Neutral ==> u.dev.first == n.conn.dev.first) &&
      (n.conn.dev.second != Neutral ==> u.dev.second == n.conn.dev.second) &&
      (n.conn.move != None ==> u.move == n.conn.move) &&
      (cont.conn.move != None ==> u.move != None)
  {
    UnitedAgreesWithBoth(cont.conn, n.conn);
    PatternsAgreeSymmetric(cont.conn, UniteConnections(cont.conn, n.conn));
    PatternsAgreeSymmetric(n.conn, UniteConnections(cont.conn, n.conn));
  }

  /** The 8-neighbour `nb` of the connection point `cont.b` would be taken by
      `UniteNeighbours`: its cell in the endpoint map names a live node other than `self`,
      the step from `cont.b` to `nb` fits `cont`'s pattern, and the node,
      oriented at `nb`, can be connected to `cont`. */
  predicate Joinable(list: ContList, slots: array2<Slot>, oracle: Traversal.InRangeOracle,
                     cont: SCont, self: nat, nb: Coord)
    reads list, slots
  {
    Adjacent(cont.seg.b, nb) && Traversal.Within(nb, slots.Length0, slots.Length1) &&
    var s := slots[nb.x, nb.y];
    s.Entry? && s.node != self && s.node in list.order && s.node < |list.nodes| &&
    CanBeConnected(cont.seg.b, nb, cont.conn.dev, cont.conn.move) &&
    CanBeConnectedConts(oracle, cont, Oriented(list.nodes[s.node], nb))
  }

  /** A cell of the endpoint slots after a merge: the ends of the united
      segment name `self`; the neighbour's cell and the old connection point
      are cleared; every other cell is as it was. */
  function Rewired(before: Slot, c: Coord, p: Coord, nb: Coord, united: Segment, self: nat): Slot
  {
    if c == united.a || c == united.b then Entry(self)
    else if c == nb || c == p then Vacant
    else before
  }

  /** If `q` is in a strictly increasing sequence and below its `i`-th
      element, it comes before position `i`. */
  lemma EarlierInSorted(s: seq<Coord>, i: nat, q: Coord)
    requires i < |s| && q in s && Less(q, s[i])
    requires forall j, k :: 0 <= j < k < |s| ==> Less(s[j], s[k])
    ensures exists j :: 0 <= j < i && s[j] == q
  {
    var j :| 0 <= j < |s| && s[j] == q;
    if j >= i {
      if j > i {
        LessIsStrictOrder(q, s[i], q);
      }
      assert false;
    }
  }

  /** `UniteNeighbours`: take the endpoint map's node at the connection point
      `cont.b`, look at the neighbours of `cont.b` in order and merge with
      the first joinable one: that node is erased, the node at the
      connection point becomes the united segment, and the endpoint map is rewired.
      Never merges a node with itself. */
  method UniteNeighbours(cont: SCont, list: ContList, slots: array2<Slot>,
                         oracle: Traversal.InRangeOracle, ghost ends: set<Coord>)
    returns (outcome: Outcome, ghost self: nat, ghost nb: Coord, ghost removed: nat)
    requires Consistent(list, slots, ends)
    requires cont.seg.a in ends && cont.seg.b in ends
    modifies list, slots
    ensures Consistent(list, slots, ends)
    ensures |list.nodes| == |old(list.nodes)|
    ensures |list.order| <= |old(list.order)| && forall v :: v in list.order ==> v in old(list.order)
    ensures outcome.Separate? ==>
      list.nodes == old(list.nodes) && list.order == old(list.order) &&
      (forall x, y :: 0 <= x < slots.Length0 && 0 <= y < slots.Length1 ==> slots[x, y] == old(slots[x, y]))
    ensures outcome.Separate? ==> slots[cont.seg.b.x, cont.seg.b.y].Entry?
    ensures outcome.Separate? ==>
      forall q :: !Joinable(list, slots, oracle, cont, slots[cont.seg.b.x, cont.seg.b.y].node, q)
    ensures outcome.United? ==>
      old(slots[cont.seg.b.x, cont.seg.b.y]) == Entry(self) &&
      Adjacent(cont.seg.b, nb) && old(Joinable(list, slots, oracle, cont, self, nb)) &&
      (forall q :: Less(q, nb) ==> !old(Joinable(list, slots, oracle, cont, self, q))) &&
      old(slots[nb.x, nb.y]) == Entry(removed)
    ensures outcome.United? ==>
      removed != self && removed in old(list.order) && self in list.order &&
      |list.order| == |old(list.order)| - 1 &&
      (forall v :: v in list.order <==> v in old(list.order) && v != removed)
    ensures outcome.United? ==>
      var united := Merge(cont, Oriented(old(list.nodes)[removed], nb));
      list.nodes == old(list.nodes)[self := united] &&
      forall x, y :: 0 <= x < slots.Length0 && 0 <= y < slots.Length1 ==>
        slots[x, y] == Rewired(old(slots[x, y]), Coord(x, y), cont.seg.b, nb, united.seg, self)
  {
    self, nb, removed := 0, cont.seg.b, 0;
    var p := cont.seg.b;
    if slots[p.x, p.y].Vacant? {
      return Failed(MissingEndpoint), self, nb, removed;
    }
    var owner := slots[p.x, p.y].node;
    self := owner;
    var around := Neighbours.GetNeighbours(p, slots.Length0, slots.Length1);
    var i := 0;
    while i < |around|
      invariant 0 <= i <= |around|
      invariant forall j :: 0 <= j < i ==> !Joinable(list, slots, oracle, cont, self, around[j])
    {
      var q := around[i];
      assert q in around;
      var slot := slots[q.x, q.y];
      if slot.Vacant? || !CanBeConnected(p, q, cont.conn.dev, cont.conn.move) || slot.node == owner {
        i := i + 1;
        continue;
      }
      if slot.node !in list.order {
        return Failed(Dangling), self, nb, removed;
      }
      var n := Oriented(list.nodes[slot.node], q);
      if !CanBeConnectedConts(oracle, cont, n) {
        i := i + 1;
        continue;
      }
      var other := slot.node;
      nb, removed := q, other;
      forall r | Less(r, nb)
        ensures !Joinable(list, slots, oracle, cont, self, r)
      {
        if Joinable(list, slots, oracle, cont, self, r) {
          assert r in around;
          EarlierInSorted(around, i, r);
        }
      }
      outcome := Join(cont, list, slots, ends, owner, other, q);
      return outcome, self, nb, removed;
    }
    return Separate, self, nb, removed;
  }

  /** The merge step of `UniteNeighbours`: clear the neighbour's cell and
      the connection point, point both ends of the united segment at
      `owner`, erase the neighbour's node, and store the united segment in
      `owner`, which must still be in the list. */
  method Join(cont: SCont, list: ContList, slots: array2<Slot>, ghost ends: set<Coord>,
              owner: nat, other: nat, q: Coord)
    returns (outcome: Outcome)
    requires Consistent(list, slots, ends)
    requires cont.seg.a in ends && cont.seg.b in ends
    requires Traversal.Within(q, slots.Length0, slots.Length1)
    requires owner < |list.nodes| && other in list.order && other != owner
    modifies list, slots
    ensures Consistent(list, slots, ends)
    ensures |list.nodes| == |old(list.nodes)|
    ensures outcome == United || outcome == Failed(Dangling)
    ensures outcome.United? <==> owner in old(list.order)
    ensures |list.order| == |old(list.order)| - 1
    ensures forall v :: v in list.order <==> v in old(list.order) && v != other
    ensures outcome.United? ==>
      var united := Merge(cont, Oriented(old(list.nodes)[other], q));
      list.nodes == old(list.nodes)[owner := united] &&
      forall x, y :: 0 <= x < slots.Length0 && 0 <= y < slots.Length1 ==>
        slots[x, y] == Rewired(old(slots[x, y]), Coord(x, y), cont.seg.b, q, united.seg, owner)
  {
    var n := Oriented(list.nodes[other], q);
    var united := Merge(cont, n);
    assert united.seg.b in ends;
    Rewire(slots, cont.seg.b, q, united.seg, owner);
    list.Erase(other);
    if owner !in list.order {
      return Failed(Dangling);
    }
    list.Assign(owner, united);
    return United;
  }

  /** The four writes of a merge, in the C++ order: clear the neighbour's
      cell and the connection point `p`, then point both ends of the united
      segment at `owner`. */
  method Rewire(slots: array2<Slot>, p: Coord, q: Coord, united: Segment, owner: nat)
    requires Traversal.Within(p, slots.Length0, slots.Length1) && Traversal.Within(q, slots.Length0, slots.Length1)
    requires Traversal.Within(united.a, slots.Length0, slots.Length1)
    requires Traversal.Within(united.b, slots.Length0, slots.Length1)
    modifies slots
    ensures forall x, y :: 0 <= x < slots.Length0 && 0 <= y < slots.Length1 ==>
      slots[x, y] == Rewired(old(slots[x, y]), Coord(x, y), p, q, united, owner)
  {
    slots[q.x, q.y] := Vacant;
    slots[p.x, p.y] := Vacant;
    slots[united.a.x, united.a.y] := Entry(owner);
    slots[united.b.x, united.b.y] := Entry(owner);
  }

  /** The connecting loop of `BaseExtractPrimitives`: at each node, try to
      unite at its end `b`, then, turned around, at its end `a`; move on
      only when neither succeeds. Each success erases one other node, so
      the loop ends, and the list only loses nodes. A node erased under the
      loop's iterator, or a fault of `UniteNeighbours`, stops it. */
  method ConnectSegments(list: ContList, slots: array2<Slot>, oracle: Traversal.InRangeOracle,
                         ghost ends: set<Coord>)
    returns (status: Status)
    requires Consistent(list, slots, ends)
    modifies list, slots
    ensures Consistent(list, slots, ends)
    ensures |list.nodes| == |old(list.nodes)|
    ensures |list.order| <= |old(list.order)|
    ensures forall v :: v in list.order ==> v in old(list.order)
  {
    var it := if |list.order| == 0 then End else At(list.order[0]);
    while it.At?
      invariant Consistent(list, slots, ends)
      invariant |list.nodes| == |old(list.nodes)|
      invariant |list.order| <= |old(list.order)|
      invariant forall v :: v in list.order ==> v in old(list.order)
      invariant it.At? ==> it.node in list.order
      decreases |list.order|, if it.At? then |list.order| - IndexOf(list.order, it.node) else 0
    {
      var d := it.node;
      var cont := list.nodes[d];
      var outcome, _, _, _ := UniteNeighbours(cont, list, slots, oracle, ends);
      if outcome.Failed? {
        return Stopped(outcome.fault);
      }
      if outcome.Separate? {
        var back, _, _, _ := UniteNeighbours(Flip(cont), list, slots, oracle, ends);
        outcome := back;
        if outcome.Failed? {
          return Stopped(outcome.fault);
        }
      }
      if outcome.United? {
        if d !in list.order {
          return Stopped(Dangling);
        }
      } else {
        var k := IndexOf(list.order, d);
        it := if k + 1 < |list.order| then At(list.order[k + 1]) else End;
      }
    }
    return Done;
  }
}
