/** `BaseExtractPrimitives`: scan the bitmap for foreground pixels and walk
    each into raw chains, record each chain's step pattern, build the list
    of segments with its endpoint map, connect segments end to end, and
    return the segments that remain. */
module Extraction {
  import opened Primitives
  import opened Patterns
  import Traversal
  import Merging

  /** The segments that remain after connecting, or the fault that stopped
      the connecting loop. */
  datatype Extracted = Extracted(segments: seq<Segment>) | Aborted(fault: Merging.Fault)

  /** The raster scan: every pixel still set when the scan reaches it starts
      a walk, whose chains are appended in order. Afterwards the bitmap is
      clear, every chain is non-empty and 8-connected, and the chains hold
      exactly the pixels that were set. */
  method ScanChains(bitmap: array2<bool>, oracle: Traversal.InRangeOracle)
    returns (raws: seq<seq<Coord>>)
    modifies bitmap
    ensures forall x, y :: 0 <= x < bitmap.Length0 && 0 <= y < bitmap.Length1 ==> !bitmap[x, y]
    ensures Traversal.GoodChains(raws)
    ensures Traversal.Pixels(raws) == old(Traversal.Foreground(bitmap))
  {
    ghost var orig := Traversal.Foreground(bitmap);
    raws := [];
    var x := 0;
    while x < bitmap.Length0
      invariant 0 <= x <= bitmap.Length0
      invariant forall i, j :: 0 <= i < x && 0 <= j < bitmap.Length1 ==> !bitmap[i, j]
      invariant Traversal.GoodChains(raws)
      invariant Traversal.Pixels(raws) + Traversal.Foreground(bitmap) == orig
    {
      var y := 0;
      while y < bitmap.Length1
        invariant 0 <= y <= bitmap.Length1
        invariant forall i, j ::
          0 <= i < bitmap.Length0 && 0 <= j < bitmap.Length1 && (i < x || (i == x && j < y)) ==>
          !bitmap[i, j]
        invariant Traversal.GoodChains(raws)
        invariant Traversal.Pixels(raws) + Traversal.Foreground(bitmap) == orig
      {
        if bitmap[x, y] {
          ghost var before := Traversal.Foreground(bitmap);
          var chains := Traversal.BaseSegmentsGetter(bitmap, Coord(x, y), oracle);
          assert Traversal.Pixels(chains) + Traversal.Foreground(bitmap) == before;
          Traversal.PixelsAppend(raws, chains);
          Traversal.GoodAppend(raws, chains);
          raws := raws + chains;
        }
        y := y + 1;
      }
      x := x + 1;
    }
    assert Traversal.Foreground(bitmap) == {};
  }

  /** The pattern pass: each raw chain gets the pattern its steps record. */
  method ComputePatterns(raws: seq<seq<Coord>>) returns (conns: seq<Connection>)
    ensures |conns| == |raws|
    ensures forall i :: 0 <= i < |raws| ==> conns[i] == ChainPatternOf(raws[i])
  {
    conns := [];
    var i := 0;
    while i < |raws|
      invariant 0 <= i <= |raws| && |conns| == i
      invariant forall k :: 0 <= k < i ==> conns[k] == ChainPatternOf(raws[k])
    {
      var c := ChainPattern(raws[i]);
      conns := conns + [c];
      i := i + 1;
    }
  }

  /** `Segment(base.front(), base.back())`: the segment spanned by a chain. */
  function Ends(chain: seq<Coord>): Segment
    requires |chain| > 0
  {
    Segment(chain[0], chain[|chain| - 1])
  }

  predicate IsEnd(chain: seq<Coord>, c: Coord)
  {
    |chain| > 0 && (c == chain[0] || c == chain[|chain| - 1])
  }

  /** The endpoint map's cell for `c` once the chains are pushed in order:
      the last chain with an end at `c` wins. */
  function LastEnd(raws: seq<seq<Coord>>, c: Coord): Merging.Slot
  {
    if raws == [] then Merging.Vacant
    else if IsEnd(raws[|raws| - 1], c) then Merging.Entry(|raws| - 1)
    else LastEnd(raws[..|raws| - 1], c)
  }

  /** A cell names a chain exactly when some chain ends there, and then it
      names the last such chain. */
  lemma {:induction false} LastEndSpec(raws: seq<seq<Coord>>, c: Coord)
    ensures LastEnd(raws, c).Vacant? <==> forall k :: 0 <= k < |raws| ==> !IsEnd(raws[k], c)
    ensures LastEnd(raws, c).Entry? ==>
      LastEnd(raws, c).node < |raws| && IsEnd(raws[LastEnd(raws, c).node], c) &&
      forall k :: LastEnd(raws, c).node < k < |raws| ==> !IsEnd(raws[k], c)
    decreases |raws|
  {
    if raws != [] {
      var n := |raws| - 1;
      LastEndSpec(raws[..n], c);
      if !IsEnd(raws[n], c) {
        assert forall k :: 0 <= k < n ==> raws[..n][k] == raws[k];
      }
    }
  }

  /** Both ends of a chain are pixels of the chains. */
  lemma EndsInPixels(raws: seq<seq<Coord>>, k: nat)
    requires k < |raws| && |raws[k]| > 0
    ensures Ends(raws[k]).a in Traversal.Pixels(raws) && Ends(raws[k]).b in Traversal.Pixels(raws)
  {
    assert raws[k][0] in raws[k] && raws[k][|raws[k]| - 1] in raws[k];
    Traversal.PixelsMember(raws, Ends(raws[k]).a);
    Traversal.PixelsMember(raws, Ends(raws[k]).b);
  }

  lemma LastEndStep(raws: seq<seq<Coord>>, i: nat, c: Coord)
    requires i < |raws|
    ensures LastEnd(raws[..i + 1], c) ==
      if IsEnd(raws[i], c) then Merging.Entry(i) else LastEnd(raws[..i], c)
  {
    assert raws[..i + 1][..i] == raws[..i];
  }

  /** The list of `SCont` and the endpoint map: one node per raw chain, in
      order, spanning the chain's first and last pixels with its pattern;
      each cell names the last chain with an end there. */
  method BuildEndpoints(raws: seq<seq<Coord>>, conns: seq<Connection>, len0: nat, len1: nat)
    returns (list: Merging.ContList, slots: array2<Merging.Slot>)
    requires |conns| == |raws| && Traversal.GoodChains(raws)
    requires forall c :: c in Traversal.Pixels(raws) ==> Traversal.Within(c, len0, len1)
    ensures fresh(list) && fresh(slots) && slots.Length0 == len0 && slots.Length1 == len1
    ensures |list.nodes| == |raws| && |list.order| == |raws|
    ensures forall k :: 0 <= k < |raws| ==> list.order[k] == k
    ensures forall k :: 0 <= k < |raws| ==> list.nodes[k] == Merging.SCont(Ends(raws[k]), conns[k])
    ensures forall x, y :: 0 <= x < len0 && 0 <= y < len1 ==> slots[x, y] == LastEnd(raws, Coord(x, y))
    ensures Merging.Consistent(list, slots, Traversal.Pixels(raws))
  {
    list := new Merging.ContList();
    slots := new Merging.Slot[len0, len1]((x, y) => Merging.Vacant);
    ghost var ends := Traversal.Pixels(raws);
    assert raws[..0] == [];
    FillEndpoints(list, slots, raws, conns, ends);
    BuiltAll(list, slots, raws, conns, ends);
  }

  /** The filling loop of `BuildEndpoints`: every chain in turn is pushed
      onto the list and recorded at both of its endpoints. */
  method FillEndpoints(list: Merging.ContList, slots: array2<Merging.Slot>,
                       raws: seq<seq<Coord>>, conns: seq<Connection>, ghost ends: set<Coord>)
    requires |conns| == |raws| && Traversal.GoodChains(raws)
    requires ends == Traversal.Pixels(raws)
    requires forall c :: c in ends ==> Traversal.Within(c, slots.Length0, slots.Length1)
    requires BuiltUpTo(list, slots, raws, conns, 0, ends)
    modifies list, slots
    ensures BuiltUpTo(list, slots, raws, conns, |raws|, ends)
  {
    var i := 0;
    while i < |raws|
      invariant 0 <= i <= |raws|
      invariant BuiltUpTo(list, slots, raws, conns, i, ends)
    {
      AddChain(list, slots, raws, conns, i, ends);
      i := i + 1;
    }
  }

  /** Once every chain is added, the slots hold the last endpoints of all
      chains and the list and slots are consistent. */
  lemma BuiltAll(list: Merging.ContList, slots: array2<Merging.Slot>,
                 raws: seq<seq<Coord>>, conns: seq<Connection>, ends: set<Coord>)
    requires |conns| == |raws| && Traversal.GoodChains(raws)
    requires ends == Traversal.Pixels(raws)
    requires forall c :: c in ends ==> Traversal.Within(c, slots.Length0, slots.Length1)
    requires BuiltUpTo(list, slots, raws, conns, |raws|, ends)
    ensures forall x, y :: 0 <= x < slots.Length0 && 0 <= y < slots.Length1 ==>
      slots[x, y] == LastEnd(raws, Coord(x, y))
    ensures Merging.Consistent(list, slots, ends)
  {
    assert raws[..|raws|] == raws;
    forall x, y | 0 <= x < slots.Length0 && 0 <= y < slots.Length1 && slots[x, y].Entry?
      ensures slots[x, y].node < |list.nodes|
    {
      LastEndSpec(raws, Coord(x, y));
    }
  }

  /** The loop invariant of `BuildEndpoints` after the first `i` chains. */
  ghost predicate BuiltUpTo(list: Merging.ContList, slots: array2<Merging.Slot>,
                            raws: seq<seq<Coord>>, conns: seq<Connection>, i: nat, ends: set<Coord>)
    requires i <= |raws| && |conns| == |raws| && Traversal.GoodChains(raws)
    reads list, slots
  {
    list.Valid() &&
    |list.nodes| == i && |list.order| == i &&
    (forall k :: 0 <= k < i ==> list.order[k] == k) &&
    (forall k :: 0 <= k < i ==> list.nodes[k] == Merging.SCont(Ends(raws[k]), conns[k])) &&
    (forall k :: 0 <= k < i ==> list.nodes[k].seg.a in ends && list.nodes[k].seg.b in ends) &&
    (forall x, y :: 0 <= x < slots.Length0 && 0 <= y < slots.Length1 ==>
      slots[x, y] == LastEnd(raws[..i], Coord(x, y)))
  }

  /** One turn of the loop of `BuildEndpoints`: the `i`-th chain is added. */
  method AddChain(list: Merging.ContList, slots: array2<Merging.Slot>,
                  raws: seq<seq<Coord>>, conns: seq<Connection>, i: nat, ghost ends: set<Coord>)
    requires i < |raws| && |conns| == |raws| && Traversal.GoodChains(raws)
    requires ends == Traversal.Pixels(raws)
    requires forall c :: c in ends ==> Traversal.Within(c, slots.Length0, slots.Length1)
    requires BuiltUpTo(list, slots, raws, conns, i, ends)
    modifies list, slots
    ensures BuiltUpTo(list, slots, raws, conns, i + 1, ends)
  {
    EndsInPixels(raws, i);
    AddRaw(list, slots, raws[i], conns[i]);
    forall x, y | 0 <= x < slots.Length0 && 0 <= y < slots.Length1
      ensures slots[x, y] == LastEnd(raws[..i + 1], Coord(x, y))
    {
      LastEndStep(raws, i, Coord(x, y));
    }
  }

  /** One step of building the list and the map: push the chain's segment
      with its pattern, and point both of its ends at the new node. */
  method AddRaw(list: Merging.ContList, slots: array2<Merging.Slot>, chain: seq<Coord>, conn: Connection)
    requires list.Valid() && |chain| > 0
    requires Traversal.Within(chain[0], slots.Length0, slots.Length1)
    requires Traversal.Within(chain[|chain| - 1], slots.Length0, slots.Length1)
    modifies list, slots
    ensures list.Valid()
    ensures list.nodes == old(list.nodes) + [Merging.SCont(Ends(chain), conn)]
    ensures list.order == old(list.order) + [|old(list.nodes)|]
    ensures forall x, y :: 0 <= x < slots.Length0 && 0 <= y < slots.Length1 ==>
      slots[x, y] == if IsEnd(chain, Coord(x, y)) then Merging.Entry(|old(list.nodes)|) else old(slots[x, y])
  {
    var seg := Ends(chain);
    var it := list.PushBack(Merging.SCont(seg, conn));
    slots[seg.a.x, seg.a.y] := Merging.Entry(it);
    slots[seg.b.x, seg.b.y] := Merging.Entry(it);
  }

  /** The output loop: the segments of the nodes still in the list, in
      list order. */
  method Output(list: Merging.ContList) returns (segments: seq<Segment>)
    requires list.Valid()
    ensures |segments| == |list.order|
    ensures forall i :: 0 <= i < |segments| ==> segments[i] == list.nodes[list.order[i]].seg
  {
    segments := [];
    var i := 0;
    while i < |list.order|
      invariant 0 <= i <= |list.order| && |segments| == i
      invariant forall k :: 0 <= k < i ==> segments[k] == list.nodes[list.order[k]].seg
    {
      segments := segments + [list.nodes[list.order[i]].seg];
      i := i + 1;
    }
  }

  /** What the first statement of `BaseExtractPrimitives` reads: the grid
      size as `{bitmap.size(), bitmap[0].size()}`. Indexing row 0 of a grid
      without rows is out of range. */
  datatype SizeRead = Size(size: Coord) | RowOutOfRange

  function ReadSize(rows: seq<seq<bool>>): (r: SizeRead)
    ensures r.RowOutOfRange? <==> rows == []
    ensures r.Size? ==> r.size.x == |rows| && r.size.y == |rows[0]|
  {
    if |rows| == 0 then RowOutOfRange else Size(Coord(|rows|, |rows[0]|))
  }

  /** As written, a grid with no rows does not reach the empty result: its
      size read is already out of range. */
  lemma EmptyGridReadsRowZero()
    ensures ReadSize([]) == RowOutOfRange
    ensures forall rows: seq<seq<bool>> :: |rows| > 0 ==> ReadSize(rows).Size?
  {
  }

  /** `BaseExtractPrimitives`, for any answers of the angle oracle. The
      bitmap ends clear; the raw chains are non-empty, 8-connected and hold
      exactly the pixels that were set; unless the connecting loop stops at
      a fault, there are at most as many segments as raw chains and every
      segment runs between two pixels that were set. */
  method BaseExtractPrimitives(bitmap: array2<bool>, oracle: Traversal.InRangeOracle)
    returns (r: Extracted, ghost raws: seq<seq<Coord>>)
    modifies bitmap
    ensures bitmap.Length0 == 0 ==> r == Extracted([])
    ensures forall x, y :: 0 <= x < bitmap.Length0 && 0 <= y < bitmap.Length1 ==> !bitmap[x, y]
    ensures Traversal.GoodChains(raws)
    ensures Traversal.Pixels(raws) == old(Traversal.Foreground(bitmap))
    ensures r.Extracted? ==> |r.segments| <= |raws|
    ensures r.Extracted? ==> forall s :: s in r.segments ==>
      s.a in old(Traversal.Foreground(bitmap)) && s.b in old(Traversal.Foreground(bitmap))
  {
    if bitmap.Length0 == 0 {
      // Corrected: the C++ reads `bitmap[0]` before anything else.
      assert Traversal.Foreground(bitmap) == {};
      return Extracted([]), [];
    }
    var chains := ScanChains(bitmap, oracle);
    raws := chains;
    var conns := ComputePatterns(chains);
    var list, slots := BuildEndpoints(chains, conns, bitmap.Length0, bitmap.Length1);
    var status := Merging.ConnectSegments(list, slots, oracle, Traversal.Pixels(chains));
    if status.Stopped? {
      return Aborted(status.fault), raws;
    }
    var segments := Output(list);
    forall s | s in segments
      ensures s.a in Traversal.Pixels(chains) && s.b in Traversal.Pixels(chains)
    {
      var i :| 0 <= i < |segments| && segments[i] == s;
      assert list.order[i] < |list.nodes|;
    }
    r := Extracted(segments);
  }
}
