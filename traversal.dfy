/** `BaseSegmentsGetter`: a depth-first walk from one foreground pixel that
    clears the pixels it visits and returns chains of 8-adjacent pixels.
    The C++ keeps an explicit `std::stack` of frames, each pointing at the
    return lists of the frame that pushed it; here the stack is a sequence
    of frame values and the pointer is the parent's index in it. */
module Traversal {
  import opened Primitives
  import opened Patterns
  import Raster
  import Neighbours

  /** Which `KRange` a frame holds: `KRange(true)` (empty), `KRange()` (the
      whole half turn), or `GetKRange` of a segment. */
  datatype KRangeOf = EmptyRange | FullRange | SpanOf(seg: Segment)

  /** What `KRange::InRange` answers for a range and a slope when the range
      is not empty; its angles are floating point and it is a parameter. */
  type InRangeOracle = (KRangeOf, Raster.Slope) -> bool

  /** `KRange::InRange`: an empty range holds no slope; otherwise the oracle
      decides. */
  function InRange(oracle: InRangeOracle, range: KRangeOf, k: Raster.Slope): (r: bool)
    ensures range.EmptyRange? ==> !r
    ensures !range.EmptyRange? ==> (r <==> oracle(range, k))
  {
    match range
    case EmptyRange => false
    case _ => oracle(range, k)
  }

  /** `GetKRange`: the default range for a single point, the segment's own
      range otherwise; never empty. */
  function GetKRange(seg: Segment): (r: KRangeOf)
    ensures !r.EmptyRange?
    ensures r.FullRange? <==> seg.a == seg.b
  {
    if seg.a == seg.b then FullRange else SpanOf(seg)
  }

  /** Where a frame delivers its chains: the caller's result, or the frame
      at this index of the stack. */
  datatype Parent = Root | Up(index: nat)

  /** One `StackData`: the input, the frame's own return lists `cont` and
      `other`, and the two flags. */
  datatype Frame = Frame(curr: Coord, range: KRangeOf, conn: Connection, init: Coord,
                         parent: Parent, cont: seq<seq<Coord>>, other: seq<seq<Coord>>,
                         isCont: bool, processRet: bool)

  predicate InGrid(bitmap: array2<bool>, c: Coord)
  {
    Within(c, bitmap.Length0, bitmap.Length1)
  }

  /** The pixel lies inside a grid of `len0` columns and `len1` rows. */
  predicate Within(c: Coord, len0: int, len1: int)
  {
    0 <= c.x < len0 && 0 <= c.y < len1
  }

  /** Every chain is non-empty and 8-connected. */
  predicate GoodChains(cs: seq<seq<Coord>>)
  {
    forall k :: 0 <= k < |cs| ==> |cs[k]| > 0 && Connected(cs[k])
  }

  /** Frame `i` (not the root) has its parent below it, holding an adjacent
      pixel. */
  predicate ParentBelow(stack: seq<Frame>, i: nat)
    requires i < |stack|
  {
    stack[i].parent.Up? && stack[i].parent.index < i &&
    Adjacent(stack[stack[i].parent.index].curr, stack[i].curr)
  }

  /** A frame holds good chains, and its continuations start next to its
      pixel. */
  predicate HoldsGood(f: Frame)
  {
    GoodChains(f.cont) && GoodChains(f.other) &&
    forall k :: 0 <= k < |f.cont| ==> Adjacent(f.curr, f.cont[k][0])
  }

  /** The shape of the stack: frame 0 is the root and never continues its
      parent's run; every other frame's parent lies below it and holds an
      adjacent pixel; every frame holds good chains. */
  predicate Shape(stack: seq<Frame>)
  {
    (|stack| > 0 ==>
      stack[0].parent == Root && !stack[0].isCont &&
      (!stack[0].processRet ==> stack[0].range == EmptyRange)) &&
    (forall i :: 0 < i < |stack| ==> stack[i].parent.Up? && stack[i].parent.index < i) &&
    (forall i :: 0 < i < |stack| ==> ParentBelow(stack, i)) &&
    (forall i :: 0 <= i < |stack| ==> HoldsGood(stack[i]))
  }

  /** The pixels of a list of chains. */
  ghost function Pixels(cs: seq<seq<Coord>>): set<Coord>
  {
    if cs == [] then {} else Pixels(cs[..|cs| - 1]) + Elems(cs[|cs| - 1])
  }

  function Elems(chain: seq<Coord>): set<Coord>
  {
    set c | c in chain
  }

  /** A pixel is in `Pixels(cs)` exactly when some chain of `cs` holds it. */
  lemma {:induction false} PixelsMember(cs: seq<seq<Coord>>, c: Coord)
    ensures c in Pixels(cs) <==> exists k :: 0 <= k < |cs| && c in cs[k]
    decreases |cs|
  {
    if cs != [] {
      var n := |cs| - 1;
      PixelsMember(cs[..n], c);
      if c in Pixels(cs[..n]) {
        var k :| 0 <= k < n && c in cs[..n][k];
        assert c in cs[k];
      }
      if exists k :: 0 <= k < |cs| && c in cs[k] {
        var k :| 0 <= k < |cs| && c in cs[k];
        if k < n {
          assert c in cs[..n][k];
        }
      }
    }
  }

  lemma {:induction false} PixelsAppend(a: seq<seq<Coord>>, b: seq<seq<Coord>>)
    ensures Pixels(a + b) == Pixels(a) + Pixels(b)
    decreases |b|
  {
    if b == [] {
      assert a + b == a;
    } else {
      var n := |b| - 1;
      assert (a + b)[..|a + b| - 1] == a + b[..n];
      PixelsAppend(a, b[..n]);
    }
  }

  /** Removing the chain at `b` keeps the others good. */
  lemma RemoveChainGood(cs: seq<seq<Coord>>, b: nat)
    requires b < |cs| && GoodChains(cs)
    ensures GoodChains(cs[..b] + cs[b + 1..])
  {
    var r := cs[..b] + cs[b + 1..];
    forall k | 0 <= k < |r|
      ensures |r[k]| > 0 && Connected(r[k])
    {
      if k < b {
        assert r[k] == cs[k];
      } else {
        assert r[k] == cs[k + 1];
      }
    }
  }

  /** Removing the chain at `b` loses only the pixels of that chain. */
  lemma RemoveChainPixels(cs: seq<seq<Coord>>, b: nat)
    requires b < |cs|
    ensures Pixels(cs[..b] + cs[b + 1..]) + Elems(cs[b]) == Pixels(cs)
  {
    var pre, post := cs[..b], cs[b + 1..];
    assert cs[..b + 1] == pre + [cs[b]];
    assert cs == cs[..b + 1] + post;
    PixelsCat3(pre, [cs[b]], post);
    PixelsAppend(pre, post);
    PixelsSingle(cs[b]);
    var p, e, q := Pixels(pre), Elems(cs[b]), Pixels(post);
    assert Pixels(cs) == p + e + q;
    assert Pixels(pre + post) == p + q;
  }

  lemma PixelsCat3(a: seq<seq<Coord>>, b: seq<seq<Coord>>, c: seq<seq<Coord>>)
    ensures Pixels(a + b + c) == Pixels(a) + Pixels(b) + Pixels(c)
  {
    PixelsAppend(a + b, c);
    PixelsAppend(a, b);
  }

  lemma PixelsSingle(chain: seq<Coord>)
    ensures Pixels([chain]) == Elems(chain)
  {
    assert [chain][..0] == [];
  }

  lemma GoodAppend(a: seq<seq<Coord>>, b: seq<seq<Coord>>)
    requires GoodChains(a) && GoodChains(b)
    ensures GoodChains(a + b)
  {
    forall k | 0 <= k < |a + b|
      ensures |(a + b)[k]| > 0 && Connected((a + b)[k])
    {
      if k >= |a| {
        assert (a + b)[k] == b[k - |a|];
      }
    }
  }

  /** A pixel next to the head of a chain extends it to a chain. */
  lemma Prepend(curr: Coord, link: seq<Coord>)
    requires |link| > 0 && Connected(link) && Adjacent(curr, link[0])
    ensures Connected([curr] + link)
    ensures Elems([curr] + link) == Elems(link) + {curr}
  {
    var chain := [curr] + link;
    forall k | 0 < k < |chain|
      ensures Adjacent(chain[k - 1], chain[k])
    {
      if k > 1 {
        assert chain[k - 1] == link[k - 2] && chain[k] == link[k - 1];
      }
    }
    assert forall c :: c in chain <==> c == curr || c in link;
  }

  /** What a frame holds: its chains and, once visited, its own pixel. */
  ghost function Contrib(f: Frame): set<Coord>
  {
    Pixels(f.cont) + Pixels(f.other) + (if f.processRet then {f.curr} else {})
  }

  /** The pixels held by the whole stack. */
  ghost function Held(stack: seq<Frame>): set<Coord>
  {
    if stack == [] then {} else Held(stack[..|stack| - 1]) + Contrib(stack[|stack| - 1])
  }

  lemma {:induction false} HeldAppend(a: seq<Frame>, b: seq<Frame>)
    ensures Held(a + b) == Held(a) + Held(b)
    decreases |b|
  {
    if b == [] {
      assert a + b == a;
    } else {
      var n := |b| - 1;
      assert (a + b)[..|a + b| - 1] == a + b[..n];
      HeldAppend(a, b[..n]);
    }
  }

  lemma {:induction false} HeldUpdate(stack: seq<Frame>, p: nat, g: Frame, more: set<Coord>)
    requires p < |stack|
    requires Contrib(g) == Contrib(stack[p]) + more
    ensures Held(stack[p := g]) == Held(stack) + more
    decreases |stack|
  {
    var n := |stack| - 1;
    if p < n {
      assert stack[p := g][..n] == stack[..n][p := g];
      HeldUpdate(stack[..n], p, g, more);
    } else {
      assert stack[p := g][..n] == stack[..n];
    }
  }

  /** The number of frames still to be visited whose pixel has already been
      cleared by another frame. */
  function Stale(stack: seq<Frame>, live: set<Coord>): nat
  {
    if stack == [] then 0
    else
      var f := stack[|stack| - 1];
      Stale(stack[..|stack| - 1], live) + (if !f.processRet && f.curr !in live then 1 else 0)
  }

  lemma {:induction false} StaleAppend(a: seq<Frame>, b: seq<Frame>, live: set<Coord>)
    ensures Stale(a + b, live) == Stale(a, live) + Stale(b, live)
    decreases |b|
  {
    if b == [] {
      assert a + b == a;
    } else {
      var n := |b| - 1;
      assert (a + b)[..|a + b| - 1] == a + b[..n];
      StaleAppend(a, b[..n], live);
    }
  }

  /** Frames that agree on their pixel and their flag are equally stale. */
  lemma {:induction false} StaleSameFrames(a: seq<Frame>, b: seq<Frame>, live: set<Coord>)
    requires |a| == |b|
    requires forall i :: 0 <= i < |a| ==> a[i].curr == b[i].curr && a[i].processRet == b[i].processRet
    ensures Stale(a, live) == Stale(b, live)
    decreases |a|
  {
    if a != [] {
      StaleSameFrames(a[..|a| - 1], b[..|b| - 1], live);
    }
  }

  /** Frames that are fresh and whose pixels are all live add nothing. */
  lemma {:induction false} FreshFrames(children: seq<Frame>, live: set<Coord>)
    requires forall j :: 0 <= j < |children| ==>
      !children[j].processRet && children[j].cont == [] && children[j].other == [] &&
      children[j].curr in live
    ensures Stale(children, live) == 0
    ensures Held(children) == {}
    decreases |children|
  {
    if children != [] {
      FreshFrames(children[..|children| - 1], live);
    }
  }

  /** The pixels of a list of frames, in order. */
  function Currs(frames: seq<Frame>): seq<Coord>
  {
    seq(|frames|, j requires 0 <= j < |frames| => frames[j].curr)
  }

  /** The first visit of a frame (the `!process_ret` branch): keep the run
      going when the slope from the run's first pixel is in range, otherwise
      start a new run here; clear the pixel; and make a child frame for every
      in-grid neighbour that is still set and that the step pattern accepts,
      in the order `GetNeighbours` lists them. */
  method Expand(bitmap: array2<bool>, f: Frame, index: nat, oracle: InRangeOracle)
    returns (g: Frame, children: seq<Frame>)
    requires InGrid(bitmap, f.curr)
    modifies bitmap
    ensures forall x, y :: 0 <= x < bitmap.Length0 && 0 <= y < bitmap.Length1 ==>
      bitmap[x, y] == (old(bitmap[x, y]) && Coord(x, y) != f.curr)
    ensures Foreground(bitmap) == old(Foreground(bitmap)) - {f.curr}
    ensures g.curr == f.curr && g.parent == f.parent && g.cont == f.cont && g.other == f.other
    ensures g.processRet
    ensures InRange(oracle, f.range, Raster.KCoefficient(f.init, f.curr)) ==>
      g.isCont && g.range == GetKRange(Segment(f.init, f.curr)) && g.init == f.init && g.conn == f.conn
    ensures !InRange(oracle, f.range, Raster.KCoefficient(f.init, f.curr)) ==>
      g.isCont == f.isCont && g.range == FullRange && g.init == f.curr && g.conn == Unconstrained
    ensures forall j :: 0 <= j < |children| ==>
      children[j].parent == Up(index) && !children[j].processRet && !children[j].isCont &&
      children[j].cont == [] && children[j].other == [] &&
      children[j].range == g.range && children[j].init == g.init &&
      children[j].conn == UpdateConnection(g.conn, f.curr, children[j].curr) &&
      Adjacent(f.curr, children[j].curr) && InGrid(bitmap, children[j].curr) &&
      bitmap[children[j].curr.x, children[j].curr.y]
    ensures forall c :: c in Currs(children) <==>
      Adjacent(f.curr, c) && InGrid(bitmap, c) && bitmap[c.x, c.y] &&
      CanBeConnected(f.curr, c, g.conn.dev, g.conn.move)
    ensures forall i, j :: 0 <= i < j < |children| ==> Less(children[i].curr, children[j].curr)
  {
    g := f;
    if InRange(oracle, f.range, Raster.KCoefficient(f.init, f.curr)) {
      g := g.(range := GetKRange(Segment(f.init, f.curr)), isCont := true);
    } else {
      g := g.(init := f.curr, range := FullRange, conn := Unconstrained);
    }
    Clear(bitmap, f.curr);
    children := Children(bitmap, f.curr, g, index);
    g := g.(processRet := true);
  }

  /** The children of a visited frame `g` at `curr`: a fresh frame for every
      in-grid neighbour that is still set and that the step pattern accepts,
      in the order `GetNeighbours` lists them. */
  method Children(bitmap: array2<bool>, curr: Coord, g: Frame, index: nat) returns (children: seq<Frame>)
    ensures forall j :: 0 <= j < |children| ==>
      children[j].parent == Up(index) && !children[j].processRet && !children[j].isCont &&
      children[j].cont == [] && children[j].other == [] &&
      children[j].range == g.range && children[j].init == g.init &&
      children[j].conn == UpdateConnection(g.conn, curr, children[j].curr) &&
      Adjacent(curr, children[j].curr) && InGrid(bitmap, children[j].curr) &&
      bitmap[children[j].curr.x, children[j].curr.y]
    ensures forall c :: c in Currs(children) <==>
      Adjacent(curr, c) && InGrid(bitmap, c) && bitmap[c.x, c.y] &&
      CanBeConnected(curr, c, g.conn.dev, g.conn.move)
    ensures forall i, j :: 0 <= i < j < |children| ==> Less(children[i].curr, children[j].curr)
  {
    var around := Neighbours.GetNeighbours(curr, bitmap.Length0, bitmap.Length1);
    children := [];
    var i := 0;
    while i < |around|
      invariant 0 <= i <= |around|
      invariant ChildrenSoFar(bitmap, curr, g, index, around, i, children)
    {
      children := ConsiderNeighbour(bitmap, curr, g, index, around, i, children);
      i := i + 1;
    }
    assert around[..|around|] == around;
  }

  /** The loop invariant of `Children` after the first `i` neighbours. */
  ghost predicate ChildrenSoFar(bitmap: array2<bool>, curr: Coord, g: Frame, index: nat,
                                around: seq<Coord>, i: nat, children: seq<Frame>)
    requires i <= |around|
    reads bitmap
  {
    (forall j :: 0 <= j < |children| ==>
      children[j].parent == Up(index) && !children[j].processRet && !children[j].isCont &&
      children[j].cont == [] && children[j].other == [] &&
      children[j].range == g.range && children[j].init == g.init &&
      children[j].conn == UpdateConnection(g.conn, curr, children[j].curr) &&
      Adjacent(curr, children[j].curr) && InGrid(bitmap, children[j].curr) &&
      bitmap[children[j].curr.x, children[j].curr.y]) &&
    (forall c :: c in Currs(children) <==>
      c in around[..i] && InGrid(bitmap, c) && bitmap[c.x, c.y] &&
      CanBeConnected(curr, c, g.conn.dev, g.conn.move)) &&
    (forall j, k :: 0 <= j < |children| && i <= k < |around| ==> Less(children[j].curr, around[k])) &&
    (forall j, k :: 0 <= j < k < |children| ==> Less(children[j].curr, children[k].curr))
  }

  /** One step of `Children`: the `i`-th neighbour gets a child frame when
      it is still set and the pattern accepts the step to it. */
  method ConsiderNeighbour(bitmap: array2<bool>, curr: Coord, g: Frame, index: nat,
                           around: seq<Coord>, i: nat, children: seq<Frame>)
    returns (children': seq<Frame>)
    requires i < |around|
    requires forall c :: c in around <==> Adjacent(curr, c) && Neighbours.Kept(c, bitmap.Length0, bitmap.Length1)
    requires forall j, k :: 0 <= j < k < |around| ==> Less(around[j], around[k])
    requires ChildrenSoFar(bitmap, curr, g, index, around, i, children)
    ensures ChildrenSoFar(bitmap, curr, g, index, around, i + 1, children')
  {
    var nb := around[i];
    assert nb in around;
    assert around[..i + 1] == around[..i] + [nb];
    children' := children;
    if bitmap[nb.x, nb.y] && CanBeConnected(curr, nb, g.conn.dev, g.conn.move) {
      var child := Frame(nb, g.range, UpdateConnection(g.conn, curr, nb), g.init,
                         Up(index), [], [], false, false);
      assert Currs(children + [child]) == Currs(children) + [nb];
      children' := children + [child];
    }
  }

  /** `bitmap[x][y] = false`: the pixel leaves the foreground. */
  method Clear(bitmap: array2<bool>, c: Coord)
    requires InGrid(bitmap, c)
    modifies bitmap
    ensures forall x, y :: 0 <= x < bitmap.Length0 && 0 <= y < bitmap.Length1 ==>
      bitmap[x, y] == (old(bitmap[x, y]) && Coord(x, y) != c)
    ensures Foreground(bitmap) == old(Foreground(bitmap)) - {c}
  {
    bitmap[c.x, c.y] := false;
  }

  /** The length by which `PickLongest` compares chains: -1 for an empty
      chain, else the squared distance between its ends. */
  function ChainLength(chain: seq<Coord>): int
  {
    if chain == [] then -1 else SquaredDistance(chain[0], chain[|chain| - 1])
  }

  /** The loop in the `process_ret` branch that picks the continuation: the
      first chain of greatest end-to-end length, or -1 when every chain is
      empty. */
  method PickLongest(chains: seq<seq<Coord>>) returns (best: int)
    ensures -1 <= best < |chains|
    ensures best == -1 <==> forall k :: 0 <= k < |chains| ==> chains[k] == []
    ensures best >= 0 ==> chains[best] != []
    ensures best >= 0 ==> forall k :: 0 <= k < |chains| ==> ChainLength(chains[k]) <= ChainLength(chains[best])
    ensures best >= 0 ==> forall k :: 0 <= k < best ==> ChainLength(chains[k]) < ChainLength(chains[best])
  {
    var bestLength := -1;
    best := -1;
    var i := 0;
    while i < |chains|
      invariant 0 <= i <= |chains|
      invariant -1 <= best < i
      invariant best == -1 <==> forall k :: 0 <= k < i ==> chains[k] == []
      invariant best == -1 ==> bestLength == -1
      invariant best >= 0 ==> chains[best] != [] && bestLength == ChainLength(chains[best])
      invariant forall k :: 0 <= k < i ==> ChainLength(chains[k]) <= bestLength
      invariant best >= 0 ==> forall k :: 0 <= k < best ==> ChainLength(chains[k]) < bestLength
    {
      var length := ChainLength(chains[i]);
      if length > bestLength {
        bestLength := length;
        best := i;
      }
      i := i + 1;
    }
  }

  /** `b` is the first chain of greatest length in `chains`. */
  predicate FirstLongest(chains: seq<seq<Coord>>, b: int)
  {
    0 <= b < |chains| &&
    (forall k :: 0 <= k < |chains| ==> ChainLength(chains[k]) <= ChainLength(chains[b])) &&
    (forall k :: 0 <= k < b ==> ChainLength(chains[k]) < ChainLength(chains[b]))
  }

  /** The chain a popped frame delivers: its own pixel followed by the first
      longest of its continuations (at `best`), with the other continuations
      in `rest`; or its pixel alone when every continuation is empty (`best`
      is -1). */
  predicate Continues(top: Frame, best: int, chain: seq<Coord>, rest: seq<seq<Coord>>)
  {
    if best == -1 then
      chain == [top.curr] && rest == top.cont &&
      forall k :: 0 <= k < |top.cont| ==> top.cont[k] == []
    else
      FirstLongest(top.cont, best) &&
      chain == [top.curr] + top.cont[best] && rest == top.cont[..best] + top.cont[best + 1..]
  }

  /** The chain a popped frame delivers starts at its pixel; it is good,
      and so are the continuations left. */
  lemma ContinuesGood(top: Frame, best: int, chain: seq<Coord>, rest: seq<seq<Coord>>)
    requires Continues(top, best, chain, rest)
    requires GoodChains(top.cont)
    requires forall k :: 0 <= k < |top.cont| ==> Adjacent(top.curr, top.cont[k][0])
    ensures chain != [] && chain[0] == top.curr
    ensures GoodChains([chain]) && GoodChains(rest)
  {
    if best != -1 {
      var b := best;
      RemoveChainGood(top.cont, b);
      Prepend(top.curr, top.cont[b]);
    }
  }

  /** The chain a popped frame delivers and the continuations left hold its
      pixel and every pixel of its continuations. */
  lemma ContinuesPixels(top: Frame, best: int, chain: seq<Coord>, rest: seq<seq<Coord>>)
    requires Continues(top, best, chain, rest)
    requires forall k :: 0 <= k < |top.cont| ==> top.cont[k] != []
    ensures Pixels([chain]) + Pixels(rest) == Pixels(top.cont) + {top.curr}
  {
    PixelsSingle(chain);
    if best == -1 {
      assert forall c :: c in chain <==> c == top.curr;
    } else {
      var b := best;
      RemoveChainPixels(top.cont, b);
      assert forall c :: c in chain <==> c == top.curr || c in top.cont[b];
    }
  }

  /** Where the chains of a popped frame go: its delivered chain to the
      parent's continuations when the frame continues the parent's run, to
      the parent's other chains otherwise; then the remaining continuations
      and the frame's other chains to the parent's other chains. The parent
      is the caller (`Root`) or a frame lower in the stack; the frame is
      removed. */
  function Deliver(stack: seq<Frame>, rootCont: seq<seq<Coord>>, rootOther: seq<seq<Coord>>,
                   chain: seq<Coord>, rest: seq<seq<Coord>>): (seq<Frame>, seq<seq<Coord>>, seq<seq<Coord>>)
    requires |stack| > 0
    requires stack[|stack| - 1].parent.Up? ==> stack[|stack| - 1].parent.index < |stack| - 1
  {
    var n := |stack| - 1;
    var top := stack[n];
    var toCont := if top.isCont then [chain] else [];
    var toOther := (if top.isCont then [] else [chain]) + rest + top.other;
    match top.parent
    case Root => (stack[..n], rootCont + toCont, rootOther + toOther)
    case Up(p) =>
      (stack[..n][p := stack[p].(cont := stack[p].cont + toCont, other := stack[p].other + toOther)],
       rootCont, rootOther)
  }

  /** What the popped frame hands over holds exactly what the frame held. */
  lemma HandOverPixels(top: Frame, best: int, chain: seq<Coord>, rest: seq<seq<Coord>>)
    requires Continues(top, best, chain, rest) && top.processRet
    requires forall k :: 0 <= k < |top.cont| ==> top.cont[k] != []
    ensures var toCont := if top.isCont then [chain] else [];
      var toOther := (if top.isCont then [] else [chain]) + rest + top.other;
      Pixels(toCont) + Pixels(toOther) == Contrib(top)
  {
    ContinuesPixels(top, best, chain, rest);
    var head := if top.isCont then [] else [chain];
    var toCont := if top.isCont then [chain] else [];
    PixelsCat3(head, rest, top.other);
    assert Pixels(toCont) + Pixels(head) == Pixels([chain]);
  }

  /** What the popped frame hands over is good. */
  lemma HandOverGood(top: Frame, best: int, chain: seq<Coord>, rest: seq<seq<Coord>>)
    requires Continues(top, best, chain, rest)
    requires GoodChains(top.cont) && GoodChains(top.other)
    requires forall k :: 0 <= k < |top.cont| ==> Adjacent(top.curr, top.cont[k][0])
    ensures var toCont := if top.isCont then [chain] else [];
      var toOther := (if top.isCont then [] else [chain]) + rest + top.other;
      GoodChains(toCont) && GoodChains(toOther) && chain != [] && chain[0] == top.curr
  {
    ContinuesGood(top, best, chain, rest);
    var tail := rest + top.other;
    GoodAppend(rest, top.other);
    if top.isCont {
      assert [] + rest + top.other == tail;
    } else {
      GoodAppend([chain], tail);
      assert [chain] + rest + top.other == [chain] + tail;
    }
  }

  /** The frames below the top of a well-shaped stack are well shaped. */
  lemma ShapePrefix(stack: seq<Frame>, n: nat)
    requires Shape(stack) && n <= |stack|
    ensures Shape(stack[..n])
  {
    var s := stack[..n];
    forall i | 0 < i < n
      ensures ParentBelow(s, i)
    {
      assert ParentBelow(stack, i);
      assert s[i] == stack[i] && s[stack[i].parent.index] == stack[stack[i].parent.index];
    }
    forall i | 0 <= i < n
      ensures HoldsGood(s[i])
    {
      assert s[i] == stack[i];
    }
  }

  /** Replacing a frame's chains by good ones, continuations still next to
      its pixel, keeps the stack well shaped. */
  lemma ShapeUpdate(stack: seq<Frame>, p: nat, g: Frame)
    requires Shape(stack) && p < |stack|
    requires g == stack[p].(cont := g.cont, other := g.other)
    requires HoldsGood(g)
    ensures Shape(stack[p := g])
  {
    var s := stack[p := g];
    assert forall i :: 0 <= i < |s| ==> s[i].curr == stack[i].curr && s[i].parent == stack[i].parent;
    forall i | 0 < i < |s|
      ensures ParentBelow(s, i)
    {
      assert ParentBelow(stack, i);
    }
    forall i | 0 <= i < |s|
      ensures HoldsGood(s[i])
    {
      if i != p {
        assert s[i] == stack[i];
      }
    }
  }

  /** Popping a frame removes it and changes no other frame's pixel,
      parent or flags; the caller's continuations stay as they are, since
      the root never continues a run. */
  lemma DeliverFrames(stack: seq<Frame>, rootCont: seq<seq<Coord>>,
                      rootOther: seq<seq<Coord>>, chain: seq<Coord>, rest: seq<seq<Coord>>)
    requires |stack| > 0 && Shape(stack)
    ensures var r := Deliver(stack, rootCont, rootOther, chain, rest);
      |r.0| == |stack| - 1 && r.1 == rootCont &&
      forall i :: 0 <= i < |r.0| ==>
        r.0[i].curr == stack[i].curr && r.0[i].processRet == stack[i].processRet &&
        r.0[i].parent == stack[i].parent && r.0[i].isCont == stack[i].isCont &&
        r.0[i].range == stack[i].range
  {
    var n := |stack| - 1;
    assert stack[n].parent.Root? ==> n == 0;
  }

  /** Popping a visited frame keeps the stack and the caller's chains well
      shaped. */
  lemma DeliverShape(stack: seq<Frame>, rootCont: seq<seq<Coord>>,
                     rootOther: seq<seq<Coord>>, best: int, chain: seq<Coord>, rest: seq<seq<Coord>>)
    requires |stack| > 0 && Shape(stack)
    requires GoodChains(rootOther)
    requires Continues(stack[|stack| - 1], best, chain, rest)
    ensures var r := Deliver(stack, rootCont, rootOther, chain, rest);
      Shape(r.0) && GoodChains(r.2)
  {
    var n := |stack| - 1;
    var top := stack[n];
    HandOverGood(top, best, chain, rest);
    var toCont := if top.isCont then [chain] else [];
    var toOther := (if top.isCont then [] else [chain]) + rest + top.other;
    ShapePrefix(stack, n);
    if top.parent.Root? {
      GoodAppend(rootOther, toOther);
      assert Deliver(stack, rootCont, rootOther, chain, rest) == (stack[..n], rootCont + toCont, rootOther + toOther);
    } else {
      var p := top.parent.index;
      assert ParentBelow(stack, n);
      ParentTakes(stack[..n], p, stack[p], toCont, toOther, chain);
      assert Deliver(stack, rootCont, rootOther, chain, rest) ==
        (stack[..n][p := stack[p].(cont := stack[p].cont + toCont, other := stack[p].other + toOther)],
         rootCont, rootOther);
    }
  }

  /** A parent that takes good chains, continuations that start next to its
      pixel, keeps the stack well shaped. */
  lemma ParentTakes(below: seq<Frame>, p: nat, parent: Frame,
                    toCont: seq<seq<Coord>>, toOther: seq<seq<Coord>>, chain: seq<Coord>)
    requires Shape(below) && p < |below| && below[p] == parent
    requires GoodChains(toCont) && GoodChains(toOther)
    requires toCont == [] || (toCont == [chain] && chain != [] && Adjacent(parent.curr, chain[0]))
    ensures Shape(below[p := parent.(cont := parent.cont + toCont, other := parent.other + toOther)])
  {
    var g := parent.(cont := parent.cont + toCont, other := parent.other + toOther);
    GoodAppend(parent.cont, toCont);
    GoodAppend(parent.other, toOther);
    assert HoldsGood(parent);
    forall k | 0 <= k < |g.cont|
      ensures Adjacent(g.curr, g.cont[k][0])
    {
      if k >= |parent.cont| {
        assert g.cont[k] == chain;
      } else {
        assert g.cont[k] == parent.cont[k];
      }
    }
    ShapeUpdate(below, p, g);
  }

  /** Popping a visited frame keeps the pixels held by the stack and the
      caller together. */
  lemma DeliverHeld(stack: seq<Frame>, rootCont: seq<seq<Coord>>,
                    rootOther: seq<seq<Coord>>, best: int, chain: seq<Coord>, rest: seq<seq<Coord>>)
    requires |stack| > 0 && stack[|stack| - 1].processRet
    requires var top := stack[|stack| - 1];
      (top.parent.Up? ==> top.parent.index < |stack| - 1) &&
      (forall k :: 0 <= k < |top.cont| ==> top.cont[k] != []) &&
      Continues(top, best, chain, rest) && (top.parent.Root? ==> !top.isCont)
    ensures var r := Deliver(stack, rootCont, rootOther, chain, rest);
      Held(r.0) + Pixels(r.2) == Held(stack) + Pixels(rootOther)
  {
    var n := |stack| - 1;
    var top := stack[n];
    HandOverPixels(top, best, chain, rest);
    var toCont := if top.isCont then [chain] else [];
    var toOther := (if top.isCont then [] else [chain]) + rest + top.other;
    assert Held(stack) == Held(stack[..n]) + Contrib(top);
    match top.parent {
      case Root =>
        PixelsAppend(rootOther, toOther);
      case Up(p) =>
        ParentHolds(stack[..n], p, toCont, toOther, Contrib(top));
    }
  }

  /** A parent that takes chains holds their pixels besides its own. */
  lemma ParentHolds(below: seq<Frame>, p: nat, toCont: seq<seq<Coord>>, toOther: seq<seq<Coord>>,
                    more: set<Coord>)
    requires p < |below| && Pixels(toCont) + Pixels(toOther) == more
    ensures Held(below[p := below[p].(cont := below[p].cont + toCont, other := below[p].other + toOther)]) ==
      Held(below) + more
  {
    var g := below[p].(cont := below[p].cont + toCont, other := below[p].other + toOther);
    PixelsAppend(below[p].cont, toCont);
    PixelsAppend(below[p].other, toOther);
    assert Contrib(g) == Contrib(below[p]) + more;
    HeldUpdate(below, p, g, more);
  }

  /** The first half of the `process_ret` branch: choose the continuation
      and build the chain the frame delivers. */
  method Continuation(top: Frame) returns (best: int, chain: seq<Coord>, rest: seq<seq<Coord>>)
    ensures Continues(top, best, chain, rest)
  {
    best := PickLongest(top.cont);
    if best >= 0 {
      chain := [top.curr] + top.cont[best];
      rest := top.cont[..best] + top.cont[best + 1..];
      assert FirstLongest(top.cont, best);
    } else {
      chain := [top.curr];
      rest := top.cont;
    }
  }

  /** The `process_ret` branch: pick the frame's longest continuation,
      deliver the chains to the parent and pop the frame. */
  method Collapse(stack: seq<Frame>, rootCont: seq<seq<Coord>>, rootOther: seq<seq<Coord>>)
    returns (stack': seq<Frame>, rootCont': seq<seq<Coord>>, rootOther': seq<seq<Coord>>,
             best: int, chain: seq<Coord>, rest: seq<seq<Coord>>)
    requires |stack| > 0
    requires var top := stack[|stack| - 1];
      top.parent.Up? ==> top.parent.index < |stack| - 1
    ensures Continues(stack[|stack| - 1], best, chain, rest)
    ensures (stack', rootCont', rootOther') == Deliver(stack, rootCont, rootOther, chain, rest)
  {
    var n := |stack| - 1;
    var top := stack[n];
    best, chain, rest := Continuation(top);
    var toCont := if top.isCont then [chain] else [];
    var toOther := (if top.isCont then [] else [chain]) + rest + top.other;
    stack' := stack[..n];
    rootCont', rootOther' := rootCont, rootOther;
    match top.parent {
      case Root =>
        rootCont' := rootCont + toCont;
        rootOther' := rootOther + toOther;
      case Up(p) =>
        stack' := stack'[p := stack[p].(cont := stack[p].cont + toCont, other := stack[p].other + toOther)];
    }
  }

  /** Visiting the top frame keeps the stack well shaped: the frame keeps
      its place, pixel, parent and chains, the root still does not continue
      a run, and each child sits above it next to its pixel. */
  lemma ExpandShape(stack: seq<Frame>, g: Frame, children: seq<Frame>)
    requires |stack| > 0 && Shape(stack)
    requires var top := stack[|stack| - 1];
      g.curr == top.curr && g.parent == top.parent && g.cont == top.cont && g.other == top.other &&
      g.processRet && (|stack| == 1 ==> !g.isCont)
    requires forall j :: 0 <= j < |children| ==>
      children[j].parent == Up(|stack| - 1) && children[j].cont == [] && children[j].other == [] &&
      Adjacent(g.curr, children[j].curr)
    ensures Shape(stack[..|stack| - 1] + [g] + children)
  {
    var n := |stack| - 1;
    var s := stack[..n] + [g] + children;
    assert s[0] == if n == 0 then g else stack[0];
    ExpandParents(stack, g, children);
    ExpandGood(stack, g, children);
  }

  /** After a visit every frame above the root still has an adjacent parent
      below it. */
  lemma ExpandParents(stack: seq<Frame>, g: Frame, children: seq<Frame>)
    requires |stack| > 0 && Shape(stack)
    requires g.curr == stack[|stack| - 1].curr && g.parent == stack[|stack| - 1].parent
    requires forall j :: 0 <= j < |children| ==>
      children[j].parent == Up(|stack| - 1) && Adjacent(g.curr, children[j].curr)
    ensures var s := stack[..|stack| - 1] + [g] + children;
      forall i :: 0 < i < |s| ==> ParentBelow(s, i)
  {
    var n := |stack| - 1;
    var s := stack[..n] + [g] + children;
    forall i | 0 < i < |s|
      ensures ParentBelow(s, i)
    {
      if i > n {
        assert s[i] == children[i - n - 1] && s[n] == g;
      } else {
        assert ParentBelow(stack, i);
        var p := stack[i].parent.index;
        assert s[p] == stack[p] && s[i].curr == stack[i].curr;
      }
    }
  }

  /** After a visit every frame still holds good chains. */
  lemma ExpandGood(stack: seq<Frame>, g: Frame, children: seq<Frame>)
    requires |stack| > 0 && Shape(stack)
    requires g.curr == stack[|stack| - 1].curr && g.cont == stack[|stack| - 1].cont
    requires g.other == stack[|stack| - 1].other
    requires forall j :: 0 <= j < |children| ==> children[j].cont == [] && children[j].other == []
    ensures var s := stack[..|stack| - 1] + [g] + children;
      forall i :: 0 <= i < |s| ==> HoldsGood(s[i])
  {
    var n := |stack| - 1;
    var s := stack[..n] + [g] + children;
    forall i | 0 <= i < |s|
      ensures HoldsGood(s[i])
    {
      if i > n {
        assert s[i] == children[i - n - 1];
      } else if i == n {
        assert HoldsGood(stack[n]);
      } else {
        assert s[i] == stack[i];
      }
    }
  }

  /** Visiting the top frame adds its pixel to what the stack holds. */
  lemma ExpandHeld(stack: seq<Frame>, g: Frame, children: seq<Frame>, live: set<Coord>)
    requires |stack| > 0
    requires var top := stack[|stack| - 1];
      g.curr == top.curr && g.cont == top.cont && g.other == top.other && g.processRet && !top.processRet
    requires forall j :: 0 <= j < |children| ==>
      !children[j].processRet && children[j].cont == [] && children[j].other == [] &&
      children[j].curr in live
    ensures Held(stack[..|stack| - 1] + [g] + children) == Held(stack) + {g.curr}
    ensures Stale(stack[..|stack| - 1] + [g] + children, live) ==
      Stale(stack, live) - (if g.curr in live then 0 else 1)
  {
    var n := |stack| - 1;
    FreshFrames(children, live);
    HeldAppend(stack[..n] + [g], children);
    StaleAppend(stack[..n] + [g], children, live);
    assert (stack[..n] + [g])[..n] == stack[..n];
    assert stack[..n + 1] == stack;
  }

  /** The first frame: the start pixel, an empty range (so it never
      continues a run), nothing recorded, the first pixel of the run at
      (0, 0). */
  function RootFrame(start: Coord): Frame
  {
    Frame(start, EmptyRange, Unconstrained, Coord(0, 0), Root, [], [], false, false)
  }

  /** The set pixels of the grid. */
  ghost function Foreground(bitmap: array2<bool>): (r: set<Coord>)
    reads bitmap
    ensures forall c :: c in r <==> InGrid(bitmap, c) && bitmap[c.x, c.y]
  {
    set x, y | 0 <= x < bitmap.Length0 && 0 <= y < bitmap.Length1 && bitmap[x, y] :: Coord(x, y)
  }

  /** The invariant of the walk. `orig` is the foreground when the walk
      began and `live` the foreground now; `visited` is what the walk has
      visited so far, `start` and the cleared pixels; the stack and the
      caller's chains hold exactly the visited pixels. */
  ghost predicate Walk(bitmap: array2<bool>, start: Coord, orig: set<Coord>, stack: seq<Frame>,
                       rootCont: seq<seq<Coord>>, rootOther: seq<seq<Coord>>,
                       live: set<Coord>, visited: set<Coord>, started: bool)
    reads bitmap
  {
    WalkOn(bitmap.Length0, bitmap.Length1, start, orig, stack, rootCont, rootOther, live, visited, started) &&
    live == Foreground(bitmap)
  }

  /** The part of the walk's invariant that does not look at the bitmap's
      contents, for a grid of `len0` columns and `len1` rows. */
  ghost predicate WalkOn(len0: int, len1: int, start: Coord, orig: set<Coord>, stack: seq<Frame>,
                         rootCont: seq<seq<Coord>>, rootOther: seq<seq<Coord>>,
                         live: set<Coord>, visited: set<Coord>, started: bool)
  {
    Within(start, len0, len1) &&
    Shape(stack) && rootCont == [] && GoodChains(rootOther) &&
    (forall i :: 0 <= i < |stack| ==>
      Within(stack[i].curr, len0, len1) && (stack[i].curr == start || stack[i].curr in orig)) &&
    live <= orig &&
    (forall c :: c in visited <==> (started && c == start) || (c in orig && c !in live)) &&
    (started ==> start !in live) &&
    (!started ==> stack == [RootFrame(start)] && rootOther == []) &&
    Held(stack) + Pixels(rootOther) == visited
  }

  /** One visit of the top frame, with the invariant kept and the walk's
      measure decreased: fewer live pixels, or as many and fewer stale
      frames. */
  method Visit(bitmap: array2<bool>, start: Coord, oracle: InRangeOracle, ghost orig: set<Coord>,
               stack: seq<Frame>, rootCont: seq<seq<Coord>>, rootOther: seq<seq<Coord>>,
               ghost live: set<Coord>, ghost visited: set<Coord>, ghost started: bool)
    returns (stack': seq<Frame>, ghost live': set<Coord>, ghost visited': set<Coord>)
    requires |stack| > 0 && !stack[|stack| - 1].processRet
    requires Walk(bitmap, start, orig, stack, rootCont, rootOther, live, visited, started)
    modifies bitmap
    ensures Walk(bitmap, start, orig, stack', rootCont, rootOther, live', visited', true)
    ensures |live'| < |live| || (live' == live && Stale(stack', live') < Stale(stack, live))
  {
    var n := |stack| - 1;
    var top := stack[n];
    var g, children := Expand(bitmap, top, n, oracle);
    live' := live - {top.curr};
    visited' := visited + {top.curr};
    ChildrenLive(bitmap, children, live');
    stack' := stack[..n] + [g] + children;
    VisitKeeps(bitmap.Length0, bitmap.Length1, start, orig, stack, rootCont, rootOther,
               live, visited, started, oracle, g, children);
    VisitMeasure(stack, g, children, live);
  }

  /** Frames whose pixels are still set hold live pixels. */
  lemma ChildrenLive(bitmap: array2<bool>, children: seq<Frame>, live: set<Coord>)
    requires live == Foreground(bitmap)
    requires forall j :: 0 <= j < |children| ==>
      InGrid(bitmap, children[j].curr) && bitmap[children[j].curr.x, children[j].curr.y]
    ensures forall j :: 0 <= j < |children| ==> children[j].curr in live
  {
  }

  /** The bookkeeping of one visit: the expanded top frame and its children
      keep the invariant, with the top pixel cleared and visited, and the
      measure decreases. */
  lemma VisitKeeps(len0: int, len1: int, start: Coord, orig: set<Coord>, stack: seq<Frame>,
                   rootCont: seq<seq<Coord>>, rootOther: seq<seq<Coord>>,
                   live: set<Coord>, visited: set<Coord>, started: bool, oracle: InRangeOracle,
                   g: Frame, children: seq<Frame>)
    requires |stack| > 0 && !stack[|stack| - 1].processRet
    requires WalkOn(len0, len1, start, orig, stack, rootCont, rootOther, live, visited, started)
    requires var top := stack[|stack| - 1];
      g.curr == top.curr && g.parent == top.parent && g.cont == top.cont && g.other == top.other &&
      g.processRet &&
      (!InRange(oracle, top.range, Raster.KCoefficient(top.init, top.curr)) ==> g.isCont == top.isCont)
    requires forall j :: 0 <= j < |children| ==>
      children[j].parent == Up(|stack| - 1) && !children[j].processRet &&
      children[j].cont == [] && children[j].other == [] &&
      Adjacent(stack[|stack| - 1].curr, children[j].curr) &&
      Within(children[j].curr, len0, len1) && children[j].curr in live - {stack[|stack| - 1].curr}
    ensures var n := |stack| - 1;
      WalkOn(len0, len1, start, orig, stack[..n] + [g] + children, rootCont, rootOther,
             live - {stack[n].curr}, visited + {stack[n].curr}, true)
  {
    var n := |stack| - 1;
    var top := stack[n];
    var live' := live - {top.curr};
    assert n == 0 ==> !g.isCont by {
      if n == 0 {
        assert stack[0].range == EmptyRange;
      }
    }
    ExpandShape(stack, g, children);
    ExpandHeld(stack, g, children, live');
    VisitFrames(len0, len1, start, orig, stack, g, children);
    VisitSets(start, orig, top.curr, live, visited, started);
  }

  /** A visit clears a live pixel, or, when the top pixel was already
      cleared, leaves one stale frame fewer. */
  lemma VisitMeasure(stack: seq<Frame>, g: Frame, children: seq<Frame>, live: set<Coord>)
    requires |stack| > 0
    requires var top := stack[|stack| - 1];
      g.curr == top.curr && g.cont == top.cont && g.other == top.other && g.processRet && !top.processRet
    requires forall j :: 0 <= j < |children| ==>
      !children[j].processRet && children[j].cont == [] && children[j].other == [] &&
      children[j].curr in live - {g.curr}
    ensures var live' := live - {g.curr};
      |live'| < |live| ||
      (live' == live && Stale(stack[..|stack| - 1] + [g] + children, live') < Stale(stack, live))
  {
    var live' := live - {g.curr};
    if g.curr in live {
      RemoveShrinks(live, g.curr);
    } else {
      assert live' == live;
      ExpandHeld(stack, g, children, live);
    }
  }

  /** Removing a member makes a set smaller. */
  lemma RemoveShrinks(live: set<Coord>, p: Coord)
    requires p in live
    ensures |live - {p}| < |live|
  {
    assert live == (live - {p}) + {p};
  }

  /** After a visit every frame still holds a pixel of the grid that is
      `start` or was foreground. */
  lemma VisitFrames(len0: int, len1: int, start: Coord, orig: set<Coord>, stack: seq<Frame>,
                    g: Frame, children: seq<Frame>)
    requires |stack| > 0 && g.curr == stack[|stack| - 1].curr
    requires forall i :: 0 <= i < |stack| ==>
      Within(stack[i].curr, len0, len1) && (stack[i].curr == start || stack[i].curr in orig)
    requires forall j :: 0 <= j < |children| ==>
      Within(children[j].curr, len0, len1) && children[j].curr in orig
    ensures var s := stack[..|stack| - 1] + [g] + children;
      forall i :: 0 <= i < |s| ==>
        Within(s[i].curr, len0, len1) && (s[i].curr == start || s[i].curr in orig)
  {
    var n := |stack| - 1;
    var s := stack[..n] + [g] + children;
    forall i | 0 <= i < |s|
      ensures Within(s[i].curr, len0, len1) && (s[i].curr == start || s[i].curr in orig)
    {
      if i < n {
        assert s[i] == stack[i];
      } else if i > n {
        assert s[i] == children[i - n - 1];
      }
    }
  }

  /** Clearing and visiting the pixel `p` of the top frame keeps the
      relation between the original, live and visited pixels, with `start`
      now visited. */
  lemma VisitSets(start: Coord, orig: set<Coord>, p: Coord, live: set<Coord>, visited: set<Coord>,
                  started: bool)
    requires p == start || p in orig
    requires live <= orig
    requires forall c :: c in visited <==> (started && c == start) || (c in orig && c !in live)
    requires started ==> start !in live
    requires !started ==> p == start
    ensures live - {p} <= orig
    ensures forall c :: c in visited + {p} <==> c == start || (c in orig && c !in live - {p})
    ensures start !in live - {p}
  {
  }

  /** One pop of the top frame, with the invariant kept, the live pixels
      and the stale frames unchanged and the stack one frame shorter. */
  method Pop(bitmap: array2<bool>, start: Coord, ghost orig: set<Coord>,
             stack: seq<Frame>, rootCont: seq<seq<Coord>>, rootOther: seq<seq<Coord>>,
             ghost live: set<Coord>, ghost visited: set<Coord>, ghost started: bool)
    returns (stack': seq<Frame>, rootCont': seq<seq<Coord>>, rootOther': seq<seq<Coord>>)
    requires |stack| > 0 && stack[|stack| - 1].processRet
    requires Walk(bitmap, start, orig, stack, rootCont, rootOther, live, visited, started)
    ensures Walk(bitmap, start, orig, stack', rootCont', rootOther', live, visited, started)
    ensures Stale(stack', live) == Stale(stack, live) && |stack'| < |stack|
  {
    var best, chain, rest;
    stack', rootCont', rootOther', best, chain, rest := Collapse(stack, rootCont, rootOther);
    PopKeeps(bitmap.Length0, bitmap.Length1, start, orig, stack, rootCont, rootOther,
             live, visited, started, best, chain, rest);
  }

  /** The bookkeeping of one pop: delivering the top frame's chains keeps
      the invariant and the number of stale frames, and shortens the stack. */
  lemma PopKeeps(len0: int, len1: int, start: Coord, orig: set<Coord>, stack: seq<Frame>,
                 rootCont: seq<seq<Coord>>, rootOther: seq<seq<Coord>>,
                 live: set<Coord>, visited: set<Coord>, started: bool,
                 best: int, chain: seq<Coord>, rest: seq<seq<Coord>>)
    requires |stack| > 0 && stack[|stack| - 1].processRet
    requires WalkOn(len0, len1, start, orig, stack, rootCont, rootOther, live, visited, started)
    requires Continues(stack[|stack| - 1], best, chain, rest)
    ensures var r := Deliver(stack, rootCont, rootOther, chain, rest);
      WalkOn(len0, len1, start, orig, r.0, r.1, r.2, live, visited, started) &&
      Stale(r.0, live) == Stale(stack, live) && |r.0| < |stack|
  {
    var n := |stack| - 1;
    assert HoldsGood(stack[n]);
    DeliverFrames(stack, rootCont, rootOther, chain, rest);
    DeliverShape(stack, rootCont, rootOther, best, chain, rest);
    DeliverHeld(stack, rootCont, rootOther, best, chain, rest);
    PopStale(stack, Deliver(stack, rootCont, rootOther, chain, rest).0, live);
  }

  /** Removing a visited top frame, with the other frames' pixels and flags
      unchanged, leaves the number of stale frames as it was. */
  lemma PopStale(stack: seq<Frame>, stack': seq<Frame>, live: set<Coord>)
    requires |stack| > 0 && stack[|stack| - 1].processRet && |stack'| == |stack| - 1
    requires forall i :: 0 <= i < |stack'| ==>
      stack'[i].curr == stack[i].curr && stack'[i].processRet == stack[i].processRet
    ensures Stale(stack', live) == Stale(stack, live)
  {
    var n := |stack| - 1;
    StaleSameFrames(stack', stack[..n], live);
  }

  /** `BaseSegmentsGetter`: walk depth first from `start`, whatever the
      angle oracle answers. Every returned chain is non-empty and
      8-connected; the walk only clears pixels, clears `start`, and the
      pixels of the chains are exactly `start` and the pixels it cleared. */
  method BaseSegmentsGetter(bitmap: array2<bool>, start: Coord, oracle: InRangeOracle)
    returns (chains: seq<seq<Coord>>)
    requires InGrid(bitmap, start)
    modifies bitmap
    ensures GoodChains(chains)
    ensures forall x, y :: 0 <= x < bitmap.Length0 && 0 <= y < bitmap.Length1 && bitmap[x, y] ==>
      old(bitmap[x, y])
    ensures !bitmap[start.x, start.y]
    ensures forall c :: c in Pixels(chains) <==>
      c == start || (InGrid(bitmap, c) && old(bitmap[c.x, c.y]) && !bitmap[c.x, c.y])
  {
    var rootCont: seq<seq<Coord>> := [];
    var rootOther: seq<seq<Coord>> := [];
    var stack := [RootFrame(start)];
    ghost var orig := Foreground(bitmap);
    ghost var live := orig;
    ghost var visited: set<Coord> := {};
    ghost var started := false;
    while |stack| > 0
      invariant Walk(bitmap, start, orig, stack, rootCont, rootOther, live, visited, started)
      decreases |live|, Stale(stack, live), |stack|
    {
      if !stack[|stack| - 1].processRet {
        stack, live, visited := Visit(bitmap, start, oracle, orig, stack, rootCont, rootOther,
                                      live, visited, started);
        started := true;
      } else {
        stack, rootCont, rootOther := Pop(bitmap, start, orig, stack, rootCont, rootOther,
                                          live, visited, started);
      }
    }
    chains := rootOther;
    assert orig == old(Foreground(bitmap));
  }
}
