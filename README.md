# Segment extraction and rasterisation, modelled in Dafny

This project models the core of a C++ primitives-to-image translator. The
core has two parts: the segment rasteriser, and the extractor that turns a
boolean bitmap back into straight segments.

- **Primitives** (`primitives.dfy`). `Coord` with its six comparison
  operators, and `Segment`.
- **Rasteriser** (`raster.dfy`, `legacy_raster.dfy`).
  - `GetKCoefficient` gives an exact rational slope, with a `Vertical`
    variant for the `FLT_MAX` sentinel.
  - `GetBCoefficient` uses C++ truncating division, narrowed to a 32-bit
    `int`.
  - `Segment::GetGraphic` normalises the endpoints, then has a vertical,
    a shallow and a steep loop.
  - The older copy in the top-level `primitives.cpp` is modelled beside it,
    together with its run-length overload.
- **Step patterns** (`patterns.dfy`). `Deviation`/`Movement` and the
  functions over them: `GetConnectionType`, `CanBeConnected`,
  `UpdateConnection`, `UniteConnections` and `ReverseDeviation`. Also the
  pattern pass that `BaseExtractPrimitives` runs over each raw chain.
- **Angle ranges** (`krange.dfy`). `KRange` is a class over `real` with its
  two constructors, `Intersect`, `AreIntersect` and `InRange`. `GetKRange`
  is included, with the arctangent passed in as a parameter. The walk and
  the merge take the range test as an oracle over symbolic ranges;
  `AngleOracleAgrees` proves that the class's `InRange`, on the object
  `GetKRange` or a constructor builds, is one such oracle.
- **Neighbours** (`neighbours.dfy`). `GetNeighbours`.
- **Depth-first walk** (`traversal.dfy`). `BaseSegmentsGetter`:
  - The explicit `std::stack` becomes a sequence of frames. Each frame
    holds the index of its parent in place of the `RecurseRet*` pointer.
  - The walk is proved for every answer of the angle test. That test is an
    oracle over a symbolic range value.
- **Connecting** (`merging.dfy`).
  - The `std::list<SCont>` is an arena class: node indices stay valid
    across `erase`, as list iterators do.
  - The endpoint map is an `array2` of optional node indices.
  - The merge step is `UniteNeighbours`, driven by the connecting loop.
- **Driver** (`extraction.dfy`). `BaseExtractPrimitives`: the raster scan,
  the pattern pass, building the list and the endpoint map, connecting,
  and output.

Some C++ operations have no defined result. `.value()` on an empty cell
of the endpoint map throws. Dereferencing a list iterator whose node was
erased is undefined. The model returns these as a `Fault` value rather
than excluding them by a precondition. The reason is that two raw chains
can share an endpoint cell. When that happens, a later merge can leave a
cell naming an erased node, or leave it empty.

The extractor decides whether a pixel continues a straight run by
testing the slope's angle against an angle range (`KRange`).

## Model

| member | source | states |
|---|---|---|
| Primitives.Equal | source/primitives.cpp:23-25 | `==` holds exactly when both coordinates agree |
| Primitives.NotEqual | source/primitives.cpp:26-28 | `!=` holds exactly when `==` does not |
| Primitives.Less | source/primitives.cpp:29-34 | `<` is lexicographic: x first, then y |
| Primitives.LessEq | source/primitives.cpp:35-37 | `a <= b` holds exactly when `b < a` fails |
| Primitives.Greater | source/primitives.cpp:38-40 | `a > b` holds exactly when `b < a` |
| Primitives.GreaterEq | source/primitives.cpp:41-43 | `a >= b` holds exactly when `a < b` fails |
| Primitives.LessIsStrictOrder | source/primitives.cpp:29-34 | `<` is irreflexive and transitive |
| Primitives.Trichotomy | source/primitives.cpp:23-40 | for any two coordinates exactly one of `<`, `==`, `>` holds |
| Raster.KCoefficient | source/primitives.cpp:64-70 | the slope is the vertical sentinel exactly when `a.x == b.x`; otherwise `k * dx == dy` exactly |
| Raster.KCoefficientSwap | source/primitives.cpp:64-70 | the slope does not depend on the order of the endpoints |
| Raster.ShallowIffRunDominates | source/primitives.cpp:87 | the branch test `-1 <= k <= 1` holds exactly when `abs(dy) <= abs(dx)` |
| Raster.SlopeSign | source/primitives.cpp:92-93 | for `a.x < b.x` the slope is non-negative exactly when `a.y <= b.y`, so the steep loop steps towards `b.y` |
| Raster.TruncDiv | source/primitives.cpp:110-112 | C++ integer division: the remainder is smaller than the divisor in magnitude and has the sign of the dividend |
| Raster.TruncDivNegateBoth | source/primitives.cpp:110-112 | negating both operands leaves the truncated quotient unchanged |
| Raster.ToInt32 | source/primitives.cpp:110-112 | narrowing the 64-bit quotient to `int` gives a value in the 32-bit range, congruent modulo 2^32 |
| Raster.BCoefficient | source/primitives.cpp:106-113 | 0 for a vertical segment; always in the 32-bit range |
| Raster.BCoefficientSwap | source/primitives.cpp:106-113 | the intercept does not depend on the order of the endpoints |
| Raster.Normalize | source/primitives.cpp:73-76 | afterwards `a <= b`, and the segment is the input or the input swapped |
| Raster.NormalizeSwap | source/primitives.cpp:73-76 | both orders of the endpoints normalise to the same segment |
| Raster.GetGraphic | source/primitives.cpp:72-104 | the loops emit exactly the pixel sequence of the specification function `Graphic` |
| Raster.GraphicSwap | source/primitives.cpp:72-79 | the output does not depend on the order of the endpoints |
| Raster.GraphicVertical | source/primitives.cpp:83-86 | vertical segments, `a == b` included: `abs(dy)+1` pixels at `x = a.x`, y rising by 1 from the smaller y |
| Raster.GraphicShallow | source/primitives.cpp:87-91 | shallow segments: `abs(dx)+1` pixels, one per x from the smaller x upwards, y from the coordinate function |
| Raster.GraphicSteep | source/primitives.cpp:92-101 | steep segments: `abs(dy)+1` pixels, one per y, stepping by the slope's sign from the left endpoint |
| Raster.VerticalRun | source/primitives.cpp:83-86 | the vertical loop: one pixel per y from the lower endpoint to the upper one, all at the upper endpoint's x |
| Raster.ShallowRun | source/primitives.cpp:87-91 | the shallow loop: one pixel per x from the left endpoint to the right one, y from the coordinate function |
| Raster.SteepRun | source/primitives.cpp:92-101 | the steep loop: y steps by the slope's sign from the left endpoint's y to the right one's, x from the inverse coordinate function |
| LegacyRaster.BCoefficient | primitives.cpp:27-31 | where it is defined (`a.x != b.x`) it agrees with the guarded intercept |
| LegacyRaster.Normalize | primitives.cpp:34-39 | the explicit normalisation (swap on `a.x > b.x`, or on equal x and `a.y > b.y`) equals `a > b` swapping, so afterwards `a <= b` |
| LegacyRaster.GetGraphic | primitives.cpp:33-67 | for `a.x != b.x` the older loops emit exactly what the newer rasteriser does |
| LegacyRaster.GetGraphicRun | primitives.cpp:69-90 | exactly `max(lenth, 0)` pixels from `a_point`: one per x going right when shallow, otherwise one per y in the slope's direction |
| LegacyRaster.VerticalSegmentDividesByZero | primitives.cpp:33-49 | on the vertical segment (0,0)-(0,3) the older intercept divides by zero, while the guarded rasteriser draws the four-pixel column |
| Neighbours.GetNeighbours | source/extract_primitives.cpp:19-36 | exactly the pixels at Chebyshev distance 1 that lie inside the bounds when bounds are given; strictly increasing x-major then y; at most 8 |
| KRanges.BoundsIntersect | source/extract_primitives.cpp:84-92 | for ordered bounds, the comparison holds exactly when the intervals overlap |
| KRanges.BoundsIntersectSymmetric | source/extract_primitives.cpp:84-92 | the comparison is symmetric in its two intervals |
| KRanges.KRange.constructor | source/extract_primitives.cpp:42 | the default range spans -90 to 90 degrees, empty as requested |
| KRanges.KRange.Between | source/extract_primitives.cpp:43-48 | the bounds end up ordered and are the two given values |
| KRanges.KRange.Intersect | source/extract_primitives.cpp:65-77 | emptiness is sticky and spreads from the other range; otherwise the bounds become max/min of the two, empty exactly when they cross; the interval only shrinks |
| KRanges.KRange.AreIntersect | source/extract_primitives.cpp:84-92 | for ordered bounds, true exactly when the two intervals overlap |
| KRanges.KRange.InRange | source/extract_primitives.cpp:57-64 | an empty range holds nothing; otherwise the angle lies within the bounds widened by 0.001 degrees |
| KRanges.AreIntersectSymmetric | source/extract_primitives.cpp:84-92 | `AreIntersect` is symmetric |
| KRanges.GetKRange | source/extract_primitives.cpp:151-164 | a single point gets the default range; otherwise the tightest ordered interval holding the segment's angle and the angle from `a` to every neighbour of `b`; either way it is the range the traversal names `GetKRange(seg)` |
| KRanges.SpanBoundsUnique | source/extract_primitives.cpp:155-164 | the tightest interval holding those angles is unique, so the bounds `GetKRange` computes are determined by the segment |
| KRanges.AngleOracleAgrees | source/extract_primitives.cpp:57-64 | the class's `InRange` answers exactly what the traversal's `InRange` answers when its oracle is the angle test on the same range: the abstract ranges of the traversal are the concrete `KRange` objects |
| Patterns.GetConnectionType | source/extract_primitives.cpp:95-120 | the deviation components are the signs of dx and dy; `XMove` exactly for a pure x step, `YMove` exactly for a pure y step |
| Patterns.CanBeConnected | source/extract_primitives.cpp:122-134 | a step is accepted exactly when neither sign opposes a recorded sign and it is not the restricted move |
| Patterns.UnconstrainedAcceptsAll | source/extract_primitives.cpp:122-134 | the neutral pattern with no restriction accepts every step |
| Patterns.UpdateConnection | source/extract_primitives.cpp:136-149 | each sign becomes the step's sign where it moves and is kept where it does not; a pure x (y) step restricts `YMove` (`XMove`) |
| Patterns.UpdateNeverForgets | source/extract_primitives.cpp:136-149 | a recorded sign or restriction is never reset to neutral |
| Patterns.UpdateAcceptsOwnStep | source/extract_primitives.cpp:122-149 | after recording a step, `CanBeConnected` still accepts that step |
| Patterns.UpdateIsUnite | source/extract_primitives.cpp:136-149 | updating with a step is uniting with that step's own pattern |
| Patterns.UniteConnections | source/extract_primitives.cpp:320-339 | every non-neutral component of the second pattern overrides; neutral ones keep the first's |
| Patterns.UniteIdentity | source/extract_primitives.cpp:320-339 | the neutral pattern is a left and right identity, and uniting twice with the same pattern changes nothing |
| Patterns.UniteAssociative | source/extract_primitives.cpp:320-339 | uniting is associative |
| Patterns.ReverseDeviation | source/extract_primitives.cpp:341-350 | neutral components stay neutral; every other sign flips |
| Patterns.ReverseInvolution | source/extract_primitives.cpp:341-350 | reversing twice gives the deviation back |
| Patterns.ReverseSwapsStep | source/extract_primitives.cpp:341-350 | reversing the deviation of a->b gives that of b->a; the movement is the same both ways |
| Patterns.PatternsAgree | source/extract_primitives.cpp:304-317 | the pattern half of `CanBeConnected(SCont, SCont)` holds exactly when uniting the two patterns gives the same result in either order |
| Patterns.PatternsAgreeSymmetric | source/extract_primitives.cpp:304-317 | the pattern half is symmetric in its two arguments |
| Patterns.UnitedAgreesWithBoth | source/extract_primitives.cpp:320-339 | when two patterns agree, their union agrees with each |
| Patterns.ChainPattern | source/extract_primitives.cpp:428-435 | the early-exit loop computes the chain's pattern specified by `ChainPatternOf` |
| Patterns.PatternFromXNeutral | source/extract_primitives.cpp:428-435 | from a given position on, the x sign stays neutral exactly when it was neutral and no later step moves in x |
| Patterns.PatternFromYNeutral | source/extract_primitives.cpp:428-435 | the same for the y sign |
| Patterns.PatternFromNoMove | source/extract_primitives.cpp:428-435 | the same for the restricted move and pure steps |
| Patterns.ChainPatternNeutral | source/extract_primitives.cpp:428-435 | a chain's x (y) sign is neutral exactly when no step moves in x (y); there is no restriction exactly when no step is pure |
| Traversal.GetKRange | source/extract_primitives.cpp:151-154 | never empty; the default range exactly for a single point |
| Traversal.Expand | source/extract_primitives.cpp:205-240 | the first visit of a frame: the run continues exactly when the slope is in range; only the frame's pixel is cleared; the children are exactly the in-grid set neighbours the pattern accepts, in neighbour order, each with the updated pattern |
| Traversal.Clear | source/extract_primitives.cpp:217 | only the frame's pixel is cleared, so the set pixels lose exactly that one |
| Traversal.Children | source/extract_primitives.cpp:219-238 | the pushed frames are exactly the in-grid set neighbours the pattern accepts, in neighbour order, each carrying the updated pattern |
| Traversal.ConsiderNeighbour | source/extract_primitives.cpp:221-237 | one neighbour: skipped when clear or refused by the pattern, otherwise pushed with the updated pattern; the partial result stays exact |
| Traversal.PickLongest | source/extract_primitives.cpp:242-253 | the first continuation of greatest end-to-end length; -1 exactly when every continuation is empty |
| Traversal.Continuation | source/extract_primitives.cpp:242-257 | the delivered chain is the frame's pixel followed by its longest continuation; the other continuations remain |
| Traversal.ContinuesGood | source/extract_primitives.cpp:254-257 | the delivered chain starts at the frame's pixel, and it and the remaining chains are non-empty and 8-connected |
| Traversal.ContinuesPixels | source/extract_primitives.cpp:254-257 | delivering loses no pixel: the chains delivered hold the frame's pixel and every pixel of its continuations |
| Traversal.Collapse | source/extract_primitives.cpp:241-276 | the second visit: the chain goes to the parent's continuations or other chains, as the frame continues the run or not, then the frame is popped |
| Traversal.Visit | source/extract_primitives.cpp:205-240 | a first visit keeps the walk invariant and decreases its measure |
| Traversal.VisitKeeps | source/extract_primitives.cpp:205-240 | the invariant after a first visit: stack shape, pixels in the grid, visited pixels cleared, every visited pixel in some chain or frame |
| Traversal.VisitMeasure | source/extract_primitives.cpp:205-240 | a first visit clears a set pixel, or leaves the set pixels as they were and reduces the number of stale frames |
| Traversal.Pop | source/extract_primitives.cpp:241-276 | a second visit keeps the walk invariant and shortens the stack, other things equal |
| Traversal.BaseSegmentsGetter | source/extract_primitives.cpp:191-280 | for every oracle: it terminates; chains are non-empty and 8-connected; it only clears pixels, clears the start, and the chains hold exactly the start and the pixels it cleared |
| Merging.IndexOf | source/extract_primitives.cpp:453-465 | the first position of a live node in list order |
| Merging.ContList.constructor | source/extract_primitives.cpp:437 | the empty list |
| Merging.ContList.PushBack | source/extract_primitives.cpp:444-448 | appends the node and returns its iterator |
| Merging.ContList.Erase | source/extract_primitives.cpp:396 | the node leaves the list and the others keep their order and contents |
| Merging.ContList.Assign | source/extract_primitives.cpp:398 | only the named node's contents change |
| Merging.Flip | source/extract_primitives.cpp:456-458 | the segment turned around: its start is the old end and its end the old start, and reversing its deviation gives back the old one; the movement is kept |
| Merging.FlipInvolution | source/extract_primitives.cpp:456-458 | turning around twice gives the segment back |
| Merging.Oriented | source/extract_primitives.cpp:375-378 | the neighbour's segment keeps its two endpoints and its movement; oriented at one of its endpoints, it starts there and ends at the other; its deviation is kept or reversed |
| Merging.CanBeConnectedConts | source/extract_primitives.cpp:294-318 | two segments connect exactly when both slopes are in range and the patterns agree; agreement then holds both ways |
| Merging.Merge | source/extract_primitives.cpp:384-389 | the united segment runs from `cont.a` to the neighbour's far end |
| Merging.MergeAgrees | source/extract_primitives.cpp:384-389 | the united pattern agrees with both parts and keeps every sign and restriction they recorded |
| Merging.UniteNeighbours | source/extract_primitives.cpp:352-403 | faults on an empty connection cell or a dangling node; otherwise it merges with the first joinable neighbour in neighbour order, never with itself, erasing exactly that one node, storing the united segment and rewiring the map; `false` exactly when no neighbour is joinable, with nothing changed |
| Merging.Join | source/extract_primitives.cpp:387-399 | clears the two cells, points the united ends at the owner, erases the neighbour, then stores the union, or faults when the owner itself was erased |
| Merging.Rewire | source/extract_primitives.cpp:391-394 | the four cell writes: the neighbour's cell and the connection point become empty, then both ends of the united segment name the owner; every other cell is kept |
| Merging.ConnectSegments | source/extract_primitives.cpp:453-465 | terminates; the list only loses nodes and the map stays consistent with it |
| Extraction.ScanChains | source/extract_primitives.cpp:413-425 | afterwards the bitmap is clear, the chains are non-empty and 8-connected, and they hold exactly the pixels that were set |
| Extraction.ComputePatterns | source/extract_primitives.cpp:428-435 | each raw chain gets the pattern of its steps |
| Extraction.LastEndSpec | source/extract_primitives.cpp:443-450 | a map cell is empty exactly when no chain ends there; otherwise it names the last chain that does |
| Extraction.BuildEndpoints | source/extract_primitives.cpp:437-450 | one node per raw chain, in order, spanning its first and last pixel with its pattern; every cell names the last chain ending there |
| Extraction.FillEndpoints | source/extract_primitives.cpp:443-450 | the filling loop: after it, the list holds one node per chain in order and every cell names the last chain ending there |
| Extraction.AddChain | source/extract_primitives.cpp:443-450 | one turn of the filling loop extends that description from the first `i` chains to the first `i + 1` |
| Extraction.AddRaw | source/extract_primitives.cpp:443-450 | one push: the node is appended and both its end cells name it, every other cell kept |
| Extraction.Output | source/extract_primitives.cpp:467-472 | the segments of the live nodes, in list order |
| Extraction.ReadSize | source/extract_primitives.cpp:407-408 | the size read of the C++ as written: out of range exactly when the grid has no rows, otherwise the row count and the length of row 0 |
| Extraction.EmptyGridReadsRowZero | source/extract_primitives.cpp:407-408 | a grid without rows never reaches the empty result, since its size read is out of range; every other grid's read succeeds |
| Extraction.BaseExtractPrimitives | source/extract_primitives.cpp:405-473 | for every oracle: a grid without rows gives the empty segment list; otherwise the bitmap ends clear, the raw chains hold exactly its set pixels, and unless a fault stops it there are at most as many segments as raw chains, each between two set pixels |

## Left out

- Floating point.
  - `TanToDeg` (an arctangent), `DegToRad`/`RadToDeg` and the float
    division of `GetKCoefficient` are not modelled as floats. Slopes are
    exact rationals, and the arctangent is a parameter of `KRanges`.
  - Inside the walk and the merge, the whole answer of `KRange::InRange`
    on a non-empty range is an oracle parameter. Every property is proved
    for every oracle, the class's angle test among them
    (`KRanges.AngleOracleAgrees`).
  - `static_cast<int>(k*x+b)` in `GetGraphic` is a pair of opaque
    coordinate functions (`FloatOps`).
  - The branch test `-1 <= k <= 1` is exact over rationals. Floats match
    it only while coordinate differences stay below 2^24.
- `GetDistance` uses a square root. The longest continuation is picked by
  squared integer distance, which orders chains the same way.
- Integer width. Coordinates are unbounded. Only the narrowing of the
  64-bit intercept to `int` is modelled; products that overflow 64 bits
  are not.
- The older copy of the extraction helpers in `source/primitives.cpp`
  (`ExtractRecurse` and its `UniteNeighbours`) is not part of this model;
  only `source/extract_primitives.cpp` is. The older copy differs:
  - `ExtractRecurse` (`source/primitives.cpp:293-295`) recurses, so it
    tests a neighbour's pixel right before descending into it, after the
    earlier siblings have cleared theirs; no pixel can then land in two
    chains. The modelled iterative getter tests when it pushes the frame,
    and its frames can go stale.
  - The older `UniteNeighbours` (`source/primitives.cpp:405-452`) has no
    `neighbour_iter == iter` guard (`source/extract_primitives.cpp:368-370`),
    so it can unite a segment with itself.
- `Coord::operator*(float)` and `Segment::GetGraphic(px_per_mm, line_width)`
  are float scaling. The image writer, `include/concepts.hpp` and the
  `ExtractPrimitives` template are output and type plumbing. They are not
  part of this model.
- The bitmap is a vector of vectors in C++ and a rectangular `array2` here.
  The C++ reads every row's length from `bitmap[0]`.
- Moves of `std::list` nodes into parent lists are modelled as sequence
  concatenation, so there is no aliasing between frames.
- UniteNeighbours: the merged node, the neighbour and the erased node are
  ghost outputs. They are used only to state the contract.
- BaseExtractPrimitives: does not prove that the connection cell is always
  present or that no erased node is reached. These are returned as a
  `Fault` instead, because endpoint cells shared by two raw chains break
  that invariant.
- ConnectSegments: does not state that, when it runs to the end, no two
  remaining segments can be united. A later merge can make an earlier,
  already passed node joinable again, and the C++ loop does not revisit it.

## Findings

| source | as written | input that shows it | evidently intended | confidence | as-written member | corrected member |
|---|---|---|---|---|---|---|
| primitives.cpp:27-49 | the older `GetGraphic` computes the intercept, dividing by `b.x - a.x`, before it tests for the vertical case | the segment (0,0)-(0,3): the divisor is 0 | draw the vertical column x = 0, y = 0..3, as the guarded `source/primitives.cpp:106-113` does | not executed | LegacyRaster.VerticalSegmentDividesByZero | Raster.GraphicVertical |
| source/extract_primitives.cpp:407-408 | `BaseExtractPrimitives` reads `bitmap[0].size()` before any check | a bitmap with no rows: row 0 does not exist | return an empty list of segments | not executed | Extraction.EmptyGridReadsRowZero | Extraction.BaseExtractPrimitives |
