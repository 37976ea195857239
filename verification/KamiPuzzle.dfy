/** The Kami puzzle: painting one super-area a new colour merges it with every
    adjacent super-area that already has that colour.

    Adjacency of super-areas comes from a memo that maps an inclusion mask to
    an adjacency mask. It is seeded with one entry per base region and gains an
    entry for every merged area. The memo is the puzzle's only mutable part; here
    it is a field of an immutable puzzle value, and every operation that writes
    it returns the updated puzzle alongside its result. */
module KamiPuzzles {
  import opened ColorAreas
  import opened KamiStates

  /** Inclusion mask -> adjacency mask. */
  type AdjacencyMemo = map<Mask, Mask>

  datatype KamiPuzzle = KamiPuzzle(
    numberOfColors: int,
    originalAreaCount: nat,
    initialState: KamiState,
    adjacencyMasks: AdjacencyMemo)

  // ---------------------------------------------------------------------------
  // What the memo holds
  // ---------------------------------------------------------------------------

  /** The adjacency a region set inherits from its base regions: the union of
      the seed adjacency masks `seeds[i]` of every base region i in `m`. */
  function AdjOf(seeds: seq<Mask>, m: Mask): Mask
    requires |seeds| <= MaskBitCount
  {
    if |seeds| == 0 then {}
    else
      var k := |seeds| - 1;
      AdjOf(seeds[..k], m) + (if k in m then seeds[k] else {})
  }

  /** A region is in the inherited adjacency exactly when some base region of
      `m` has it in its seed. */
  lemma {:induction false} AdjOfMembership(seeds: seq<Mask>, m: Mask)
    requires |seeds| <= MaskBitCount
    ensures forall j :: j in AdjOf(seeds, m) <==> exists i :: 0 <= i < |seeds| && i in m && j in seeds[i]
  {
    if |seeds| > 0 {
      var k := |seeds| - 1;
      var prefix := seeds[..k];
      AdjOfMembership(prefix, m);
      assert forall i :: 0 <= i < k ==> prefix[i] == seeds[i];
    }
  }

  /** Every entry of the memo holds the inherited adjacency of its key. */
  predicate MemoInv(memo: AdjacencyMemo, seeds: seq<Mask>)
  {
    |seeds| <= MaskBitCount &&
    forall m :: m in memo ==> memo[m] == AdjOf(seeds, m)
  }

  /** Every area of a list has its mask as a memo key, so no lookup can fail. */
  predicate LiveKeys(memo: AdjacencyMemo, areas: seq<ColorArea>)
  {
    forall a :: a in areas ==> a.areaMask in memo
  }

  /** Inherited adjacency distributes over union of region sets. */
  lemma AdjOfOr(seeds: seq<Mask>, a: Mask, b: Mask)
    requires |seeds| <= MaskBitCount
    ensures AdjOf(seeds, a + b) == AdjOf(seeds, a) + AdjOf(seeds, b)
  {
    AdjOfMembership(seeds, a + b);
    AdjOfMembership(seeds, a);
    AdjOfMembership(seeds, b);
  }

  /** A base region's singleton set inherits exactly its seed. */
  lemma AdjOfBit(seeds: seq<Mask>, i: nat)
    requires i < |seeds| <= MaskBitCount
    ensures AdjOf(seeds, Bit(i)) == seeds[i]
  {
    AdjOfMembership(seeds, Bit(i));
  }

    // ---------------------------------------------------------------------------
  // Construction
  // ---------------------------------------------------------------------------

  /** The seed adjacency masks carried by the starting areas. */
  function Seeds(startingAreas: seq<ColorArea>): (seeds: seq<Mask>)
    ensures |seeds| == |startingAreas|
    ensures forall i :: 0 <= i < |startingAreas| ==> seeds[i] == startingAreas[i].areaMask
  {
    seq(|startingAreas|, i requires 0 <= i < |startingAreas| => startingAreas[i].areaMask)
  }

  /** The first `k` rounds of the constructor loop: area i becomes the singleton
      region set {i} with the starting colour, and the memo maps {i} to the
      starting area's adjacency mask. */
  function SeedLoop(startingAreas: seq<ColorArea>, k: nat): (r: (seq<ColorArea>, AdjacencyMemo))
    requires k <= |startingAreas| <= MaskBitCount
    ensures |r.0| == k
    ensures forall i :: 0 <= i < k ==> r.0[i] == ColorArea(Bit(i), startingAreas[i].color)
    ensures forall m :: m in r.1 <==> exists i :: 0 <= i < k && m == Bit(i)
    ensures forall i :: 0 <= i < k ==> r.1[Bit(i)] == startingAreas[i].areaMask
  {
    if k == 0 then ([], map[])
    else
      var (areas, memo) := SeedLoop(startingAreas, k - 1);
      var key := Bit(k - 1);
      assert forall i :: 0 <= i < k - 1 ==> i in Bit(i) && i !in key;
      (areas + [NewColorArea(key, startingAreas[k - 1].color)], memo[key := startingAreas[k - 1].areaMask])
  }

  /** The puzzle constructor. Here each starting area's mask is its adjacency
      mask; the initial state has one singleton area per starting area. The
      builder refuses more starting areas than a mask has bits. */
  function NewKamiPuzzle(startingAreas: seq<ColorArea>, numberOfColors: int): (p: KamiPuzzle)
    requires |startingAreas| <= MaskBitCount
    ensures p.numberOfColors == numberOfColors && p.originalAreaCount == |startingAreas|
    ensures |p.initialState.areas| == |startingAreas|
    ensures forall i :: 0 <= i < |startingAreas| ==>
      p.initialState.areas[i] == ColorArea(Bit(i), startingAreas[i].color)
    ensures p.initialState == NewKamiState(|startingAreas|, numberOfColors, p.initialState.areas)
    ensures forall m :: m in p.adjacencyMasks <==> exists i :: 0 <= i < |startingAreas| && m == Bit(i)
    ensures forall i :: 0 <= i < |startingAreas| ==> p.adjacencyMasks[Bit(i)] == startingAreas[i].areaMask
    ensures MemoInv(p.adjacencyMasks, Seeds(startingAreas))
    ensures LiveKeys(p.adjacencyMasks, p.initialState.areas)
  {
    var (initialAreas, memo) := SeedLoop(startingAreas, |startingAreas|);
    SeedMemoInv(startingAreas, memo);
    KamiPuzzle(numberOfColors, |startingAreas|,
      NewKamiState(|startingAreas|, numberOfColors, initialAreas), memo)
  }

  lemma SeedMemoInv(startingAreas: seq<ColorArea>, memo: AdjacencyMemo)
    requires |startingAreas| <= MaskBitCount
    requires forall m :: m in memo <==> exists i :: 0 <= i < |startingAreas| && m == Bit(i)
    requires forall i :: 0 <= i < |startingAreas| ==> memo[Bit(i)] == startingAreas[i].areaMask
    ensures MemoInv(memo, Seeds(startingAreas))
  {
    var seeds := Seeds(startingAreas);
    forall m | m in memo
      ensures memo[m] == AdjOf(seeds, m)
    {
      var i :| 0 <= i < |startingAreas| && m == Bit(i);
      AdjOfBit(seeds, i);
    }
  }

  function GetInitialState(p: KamiPuzzle): KamiState
  {
    p.initialState
  }

  // ---------------------------------------------------------------------------
  // Adjacency and the merge set
  // ---------------------------------------------------------------------------

  /** Areas are adjacent when the memo's adjacency mask of `fromArea` shares a
      region with `toArea`. */
  predicate TestAdjacency(memo: AdjacencyMemo, fromArea: ColorArea, toArea: ColorArea)
    requires fromArea.areaMask in memo
  {
    Overlaps(memo[fromArea.areaMask], toArea.areaMask)
  }

  /** Under the memo invariant, two areas are adjacent exactly when some base
      region of `fromArea` was authored as adjacent to some region of `toArea`. */
  lemma TestAdjacencyMeaning(memo: AdjacencyMemo, seeds: seq<Mask>, fromArea: ColorArea, toArea: ColorArea)
    requires MemoInv(memo, seeds) && fromArea.areaMask in memo
    ensures TestAdjacency(memo, fromArea, toArea) <==>
      exists i :: 0 <= i < |seeds| && i in fromArea.areaMask && Overlaps(seeds[i], toArea.areaMask)
  {
    var adjacency := memo[fromArea.areaMask];
    AdjOfMembership(seeds, fromArea.areaMask);
    if Overlaps(adjacency, toArea.areaMask) {
      var j :| j in adjacency * toArea.areaMask;
      var i :| 0 <= i < |seeds| && i in fromArea.areaMask && j in seeds[i];
      assert j in seeds[i] * toArea.areaMask;
    }
  }

  /** Does `area` join the merge when `paintedArea`, whose adjacency mask is
      `adjacency`, is painted `paintedColor`? It does when it is the painted
      area itself (same mask), or when it is adjacent and already has the
      painted colour. */
  predicate JoinsMerge(adjacency: Mask, paintedArea: ColorArea, paintedColor: int, area: ColorArea)
  {
    (Overlaps(adjacency, area.areaMask) && area.color == paintedColor) || area.areaMask == paintedArea.areaMask
  }

  /** One pass over the areas in order, keeping those whose JoinsMerge answer is
      `toMerge`: with `true` it yields the merge list, with `false` the list of
      remaining areas, each in the original order. */
  function SplitAreas(adjacency: Mask, paintedArea: ColorArea, paintedColor: int, areas: seq<ColorArea>, toMerge: bool)
    : (r: seq<ColorArea>)
    ensures forall a :: a in r <==> a in areas && JoinsMerge(adjacency, paintedArea, paintedColor, a) == toMerge
    ensures |r| <= |areas|
  {
    if |areas| == 0 then []
    else
      var prefix := areas[..|areas| - 1];
      var last := areas[|areas| - 1];
      assert forall a :: a in areas <==> a in prefix || a == last;
      var r := SplitAreas(adjacency, paintedArea, paintedColor, prefix, toMerge);
      if JoinsMerge(adjacency, paintedArea, paintedColor, last) == toMerge then r + [last] else r
  }

  /** `idx` lists, in increasing order, exactly the positions of `areas` whose
      JoinsMerge answer is `toMerge`, and `r` holds the areas at those positions. */
  predicate SelectsInOrder(r: seq<ColorArea>, areas: seq<ColorArea>, idx: seq<nat>,
                           adjacency: Mask, paintedArea: ColorArea, paintedColor: int, toMerge: bool)
  {
    |idx| == |r| &&
    (forall i, j :: 0 <= i < j < |idx| ==> idx[i] < idx[j]) &&
    (forall i :: 0 <= i < |idx| ==> idx[i] < |areas| && r[i] == areas[idx[i]]) &&
    (forall j :: 0 <= j < |areas| ==> (j in idx <==> JoinsMerge(adjacency, paintedArea, paintedColor, areas[j]) == toMerge))
  }

  /** The pass keeps the selected areas in their original order: it is a
      stable filter of the areas. */
  lemma {:induction false} SplitAreasKeepsOrder(adjacency: Mask, paintedArea: ColorArea, paintedColor: int,
                                                areas: seq<ColorArea>, toMerge: bool)
    ensures exists idx :: SelectsInOrder(SplitAreas(adjacency, paintedArea, paintedColor, areas, toMerge), areas, idx,
                                         adjacency, paintedArea, paintedColor, toMerge)
  {
    var r := SplitAreas(adjacency, paintedArea, paintedColor, areas, toMerge);
    if |areas| == 0 {
      assert SelectsInOrder(r, areas, [], adjacency, paintedArea, paintedColor, toMerge);
    } else {
      var prefix := areas[..|areas| - 1];
      var r0 := SplitAreas(adjacency, paintedArea, paintedColor, prefix, toMerge);
      SplitAreasKeepsOrder(adjacency, paintedArea, paintedColor, prefix, toMerge);
      var idx0 :| SelectsInOrder(r0, prefix, idx0, adjacency, paintedArea, paintedColor, toMerge);
      if JoinsMerge(adjacency, paintedArea, paintedColor, areas[|areas| - 1]) == toMerge {
        SelectsKeepLast(r0, areas, idx0, adjacency, paintedArea, paintedColor, toMerge);
      } else {
        SelectsSkipLast(r0, areas, idx0, adjacency, paintedArea, paintedColor, toMerge);
      }
    }
  }

  /** A selected last area extends the selection by its position. */
  lemma SelectsKeepLast(r0: seq<ColorArea>, areas: seq<ColorArea>, idx0: seq<nat>,
                        adjacency: Mask, paintedArea: ColorArea, paintedColor: int, toMerge: bool)
    requires |areas| > 0
    requires SelectsInOrder(r0, areas[..|areas| - 1], idx0, adjacency, paintedArea, paintedColor, toMerge)
    requires JoinsMerge(adjacency, paintedArea, paintedColor, areas[|areas| - 1]) == toMerge
    ensures SelectsInOrder(r0 + [areas[|areas| - 1]], areas, idx0 + [|areas| - 1], adjacency, paintedArea, paintedColor, toMerge)
  {
    var last := |areas| - 1;
    var prefix := areas[..last];
    var r, idx := r0 + [areas[last]], idx0 + [last];
    assert forall i :: 0 <= i < |idx0| ==> idx[i] == idx0[i] && idx0[i] < last;
    assert forall i :: 0 <= i < |idx0| ==> r[i] == r0[i] == prefix[idx0[i]] == areas[idx0[i]];
    forall j | 0 <= j < |areas|
      ensures j in idx <==> JoinsMerge(adjacency, paintedArea, paintedColor, areas[j]) == toMerge
    {
      if j < last {
        assert areas[j] == prefix[j];
        assert j in idx <==> j in idx0;
      }
    }
  }

  /** An unselected last area leaves the selection as it was. */
  lemma SelectsSkipLast(r0: seq<ColorArea>, areas: seq<ColorArea>, idx0: seq<nat>,
                        adjacency: Mask, paintedArea: ColorArea, paintedColor: int, toMerge: bool)
    requires |areas| > 0
    requires SelectsInOrder(r0, areas[..|areas| - 1], idx0, adjacency, paintedArea, paintedColor, toMerge)
    requires JoinsMerge(adjacency, paintedArea, paintedColor, areas[|areas| - 1]) != toMerge
    ensures SelectsInOrder(r0, areas, idx0, adjacency, paintedArea, paintedColor, toMerge)
  {
    var last := |areas| - 1;
    var prefix := areas[..last];
    assert forall i :: 0 <= i < |idx0| ==> r0[i] == prefix[idx0[i]] == areas[idx0[i]];
    forall j | 0 <= j < |areas|
      ensures j in idx0 <==> JoinsMerge(adjacency, paintedArea, paintedColor, areas[j]) == toMerge
    {
      if j < last {
        assert areas[j] == prefix[j];
      }
    }
  }

  function AreasToBeMerged(adjacency: Mask, paintedArea: ColorArea, paintedColor: int, areas: seq<ColorArea>): seq<ColorArea>
  {
    SplitAreas(adjacency, paintedArea, paintedColor, areas, true)
  }

  function RemainingAreas(adjacency: Mask, paintedArea: ColorArea, paintedColor: int, areas: seq<ColorArea>): seq<ColorArea>
  {
    SplitAreas(adjacency, paintedArea, paintedColor, areas, false)
  }

  /** The two lists split the areas: together they hold each area exactly as often as the input does. */
  lemma {:induction false} SplitIsPermutation(adjacency: Mask, paintedArea: ColorArea, paintedColor: int, areas: seq<ColorArea>)
    ensures multiset(AreasToBeMerged(adjacency, paintedArea, paintedColor, areas))
          + multiset(RemainingAreas(adjacency, paintedArea, paintedColor, areas)) == multiset(areas)
    ensures |AreasToBeMerged(adjacency, paintedArea, paintedColor, areas)|
          + |RemainingAreas(adjacency, paintedArea, paintedColor, areas)| == |areas|
  {
    if |areas| > 0 {
      var prefix := areas[..|areas| - 1];
      SplitIsPermutation(adjacency, paintedArea, paintedColor, prefix);
      assert areas == prefix + [areas[|areas| - 1]];
    }
  }

  // ---------------------------------------------------------------------------
  // Merging
  // ---------------------------------------------------------------------------

  /** OR of the memo's adjacency masks of the areas, in list order. */
  function MergedAdjacency(memo: AdjacencyMemo, areas: seq<ColorArea>): Mask
    requires LiveKeys(memo, areas)
  {
    if |areas| == 0 then {}
    else
      assert areas[|areas| - 1] in areas;
      MergedAdjacency(memo, areas[..|areas| - 1]) + memo[areas[|areas| - 1].areaMask]
  }

  /** Merge the areas into one of colour `paintedColor` whose mask is the OR of
      theirs, and record its adjacency (the OR of their adjacencies) in the memo.
      Only that one memo entry is written. */
  function MergeAreas(memo: AdjacencyMemo, areas: seq<ColorArea>, paintedColor: int): (r: (ColorArea, AdjacencyMemo))
    requires LiveKeys(memo, areas)
    ensures r.0.color == paintedColor && r.0.areaMask == OrMasks(areas)
    ensures r.1.Keys == memo.Keys + {r.0.areaMask}
    ensures forall m :: m in memo && m != r.0.areaMask ==> r.1[m] == memo[m]
  {
    var merged := NewColorArea(OrMasks(areas), paintedColor);
    (merged, memo[merged.areaMask := MergedAdjacency(memo, areas)])
  }

  lemma {:induction false} MergedAdjacencyInherited(memo: AdjacencyMemo, seeds: seq<Mask>, areas: seq<ColorArea>)
    requires MemoInv(memo, seeds) && LiveKeys(memo, areas)
    ensures MergedAdjacency(memo, areas) == AdjOf(seeds, OrMasks(areas))
  {
    if |areas| > 0 {
      var prefix := areas[..|areas| - 1];
      var last := areas[|areas| - 1];
      assert last in areas;
      MergedAdjacencyInherited(memo, seeds, prefix);
      AdjOfOr(seeds, OrMasks(prefix), last.areaMask);
    } else {
      AdjOfMembership(seeds, {});
    }
  }

  /** Merging keeps the memo invariant, and the write is harmless: when the
      merged mask is already a key, the memo is unchanged. */
  lemma MergeAreasKeepsMemoInv(memo: AdjacencyMemo, seeds: seq<Mask>, areas: seq<ColorArea>, paintedColor: int)
    requires MemoInv(memo, seeds) && LiveKeys(memo, areas)
    ensures MemoInv(MergeAreas(memo, areas, paintedColor).1, seeds)
    ensures OrMasks(areas) in memo ==> MergeAreas(memo, areas, paintedColor).1 == memo
  {
    MergedAdjacencyInherited(memo, seeds, areas);
    var key := OrMasks(areas);
    var memo' := MergeAreas(memo, areas, paintedColor).1;
    assert memo' == memo[key := AdjOf(seeds, key)];
    if key in memo {
      assert memo[key] == AdjOf(seeds, key);
      assert memo' == memo;
    }
  }

  // ---------------------------------------------------------------------------
  // Transition
  // ---------------------------------------------------------------------------

  /** The areas of the child of painting `paintedArea` with `paintedColor`,
      given the painted area's adjacency mask: the areas that do not join the
      merge, in their order, then one area for the merge set, which has the
      union of its masks and the painted colour. */
  function ChildAreas(areas: seq<ColorArea>, adjacency: Mask, paintedArea: ColorArea, paintedColor: int)
    : (r: seq<ColorArea>)
    ensures |r| == |RemainingAreas(adjacency, paintedArea, paintedColor, areas)| + 1
    ensures r[..|r| - 1] == RemainingAreas(adjacency, paintedArea, paintedColor, areas)
    ensures forall a :: a in r[..|r| - 1] <==> a in areas && !JoinsMerge(adjacency, paintedArea, paintedColor, a)
    ensures r[|r| - 1] == ColorArea(OrMasks(AreasToBeMerged(adjacency, paintedArea, paintedColor, areas)), paintedColor)
  {
    var remaining := RemainingAreas(adjacency, paintedArea, paintedColor, areas);
    var merged := NewColorArea(OrMasks(AreasToBeMerged(adjacency, paintedArea, paintedColor, areas)), paintedColor);
    assert (remaining + [merged])[..|remaining|] == remaining;
    remaining + [merged]
  }

  /** The child state: a new state over the child areas. */
  function PaintedChild(originalAreaCount: nat, numberOfColors: int, areas: seq<ColorArea>,
                        adjacency: Mask, paintedArea: ColorArea, paintedColor: int): KamiState
  {
    NewKamiState(originalAreaCount, numberOfColors, ChildAreas(areas, adjacency, paintedArea, paintedColor))
  }

  /** The paint-bucket move, memo included: split, merge, record the merged
      area's adjacency, and build the child state. */
  function TransitionState(p: KamiPuzzle, fromState: KamiState, paintedArea: ColorArea, paintedColor: int)
    : (r: (KamiState, KamiPuzzle))
    requires paintedArea.areaMask in p.adjacencyMasks
    requires LiveKeys(p.adjacencyMasks, fromState.areas)
    ensures r.1 == p.(adjacencyMasks := r.1.adjacencyMasks)
    ensures p.adjacencyMasks.Keys <= r.1.adjacencyMasks.Keys
    ensures LiveKeys(r.1.adjacencyMasks, r.0.areas)
    ensures r.0 == PaintedChild(p.originalAreaCount, p.numberOfColors, fromState.areas,
                                p.adjacencyMasks[paintedArea.areaMask], paintedArea, paintedColor)
  {
    var adjacency := p.adjacencyMasks[paintedArea.areaMask];
    var toMerge := AreasToBeMerged(adjacency, paintedArea, paintedColor, fromState.areas);
    var remaining := RemainingAreas(adjacency, paintedArea, paintedColor, fromState.areas);
    var (merged, memo) := MergeAreas(p.adjacencyMasks, toMerge, paintedColor);
    var child := NewKamiState(p.originalAreaCount, p.numberOfColors, remaining + [merged]);
    assert child.areas == ChildAreas(fromState.areas, adjacency, paintedArea, paintedColor);
    assert forall a :: a in child.areas ==> a in fromState.areas || a == merged;
    (child, p.(adjacencyMasks := memo))
  }

  /** The memo-free reference move: the adjacency of the painted area is its
      inherited adjacency. */
  function Paint(seeds: seq<Mask>, originalAreaCount: nat, numberOfColors: int, areas: seq<ColorArea>,
                 paintedArea: ColorArea, paintedColor: int): KamiState
    requires |seeds| <= MaskBitCount
  {
    PaintedChild(originalAreaCount, numberOfColors, areas, AdjOf(seeds, paintedArea.areaMask), paintedArea, paintedColor)
  }

  /** Under the memo invariant the memo-threaded move yields the reference child
      and keeps the invariant. */
  lemma TransitionMatchesReference(p: KamiPuzzle, seeds: seq<Mask>, fromState: KamiState, paintedArea: ColorArea, paintedColor: int)
    requires MemoInv(p.adjacencyMasks, seeds)
    requires paintedArea.areaMask in p.adjacencyMasks
    requires LiveKeys(p.adjacencyMasks, fromState.areas)
    ensures TransitionState(p, fromState, paintedArea, paintedColor).0 ==
      Paint(seeds, p.originalAreaCount, p.numberOfColors, fromState.areas, paintedArea, paintedColor)
    ensures MemoInv(TransitionState(p, fromState, paintedArea, paintedColor).1.adjacencyMasks, seeds)
  {
    var adjacency := p.adjacencyMasks[paintedArea.areaMask];
    var toMerge := AreasToBeMerged(adjacency, paintedArea, paintedColor, fromState.areas);
    MergeAreasKeepsMemoInv(p.adjacencyMasks, seeds, toMerge, paintedColor);
  }

  // ---------------------------------------------------------------------------
  // Reachable states
  // ---------------------------------------------------------------------------

  /** The moves on one area: every colour in [0, c) except its current one, ascending. */
  function PaintMoves(area: ColorArea, c: int): seq<(ColorArea, int)>
    decreases c
  {
    if c <= 0 then []
    else PaintMoves(area, c - 1) + (if area.color != c - 1 then [(area, c - 1)] else [])
  }

  /** The moves the two nested loops visit: area-major, colours ascending. */
  function Moves(areas: seq<ColorArea>, numberOfColors: int): seq<(ColorArea, int)>
  {
    if |areas| == 0 then []
    else Moves(areas[..|areas| - 1], numberOfColors) + PaintMoves(areas[|areas| - 1], numberOfColors)
  }

  /** Apply the moves in order to one state, threading the memo through. */
  function ApplyMoves(p: KamiPuzzle, s: KamiState, moves: seq<(ColorArea, int)>): (r: (seq<KamiState>, KamiPuzzle))
    requires LiveKeys(p.adjacencyMasks, s.areas)
    requires forall m :: m in moves ==> m.0 in s.areas
    ensures |r.0| == |moves|
    ensures r.1 == p.(adjacencyMasks := r.1.adjacencyMasks)
    ensures p.adjacencyMasks.Keys <= r.1.adjacencyMasks.Keys
    ensures forall i :: 0 <= i < |moves| ==> LiveKeys(r.1.adjacencyMasks, r.0[i].areas)
  {
    if |moves| == 0 then ([], p)
    else
      var k := |moves| - 1;
      assert moves[k] in moves;
      assert forall m :: m in moves[..k] ==> m in moves;
      var earlier := ApplyMoves(p, s, moves[..k]);
      LiveKeysGrow(p.adjacencyMasks, earlier.1.adjacencyMasks, s.areas);
      var last := TransitionState(earlier.1, s, moves[k].0, moves[k].1);
      var children := earlier.0 + [last.0];
      forall i | 0 <= i < |moves|
        ensures LiveKeys(last.1.adjacencyMasks, children[i].areas)
      {
        if i < k {
          LiveKeysGrow(earlier.1.adjacencyMasks, last.1.adjacencyMasks, earlier.0[i].areas);
        }
      }
      (children, last.1)
  }

  lemma LiveKeysGrow(memo: AdjacencyMemo, grown: AdjacencyMemo, areas: seq<ColorArea>)
    requires LiveKeys(memo, areas) && memo.Keys <= grown.Keys
    ensures LiveKeys(grown, areas)
  {
  }

  /** All states one move away, as the source lists them, with the memo threaded through. */
  function GetReachableStates(p: KamiPuzzle, s: KamiState): (r: (seq<KamiState>, KamiPuzzle))
    requires LiveKeys(p.adjacencyMasks, s.areas)
    ensures |r.0| == |Moves(s.areas, p.numberOfColors)|
    ensures r.1 == p.(adjacencyMasks := r.1.adjacencyMasks)
    ensures p.adjacencyMasks.Keys <= r.1.adjacencyMasks.Keys
    ensures forall i :: 0 <= i < |r.0| ==> LiveKeys(r.1.adjacencyMasks, r.0[i].areas)
  {
    var moves := Moves(s.areas, p.numberOfColors);
    MovesMembership(s.areas, p.numberOfColors);
    ApplyMoves(p, s, moves)
  }

  /** The memo-free reference children of a list of moves, in move order. */
  function PaintAll(seeds: seq<Mask>, originalAreaCount: nat, numberOfColors: int, areas: seq<ColorArea>,
                    moves: seq<(ColorArea, int)>): (children: seq<KamiState>)
    requires |seeds| <= MaskBitCount
    ensures |children| == |moves|
  {
    if |moves| == 0 then []
    else
      var k := |moves| - 1;
      PaintAll(seeds, originalAreaCount, numberOfColors, areas, moves[..k])
        + [Paint(seeds, originalAreaCount, numberOfColors, areas, moves[k].0, moves[k].1)]
  }

  /** The memo-free reference list of all children of a state. */
  function Successors(seeds: seq<Mask>, originalAreaCount: nat, numberOfColors: int, s: KamiState): seq<KamiState>
    requires |seeds| <= MaskBitCount
  {
    PaintAll(seeds, originalAreaCount, numberOfColors, s.areas, Moves(s.areas, numberOfColors))
  }

  /** The moves all paint areas of `areas`. */
  ghost predicate MovesFrom(moves: seq<(ColorArea, int)>, areas: seq<ColorArea>)
  {
    forall m :: m in moves ==> m.0 in areas
  }

  lemma MovesFromPrefix(moves: seq<(ColorArea, int)>, areas: seq<ColorArea>)
    requires MovesFrom(moves, areas) && |moves| > 0
    ensures MovesFrom(moves[..|moves| - 1], areas) && moves[|moves| - 1].0 in areas
  {
    assert moves[|moves| - 1] in moves;
    assert forall m :: m in moves[..|moves| - 1] ==> m in moves;
  }

  /** Applying moves keeps the memo invariant. */
  lemma {:induction false} ApplyMovesKeepsMemoInv(p: KamiPuzzle, seeds: seq<Mask>, s: KamiState, moves: seq<(ColorArea, int)>)
    requires MemoInv(p.adjacencyMasks, seeds)
    requires LiveKeys(p.adjacencyMasks, s.areas)
    requires MovesFrom(moves, s.areas)
    ensures MemoInv(ApplyMoves(p, s, moves).1.adjacencyMasks, seeds)
  {
    if |moves| > 0 {
      var k := |moves| - 1;
      MovesFromPrefix(moves, s.areas);
      ApplyMovesKeepsMemoInv(p, seeds, s, moves[..k]);
      var earlier := ApplyMoves(p, s, moves[..k]);
      TransitionMatchesReference(earlier.1, seeds, s, moves[k].0, moves[k].1);
    }
  }

  /** Under the memo invariant, applying moves yields the reference children. */
  lemma {:induction false} ApplyMovesMatchesReference(p: KamiPuzzle, seeds: seq<Mask>, s: KamiState, moves: seq<(ColorArea, int)>)
    requires MemoInv(p.adjacencyMasks, seeds)
    requires LiveKeys(p.adjacencyMasks, s.areas)
    requires MovesFrom(moves, s.areas)
    ensures ApplyMoves(p, s, moves).0 == PaintAll(seeds, p.originalAreaCount, p.numberOfColors, s.areas, moves)
  {
    if |moves| > 0 {
      var k := |moves| - 1;
      MovesFromPrefix(moves, s.areas);
      ApplyMovesMatchesReference(p, seeds, s, moves[..k]);
      ApplyMovesKeepsMemoInv(p, seeds, s, moves[..k]);
      var earlier := ApplyMoves(p, s, moves[..k]);
      TransitionMatchesReference(earlier.1, seeds, s, moves[k].0, moves[k].1);
    }
  }

  /** Under the memo invariant, the memo-threaded list of children is the
      reference list, the invariant survives, and every child's masks are keys
      of the grown memo. */
  lemma GetReachableStatesMatchesReference(p: KamiPuzzle, seeds: seq<Mask>, s: KamiState)
    requires MemoInv(p.adjacencyMasks, seeds)
    requires LiveKeys(p.adjacencyMasks, s.areas)
    ensures GetReachableStates(p, s).0 == Successors(seeds, p.originalAreaCount, p.numberOfColors, s)
    ensures MemoInv(GetReachableStates(p, s).1.adjacencyMasks, seeds)
  {
    MovesMembership(s.areas, p.numberOfColors);
    ApplyMovesMatchesReference(p, seeds, s, Moves(s.areas, p.numberOfColors));
    ApplyMovesKeepsMemoInv(p, seeds, s, Moves(s.areas, p.numberOfColors));
  }

  lemma {:induction false} PaintMovesMembership(area: ColorArea, c: int)
    ensures forall m :: m in PaintMoves(area, c) <==> m.0 == area && 0 <= m.1 < c && m.1 != area.color
    decreases c
  {
    if c > 0 {
      PaintMovesMembership(area, c - 1);
    }
  }

  /** A move is listed exactly when it paints an area of the state a colour in
      [0, n) other than its own. */
  lemma {:induction false} MovesMembership(areas: seq<ColorArea>, n: int)
    ensures forall m :: m in Moves(areas, n) <==> m.0 in areas && 0 <= m.1 < n && m.1 != m.0.color
  {
    if |areas| > 0 {
      var prefix := areas[..|areas| - 1];
      MovesMembership(prefix, n);
      PaintMovesMembership(areas[|areas| - 1], n);
      assert forall a :: a in areas <==> a in prefix || a == areas[|areas| - 1];
    }
  }

  /** With its colour in [0, c) an area gets c - 1 moves: colour j < c - 1 is
      listed at position j, skipping the area's own colour. */
  lemma {:induction false} PaintMovesOrder(area: ColorArea, c: int)
    requires 0 <= area.color < c
    ensures |PaintMoves(area, c)| == c - 1
    ensures forall j :: 0 <= j < c - 1 ==>
      PaintMoves(area, c)[j] == (area, if j < area.color then j else j + 1)
    decreases c
  {
    if c - 1 == area.color {
      PaintMovesBelow(area, c - 1);
    } else {
      PaintMovesOrder(area, c - 1);
    }
  }

  lemma {:induction false} PaintMovesBelow(area: ColorArea, c: int)
    requires 0 <= c <= area.color
    ensures |PaintMoves(area, c)| == c
    ensures forall j :: 0 <= j < c ==> PaintMoves(area, c)[j] == (area, j)
    decreases c
  {
    if c > 0 {
      PaintMovesBelow(area, c - 1);
    }
  }

  /** Position of the j-th move on the i-th area when every area gets n - 1 moves. */
  function MoveIndex(i: nat, j: nat, n: int): int
  {
    i * (n - 1) + j
  }

  /** With colours in [0, n) there are |areas| * (n - 1) moves; the j-th move on
      area i sits at position i * (n - 1) + j and paints colour j, or j + 1 once
      j reaches the area's own colour. */
  lemma {:induction false} MovesOrder(areas: seq<ColorArea>, n: int)
    requires AreaColorsBelow(areas, n)
    ensures |Moves(areas, n)| == |areas| * (n - 1)
    ensures forall i: nat, j: nat :: i < |areas| && j < n - 1 ==>
      0 <= MoveIndex(i, j, n) < |Moves(areas, n)| &&
      Moves(areas, n)[MoveIndex(i, j, n)] == (areas[i], if j < areas[i].color then j else j + 1)
  {
    if |areas| > 0 {
      var k := |areas| - 1;
      var prefix := areas[..k];
      assert AreaColorsBelow(prefix, n) by {
        assert forall a :: a in prefix ==> a in areas;
      }
      MovesOrder(prefix, n);
      assert areas[k] in areas;
      PaintMovesOrder(areas[k], n);
      var before := Moves(prefix, n);
      assert Moves(areas, n) == before + PaintMoves(areas[k], n);
      MulSucc(k, n - 1);
      forall i: nat, j: nat | i < |areas| && j < n - 1
        ensures 0 <= MoveIndex(i, j, n) < |Moves(areas, n)|
        ensures Moves(areas, n)[MoveIndex(i, j, n)] == (areas[i], if j < areas[i].color then j else j + 1)
      {
        MoveIndexSplit(i, j, k, n);
        if i < k {
          assert prefix[i] == areas[i];
        }
      }
    }
  }

  lemma MulSucc(k: int, m: int)
    ensures (k + 1) * m == k * m + m
  {
  }

  lemma MoveIndexSplit(i: nat, j: nat, k: nat, n: int)
    requires i <= k && 0 <= j < n - 1
    ensures 0 <= MoveIndex(i, j, n)
    ensures i < k ==> MoveIndex(i, j, n) < k * (n - 1)
    ensures i == k ==> MoveIndex(i, j, n) == k * (n - 1) + j
  {
    if i < k {
      MulMono(i + 1, k, n - 1);
    }
  }

  // ---------------------------------------------------------------------------
  // Solution test
  // ---------------------------------------------------------------------------

  /** The scan from index i on: every area has colour c. */
  function AllColored(areas: seq<ColorArea>, c: int, i: nat): (r: bool)
    ensures r <==> forall k :: i <= k < |areas| ==> areas[k].color == c
    decreases |areas| - i
  {
    if i >= |areas| then true
    else areas[i].color == c && AllColored(areas, c, i + 1)
  }

  /** A state is solved when at most one area is left, or every area has the first area's colour. */
  function CheckForSolution(s: KamiState): (r: bool)
    ensures r <==> |s.areas| <= 1 || forall i :: 0 <= i < |s.areas| ==> s.areas[i].color == s.areas[0].color
  {
    if |s.areas| <= 1 then true
    else AllColored(s.areas, s.areas[0].color, 1)
  }
}
