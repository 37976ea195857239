/** The state graph of a Kami puzzle: the breadth-first builder run on the
    Kami puzzle interface, with the state's hash as the dictionary key.

    The builder's successor function is the memo-free reference list of
    children, which equals the memo-threaded list the puzzle object hands out
    as long as the memo invariant holds (GetReachableStatesMatchesReference).
    Every state the puzzle produces is a constructed state whose areas
    partition the base regions with colours in [0, n), so its hash lies in
    [0, n^L) and the search ends. */
module KamiGraphs {
  import opened ColorAreas
  import opened KamiStates
  import opened KamiPuzzles
  import opened KamiPartitions
  import opened StateNodes
  import opened StateGraphs

  /** What holds of every state the puzzle produces: it is the constructor's
      state for its own areas (so its hash is the positional hash of its
      colour array), its areas partition the L base regions, and every colour
      is in [0, n). */
  predicate KamiInv(L: nat, n: int, s: KamiState)
  {
    L <= MaskBitCount && s == NewKamiState(L, n, s.areas) && IsPartition(s.areas, L) && AreaColorsBelow(s.areas, n)
  }

  /** The invariant as the predicate the builder takes. */
  function InvFor(L: nat, n: int): KamiState -> bool
  {
    s => KamiInv(L, n, s)
  }

  /** The Kami puzzle seen through the generic puzzle interface. */
  function KamiInterface(startingAreas: seq<ColorArea>, n: int): Puzzle<KamiState>
    requires |startingAreas| <= MaskBitCount
  {
    var seeds := Seeds(startingAreas);
    var L := |startingAreas|;
    Puzzle(NewKamiPuzzle(startingAreas, n).initialState,
           s => Successors(seeds, L, n, s),
           CheckForSolution,
           GetHashCode)
  }

  lemma {:induction false} PowPositive(n: int, e: nat)
    requires 1 <= n
    ensures 1 <= Pow(n, e)
  {
    if e > 0 {
      PowPositive(n, e - 1);
      MulMono(1, n, Pow(n, e - 1));
    }
  }

  /** A move keeps every colour in [0, n) when the painted colour is. */
  lemma ChildColorsBelow(L: nat, n: int, areas: seq<ColorArea>, adjacency: Mask, paintedArea: ColorArea, paintedColor: int)
    requires AreaColorsBelow(areas, n) && 0 <= paintedColor < n
    ensures AreaColorsBelow(PaintedChild(L, n, areas, adjacency, paintedArea, paintedColor).areas, n)
  {
    var child := ChildAreas(areas, adjacency, paintedArea, paintedColor);
    forall a | a in child
      ensures 0 <= a.color < n
    {
      var i :| 0 <= i < |child| && child[i] == a;
      if i < |child| - 1 {
        assert a in child[..|child| - 1];
      }
    }
  }

  /** Every reference child of a move list whose colours are in [0, n) keeps
      the colours in [0, n). */
  lemma {:induction false} PaintAllColorsBelow(seeds: seq<Mask>, L: nat, n: int, areas: seq<ColorArea>,
                                               moves: seq<(ColorArea, int)>)
    requires |seeds| <= MaskBitCount && AreaColorsBelow(areas, n)
    requires forall m :: m in moves ==> 0 <= m.1 < n
    ensures forall c :: c in PaintAll(seeds, L, n, areas, moves) ==> AreaColorsBelow(c.areas, n)
  {
    if |moves| > 0 {
      var k := |moves| - 1;
      assert moves[k] in moves;
      assert forall m :: m in moves[..k] ==> m in moves;
      PaintAllColorsBelow(seeds, L, n, areas, moves[..k]);
      ChildColorsBelow(L, n, areas, AdjOf(seeds, moves[k].0.areaMask), moves[k].0, moves[k].1);
      var before := PaintAll(seeds, L, n, areas, moves[..k]);
      var child := Paint(seeds, L, n, areas, moves[k].0, moves[k].1);
      assert PaintAll(seeds, L, n, areas, moves) == before + [child];
      assert forall c :: c in before + [child] ==> c in before || c == child;
    }
  }

  /** Every reference child is the constructor's state for its own areas. */
  lemma {:induction false} PaintAllConstructed(seeds: seq<Mask>, L: nat, n: int, areas: seq<ColorArea>,
                                               moves: seq<(ColorArea, int)>)
    requires |seeds| <= MaskBitCount
    ensures forall c :: c in PaintAll(seeds, L, n, areas, moves) ==> c == NewKamiState(L, n, c.areas)
  {
    if |moves| > 0 {
      PaintAllConstructed(seeds, L, n, areas, moves[..|moves| - 1]);
    }
  }

  /** The invariant is closed under the puzzle's moves. */
  lemma SuccessorsKeepInv(seeds: seq<Mask>, L: nat, n: int, s: KamiState)
    requires |seeds| <= MaskBitCount && KamiInv(L, n, s)
    ensures forall c :: c in Successors(seeds, L, n, s) ==> KamiInv(L, n, c)
  {
    var moves := Moves(s.areas, n);
    MovesMembership(s.areas, n);
    PaintAllArePartitions(seeds, L, n, s.areas, moves);
    PaintAllColorsBelow(seeds, L, n, s.areas, moves);
    PaintAllConstructed(seeds, L, n, s.areas, moves);
  }

  /** Under the invariant the key lies in [0, n^L). */
  lemma InvKeyInRange(L: nat, n: int, s: KamiState)
    requires 1 <= n && KamiInv(L, n, s)
    ensures 0 <= GetHashCode(s) < Pow(n, L)
  {
  }

  /** With colours in [0, n) the starting state satisfies the invariant. */
  lemma InitialStateInv(startingAreas: seq<ColorArea>, n: int)
    requires |startingAreas| <= MaskBitCount && AreaColorsBelow(startingAreas, n)
    ensures KamiInv(|startingAreas|, n, NewKamiPuzzle(startingAreas, n).initialState)
  {
    var init := NewKamiPuzzle(startingAreas, n).initialState;
    InitialStateIsPartition(startingAreas, n);
    forall a | a in init.areas
      ensures 0 <= a.color < n
    {
      var i :| 0 <= i < |init.areas| && init.areas[i] == a;
      assert startingAreas[i] in startingAreas;
    }
  }

  /** Every successor the interface offers satisfies the invariant. */
  lemma InterfaceKeepsInv(startingAreas: seq<ColorArea>, n: int)
    requires |startingAreas| <= MaskBitCount
    ensures forall s, i :: KamiInv(|startingAreas|, n, s) && 0 <= i < |KamiInterface(startingAreas, n).reachable(s)| ==>
      KamiInv(|startingAreas|, n, KamiInterface(startingAreas, n).reachable(s)[i])
  {
    var pz := KamiInterface(startingAreas, n);
    var seeds := Seeds(startingAreas);
    forall s, i | KamiInv(|startingAreas|, n, s) && 0 <= i < |pz.reachable(s)|
      ensures KamiInv(|startingAreas|, n, pz.reachable(s)[i])
    {
      SuccessorsKeepInv(seeds, |startingAreas|, n, s);
      assert pz.reachable(s) == Successors(seeds, |startingAreas|, n, s);
      assert pz.reachable(s)[i] in Successors(seeds, |startingAreas|, n, s);
    }
  }

  /** Under the invariant the interface's key lies in [0, n^L). */
  lemma InterfaceKeysInRange(startingAreas: seq<ColorArea>, n: int)
    requires |startingAreas| <= MaskBitCount && 1 <= n
    ensures forall s :: KamiInv(|startingAreas|, n, s) ==> 0 <= KamiInterface(startingAreas, n).key(s) < Pow(n, |startingAreas|)
  {
    forall s | KamiInv(|startingAreas|, n, s)
      ensures 0 <= KamiInterface(startingAreas, n).key(s) < Pow(n, |startingAreas|)
    {
      InvKeyInRange(|startingAreas|, n, s);
    }
  }

  /** With colours in [0, n) the starting state satisfies the invariant, which
      every move keeps and which confines the keys to [0, n^L): the keys the
      search can meet are bounded. */
  lemma KamiKeysBounded(startingAreas: seq<ColorArea>, n: int)
    requires |startingAreas| <= MaskBitCount && 1 <= n && AreaColorsBelow(startingAreas, n)
    ensures 1 <= Pow(n, |startingAreas|)
    ensures KeysBounded(KamiInterface(startingAreas, n), InvFor(|startingAreas|, n), Pow(n, |startingAreas|))
  {
    var L := |startingAreas|;
    var pz := KamiInterface(startingAreas, n);
    var inv := InvFor(L, n);
    PowPositive(n, L);
    InitialStateInv(startingAreas, n);
    assert inv(pz.initialState);
    InterfaceKeysInRange(startingAreas, n);
    assert forall s :: inv(s) ==> 0 <= pz.key(s) < Pow(n, L);
    InterfaceKeepsInv(startingAreas, n);
    assert forall s, i :: inv(s) && 0 <= i < |pz.reachable(s)| ==> inv(pz.reachable(s)[i]);
  }

  /** A partition of no regions has no areas, since every area is non-empty. */
  lemma NoRegionsNoAreas(areas: seq<ColorArea>)
    requires IsPartition(areas, 0)
    ensures |areas| == 0
  {
    OrMasksMembership(areas);
  }

  /** On a partition of the L base regions the solution test holds exactly
      when all regions have one colour; with no regions there are no areas. */
  lemma SolvedIffOneRegionColor(L: nat, s: KamiState)
    requires L <= MaskBitCount && IsPartition(s.areas, L)
    ensures CheckForSolution(s) <==> OneRegionColor(s.areas, L)
  {
    if L == 0 {
      NoRegionsNoAreas(s.areas);
    } else {
      SolutionIffOneColor(L, s);
    }
  }

  /** The graph the builder records for a Kami puzzle. Each node is keyed by
      its state's hash, is a partition of the base regions with colours in
      [0, n), and is marked a solution exactly when the whole board has one
      colour. Every child of a node that is not a solution is recorded at most
      one layer deeper, and every node was first recorded from such a parent
      one layer up, so the depth is the length of the shortest move sequence
      reaching the node's key. Every node is dequeued once, in non-decreasing
      depth. */
  method KamiStateGraph(startingAreas: seq<ColorArea>, n: int) returns (graph: Graph<KamiState>, order: seq<int>)
    requires |startingAreas| <= MaskBitCount && 1 <= n && AreaColorsBelow(startingAreas, n)
    ensures Distinct(order) && forall k :: k in order <==> k in graph
    ensures forall i :: 0 <= i < |order| ==> order[i] in graph
    ensures forall i, j :: 0 <= i < j < |order| ==> graph[order[i]].depth <= graph[order[j]].depth
    ensures var init := NewKamiPuzzle(startingAreas, n).initialState;
      init.hashCode in graph && graph[init.hashCode].state == init && graph[init.hashCode].depth == 0
    ensures forall k :: k in graph ==> graph[k].state.hashCode == k && 0 <= k < Pow(n, |startingAreas|)
    ensures forall k :: k in graph ==> KamiInv(|startingAreas|, n, graph[k].state)
    ensures forall k :: k in graph ==>
      (graph[k].nodeType == Solution <==> OneRegionColor(graph[k].state.areas, |startingAreas|)) &&
      graph[k].nodeType != Failure
    ensures Relaxed(KamiInterface(startingAreas, n), graph, graph.Keys)
    ensures Supported(KamiInterface(startingAreas, n), graph, graph.Keys)
  {
    var pz := KamiInterface(startingAreas, n);
    KamiKeysBounded(startingAreas, n);
    graph, order := BuildStateGraph(pz, InvFor(|startingAreas|, n), Pow(n, |startingAreas|));
    forall i | 0 <= i < |order|
      ensures order[i] in graph
    {
      var k := order[i];
      assert k in order;
    }
    forall k | k in graph
      ensures graph[k].nodeType == Solution <==> OneRegionColor(graph[k].state.areas, |startingAreas|)
    {
      SolvedIffOneRegionColor(|startingAreas|, graph[k].state);
    }
  }

  // ---------------------------------------------------------------------------
  // Two mutually adjacent regions, coloured 0 and 1, with two colours
  // ---------------------------------------------------------------------------

  /** Region 0 (colour 0) and region 1 (colour 1), each adjacent to the other. */
  function TwoRegions(): (startingAreas: seq<ColorArea>)
    ensures |startingAreas| == 2 && AreaColorsBelow(startingAreas, 2)
  {
    [ColorArea({1}, 0), ColorArea({0}, 1)]
  }

  /** Two singleton areas coloured 0 and 1: colour array [0, 1], hash 1. */
  lemma SingletonsState(areas: seq<ColorArea>)
    requires areas == [ColorArea({0}, 0), ColorArea({1}, 1)]
    ensures NewKamiState(2, 2, areas) == KamiState(areas, 1)
  {
    assert RegionColor(areas, 0) == 0 by {
      assert areas[..1] == [ColorArea({0}, 0)];
    }
    assert RegionColor(areas, 1) == 1;
    assert ColorArray(2, areas) == [0, 1];
    TwoDigitHash(0, 1);
  }

  /** The starting state: two singleton areas, colour array [0, 1], hash 1. */
  lemma TwoRegionStart()
    ensures NewKamiPuzzle(TwoRegions(), 2).initialState == KamiState([ColorArea({0}, 0), ColorArea({1}, 1)], 1)
  {
    var init := NewKamiPuzzle(TwoRegions(), 2).initialState;
    assert init.areas[0] == ColorArea({0}, 0) && init.areas[1] == ColorArea({1}, 1);
    assert init.areas == [ColorArea({0}, 0), ColorArea({1}, 1)];
    SingletonsState(init.areas);
  }

  /** When every area joins the merge, the pass keeps all of them in order. */
  lemma {:induction false} AllJoinMergeAll(adjacency: Mask, paintedArea: ColorArea, paintedColor: int, areas: seq<ColorArea>)
    requires forall i :: 0 <= i < |areas| ==> JoinsMerge(adjacency, paintedArea, paintedColor, areas[i])
    ensures AreasToBeMerged(adjacency, paintedArea, paintedColor, areas) == areas
  {
    if |areas| > 0 {
      var prefix := areas[..|areas| - 1];
      assert forall i :: 0 <= i < |prefix| ==> prefix[i] == areas[i];
      AllJoinMergeAll(adjacency, paintedArea, paintedColor, prefix);
      assert prefix + [areas[|areas| - 1]] == areas;
    }
  }

  /** When every area joins the merge, the move leaves one area: the union of
      all masks, in the painted colour. */
  lemma AllJoinOneArea(adjacency: Mask, paintedArea: ColorArea, paintedColor: int, areas: seq<ColorArea>)
    requires forall i :: 0 <= i < |areas| ==> JoinsMerge(adjacency, paintedArea, paintedColor, areas[i])
    ensures ChildAreas(areas, adjacency, paintedArea, paintedColor) == [ColorArea(OrMasks(areas), paintedColor)]
  {
    AllJoinMergeAll(adjacency, paintedArea, paintedColor, areas);
    SplitIsPermutation(adjacency, paintedArea, paintedColor, areas);
  }

  /** The hash of a two-region colour array [x, y] with two colours. */
  lemma TwoDigitHash(x: int, y: int)
    ensures PositionalSum([x, y], 2) == 2 * x + y
  {
    assert Pow(2, 1) == 2 && Pow(2, 0) == 1;
    assert [y][1..] == [];
    assert PositionalSum([y], 2) == y * Pow(2, 0) + PositionalSum([], 2);
    assert [x, y][1..] == [y];
    assert PositionalSum([x, y], 2) == x * Pow(2, 1) + PositionalSum([y], 2);
  }

  /** The whole board as one area of colour c: colour array [c, c], hash 3c. */
  lemma WholeBoardState(c: int)
    ensures NewKamiState(2, 2, [ColorArea({0, 1}, c)]) == KamiState([ColorArea({0, 1}, c)], 3 * c)
  {
    var areas := [ColorArea({0, 1}, c)];
    assert RegionColor(areas, 0) == c && RegionColor(areas, 1) == c;
    assert ColorArray(2, areas) == [c, c];
    TwoDigitHash(c, c);
  }

  /** The two moves of the starting state: region 0 painted 1, region 1 painted 0. */
  lemma TwoRegionMoves()
    ensures Moves([ColorArea({0}, 0), ColorArea({1}, 1)], 2) == [(ColorArea({0}, 0), 1), (ColorArea({1}, 1), 0)]
  {
    var a0, a1 := ColorArea({0}, 0), ColorArea({1}, 1);
    assert PaintMoves(a0, 1) == [];
    assert PaintMoves(a0, 2) == [(a0, 1)];
    assert PaintMoves(a1, 1) == [(a1, 0)];
    assert PaintMoves(a1, 2) == [(a1, 0)];
    assert [a0, a1][..1] == [a0];
    assert Moves([a0], 2) == [(a0, 1)] by {
      assert [a0][..0] == [];
    }
  }

  /** Either move merges both regions, since each is adjacent to the other and
      one of them already has the painted colour. */
  lemma TwoRegionPaint(seeds: seq<Mask>, areas: seq<ColorArea>, i: nat, c: int)
    requires seeds == Seeds(TwoRegions()) && areas == [ColorArea({0}, 0), ColorArea({1}, 1)]
    requires i < 2 && c == 1 - i
    ensures Paint(seeds, 2, 2, areas, areas[i], c) == KamiState([ColorArea({0, 1}, c)], 3 * c)
  {
    AdjOfBit(seeds, i);
    assert Bit(i) == areas[i].areaMask;
    var adjacency := AdjOf(seeds, areas[i].areaMask);
    assert adjacency == {c};
    assert forall k :: 0 <= k < |areas| ==> JoinsMerge(adjacency, areas[i], c, areas[k]);
    AllJoinOneArea(adjacency, areas[i], c, areas);
    assert OrMasks(areas) == {0, 1} by {
      assert areas[..1] == [areas[0]];
      assert OrMasks([areas[0]]) == {0} by {
        assert |[areas[0]][..0]| == 0;
      }
    }
    WholeBoardState(c);
  }

  /** Two moves give their two children, in order. */
  lemma PaintAllPair(seeds: seq<Mask>, L: nat, n: int, areas: seq<ColorArea>, m0: (ColorArea, int), m1: (ColorArea, int))
    requires |seeds| <= MaskBitCount
    ensures PaintAll(seeds, L, n, areas, [m0, m1])
      == [Paint(seeds, L, n, areas, m0.0, m0.1), Paint(seeds, L, n, areas, m1.0, m1.1)]
  {
    assert [m0, m1][..1] == [m0];
    assert PaintAll(seeds, L, n, areas, [m0]) == [Paint(seeds, L, n, areas, m0.0, m0.1)] by {
      assert |[m0][..0]| == 0;
    }
  }

  lemma TwoRegionPaintAll(seeds: seq<Mask>, areas: seq<ColorArea>)
    requires seeds == Seeds(TwoRegions()) && areas == [ColorArea({0}, 0), ColorArea({1}, 1)]
    ensures PaintAll(seeds, 2, 2, areas, [(areas[0], 1), (areas[1], 0)])
        == [KamiState([ColorArea({0, 1}, 1)], 3), KamiState([ColorArea({0, 1}, 0)], 0)]
  {
    PaintAllPair(seeds, 2, 2, areas, (areas[0], 1), (areas[1], 0));
    TwoRegionPaint(seeds, areas, 0, 1);
    TwoRegionPaint(seeds, areas, 1, 0);
  }

  /** The starting state has exactly two children, each the whole board in one
      colour: colour 1 (hash 3) and colour 0 (hash 0). */
  lemma TwoRegionSuccessors()
    ensures Successors(Seeds(TwoRegions()), 2, 2, NewKamiPuzzle(TwoRegions(), 2).initialState)
      == [KamiState([ColorArea({0, 1}, 1)], 3), KamiState([ColorArea({0, 1}, 0)], 0)]
  {
    var init := NewKamiPuzzle(TwoRegions(), 2).initialState;
    TwoRegionStart();
    assert init.areas == [ColorArea({0}, 0), ColorArea({1}, 1)];
    TwoRegionMoves();
    TwoRegionPaintAll(Seeds(TwoRegions()), init.areas);
  }

  /** Under the invariant the hash pins down the colour array: a state whose
      hash is the positional hash of an array of colours in [0, n) has that
      colour array. */
  lemma HashFixesColoring(L: nat, n: int, s: KamiState, colors: seq<int>)
    requires 1 <= n && KamiInv(L, n, s)
    requires |colors| == L && ColorsBelow(colors, n) && s.hashCode == PositionalSum(colors, n)
    ensures ColorArray(L, s.areas) == colors
  {
    var mine := ColorArray(L, s.areas);
    ColorArrayInRange(L, s.areas, n);
    HashFoldIsPositionalSum(mine, n);
    HashFoldIsPositionalSum(colors, n);
    HashFoldInjective(mine, colors, n);
  }

  /** Any two-region state with hash 3c (c a colour) is the whole board in
      colour c, and so is solved. */
  lemma WholeBoardSolved(s: KamiState, c: int)
    requires KamiInv(2, 2, s) && 0 <= c < 2 && s.hashCode == 3 * c
    ensures ColorArray(2, s.areas) == [c, c]
    ensures CheckForSolution(s)
  {
    TwoDigitHash(c, c);
    HashFixesColoring(2, 2, s, [c, c]);
    assert RegionColor(s.areas, 0) == c && RegionColor(s.areas, 1) == c by {
      assert ColorArray(2, s.areas)[0] == c && ColorArray(2, s.areas)[1] == c;
    }
    SolvedIffOneRegionColor(2, s);
  }

  /** The start has key 1, is not solved, and offers keys 3 and 0. */
  ghost predicate StartOffers(pz: Puzzle<KamiState>)
  {
    pz.key(pz.initialState) == 1 && !pz.isSolution(pz.initialState) && ChildKeys(pz, pz.initialState) == [3, 0]
  }

  /** A state of the two-region puzzle with key 3 or 0 is solved. */
  ghost predicate KeysThreeAndZeroSolved(pz: Puzzle<KamiState>)
  {
    forall s :: KamiInv(2, 2, s) && (pz.key(s) == 3 || pz.key(s) == 0) ==> pz.isSolution(s)
  }

  lemma PairIsDisplay(ks: seq<int>, a: int, b: int)
    requires |ks| == 2 && ks[0] == a && ks[1] == b
    ensures ks == [a, b]
  {
  }

  lemma TwoRegionStartOffers(pz: Puzzle<KamiState>)
    requires pz == KamiInterface(TwoRegions(), 2)
    ensures StartOffers(pz)
  {
    TwoRegionStart();
    TwoRegionSuccessors();
    var init := pz.initialState;
    assert pz.reachable(init) == Successors(Seeds(TwoRegions()), 2, 2, init);
    var ks := ChildKeys(pz, init);
    assert |ks| == 2 && ks[0] == 3 && ks[1] == 0;
    PairIsDisplay(ks, 3, 0);
    assert init.areas[0].color != init.areas[1].color;
    assert !pz.isSolution(init);
    assert pz.key(init) == 1;
  }

  lemma TwoRegionKeysSolved(pz: Puzzle<KamiState>)
    requires pz == KamiInterface(TwoRegions(), 2)
    ensures KeysThreeAndZeroSolved(pz)
  {
    forall s | KamiInv(2, 2, s) && (pz.key(s) == 3 || pz.key(s) == 0)
      ensures pz.isSolution(s)
    {
      WholeBoardSolved(s, s.hashCode / 3);
    }
  }

  /** The recorded nodes with keys 3 and 0 are solved. */
  ghost predicate ChildrenSolved(pz: Puzzle<KamiState>, graph: Graph<KamiState>)
  {
    forall p :: p in graph && (p == 3 || p == 0) ==> pz.isSolution(graph[p].state)
  }

  lemma RecordedChildrenSolved(pz: Puzzle<KamiState>, graph: Graph<KamiState>)
    requires KeysThreeAndZeroSolved(pz)
    requires forall k :: k in graph ==> pz.key(graph[k].state) == k && KamiInv(2, 2, graph[k].state)
    ensures ChildrenSolved(pz, graph)
  {
  }

  /** No edge leaves a recorded child of the start. */
  lemma NoEdgeFromChildren(pz: Puzzle<KamiState>, graph: Graph<KamiState>, p: int, k: int)
    requires ChildrenSolved(pz, graph) && (p == 3 || p == 0)
    ensures !Edge(pz, graph, p, k)
  {
  }

  /** Every walk in the two-region graph stops after at most one move, at a
      child of the start. */
  lemma WalksAreShort(pz: Puzzle<KamiState>, graph: Graph<KamiState>, path: seq<int>, k: int)
    requires StartOffers(pz) && ChildrenSolved(pz, graph)
    requires 1 in graph && graph[1].state == pz.initialState
    requires WalkTo(pz, graph, path, k)
    ensures |path| <= 2
    ensures |path| == 1 ==> k == 1
    ensures |path| == 2 ==> k == 3 || k == 0
  {
    if |path| >= 2 {
      assert Edge(pz, graph, path[0], path[1]);
      assert path[1] in [3, 0];
      NoEdgeFromChildren(pz, graph, path[1], path[if |path| >= 3 then 2 else 1]);
    }
  }

  /** Over a puzzle of this shape the builder's graph has exactly three nodes:
      the start at depth 0 and its two children at depth 1. */
  lemma TwoRegionGraphShape(pz: Puzzle<KamiState>, graph: Graph<KamiState>)
    requires StartOffers(pz) && ChildrenSolved(pz, graph)
    requires 1 in graph && graph[1].state == pz.initialState && graph[1].depth == 0
    requires Relaxed(pz, graph, graph.Keys) && Supported(pz, graph, graph.Keys)
    ensures graph.Keys == {0, 1, 3}
    ensures graph[3].depth == 1 && graph[0].depth == 1
  {
    assert ChildKeys(pz, graph[1].state)[0] == 3 && ChildKeys(pz, graph[1].state)[1] == 0;
    assert Edge(pz, graph, 1, 3) && Edge(pz, graph, 1, 0);
    forall k | k in graph
      ensures k == 0 || k == 1 || k == 3
      ensures k != 1 ==> graph[k].depth == 1
    {
      DepthIsDistance(pz, graph, k);
      var path :| WalkTo(pz, graph, path, k) && |path| - 1 == graph[k].depth;
      WalksAreShort(pz, graph, path, k);
    }
  }

  /** The two-region puzzle's state graph: three nodes. The start (hash 1) is
      at depth 0 and not a solution; painting either region merges the board
      into one area, giving the two whole-board colourings (hash 3 for colour
      1, hash 0 for colour 0), both solutions at depth 1. */
  method TwoRegionStateGraph() returns (graph: Graph<KamiState>, order: seq<int>)
    ensures graph.Keys == {0, 1, 3}
    ensures graph[1].state == KamiState([ColorArea({0}, 0), ColorArea({1}, 1)], 1)
    ensures graph[1].depth == 0 && graph[1].nodeType == Normal
    ensures graph[3].depth == 1 && graph[3].nodeType == Solution && ColorArray(2, graph[3].state.areas) == [1, 1]
    ensures graph[0].depth == 1 && graph[0].nodeType == Solution && ColorArray(2, graph[0].state.areas) == [0, 0]
  {
    graph, order := KamiStateGraph(TwoRegions(), 2);
    var pz := KamiInterface(TwoRegions(), 2);
    TwoRegionStart();
    TwoRegionStartOffers(pz);
    TwoRegionKeysSolved(pz);
    RecordedChildrenSolved(pz, graph);
    TwoRegionGraphShape(pz, graph);
    WholeBoardSolved(graph[3].state, 1);
    SolvedIffOneRegionColor(2, graph[3].state);
    WholeBoardSolved(graph[0].state, 0);
    SolvedIffOneRegionColor(2, graph[0].state);
    SolvedIffOneRegionColor(2, graph[1].state);
  }

  // ---------------------------------------------------------------------------
  // Equal states need not have equal successors
  // ---------------------------------------------------------------------------

  /** Three regions in a line: region 1 touches regions 0 and 2; regions 0
      and 1 start in colour 0, region 2 in colour 1. */
  function LineOfThree(): (startingAreas: seq<ColorArea>)
    ensures |startingAreas| == 3 && AreaColorsBelow(startingAreas, 2)
  {
    [ColorArea({1}, 0), ColorArea({0, 2}, 0), ColorArea({1}, 1)]
  }

  /** The starting state of the line: three singleton areas. */
  lemma LineStart()
    ensures NewKamiPuzzle(LineOfThree(), 2).initialState.areas == [ColorArea({0}, 0), ColorArea({1}, 0), ColorArea({2}, 1)]
  {
    var init := NewKamiPuzzle(LineOfThree(), 2).initialState;
    assert init.areas[0] == ColorArea({0}, 0) && init.areas[1] == ColorArea({1}, 0) && init.areas[2] == ColorArea({2}, 1);
  }

  /** The adjacency inherited by region 0 alone is region 1. */
  lemma LineAdjacencyOfZero(seeds: seq<Mask>)
    requires seeds == Seeds(LineOfThree())
    ensures AdjOf(seeds, {0}) == {1}
  {
    assert seeds == [{1}, {0, 2}, {1}];
    assert seeds[..2] == [{1}, {0, 2}] && seeds[..2][..1] == [{1}] && [{1}][..0] == [];
    assert AdjOf([{1}], {0}) == {1};
    assert AdjOf([{1}, {0, 2}], {0}) == {1};
  }

  /** Appending an area appends it to the list with its answer. */
  lemma SplitSnoc(adjacency: Mask, paintedArea: ColorArea, paintedColor: int, areas: seq<ColorArea>, x: ColorArea, toMerge: bool)
    ensures SplitAreas(adjacency, paintedArea, paintedColor, areas + [x], toMerge)
      == SplitAreas(adjacency, paintedArea, paintedColor, areas, toMerge)
       + (if JoinsMerge(adjacency, paintedArea, paintedColor, x) == toMerge then [x] else [])
  {
    assert (areas + [x])[..|areas|] == areas;
  }

  /** The split of a three-area list: each list keeps the areas with its
      answer, in order. */
  lemma SplitThree(adjacency: Mask, paintedArea: ColorArea, paintedColor: int, a: ColorArea, b: ColorArea, c: ColorArea, toMerge: bool)
    ensures SplitAreas(adjacency, paintedArea, paintedColor, [a, b, c], toMerge)
      == (if JoinsMerge(adjacency, paintedArea, paintedColor, a) == toMerge then [a] else [])
       + (if JoinsMerge(adjacency, paintedArea, paintedColor, b) == toMerge then [b] else [])
       + (if JoinsMerge(adjacency, paintedArea, paintedColor, c) == toMerge then [c] else [])
  {
    SplitSnoc(adjacency, paintedArea, paintedColor, [], a, toMerge);
    SplitSnoc(adjacency, paintedArea, paintedColor, [a], b, toMerge);
    SplitSnoc(adjacency, paintedArea, paintedColor, [a, b], c, toMerge);
    assert [] + [a] == [a] && [a] + [b] == [a, b] && [a, b] + [c] == [a, b, c];
  }

  /** Both repaints are moves the search offers. */
  lemma LineRepaintsAreMoves(start: seq<ColorArea>, mid: seq<ColorArea>)
    requires start == [ColorArea({0}, 0), ColorArea({1}, 0), ColorArea({2}, 1)]
    requires mid == [ColorArea({1}, 0), ColorArea({2}, 1), ColorArea({0}, 1)]
    ensures (ColorArea({0}, 0), 1) in Moves(start, 2)
    ensures (ColorArea({0}, 1), 0) in Moves(mid, 2)
  {
    MovesMembership(start, 2);
    assert start[0] == ColorArea({0}, 0);
    MovesMembership(mid, 2);
    assert mid[2] == ColorArea({0}, 1);
  }

  /** Painting region 0 of the starting areas with colour 1 merges nothing
      else: region 1 keeps colour 0. */
  lemma LineFirstPaint(seeds: seq<Mask>, start: seq<ColorArea>)
    requires seeds == Seeds(LineOfThree())
    requires start == [ColorArea({0}, 0), ColorArea({1}, 0), ColorArea({2}, 1)]
    ensures Paint(seeds, 3, 2, start, ColorArea({0}, 0), 1).areas == [ColorArea({1}, 0), ColorArea({2}, 1), ColorArea({0}, 1)]
  {
    LineAdjacencyOfZero(seeds);
    var painted := ColorArea({0}, 0);
    assert JoinsMerge({1}, painted, 1, start[0]);
    assert !JoinsMerge({1}, painted, 1, start[1]) by {
      assert 1 in start[1].areaMask && 1 !in painted.areaMask;
    }
    assert !JoinsMerge({1}, painted, 1, start[2]) by {
      assert {1} * {2} == {};
      assert 2 in start[2].areaMask && 2 !in painted.areaMask;
    }
    SplitThree({1}, painted, 1, start[0], start[1], start[2], true);
    SplitThree({1}, painted, 1, start[0], start[1], start[2], false);
    assert AreasToBeMerged({1}, painted, 1, start) == [painted];
    assert RemainingAreas({1}, painted, 1, start) == [start[1], start[2]];
    assert OrMasks([painted]) == {0} by {
      assert [painted][..0] == [];
    }
  }

  /** Painting region 0 back with colour 0 merges it with region 1. */
  lemma LineSecondPaint(seeds: seq<Mask>, mid: seq<ColorArea>)
    requires seeds == Seeds(LineOfThree())
    requires mid == [ColorArea({1}, 0), ColorArea({2}, 1), ColorArea({0}, 1)]
    ensures Paint(seeds, 3, 2, mid, ColorArea({0}, 1), 0).areas == [ColorArea({2}, 1), ColorArea({0, 1}, 0)]
  {
    LineAdjacencyOfZero(seeds);
    var painted := ColorArea({0}, 1);
    assert JoinsMerge({1}, painted, 0, mid[0]) by {
      assert 1 in {1} * mid[0].areaMask;
    }
    assert !JoinsMerge({1}, painted, 0, mid[1]) by {
      assert {1} * {2} == {};
      assert 2 in mid[1].areaMask && 2 !in painted.areaMask;
    }
    assert JoinsMerge({1}, painted, 0, mid[2]);
    SplitThree({1}, painted, 0, mid[0], mid[1], mid[2], true);
    SplitThree({1}, painted, 0, mid[0], mid[1], mid[2], false);
    assert AreasToBeMerged({1}, painted, 0, mid) == [mid[0], mid[2]];
    assert RemainingAreas({1}, painted, 0, mid) == [mid[1]];
    assert OrMasks([mid[0], mid[2]]) == {0, 1} by {
      assert [mid[0], mid[2]][..1] == [mid[0]] && [mid[0]][..0] == [];
      assert OrMasks([mid[0]]) == {1};
    }
  }

  /** Both area lists colour regions 0 and 1 with 0 and region 2 with 1. */
  lemma LineColorings(a: seq<ColorArea>, b: seq<ColorArea>)
    requires a == [ColorArea({0}, 0), ColorArea({1}, 0), ColorArea({2}, 1)]
    requires b == [ColorArea({2}, 1), ColorArea({0, 1}, 0)]
    ensures ColorArray(3, a) == [0, 0, 1] && ColorArray(3, b) == [0, 0, 1]
  {
    RegionColorIsLastCover(a, 0, 0);
    RegionColorIsLastCover(a, 1, 1);
    RegionColorIsLastCover(a, 2, 2);
    RegionColorIsLastCover(b, 0, 1);
    RegionColorIsLastCover(b, 1, 1);
    RegionColorIsLastCover(b, 2, 0);
  }

  /** The two-area list covers the three regions without overlap. */
  lemma LineMergedIsPartition(b: seq<ColorArea>)
    requires b == [ColorArea({2}, 1), ColorArea({0, 1}, 0)]
    ensures IsPartition(b, 3)
  {
    assert b[..1] == [ColorArea({2}, 1)] && b[..1][..0] == [];
    assert OrMasks(b[..1]) == {2};
    assert OrMasks(b) == {2} + {0, 1} == {0, 1, 2};
    assert FullMask(3) == {0, 1, 2};
  }

  /** Every area has a move per other colour: three moves for three areas,
      two for two. */
  lemma LineSuccessorCounts(seeds: seq<Mask>, a: seq<ColorArea>, b: seq<ColorArea>)
    requires seeds == Seeds(LineOfThree())
    requires a == [ColorArea({0}, 0), ColorArea({1}, 0), ColorArea({2}, 1)]
    requires b == [ColorArea({2}, 1), ColorArea({0, 1}, 0)]
    ensures |Successors(seeds, 3, 2, NewKamiState(3, 2, a))| == 3
    ensures |Successors(seeds, 3, 2, NewKamiState(3, 2, b))| == 2
  {
    MovesOrder(a, 2);
    MovesOrder(b, 2);
  }

  /** Two states that compare equal need not have the same successors. From
      the line's start, painting region 0 with 1 and back with 0 gives a list
      of two areas with the start's colouring: the states are equal, both are
      partitions, yet the start has three successors and the repainted board
      two, since region 0 and region 1 are now one area. The search keeps
      whichever it records first. */
  lemma SameColoringDifferentSuccessors(seeds: seq<Mask>, a: seq<ColorArea>, b: seq<ColorArea>)
    requires seeds == Seeds(LineOfThree())
    requires a == [ColorArea({0}, 0), ColorArea({1}, 0), ColorArea({2}, 1)]
    requires b == [ColorArea({2}, 1), ColorArea({0, 1}, 0)]
    ensures NewKamiPuzzle(LineOfThree(), 2).initialState.areas == a
    ensures (ColorArea({0}, 0), 1) in Moves(a, 2)
    ensures (ColorArea({0}, 1), 0) in Moves(Paint(seeds, 3, 2, a, ColorArea({0}, 0), 1).areas, 2)
    ensures b == Paint(seeds, 3, 2, Paint(seeds, 3, 2, a, ColorArea({0}, 0), 1).areas, ColorArea({0}, 1), 0).areas
    ensures IsPartition(a, 3) && IsPartition(b, 3)
    ensures StateEquals(NewKamiState(3, 2, a), NewKamiState(3, 2, b))
    ensures |Successors(seeds, 3, 2, NewKamiState(3, 2, a))| != |Successors(seeds, 3, 2, NewKamiState(3, 2, b))|
  {
    var mid := [ColorArea({1}, 0), ColorArea({2}, 1), ColorArea({0}, 1)];
    LineStart();
    InitialStateIsPartition(LineOfThree(), 2);
    LineRepaintsAreMoves(a, mid);
    LineFirstPaint(seeds, a);
    LineSecondPaint(seeds, mid);
    LineMergedIsPartition(b);
    LineColorings(a, b);
    LineSuccessorCounts(seeds, a, b);
  }
}
