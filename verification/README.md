# PuzzleGrapher core in Dafny

PuzzleGrapher builds the state graph of a puzzle by breadth-first search. It
starts from the puzzle's initial state and asks the puzzle for the states one
move away. It records each state the first time it is seen, at one layer deeper
than the state it came from. A state that solves the puzzle is marked and not
expanded. States are compared by their hash code.

The puzzle modelled here is Kami. The board is a set of base regions, at most
32, each kept as one bit of an unsigned mask. A state is a list of coloured
super-areas. Painting a super-area a new colour merges it with every adjacent
super-area that already has that colour. A memo maps an inclusion mask to its
adjacency mask. It is seeded with the base regions and gains an entry for
every merged area. A state's hash is computed in two steps:

1. give every base region the colour of the last super-area covering it;
2. read those colours as a number in base "number of colours".

A state is solved when all its super-areas have one colour.

Modules:

- `ColorAreas` (ColorArea.dfy) holds masks and coloured areas. A mask is
  modelled as the set of its set bit positions, so OR is union and a non-zero
  AND is overlap.
- `KamiStates` (KamiState.dfy) builds the colour array and the hash, and
  defines state equality.
- `KamiHash32` (KamiHash32.dfy) is the hash loop with the 32-bit wrap-around
  of the loop as written (see Findings).
- `KamiPuzzles` (KamiPuzzle.dfy) holds the constructor and the adjacency memo.
  It covers the transition (split, merge, memo update), the successor list and
  the solution test. It also gives a memo-free reference transition and proves
  the two agree.
- `KamiPartitions` (KamiPartition.dfy) proves that the super-areas always
  partition the board. On a partition, the solution test means "every base
  region has one colour".
- `StateNodes` (StateNode.dfy) is the graph node.
- `StateGraphs` (StateGraph.dfy) is the breadth-first builder. It is generic
  over a puzzle given as its initial state, successor function, solution test
  and key. It proves termination, first-seen recording, the solution marking,
  layer order, and that every recorded depth is the length of a shortest walk
  in the recorded graph.
- `KamiGraphs` (KamiGraph.dfy) applies the builder to Kami. It bounds the keys
  by n^L for n colours and L base regions. It also works out the complete graph
  of a two-region, two-colour board.

## Model

| member | source | states |
|---|---|---|
| ColorAreas.NewColorArea | KamiExample/ColorArea.cs:17-21 | the constructor stores the given mask and colour unchanged |
| ColorAreas.AreaEquals | KamiExample/ColorArea.cs:23-32 | two areas are equal exactly when both colour and mask agree, so area equality is value equality |
| ColorAreas.AreaEqualsIsEquivalence | KamiExample/ColorArea.cs:23-32 | area equality is reflexive, symmetric and transitive |
| ColorAreas.OrMasksMembership | KamiExample/KamiPuzzle.cs:145-149 | the OR of the areas' masks contains every area's mask, and each of its bits comes from some area |
| KamiStates.RegionColorIsLastCover | KamiState.cs:25-35 | a base region gets the colour of the last area in the list whose mask covers it |
| KamiStates.RegionColorUncovered | KamiState.cs:25-35 | a base region no area covers keeps the array's default colour 0 |
| KamiStates.RegionColorInRange | KamiState.cs:25-35 | with area colours in [0, n), every region colour is in [0, n) |
| KamiStates.ColorArrayInRange | KamiState.cs:25-35 | with area colours in [0, n), the whole colour array has colours in [0, n) |
| KamiStates.BuildColorArray | KamiState.cs:25-35 | the nested loop yields an array of one entry per base region, each the region's last-cover colour |
| KamiStates.HashFoldIsPositionalSum | KamiState.cs:39-44 | the multiply-add loop computes the sum of state[i] * n^(L-1-i) |
| KamiStates.HashFoldBounds | KamiState.cs:39-44 | with colours in [0, n) the hash lies in [0, n^L) |
| KamiStates.HashFoldInjective | KamiState.cs:39-44 | with colours in [0, n), different colour arrays of one length get different hashes, so the hash identifies the colouring |
| KamiStates.ComputeHashCode | KamiState.cs:39-45 | the loop's result is the positional sum, and lies in [0, n^L) when colours are in [0, n) |
| KamiStates.NewKamiState | KamiState.cs:18-46 | the state keeps the given areas, its hash is the positional sum of its colour array, and that hash is in [0, n^L) |
| KamiStates.StateEqualsIsEquivalence | KamiState.cs:48-64 | state equality is reflexive, symmetric and transitive |
| KamiStates.StateEqualsIffSameColoring | KamiState.cs:18-64 | with colours in [0, n), two states are equal if and only if they colour every base region the same |
| KamiStates.HashIgnoresHighBits | KamiState.cs:28-33 | mask bits at or above the base-region count do not change the hash |
| KamiStates.RegionColorIgnoresHighBits | KamiState.cs:28-33 | a region's colour depends only on the mask bits below the base-region count |
| KamiHash32.Wrap32 | KamiState.cs:42-43 | the 32-bit result lies in the signed 32-bit range and is congruent to the exact value modulo 2^32 |
| KamiHash32.ComputeHashCode32 | KamiState.cs:39-45 | the loop on 32-bit integers computes the wrapped fold and stays in the signed 32-bit range |
| KamiHash32.NoWrapBelowTwoTo31 | KamiState.cs:39-44 | while the exact hash is below 2^31, the 32-bit loop agrees with it |
| KamiHash32.LeadingOneWraps | KamiState.cs:39-44 | with 4 colours and 17 regions, the colouring [1, 0, ..., 0] has exact hash 2^32 and 32-bit hash 0 |
| KamiHash32.HashWrapCollision | KamiState.cs:39-44 | two different colourings with colours in [0, 4) have different exact hashes but equal 32-bit hashes |
| KamiPuzzles.AdjOfMembership | KamiExample/KamiPuzzle.cs:143-152 | a merged area's inherited adjacency holds exactly the regions adjacent to some base region inside it |
| KamiPuzzles.AdjOfBit | KamiExample/KamiPuzzle.cs:33 | the adjacency inherited by the single base region i is that region's seeded adjacency mask |
| KamiPuzzles.AdjOfOr | KamiExample/KamiPuzzle.cs:149-150 | the adjacency of a union of masks is the union of their adjacencies |
| KamiPuzzles.SeedLoop | KamiExample/KamiPuzzle.cs:29-34 | after k steps, area i is bit i with starting colour i, and the memo maps exactly bits 0..k-1 to their starting masks |
| KamiPuzzles.NewKamiPuzzle | KamiExample/KamiPuzzle.cs:22-40 | the puzzle keeps colour count and region count; its initial state has one single-bit area per starting area with that area's colour and is built by the state constructor; the memo holds exactly the seeded bits and is consistent |
| KamiPuzzles.SeedMemoInv | KamiExample/KamiPuzzle.cs:29-34 | the seeded memo maps every key to the adjacency its base regions inherit |
| KamiPuzzles.TestAdjacencyMeaning | KamiExample/KamiPuzzle.cs:138-141 | with a consistent memo, two areas are adjacent if and only if some base region of the first has a seed adjacency overlapping the second |
| KamiPuzzles.SplitAreas | KamiExample/KamiPuzzle.cs:119-131 | an area goes to the merge list exactly when it is the painted area or an adjacent area of the painted colour, and to the remaining list otherwise |
| KamiPuzzles.SplitIsPermutation | KamiExample/KamiPuzzle.cs:119-131 | the merge list and the remaining list together are a permutation of the state's areas |
| KamiPuzzles.MergeAreas | KamiExample/KamiPuzzle.cs:143-154 | the merged area has the painted colour and the OR of the masks; the memo gains its key and keeps every other entry |
| KamiPuzzles.MergedAdjacencyInherited | KamiExample/KamiPuzzle.cs:143-151 | the OR of the memo entries of the merged areas is the adjacency their union inherits from the seeds |
| KamiPuzzles.MergeAreasKeepsMemoInv | KamiExample/KamiPuzzle.cs:152 | the memo overwrite keeps the memo consistent, and rewriting a key that is already present changes nothing |
| KamiPuzzles.ChildAreas | KamiExample/KamiPuzzle.cs:119-133 | the child is exactly the remaining list, in its order, followed by one merged area of the painted colour whose mask is the union of the merge list |
| KamiPuzzles.SplitAreasKeepsOrder | KamiExample/KamiPuzzle.cs:119-131 | each list is a stable filter of the areas: it picks, at strictly increasing positions, exactly the areas whose merge test has the list's answer |
| KamiPuzzles.TransitionState | KamiExample/KamiPuzzle.cs:117-136 | the transition only grows the memo, keeps every area of the child a memo key, and yields the painted child state |
| KamiPuzzles.TransitionMatchesReference | KamiExample/KamiPuzzle.cs:117-154 | with a consistent memo, the memoised transition equals the memo-free reference painting and leaves the memo consistent |
| KamiPuzzles.ApplyMoves | KamiExample/KamiPuzzle.cs:66-76 | one child per move; the memo only grows and covers every child's areas |
| KamiPuzzles.GetReachableStates | KamiExample/KamiPuzzle.cs:54-79 | one child per (area, other colour) move; the memo only grows and covers every child's areas |
| KamiPuzzles.ApplyMovesKeepsMemoInv | KamiExample/KamiPuzzle.cs:66-76 | applying a run of moves keeps the memo consistent |
| KamiPuzzles.ApplyMovesMatchesReference | KamiExample/KamiPuzzle.cs:66-76 | applying a run of moves with the memo yields the reference children, in order |
| KamiPuzzles.GetReachableStatesMatchesReference | KamiExample/KamiPuzzle.cs:54-79 | the successor list equals the memo-free reference successors, and the memo stays consistent |
| KamiPuzzles.PaintMovesMembership | KamiExample/KamiPuzzle.cs:69-75 | the moves for one area are exactly that area with each colour in [0, n) other than its own |
| KamiPuzzles.MovesMembership | KamiExample/KamiPuzzle.cs:67-76 | the moves of a state are exactly its areas paired with every colour in [0, n) other than the area's own |
| KamiPuzzles.PaintMovesOrder | KamiExample/KamiPuzzle.cs:69-75 | an area in [0, n) has n-1 moves, its colour skipped, in increasing colour order |
| KamiPuzzles.MovesOrder | KamiExample/KamiPuzzle.cs:65-76 | with colours in [0, n) a state has exactly (n-1) * areas moves, area-major and colour-minor |
| KamiPuzzles.AllColored | KamiExample/KamiPuzzle.cs:98-106 | the scan from position i succeeds exactly when every later area has the given colour |
| KamiPuzzles.CheckForSolution | KamiExample/KamiPuzzle.cs:82-108 | a state is solved exactly when it has at most one area or every area has the first area's colour |
| KamiPartitions.DistinctAreasDisjoint | KamiExample/KamiPuzzle.cs:117-136 | in a partition, different areas have disjoint masks |
| KamiPartitions.SplitKeepsDisjoint | KamiExample/KamiPuzzle.cs:119-131 | each half of the split keeps pairwise disjointness |
| KamiPartitions.SplitKeepsUnion | KamiExample/KamiPuzzle.cs:119-131 | the two halves of the split together cover exactly the regions the state covered |
| KamiPartitions.SingletonsArePartition | KamiExample/KamiPuzzle.cs:29-34 | one single-bit area per base region partitions the board |
| KamiPartitions.InitialStateIsPartition | KamiExample/KamiPuzzle.cs:22-37 | the initial state partitions the base regions |
| KamiPartitions.ChildAreasArePartition | KamiExample/KamiPuzzle.cs:117-136 | painting keeps a partition; the child has as many areas as the state minus the merge list plus one, and has fewer areas than the state exactly when some other area merges |
| KamiPartitions.ChildIsPartition | KamiExample/KamiPuzzle.cs:119-133 | remaining areas plus the merged area partition the board |
| KamiPartitions.ChildNonEmpty | KamiExample/KamiPuzzle.cs:119-133 | every area of the child, the merged one included, has a non-empty mask |
| KamiPartitions.ChildDisjoint | KamiExample/KamiPuzzle.cs:119-133 | the child's areas are pairwise disjoint |
| KamiPartitions.ChildUnion | KamiExample/KamiPuzzle.cs:119-133 | the child's areas cover exactly the base regions |
| KamiPartitions.MergeSetSize | KamiExample/KamiPuzzle.cs:121-131 | the merge list has two or more areas exactly when an area other than the painted one joins it |
| KamiPartitions.PaintedChildIsPartition | KamiExample/KamiPuzzle.cs:117-136 | the painted child state partitions the board |
| KamiPartitions.TransitionKeepsPartition | KamiExample/KamiPuzzle.cs:117-136 | the memoised transition keeps the partition |
| KamiPartitions.PaintAllArePartitions | KamiExample/KamiPuzzle.cs:54-79 | every child from moves on the state's own areas is a partition |
| KamiPartitions.RegionColorOfCover | KamiState.cs:25-35 | in a partition, a covered bit is a base region and its colour is its covering area's colour |
| KamiPartitions.CoveringArea | KamiState.cs:25-35 | in a partition, every base region has a covering area |
| KamiPartitions.OneAreaColorGivesOneRegionColor | KamiExample/KamiPuzzle.cs:92-107 | on a partition, one colour over all areas gives one colour over all base regions |
| KamiPartitions.OneRegionColorGivesOneAreaColor | KamiExample/KamiPuzzle.cs:92-107 | on a partition, one colour over all base regions gives one colour over all areas |
| KamiPartitions.SolutionIffOneColor | KamiExample/KamiPuzzle.cs:82-108 | on a partition of at least one region, a state is solved if and only if every base region has the same colour |
| KamiPartitions.SameColoringSameSolution | KamiExample/KamiPuzzle.cs:82-108 | two partitions that colour the board alike are both solved or both unsolved |
| KamiPartitions.SolutionRespectsStateEquals | KamiState.cs:53-64 | states that compare equal agree on the solution test |
| KamiGraphs.SameColoringDifferentSuccessors | KamiState.cs:53-64 | equality ignores area structure: on three regions in a line, the start and the board reached by painting region 0 with 1 and back with 0 are both partitions and compare equal, yet have three and two successors |
| StateNodes.NewStateNode | GrapherScripts/StateNode.cs:15-19 | a new node holds the given state and depth, has kind normal and no successor list |
| StateGraphs.RecordState | GrapherScripts/StateGraph.cs:67-75 | an unseen key is added with a new node at the given depth and queued; a seen key leaves graph and queue unchanged |
| StateGraphs.ExploreNode | GrapherScripts/StateGraph.cs:53-60 | the queue only grows at its end, and each child is offered at depth + 1 in order, the first occurrence of each unseen key recorded; the keys appended to the queue are exactly the unseen ones, once each, in the order first offered |
| StateGraphs.SolutionStep | GrapherScripts/StateGraph.cs:35-40 | marking the dequeued solution node keeps the builder invariant |
| StateGraphs.ExploreStep | GrapherScripts/StateGraph.cs:41-44 | expanding the dequeued node keeps the builder invariant and shrinks the termination measure |
| StateGraphs.BuildStateGraph | GrapherScripts/StateGraph.cs:24-47 | the initial state is at depth 0; nodes are keyed by their state's key, satisfy the puzzle's invariant and are marked solution exactly when solved; every edge from an expanded node goes at most one layer down, every deeper node has a parent one layer up, and nodes are explored in layer order |
| StateGraphs.DepthIsLowerBound | GrapherScripts/StateNode.cs:11 | no walk in the graph reaches a node in fewer moves than its recorded depth |
| StateGraphs.DepthIsAttained | GrapherScripts/StateNode.cs:11 | some walk from the initial node reaches each node in exactly its recorded depth |
| StateGraphs.DepthIsDistance | GrapherScripts/StateNode.cs:11 | a node's depth is the minimum number of moves from the starting state |
| KamiGraphs.ChildColorsBelow | KamiExample/KamiPuzzle.cs:117-136 | painting with a colour in [0, n) keeps every area colour in [0, n) |
| KamiGraphs.PaintAllColorsBelow | KamiExample/KamiPuzzle.cs:66-76 | children from moves with colours in [0, n) keep area colours in [0, n) |
| KamiGraphs.PaintAllConstructed | KamiExample/KamiPuzzle.cs:135 | every child is the state constructor applied to its own areas |
| KamiGraphs.SuccessorsKeepInv | KamiExample/KamiPuzzle.cs:54-79 | successors of a well-formed state are well-formed: constructed, a partition, colours in [0, n) |
| KamiGraphs.InitialStateInv | KamiExample/KamiPuzzle.cs:22-37 | with starting colours in [0, n), the initial state is well-formed |
| KamiGraphs.InterfaceKeepsInv | KamiExample/KamiPuzzle.cs:54-79 | the puzzle's successor function keeps states well-formed |
| KamiGraphs.InterfaceKeysInRange | KamiState.cs:48-51 | the key of every well-formed state lies in [0, n^L) |
| KamiGraphs.KamiKeysBounded | GrapherScripts/StateGraph.cs:33-45 | the Kami puzzle has at most n^L distinct keys among well-formed states, so the search ends |
| KamiGraphs.SolvedIffOneRegionColor | KamiExample/KamiPuzzle.cs:82-108 | on any partition, a state is solved exactly when every base region has one colour |
| KamiGraphs.KamiStateGraph | GrapherScripts/StateGraph.cs:24-75 | the Kami state graph holds the initial state at depth 0; its keys are hash codes in [0, n^L); its nodes are well-formed, marked solution exactly when the board has one colour, and never failure; its depths are shortest-move distances explored in layer order |
| KamiGraphs.TwoRegionStart | KamiExample/KamiPuzzle.cs:22-37 | two adjacent regions coloured 0 and 1 start as two single-bit areas with hash 1 |
| KamiGraphs.AllJoinOneArea | KamiExample/KamiPuzzle.cs:119-133 | when every area merges, the child is the single area covering their union |
| KamiGraphs.TwoDigitHash | KamiState.cs:39-44 | with two colours, a two-region colouring [x, y] hashes to 2x + y |
| KamiGraphs.WholeBoardState | KamiState.cs:18-46 | one area over both regions in colour c is the state with hash 3c |
| KamiGraphs.TwoRegionMoves | KamiExample/KamiPuzzle.cs:67-76 | the two-region start has exactly two moves: region 0 to colour 1, region 1 to colour 0 |
| KamiGraphs.TwoRegionPaint | KamiExample/KamiPuzzle.cs:117-136 | either move merges both regions into one area of the new colour |
| KamiGraphs.TwoRegionPaintAll | KamiExample/KamiPuzzle.cs:66-76 | the two moves yield the whole board in colour 1 (hash 3), then in colour 0 (hash 0) |
| KamiGraphs.TwoRegionSuccessors | KamiExample/KamiPuzzle.cs:54-79 | the successors of the two-region start are the two one-colour boards, in that order |
| KamiGraphs.HashFixesColoring | KamiState.cs:18-46 | a well-formed state whose hash is the positional sum of a colour array has exactly that colour array |
| KamiGraphs.WholeBoardSolved | KamiExample/KamiPuzzle.cs:92-107 | a well-formed two-region state with hash 3c colours both regions c and is solved |
| KamiGraphs.TwoRegionStartOffers | KamiExample/KamiPuzzle.cs:54-79 | in the two-region puzzle, the start offers keys 3 and 0 |
| KamiGraphs.TwoRegionKeysSolved | KamiExample/KamiPuzzle.cs:82-108 | in the two-region puzzle, every well-formed state keyed 3 or 0 is solved |
| KamiGraphs.WalksAreShort | GrapherScripts/StateGraph.cs:53-75 | since solved nodes are not expanded, walks in the two-region graph have at most one move and end at the start or at key 3 or 0 |
| KamiGraphs.TwoRegionGraphShape | GrapherScripts/StateGraph.cs:24-75 | any relaxed, supported two-region graph has keys exactly {0, 1, 3}, with both solved boards at depth 1 |
| KamiGraphs.TwoRegionStateGraph | GrapherScripts/StateGraph.cs:24-75 | the two-region graph has three nodes: the start at depth 0 (normal), and the two one-colour boards at depth 1 (solution) |

## Left out

- Debug logging (KamiPuzzle.cs:39, 60, 88; StateGraph.cs:39, 46) is output only.
- The `as KamiState` downcasts and their null branches (KamiPuzzle.cs:57-62, 85-90) are not modelled. Equals' cast and null check (KamiState.cs:55-63) are left out too. Kami states are typed, so those branches cannot be reached.
- The `ReferenceEquals` shortcut in ColorArea.Equals (ColorArea.cs:25-28) is left out. A value is equal to itself anyway.
- `IPuzzle` (IPuzzle.cs:7-12) is the `Puzzle` datatype. Its successor function is pure, so the Kami memo is not threaded through the generic search.
- `KamiGraphs.KamiStateGraph` runs the search with the memo-free reference successors. `KamiPuzzles.GetReachableStatesMatchesReference` proves that the memoised successors are the same list whenever the memo is consistent. It also proves that they keep the memo consistent.
- `KamiGraphs.KamiStateGraph` requires every starting colour in [0, n) and n >= 1. The inspector range (KamiPuzzleBuilder.cs:23) gives n >= 2 but does not constrain starting colours. An out-of-range colour breaks the hash's injectivity and its key bound.
- `KamiPuzzles.NewKamiPuzzle` requires at most 32 starting areas. That is the guard in KamiPuzzleBuilder.cs:34. Past 32, `1 << i` wraps and the dictionary insert throws.
- `KamiPuzzles.TransitionState` requires the painted area's mask and every area's mask to be memo keys. Otherwise the source's dictionary lookup throws, and every state the puzzle produces satisfies this.
- KamiPartitions.SolutionRespectsStateEquals: states that compare equal agree only on the solution test, not on their successors. Equality compares colourings, and two area lists with the same colouring can group the regions differently when adjacent areas share a colour, which the starting areas allow. The search keeps whichever such state it records first (`KamiGraphs.SameColoringDifferentSuccessors`). An invariant that adjacent areas differ in colour would make the colouring fix the areas; it does not hold at the start and is not modelled.
- The search uses the exact (unbounded) hash. The 32-bit wrap-around is modelled only in `KamiHash32`; see Findings.
- Mask shifts past bit 31 are left out. Masks are sets of bit positions below 32, and region indices stay below 32 under the 32-area guard.
- The `reachableStates` field of a node is never assigned (StateNode.cs:12), so in the source it stays null. The model has no null and uses the empty list `[]` for it.
- The `failure` node kind is never assigned. `KamiGraphs.KamiStateGraph` states that no node has it.
- A node's depth is proved minimal over walks in the recorded graph, keyed by hash. A successor whose key was already recorded shares that node.
- The Unity editor scripts (KamiPuzzleBuilder.cs, KamiPuzzleEditor.cs) are left out apart from the two bounds above. They are UI. Running the search on a background thread is left out as well.

## Findings

| source | as written | input that shows it | evidently intended | confidence | as-written member | corrected member |
|---|---|---|---|---|---|---|
| KamiState.cs:39-44 | `hashCode` is a 32-bit `int`, and `hashCode *= numberOfColors; hashCode += state[i];` wrap silently | 4 colours and 17 base regions: the colourings [1, 0, ..., 0] and [0, ..., 0] both hash to 0, since 4^16 = 2^32 wraps to 0; had a search reached both, the dictionary would keep only one of the unsolved and the solved state | every colouring gets its own hash, as IPuzzleState.cs:9 asks of every state | high on the arithmetic; not executed | KamiHash32.HashWrapCollision | KamiStates.StateEqualsIffSameColoring |
