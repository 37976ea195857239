/** The areas of every Kami state partition the base regions.

    The initial state has one singleton area per base region, and a move
    replaces the merge set by its union, so the areas stay non-empty, pairwise
    disjoint and together cover the base regions. On a partition the solution
    test agrees with the colour array: one colour everywhere. */
module KamiPartitions {
  import opened ColorAreas
  import opened KamiStates
  import opened KamiPuzzles

  /** Distinct positions hold disjoint region sets. */
  predicate PairwiseDisjoint(areas: seq<ColorArea>)
  {
    forall i, j :: 0 <= i < j < |areas| ==> areas[i].areaMask !! areas[j].areaMask
  }

  /** The areas partition the base regions 0 .. L-1. */
  predicate IsPartition(areas: seq<ColorArea>, L: nat)
    requires L <= MaskBitCount
  {
    (forall i :: 0 <= i < |areas| ==> areas[i].areaMask != {}) &&
    PairwiseDisjoint(areas) &&
    OrMasks(areas) == FullMask(L)
  }

  /** On a partition, two different area values are disjoint. */
  lemma DistinctAreasDisjoint(areas: seq<ColorArea>, L: nat, x: ColorArea, y: ColorArea)
    requires L <= MaskBitCount && IsPartition(areas, L)
    requires x in areas && y in areas && x != y
    ensures x.areaMask !! y.areaMask
  {
    var i :| 0 <= i < |areas| && areas[i] == x;
    var j :| 0 <= j < |areas| && areas[j] == y;
    assert i != j;
  }

  /** Keeping some of the areas, in order, keeps them pairwise disjoint. */
  lemma {:induction false} SplitKeepsDisjoint(adjacency: Mask, paintedArea: ColorArea, paintedColor: int,
                                               areas: seq<ColorArea>, toMerge: bool)
    requires PairwiseDisjoint(areas)
    ensures PairwiseDisjoint(SplitAreas(adjacency, paintedArea, paintedColor, areas, toMerge))
  {
    if |areas| > 0 {
      var k := |areas| - 1;
      var prefix := areas[..k];
      assert PairwiseDisjoint(prefix) by {
        assert forall i :: 0 <= i < k ==> prefix[i] == areas[i];
      }
      SplitKeepsDisjoint(adjacency, paintedArea, paintedColor, prefix, toMerge);
      var kept := SplitAreas(adjacency, paintedArea, paintedColor, prefix, toMerge);
      if JoinsMerge(adjacency, paintedArea, paintedColor, areas[k]) == toMerge {
        var r := kept + [areas[k]];
        forall i, j | 0 <= i < j < |r|
          ensures r[i].areaMask !! r[j].areaMask
        {
          if j == |kept| {
            assert r[i] in prefix;
            var i' :| 0 <= i' < k && prefix[i'] == r[i];
            assert areas[i'] == r[i];
          } else {
            assert r[i] == kept[i] && r[j] == kept[j];
          }
        }
      }
    }
  }

  /** The two lists of the split cover the same regions as the input. */
  lemma {:induction false} SplitKeepsUnion(adjacency: Mask, paintedArea: ColorArea, paintedColor: int, areas: seq<ColorArea>)
    ensures OrMasks(AreasToBeMerged(adjacency, paintedArea, paintedColor, areas))
          + OrMasks(RemainingAreas(adjacency, paintedArea, paintedColor, areas)) == OrMasks(areas)
  {
    if |areas| > 0 {
      var k := |areas| - 1;
      var prefix := areas[..k];
      SplitKeepsUnion(adjacency, paintedArea, paintedColor, prefix);
      var m := AreasToBeMerged(adjacency, paintedArea, paintedColor, prefix);
      var r := RemainingAreas(adjacency, paintedArea, paintedColor, prefix);
      if JoinsMerge(adjacency, paintedArea, paintedColor, areas[k]) {
        OrMasksAppend(m, [areas[k]]);
        assert OrMasks([areas[k]]) == areas[k].areaMask;
      } else {
        OrMasksAppend(r, [areas[k]]);
        assert OrMasks([areas[k]]) == areas[k].areaMask;
      }
    }
  }

  /** The singleton sets {0}, ..., {L-1}, one per area, form a partition. */
  lemma SingletonsArePartition(areas: seq<ColorArea>, L: nat)
    requires L <= MaskBitCount && |areas| == L
    requires forall i :: 0 <= i < L ==> areas[i].areaMask == Bit(i)
    ensures IsPartition(areas, L)
  {
    assert forall i :: 0 <= i < L ==> i in areas[i].areaMask;
    OrMasksMembership(areas);
    forall j: nat | j < L
      ensures j in OrMasks(areas)
    {
      assert areas[j] in areas;
    }
    assert OrMasks(areas) == FullMask(L);
  }

  /** The initial state is a partition into singletons. */
  lemma InitialStateIsPartition(startingAreas: seq<ColorArea>, numberOfColors: int)
    requires |startingAreas| <= MaskBitCount
    ensures IsPartition(NewKamiPuzzle(startingAreas, numberOfColors).initialState.areas, |startingAreas|)
  {
    var areas := NewKamiPuzzle(startingAreas, numberOfColors).initialState.areas;
    SingletonsArePartition(areas, |startingAreas|);
  }

  /** A move keeps the partition. The child has |areas| - |merge set| + 1 areas,
      which is fewer than before exactly when some area other than the painted
      one joins the merge. */
  lemma ChildAreasArePartition(L: nat, areas: seq<ColorArea>, adjacency: Mask, paintedArea: ColorArea, paintedColor: int)
    requires L <= MaskBitCount && IsPartition(areas, L)
    requires paintedArea in areas
    ensures IsPartition(ChildAreas(areas, adjacency, paintedArea, paintedColor), L)
    ensures |ChildAreas(areas, adjacency, paintedArea, paintedColor)|
      == |areas| - |AreasToBeMerged(adjacency, paintedArea, paintedColor, areas)| + 1
    ensures |ChildAreas(areas, adjacency, paintedArea, paintedColor)| < |areas| <==>
      exists a :: a in areas && a != paintedArea && JoinsMerge(adjacency, paintedArea, paintedColor, a)
  {
    var merge := AreasToBeMerged(adjacency, paintedArea, paintedColor, areas);
    var rest := RemainingAreas(adjacency, paintedArea, paintedColor, areas);
    var merged := ColorArea(OrMasks(merge), paintedColor);
    var child := ChildAreas(areas, adjacency, paintedArea, paintedColor);
    assert child == rest + [merged];
    SplitIsPermutation(adjacency, paintedArea, paintedColor, areas);
    ChildIsPartition(L, areas, adjacency, paintedArea, paintedColor);
    MergeSetSize(L, areas, adjacency, paintedArea, paintedColor);
  }

  lemma ChildIsPartition(L: nat, areas: seq<ColorArea>, adjacency: Mask, paintedArea: ColorArea, paintedColor: int)
    requires L <= MaskBitCount && IsPartition(areas, L)
    requires paintedArea in areas
    ensures IsPartition(RemainingAreas(adjacency, paintedArea, paintedColor, areas)
      + [ColorArea(OrMasks(AreasToBeMerged(adjacency, paintedArea, paintedColor, areas)), paintedColor)], L)
  {
    ChildNonEmpty(L, areas, adjacency, paintedArea, paintedColor);
    ChildDisjoint(L, areas, adjacency, paintedArea, paintedColor);
    ChildUnion(L, areas, adjacency, paintedArea, paintedColor);
  }

  /** Every area of the child is non-empty: the kept ones were, and the merged
      one includes the painted area. */
  lemma ChildNonEmpty(L: nat, areas: seq<ColorArea>, adjacency: Mask, paintedArea: ColorArea, paintedColor: int)
    requires L <= MaskBitCount && IsPartition(areas, L)
    requires paintedArea in areas
    ensures var child := RemainingAreas(adjacency, paintedArea, paintedColor, areas)
      + [ColorArea(OrMasks(AreasToBeMerged(adjacency, paintedArea, paintedColor, areas)), paintedColor)];
      forall i :: 0 <= i < |child| ==> child[i].areaMask != {}
  {
    var merge := AreasToBeMerged(adjacency, paintedArea, paintedColor, areas);
    var rest := RemainingAreas(adjacency, paintedArea, paintedColor, areas);
    var merged := ColorArea(OrMasks(merge), paintedColor);
    var child := rest + [merged];
    OrMasksMembership(merge);
    assert paintedArea in merge;
    forall i | 0 <= i < |child|
      ensures child[i].areaMask != {}
    {
      if i < |rest| {
        assert child[i] in areas;
      } else {
        assert paintedArea.areaMask <= merged.areaMask;
      }
    }
  }

  /** The child's areas are pairwise disjoint: the kept ones among themselves,
      and each kept one against the merged one. */
  lemma ChildDisjoint(L: nat, areas: seq<ColorArea>, adjacency: Mask, paintedArea: ColorArea, paintedColor: int)
    requires L <= MaskBitCount && IsPartition(areas, L)
    ensures PairwiseDisjoint(RemainingAreas(adjacency, paintedArea, paintedColor, areas)
      + [ColorArea(OrMasks(AreasToBeMerged(adjacency, paintedArea, paintedColor, areas)), paintedColor)])
  {
    var merge := AreasToBeMerged(adjacency, paintedArea, paintedColor, areas);
    var rest := RemainingAreas(adjacency, paintedArea, paintedColor, areas);
    var merged := ColorArea(OrMasks(merge), paintedColor);
    var child := rest + [merged];
    SplitKeepsDisjoint(adjacency, paintedArea, paintedColor, areas, false);
    OrMasksMembership(merge);
    forall i, j | 0 <= i < j < |child|
      ensures child[i].areaMask !! child[j].areaMask
    {
      if j < |rest| {
        assert child[i] == rest[i] && child[j] == rest[j];
      } else {
        var x := child[i];
        assert x in rest;
        forall r | r in merged.areaMask
          ensures r !in x.areaMask
        {
          var t :| 0 <= t < |merge| && r in merge[t].areaMask;
          assert merge[t] in merge;
          DistinctAreasDisjoint(areas, L, x, merge[t]);
        }
      }
    }
  }

  /** The child covers the same regions: the split keeps the union. */
  lemma ChildUnion(L: nat, areas: seq<ColorArea>, adjacency: Mask, paintedArea: ColorArea, paintedColor: int)
    requires L <= MaskBitCount && IsPartition(areas, L)
    ensures OrMasks(RemainingAreas(adjacency, paintedArea, paintedColor, areas)
      + [ColorArea(OrMasks(AreasToBeMerged(adjacency, paintedArea, paintedColor, areas)), paintedColor)]) == FullMask(L)
  {
    var merge := AreasToBeMerged(adjacency, paintedArea, paintedColor, areas);
    var rest := RemainingAreas(adjacency, paintedArea, paintedColor, areas);
    var merged := ColorArea(OrMasks(merge), paintedColor);
    SplitKeepsUnion(adjacency, paintedArea, paintedColor, areas);
    OrMasksAppend(rest, [merged]);
    assert OrMasks([merged]) == merged.areaMask;
  }

  /** A sequence holding two different values has at least two elements. */
  lemma TwoMembers<T>(s: seq<T>, x: T, y: T)
    requires x in s && y in s && x != y
    ensures |s| >= 2
  {
    var i :| 0 <= i < |s| && s[i] == x;
    var j :| 0 <= j < |s| && s[j] == y;
    assert i != j;
    assert i >= 1 || j >= 1;
  }

  lemma MergeSetSize(L: nat, areas: seq<ColorArea>, adjacency: Mask, paintedArea: ColorArea, paintedColor: int)
    requires L <= MaskBitCount && IsPartition(areas, L)
    requires paintedArea in areas
    ensures |AreasToBeMerged(adjacency, paintedArea, paintedColor, areas)| >= 2 <==>
      exists a :: a in areas && a != paintedArea && JoinsMerge(adjacency, paintedArea, paintedColor, a)
  {
    var merge := AreasToBeMerged(adjacency, paintedArea, paintedColor, areas);
    assert paintedArea in merge;
    if exists a :: a in areas && a != paintedArea && JoinsMerge(adjacency, paintedArea, paintedColor, a) {
      var a :| a in areas && a != paintedArea && JoinsMerge(adjacency, paintedArea, paintedColor, a);
      assert a in merge;
      TwoMembers(merge, a, paintedArea);
    }
    if |merge| >= 2 {
      SplitKeepsDisjoint(adjacency, paintedArea, paintedColor, areas, true);
      assert merge[0] in merge && merge[1] in merge;
      assert merge[0] in areas;
      assert merge[0].areaMask != {} && merge[0].areaMask !! merge[1].areaMask;
      var a := if merge[0] != paintedArea then merge[0] else merge[1];
      assert a in merge;
    }
  }

  /** The same for the child state. */
  lemma PaintedChildIsPartition(L: nat, n: int, areas: seq<ColorArea>,
                                adjacency: Mask, paintedArea: ColorArea, paintedColor: int)
    requires L <= MaskBitCount && IsPartition(areas, L)
    requires paintedArea in areas
    ensures IsPartition(PaintedChild(L, n, areas, adjacency, paintedArea, paintedColor).areas, L)
  {
    ChildAreasArePartition(L, areas, adjacency, paintedArea, paintedColor);
  }

  /** Under a partition the painting move, memo included, keeps the partition. */
  lemma TransitionKeepsPartition(p: KamiPuzzle, fromState: KamiState, paintedArea: ColorArea, paintedColor: int)
    requires p.originalAreaCount <= MaskBitCount && IsPartition(fromState.areas, p.originalAreaCount)
    requires paintedArea in fromState.areas
    requires LiveKeys(p.adjacencyMasks, fromState.areas)
    ensures IsPartition(TransitionState(p, fromState, paintedArea, paintedColor).0.areas, p.originalAreaCount)
  {
    PaintedChildIsPartition(p.originalAreaCount, p.numberOfColors, fromState.areas,
      p.adjacencyMasks[paintedArea.areaMask], paintedArea, paintedColor);
  }

  /** Every reference child of a partitioned state is a partitioned state. */
  lemma {:induction false} PaintAllArePartitions(seeds: seq<Mask>, L: nat, n: int, areas: seq<ColorArea>,
                                                 moves: seq<(ColorArea, int)>)
    requires |seeds| <= MaskBitCount && L <= MaskBitCount && IsPartition(areas, L)
    requires forall m :: m in moves ==> m.0 in areas
    ensures forall c :: c in PaintAll(seeds, L, n, areas, moves) ==> IsPartition(c.areas, L)
  {
    if |moves| > 0 {
      var k := |moves| - 1;
      assert moves[k] in moves;
      assert forall m :: m in moves[..k] ==> m in moves;
      PaintAllArePartitions(seeds, L, n, areas, moves[..k]);
      PaintedChildIsPartition(L, n, areas, AdjOf(seeds, moves[k].0.areaMask), moves[k].0, moves[k].1);
    }
  }

  // ---------------------------------------------------------------------------
  // The solution test on a partition
  // ---------------------------------------------------------------------------

  /** On a partition, region j < L has the colour of the one area that covers it. */
  lemma RegionColorOfCover(areas: seq<ColorArea>, L: nat, i: nat, j: nat)
    requires L <= MaskBitCount && IsPartition(areas, L)
    requires i < |areas| && j in areas[i].areaMask
    ensures j < L
    ensures RegionColor(areas, j) == areas[i].color
  {
    OrMasksMembership(areas);
    assert areas[i] in areas;
    assert j < L;
    forall k | i < k < |areas|
      ensures !Covers(areas[k], j)
    {
      assert areas[i].areaMask !! areas[k].areaMask;
    }
    RegionColorIsLastCover(areas, j, i);
  }

  /** Every region j < L is covered by some area of a partition. */
  lemma CoveringArea(areas: seq<ColorArea>, L: nat, j: nat) returns (i: nat)
    requires L <= MaskBitCount && IsPartition(areas, L) && j < L
    ensures i < |areas| && j in areas[i].areaMask
  {
    OrMasksMembership(areas);
    assert j in OrMasks(areas);
    i :| 0 <= i < |areas| && j in areas[i].areaMask;
  }

  /** Every area has the colour of the first one. */
  predicate OneAreaColor(areas: seq<ColorArea>)
  {
    forall i :: 0 <= i < |areas| ==> areas[i].color == areas[0].color
  }

  /** Every base region below L has the colour of region 0. */
  predicate OneRegionColor(areas: seq<ColorArea>, L: nat)
  {
    forall j :: 0 <= j < L ==> RegionColor(areas, j) == RegionColor(areas, 0)
  }

  lemma OneAreaColorGivesOneRegionColor(areas: seq<ColorArea>, L: nat)
    requires 1 <= L <= MaskBitCount && IsPartition(areas, L)
    requires OneAreaColor(areas)
    ensures OneRegionColor(areas, L)
  {
    var i0 := CoveringArea(areas, L, 0);
    RegionColorOfCover(areas, L, i0, 0);
    forall j | 0 <= j < L
      ensures RegionColor(areas, j) == RegionColor(areas, 0)
    {
      var i := CoveringArea(areas, L, j);
      RegionColorOfCover(areas, L, i, j);
    }
  }

  lemma OneRegionColorGivesOneAreaColor(areas: seq<ColorArea>, L: nat)
    requires 1 <= L <= MaskBitCount && IsPartition(areas, L)
    requires OneRegionColor(areas, L)
    ensures OneAreaColor(areas)
  {
    forall i | 0 <= i < |areas|
      ensures areas[i].color == areas[0].color
    {
      assert areas[i].areaMask != {} && areas[0].areaMask != {};
      var j :| j in areas[i].areaMask;
      RegionColorOfCover(areas, L, i, j);
      var j0 :| j0 in areas[0].areaMask;
      RegionColorOfCover(areas, L, 0, j0);
    }
  }

  /** On a partition of at least one region, the solution test holds exactly
      when every base region has the same colour. */
  lemma SolutionIffOneColor(L: nat, s: KamiState)
    requires 1 <= L <= MaskBitCount && IsPartition(s.areas, L)
    ensures CheckForSolution(s) <==> OneRegionColor(s.areas, L)
  {
    assert CheckForSolution(s) <==> OneAreaColor(s.areas);
    if CheckForSolution(s) {
      OneAreaColorGivesOneRegionColor(s.areas, L);
    }
    if OneRegionColor(s.areas, L) {
      OneRegionColorGivesOneAreaColor(s.areas, L);
    }
  }

  /** Two partitions with the same colour array agree on being a solution. */
  lemma SameColoringSameSolution(L: nat, s: KamiState, t: KamiState)
    requires 1 <= L <= MaskBitCount
    requires IsPartition(s.areas, L) && IsPartition(t.areas, L)
    requires ColorArray(L, s.areas) == ColorArray(L, t.areas)
    ensures CheckForSolution(s) == CheckForSolution(t)
  {
    SolutionIffOneColor(L, s);
    SolutionIffOneColor(L, t);
    var cs, ct := ColorArray(L, s.areas), ColorArray(L, t.areas);
    assert forall j :: 0 <= j < L ==> RegionColor(s.areas, j) == cs[j] == ct[j] == RegionColor(t.areas, j);
  }

  /** Consequently two equal states (equal hashes, colours in range) of a
      partition agree on being a solution: the test respects state equality. */
  lemma SolutionRespectsStateEquals(L: nat, n: int, a: seq<ColorArea>, b: seq<ColorArea>)
    requires 1 <= L <= MaskBitCount && 1 <= n
    requires IsPartition(a, L) && IsPartition(b, L)
    requires AreaColorsBelow(a, n) && AreaColorsBelow(b, n)
    requires StateEquals(NewKamiState(L, n, a), NewKamiState(L, n, b))
    ensures CheckForSolution(NewKamiState(L, n, a)) == CheckForSolution(NewKamiState(L, n, b))
  {
    StateEqualsIffSameColoring(L, n, a, b);
    SameColoringSameSolution(L, NewKamiState(L, n, a), NewKamiState(L, n, b));
  }
}
