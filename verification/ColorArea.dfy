/** Region sets and coloured areas of the Kami puzzle.

    The source keeps a set of base regions in a 32-bit unsigned mask: bit j set
    means base region j is included. Here such a mask is the set of positions of
    its set bits, all below 32. Bitwise OR is union, a non-zero AND is a
    non-empty intersection, and `1 << i` is the singleton {i}.
    A ColorArea pairs a mask with the colour the whole set is painted. */
module ColorAreas {

  /** Number of bits in a mask, hence the largest supported number of base regions. */
  const MaskBitCount: nat := 32

  /** A 32-bit mask, as the set of its set bit positions. */
  type Mask = m: set<nat> | forall j :: j in m ==> j < MaskBitCount

  datatype ColorArea = ColorArea(areaMask: Mask, color: int)

  /** The value-type constructor: stores the mask and the colour unchanged. */
  function NewColorArea(mask: Mask, paintedColor: int): (a: ColorArea)
    ensures a.areaMask == mask && a.color == paintedColor
  {
    ColorArea(mask, paintedColor)
  }

  /** Field-wise equality of two areas: equal colours and equal masks. */
  function AreaEquals(a: ColorArea, b: ColorArea): (r: bool)
    ensures r <==> a == b
  {
    a.color == b.color && a.areaMask == b.areaMask
  }

  lemma AreaEqualsIsEquivalence(a: ColorArea, b: ColorArea, c: ColorArea)
    ensures AreaEquals(a, a)
    ensures AreaEquals(a, b) == AreaEquals(b, a)
    ensures AreaEquals(a, b) && AreaEquals(b, c) ==> AreaEquals(a, c)
  {
  }

  /** `1 << i`: the singleton region set {i}. */
  function Bit(i: nat): Mask
    requires i < MaskBitCount
  {
    {i}
  }

  /** The source's test `(x & y) > 0` on unsigned masks: the sets share a region. */
  predicate Overlaps(x: Mask, y: Mask)
  {
    x * y != {}
  }

  /** The base regions 0 .. count-1. */
  function FullMask(count: nat): (m: Mask)
    requires count <= MaskBitCount
    ensures forall j: nat :: j in m <==> j < count
  {
    if count == 0 then {} else FullMask(count - 1) + {count - 1}
  }

  /** OR of the masks of a list of areas, folded in list order. */
  function OrMasks(areas: seq<ColorArea>): Mask
  {
    if |areas| == 0 then {}
    else OrMasks(areas[..|areas| - 1]) + areas[|areas| - 1].areaMask
  }

  /** The OR is the union of the areas' region sets: it includes every area,
      and each of its regions comes from some area. */
  lemma {:induction false} OrMasksMembership(areas: seq<ColorArea>)
    ensures forall a :: a in areas ==> a.areaMask <= OrMasks(areas)
    ensures forall j :: j in OrMasks(areas) ==> exists i :: 0 <= i < |areas| && j in areas[i].areaMask
  {
    if |areas| > 0 {
      var prefix := areas[..|areas| - 1];
      OrMasksMembership(prefix);
      assert forall a :: a in areas ==> a == areas[|areas| - 1] || a in prefix;
      assert forall i :: 0 <= i < |prefix| ==> prefix[i] == areas[i];
    }
  }

  lemma OrMasksAppend(areas: seq<ColorArea>, more: seq<ColorArea>)
    ensures OrMasks(areas + more) == OrMasks(areas) + OrMasks(more)
  {
    var both := areas + more;
    OrMasksMembership(both);
    OrMasksMembership(areas);
    OrMasksMembership(more);
    forall j | j in OrMasks(both)
      ensures j in OrMasks(areas) + OrMasks(more)
    {
      var i :| 0 <= i < |both| && j in both[i].areaMask;
      if i < |areas| {
        assert both[i] in areas;
      } else {
        assert both[i] in more;
      }
    }
    forall a | a in areas || a in more
      ensures a in both
    {
    }
  }
}
