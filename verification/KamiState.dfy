/** One state of a Kami puzzle and its hash code.

    A state is a list of coloured super-areas. Its hash is built in two steps:
    a colour per base region (the colour array), then a mixed-radix fold of that
    array with the number of colours as radix. Two states are equal exactly when
    their hash codes are. The fold here is on unbounded integers, which keeps it
    injective; module KamiHash32 models the 32-bit wrap-around of the loop as
    written. */
module KamiStates {
  import opened ColorAreas

  datatype KamiState = KamiState(areas: seq<ColorArea>, hashCode: int)

  /** b to the power e. */
  function Pow(b: int, e: nat): int
  {
    if e == 0 then 1 else b * Pow(b, e - 1)
  }

  /** Every colour of the list lies in [0, n). */
  predicate ColorsBelow(state: seq<int>, n: int)
  {
    forall i :: 0 <= i < |state| ==> 0 <= state[i] < n
  }

  /** Every area's colour lies in [0, n). */
  predicate AreaColorsBelow(areas: seq<ColorArea>, n: int)
  {
    forall a :: a in areas ==> 0 <= a.color < n
  }

  // ---------------------------------------------------------------------------
  // Step 1: the colour array
  // ---------------------------------------------------------------------------

  /** Does an area include base region j? The test is `(mask >> j) & 1 == 1`,
      whose shift count C# reduces modulo 32 on a 32-bit unsigned value. */
  predicate Covers(a: ColorArea, j: nat)
  {
    (if j < 32 then j else j % 32) in a.areaMask
  }

  /** The colour the hash builder records for base region j after visiting the
      areas in list order: each covering area overwrites the entry, and the entry
      starts at 0. */
  function RegionColor(areas: seq<ColorArea>, j: nat): int
  {
    if |areas| == 0 then 0
    else if Covers(areas[|areas| - 1], j) then areas[|areas| - 1].color
    else RegionColor(areas[..|areas| - 1], j)
  }

  /** The entry of region j is the colour of the LAST area in list order that covers j... */
  lemma {:induction false} RegionColorIsLastCover(areas: seq<ColorArea>, j: nat, i: nat)
    requires i < |areas| && Covers(areas[i], j)
    requires forall k :: i < k < |areas| ==> !Covers(areas[k], j)
    ensures RegionColor(areas, j) == areas[i].color
  {
    if i < |areas| - 1 {
      var prefix := areas[..|areas| - 1];
      assert forall k :: i < k < |prefix| ==> prefix[k] == areas[k];
      RegionColorIsLastCover(prefix, j, i);
    }
  }

  /** ...and 0 when no area covers j. */
  lemma {:induction false} RegionColorUncovered(areas: seq<ColorArea>, j: nat)
    requires forall k :: 0 <= k < |areas| ==> !Covers(areas[k], j)
    ensures RegionColor(areas, j) == 0
  {
    if |areas| > 0 {
      var prefix := areas[..|areas| - 1];
      assert forall k :: 0 <= k < |prefix| ==> prefix[k] == areas[k];
      RegionColorUncovered(prefix, j);
    }
  }

  /** The per-base-region colour array of a state with `originalAreaCount` base regions. */
  function ColorArray(originalAreaCount: nat, areas: seq<ColorArea>): (state: seq<int>)
    ensures |state| == originalAreaCount
  {
    seq(originalAreaCount, j requires 0 <= j < originalAreaCount => RegionColor(areas, j))
  }

  lemma ColorArrayInRange(originalAreaCount: nat, areas: seq<ColorArea>, n: int)
    requires AreaColorsBelow(areas, n) && 1 <= n
    ensures ColorsBelow(ColorArray(originalAreaCount, areas), n)
  {
    forall j | 0 <= j < originalAreaCount
      ensures 0 <= RegionColor(areas, j) < n
    {
      RegionColorInRange(areas, j, n);
    }
  }

  lemma {:induction false} RegionColorInRange(areas: seq<ColorArea>, j: nat, n: int)
    requires AreaColorsBelow(areas, n) && 1 <= n
    ensures 0 <= RegionColor(areas, j) < n
  {
    if |areas| > 0 {
      assert areas[|areas| - 1] in areas;
      RegionColorInRange(areas[..|areas| - 1], j, n);
    }
  }

  /** The colour-array loop as written: the outer loop visits the areas in
      order, the inner loop every base region, and a covering area overwrites
      the entry of that region. */
  method BuildColorArray(originalAreaCount: nat, areas: seq<ColorArea>) returns (state: seq<int>)
    ensures |state| == originalAreaCount
    ensures forall j :: 0 <= j < originalAreaCount ==> state[j] == RegionColor(areas, j)
  {
    var arr := new int[originalAreaCount](_ => 0);
    var i := 0;
    while i < |areas|
      invariant 0 <= i <= |areas|
      invariant forall j :: 0 <= j < originalAreaCount ==> arr[j] == RegionColor(areas[..i], j)
    {
      var j := 0;
      while j < originalAreaCount
        invariant 0 <= j <= originalAreaCount
        invariant forall k :: 0 <= k < j ==> arr[k] == RegionColor(areas[..i + 1], k)
        invariant forall k :: j <= k < originalAreaCount ==> arr[k] == RegionColor(areas[..i], k)
      {
        assert areas[..i + 1][..i] == areas[..i];
        if Covers(areas[i], j) {
          arr[j] := areas[i].color;
        }
        j := j + 1;
      }
      i := i + 1;
    }
    assert areas[..|areas|] == areas;
    state := arr[..];
  }

  // ---------------------------------------------------------------------------
  // Step 2: the positional hash
  // ---------------------------------------------------------------------------

  /** The fold `h := h * n + state[i]` over the colour array, from h = 0. */
  function HashFold(state: seq<int>, n: int): int
  {
    if |state| == 0 then 0 else HashFold(state[..|state| - 1], n) * n + state[|state| - 1]
  }

  /** The closed form: the sum of state[i] * n^(L-1-i). */
  function PositionalSum(state: seq<int>, n: int): int
  {
    if |state| == 0 then 0 else state[0] * Pow(n, |state| - 1) + PositionalSum(state[1..], n)
  }

  lemma {:induction false} PositionalSumSnoc(state: seq<int>, x: int, n: int)
    ensures PositionalSum(state + [x], n) == PositionalSum(state, n) * n + x
  {
    if |state| == 0 {
      assert state + [x] == [x];
      assert PositionalSum([x], n) == x * Pow(n, 0) + PositionalSum([], n);
    } else {
      var s := state + [x];
      assert s[1..] == state[1..] + [x];
      PositionalSumSnoc(state[1..], x, n);
      var p := Pow(n, |state| - 1);
      assert Pow(n, |state|) == n * p;
      calc {
        PositionalSum(s, n);
        state[0] * (n * p) + PositionalSum(state[1..], n) * n + x;
        { assert state[0] * (n * p) == (state[0] * p) * n; }
        (state[0] * p) * n + PositionalSum(state[1..], n) * n + x;
        (state[0] * p + PositionalSum(state[1..], n)) * n + x;
      }
    }
  }

  /** The iterative fold computes the closed-form positional sum. */
  lemma {:induction false} HashFoldIsPositionalSum(state: seq<int>, n: int)
    ensures HashFold(state, n) == PositionalSum(state, n)
  {
    if |state| > 0 {
      var prefix := state[..|state| - 1];
      HashFoldIsPositionalSum(prefix, n);
      assert state == prefix + [state[|state| - 1]];
      PositionalSumSnoc(prefix, state[|state| - 1], n);
    }
  }

  lemma MulMono(a: int, b: int, c: nat)
    requires a <= b
    ensures a * c <= b * c
  {
  }

  /** With colours in [0, n) the hash lies in [0, n^L). */
  lemma {:induction false} HashFoldBounds(state: seq<int>, n: int)
    requires ColorsBelow(state, n)
    ensures 0 <= HashFold(state, n) < Pow(n, |state|)
  {
    if |state| > 0 {
      var prefix := state[..|state| - 1];
      var x := state[|state| - 1];
      HashFoldBounds(prefix, n);
      var f := HashFold(prefix, n);
      var p := Pow(n, |prefix|);
      assert 0 <= x < n;
      MulMono(f, p - 1, n);
      assert f * n + x <= (p - 1) * n + (n - 1);
      assert Pow(n, |state|) == n * p;
      MulMono(0, f, n);
    }
  }

  /** Two folds that agree have equal last digits and equal prefixes. */
  lemma DigitsAgree(f: int, g: int, x: int, y: int, n: int)
    requires 0 <= f && 0 <= g && 0 <= x < n && 0 <= y < n
    requires f * n + x == g * n + y
    ensures f == g && x == y
  {
    if f < g {
      MulMono(f + 1, g, n);
    } else if g < f {
      MulMono(g + 1, f, n);
    }
  }

  /** With colours in [0, n), distinct colour arrays of one length have distinct hashes. */
  lemma {:induction false} HashFoldInjective(a: seq<int>, b: seq<int>, n: int)
    requires |a| == |b|
    requires ColorsBelow(a, n) && ColorsBelow(b, n)
    requires HashFold(a, n) == HashFold(b, n)
    ensures a == b
  {
    if |a| > 0 {
      var a' := a[..|a| - 1];
      var b' := b[..|b| - 1];
      HashFoldBounds(a', n);
      HashFoldBounds(b', n);
      DigitsAgree(HashFold(a', n), HashFold(b', n), a[|a| - 1], b[|b| - 1], n);
      HashFoldInjective(a', b', n);
      assert a == a' + [a[|a| - 1]] && b == b' + [b[|b| - 1]];
    }
  }

  /** The hash loop as written: `hashCode *= n; hashCode += state[i]` for every entry. */
  method ComputeHashCode(state: seq<int>, numberOfColors: int) returns (hashCode: int)
    ensures hashCode == PositionalSum(state, numberOfColors)
    ensures ColorsBelow(state, numberOfColors) ==> 0 <= hashCode < Pow(numberOfColors, |state|)
  {
    hashCode := 0;
    var i := 0;
    while i < |state|
      invariant 0 <= i <= |state|
      invariant hashCode == HashFold(state[..i], numberOfColors)
    {
      assert state[..i + 1][..i] == state[..i];
      hashCode := hashCode * numberOfColors;
      hashCode := hashCode + state[i];
      i := i + 1;
    }
    assert state[..|state|] == state;
    HashFoldIsPositionalSum(state, numberOfColors);
    if ColorsBelow(state, numberOfColors) {
      HashFoldBounds(state, numberOfColors);
    }
  }

  // ---------------------------------------------------------------------------
  // The state value
  // ---------------------------------------------------------------------------

  /** The state constructor: keeps the areas as given and precomputes the hash
      of their colour array. */
  function NewKamiState(originalAreaCount: nat, numberOfColors: int, colorAreas: seq<ColorArea>): (s: KamiState)
    ensures s.areas == colorAreas
    ensures s.hashCode == PositionalSum(ColorArray(originalAreaCount, colorAreas), numberOfColors)
    ensures AreaColorsBelow(colorAreas, numberOfColors) && 1 <= numberOfColors ==>
      0 <= s.hashCode < Pow(numberOfColors, originalAreaCount)
  {
    var state := ColorArray(originalAreaCount, colorAreas);
    HashFoldIsPositionalSum(state, numberOfColors);
    ColorArrayHashBounds(originalAreaCount, colorAreas, numberOfColors);
    KamiState(colorAreas, HashFold(state, numberOfColors))
  }

  lemma ColorArrayHashBounds(originalAreaCount: nat, colorAreas: seq<ColorArea>, n: int)
    ensures AreaColorsBelow(colorAreas, n) && 1 <= n ==>
      0 <= HashFold(ColorArray(originalAreaCount, colorAreas), n) < Pow(n, originalAreaCount)
  {
    if AreaColorsBelow(colorAreas, n) && 1 <= n {
      ColorArrayInRange(originalAreaCount, colorAreas, n);
      HashFoldBounds(ColorArray(originalAreaCount, colorAreas), n);
    }
  }

  function GetHashCode(s: KamiState): int
  {
    s.hashCode
  }

  /** State equality is hash-code equality. */
  function StateEquals(s: KamiState, t: KamiState): (r: bool)
    ensures r <==> GetHashCode(s) == GetHashCode(t)
  {
    s.hashCode == t.hashCode
  }

  lemma StateEqualsIsEquivalence(s: KamiState, t: KamiState, u: KamiState)
    ensures StateEquals(s, s)
    ensures StateEquals(s, t) == StateEquals(t, s)
    ensures StateEquals(s, t) && StateEquals(t, u) ==> StateEquals(s, u)
  {
  }

  /** For states built by the constructor with colours in [0, n), hash equality
      is exactly equality of the colour arrays: the "unique hash code" promise. */
  lemma StateEqualsIffSameColoring(originalAreaCount: nat, n: int, a: seq<ColorArea>, b: seq<ColorArea>)
    requires 1 <= n && AreaColorsBelow(a, n) && AreaColorsBelow(b, n)
    ensures StateEquals(NewKamiState(originalAreaCount, n, a), NewKamiState(originalAreaCount, n, b))
      <==> ColorArray(originalAreaCount, a) == ColorArray(originalAreaCount, b)
  {
    var ca := ColorArray(originalAreaCount, a);
    var cb := ColorArray(originalAreaCount, b);
    HashFoldIsPositionalSum(ca, n);
    HashFoldIsPositionalSum(cb, n);
    if HashFold(ca, n) == HashFold(cb, n) {
      ColorArrayInRange(originalAreaCount, a, n);
      ColorArrayInRange(originalAreaCount, b, n);
      HashFoldInjective(ca, cb, n);
    }
  }

  /** Two area lists that differ only in mask bits at or above `originalAreaCount`. */
  predicate SameBelow(a: seq<ColorArea>, b: seq<ColorArea>, originalAreaCount: nat)
    requires originalAreaCount <= MaskBitCount
  {
    |a| == |b| &&
    forall i :: 0 <= i < |a| ==>
      a[i].color == b[i].color &&
      a[i].areaMask * FullMask(originalAreaCount) == b[i].areaMask * FullMask(originalAreaCount)
  }

  /** Mask bits at positions >= originalAreaCount do not affect the hash. */
  lemma HashIgnoresHighBits(originalAreaCount: nat, n: int, a: seq<ColorArea>, b: seq<ColorArea>)
    requires originalAreaCount <= MaskBitCount
    requires SameBelow(a, b, originalAreaCount)
    ensures NewKamiState(originalAreaCount, n, a).hashCode == NewKamiState(originalAreaCount, n, b).hashCode
  {
    forall j | 0 <= j < originalAreaCount
      ensures RegionColor(a, j) == RegionColor(b, j)
    {
      RegionColorIgnoresHighBits(originalAreaCount, a, b, j);
    }
    assert ColorArray(originalAreaCount, a) == ColorArray(originalAreaCount, b);
  }

  lemma {:induction false} RegionColorIgnoresHighBits(originalAreaCount: nat, a: seq<ColorArea>, b: seq<ColorArea>, j: nat)
    requires originalAreaCount <= MaskBitCount && j < originalAreaCount
    requires SameBelow(a, b, originalAreaCount)
    ensures RegionColor(a, j) == RegionColor(b, j)
  {
    if |a| > 0 {
      var k := |a| - 1;
      assert SameBelow(a[..k], b[..k], originalAreaCount) by {
        assert forall i :: 0 <= i < k ==> a[..k][i] == a[i] && b[..k][i] == b[i];
      }
      RegionColorIgnoresHighBits(originalAreaCount, a[..k], b[..k], j);
      assert j in a[k].areaMask <==> j in a[k].areaMask * FullMask(originalAreaCount);
      assert j in b[k].areaMask <==> j in b[k].areaMask * FullMask(originalAreaCount);
    }
  }
}
