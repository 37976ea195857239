/** The state hash as the constructor computes it: in a 32-bit signed integer,
    whose multiply and add wrap around. The rest of the model uses the
    unbounded positional hash (KamiStates.PositionalSum), which is injective on
    colour arrays; this module shows that the wrapping loop is not. */
module KamiHash32 {
  import opened KamiStates

  const TwoTo31: int := 0x8000_0000
  const TwoTo32: int := 0x1_0000_0000

  /** A value reduced to the 32-bit signed range, as unchecked integer
      arithmetic does. */
  function Wrap32(x: int): (r: int)
    ensures -TwoTo31 <= r < TwoTo31
    ensures (r - x) % TwoTo32 == 0
  {
    ((x + TwoTo31) % TwoTo32) - TwoTo31
  }

  /** The hash loop on 32-bit integers, as a fold over the prefix: after i
      steps the accumulator holds the wrapped fold of state[..i]. */
  function HashFold32(state: seq<int>, n: int): int
  {
    if |state| == 0 then 0
    else Wrap32(Wrap32(HashFold32(state[..|state| - 1], n) * n) + state[|state| - 1])
  }

  /** The constructor's hash loop on 32-bit integers: `hashCode *= n` and
      `hashCode += state[i]`, each wrapping. */
  method ComputeHashCode32(state: seq<int>, numberOfColors: int) returns (hashCode: int)
    ensures hashCode == HashFold32(state, numberOfColors)
    ensures -TwoTo31 <= hashCode < TwoTo31
  {
    hashCode := 0;
    var i := 0;
    while i < |state|
      invariant 0 <= i <= |state|
      invariant hashCode == HashFold32(state[..i], numberOfColors)
    {
      assert state[..i + 1][..i] == state[..i];
      hashCode := Wrap32(hashCode * numberOfColors);
      hashCode := Wrap32(hashCode + state[i]);
      i := i + 1;
    }
    assert state[..|state|] == state;
  }

  /** A value already in the 32-bit range is left alone. */
  lemma WrapInRange(x: int)
    requires -TwoTo31 <= x < TwoTo31
    ensures Wrap32(x) == x
  {
  }

  /** While the unbounded hash stays below 2^31 nothing wraps, and the 32-bit
      loop computes the positional hash. */
  lemma {:induction false} NoWrapBelowTwoTo31(state: seq<int>, n: int)
    requires 1 <= n && ColorsBelow(state, n)
    requires HashFold(state, n) < TwoTo31
    ensures HashFold32(state, n) == HashFold(state, n)
  {
    if |state| > 0 {
      var prefix := state[..|state| - 1];
      var x := state[|state| - 1];
      var f := HashFold(prefix, n);
      assert ColorsBelow(prefix, n) by {
        assert forall i :: 0 <= i < |prefix| ==> prefix[i] == state[i];
      }
      assert HashFold(state, n) == f * n + x;
      HashFoldBounds(prefix, n);
      MulMono(1, n, f);
      NoWrapBelowTwoTo31(prefix, n);
      WrapInRange(f * n);
      WrapInRange(f * n + x);
    }
  }

  /** k zeros. */
  function Zeros(k: nat): (z: seq<int>)
    ensures |z| == k && forall i :: 0 <= i < k ==> z[i] == 0
  {
    seq(k, i => 0)
  }

  lemma {:induction false} PositionalSumOfZeros(k: nat, n: int)
    ensures PositionalSum(Zeros(k), n) == 0
  {
    if k > 0 {
      assert Zeros(k)[1..] == Zeros(k - 1);
      PositionalSumOfZeros(k - 1, n);
    }
  }

  lemma FourPowers()
    ensures Pow(4, 15) == 0x4000_0000 && Pow(4, 16) == TwoTo32
  {
    assert Pow(4, 4) == 256;
    assert Pow(4, 8) == 65536;
    assert Pow(4, 12) == 0x100_0000;
  }

  /** The first sixteen steps multiply the leading 1 up to 4^15 without wrapping. */
  lemma PrefixDoesNotWrap()
    ensures HashFold32([1] + Zeros(15), 4) == 0x4000_0000
  {
    var prefix := [1] + Zeros(15);
    assert prefix[1..] == Zeros(15);
    assert ColorsBelow(prefix, 4);
    FourPowers();
    PositionalSumOfZeros(15, 4);
    HashFoldIsPositionalSum(prefix, 4);
    NoWrapBelowTwoTo31(prefix, 4);
  }

  lemma LeadingOneExact()
    ensures PositionalSum([1] + Zeros(16), 4) == TwoTo32
  {
    assert ([1] + Zeros(16))[1..] == Zeros(16);
    FourPowers();
    PositionalSumOfZeros(16, 4);
  }

  /** The colouring with colour 1 on region 0 and colour 0 elsewhere, on 17
      regions: its positional hash with 4 colours is 4^16 = 2^32, which the
      32-bit loop wraps to 0 at its last step. */
  lemma LeadingOneWraps()
    ensures var a := [1] + Zeros(16);
      ColorsBelow(a, 4) && PositionalSum(a, 4) == TwoTo32 && HashFold32(a, 4) == 0
  {
    var a := [1] + Zeros(16);
    assert a[..16] == [1] + Zeros(15) && a[16] == 0;
    PrefixDoesNotWrap();
    LeadingOneExact();
    assert HashFold32(a, 4) == Wrap32(Wrap32(0x4000_0000 * 4) + 0);
  }

  /** The all-0 colouring hashes to 0 on any number of regions. */
  lemma AllZeroHash(k: nat, n: int)
    requires 1 <= n
    ensures HashFold32(Zeros(k), n) == PositionalSum(Zeros(k), n) == 0
  {
    PositionalSumOfZeros(k, n);
    HashFoldIsPositionalSum(Zeros(k), n);
    NoWrapBelowTwoTo31(Zeros(k), n);
  }

  /** With 4 colours and 17 regions, two different colourings collide under
      the 32-bit hash although their positional hashes differ. */
  lemma HashWrapCollision()
    ensures var a, b := [1] + Zeros(16), Zeros(17);
      a != b && ColorsBelow(a, 4) && ColorsBelow(b, 4) &&
      PositionalSum(a, 4) != PositionalSum(b, 4) &&
      HashFold32(a, 4) == HashFold32(b, 4)
  {
    var a, b := [1] + Zeros(16), Zeros(17);
    assert a[0] != b[0];
    LeadingOneWraps();
    AllZeroHash(17, 4);
  }
}
