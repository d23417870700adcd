/** Activation patterns: the integer tag that selects a ReLU branch for every node
    of one hidden layer, read least-significant bit first (bit j belongs to node j). */
module Patterns {

  function Pow2(n: nat): (r: nat)
    ensures r >= 1
  {
    if n == 0 then 1 else 2 * Pow2(n - 1)
  }

  /** The first n bits of tag, least significant first, exactly as repeated
      `tag % 2 == 1` / `tag /= 2` steps read them (tag is never negative here,
      so truncating and Euclidean division agree). */
  function Bits(tag: nat, n: nat): (bits: seq<bool>)
    ensures |bits| == n
  {
    if n == 0 then [] else [tag % 2 == 1] + Bits(tag / 2, n - 1)
  }

  /** The number whose binary digits, least significant first, are `bits`. */
  function FromBits(bits: seq<bool>): nat
  {
    if bits == [] then 0 else (if bits[0] then 1 else 0) + 2 * FromBits(bits[1..])
  }

  lemma {:induction false} FromBitsBelow(bits: seq<bool>)
    ensures FromBits(bits) < Pow2(|bits|)
  {
    if bits != [] {
      FromBitsBelow(bits[1..]);
    }
  }

  /** Every on/off pattern of width n is read from some tag below 2^n ... */
  lemma {:induction false} BitsOfFromBits(bits: seq<bool>)
    ensures FromBits(bits) < Pow2(|bits|)
    ensures Bits(FromBits(bits), |bits|) == bits
  {
    FromBitsBelow(bits);
    if bits != [] {
      BitsOfFromBits(bits[1..]);
      var b := if bits[0] then 1 else 0;
      var rest := FromBits(bits[1..]);
      assert FromBits(bits) == b + 2 * rest;
      assert (b + 2 * rest) % 2 == b && (b + 2 * rest) / 2 == rest;
      assert bits == [bits[0]] + bits[1..];
    }
  }

  /** ... and by only one: distinct tags below 2^n give distinct patterns. */
  lemma {:induction false} FromBitsOfBits(tag: nat, n: nat)
    requires tag < Pow2(n)
    ensures FromBits(Bits(tag, n)) == tag
  {
    if n > 0 {
      FromBitsOfBits(tag / 2, n - 1);
      assert Bits(tag, n)[1..] == Bits(tag / 2, n - 1);
    }
  }

  /** Tag 0 switches every bit off. */
  lemma {:induction false} ZeroTagAllClear(n: nat)
    ensures forall j :: 0 <= j < n ==> !Bits(0, n)[j]
  {
    if n > 0 {
      ZeroTagAllClear(n - 1);
      assert Bits(0, n) == [false] + Bits(0, n - 1);
    }
  }

  /** One shift step: dropping the lowest bit of a pattern read from tag leaves
      the pattern read from tag / 2. */
  lemma ShiftBits(tag: nat, n: nat)
    requires n > 0
    ensures Bits(tag, n)[0] == (tag % 2 == 1) && Bits(tag, n)[1..] == Bits(tag / 2, n - 1)
  {
  }

  /** The same step inside a loop that has consumed the first i of n bits: the
      remaining tag yields bit i next, and halving it leaves the bits after i. */
  lemma ShiftBitsAt(tag: nat, bits: seq<bool>, i: nat, n: nat)
    requires i < n == |bits| && Bits(tag, n - i) == bits[i..]
    ensures bits[i] == (tag % 2 == 1) && Bits(tag / 2, n - (i + 1)) == bits[i + 1..]
  {
    ShiftBits(tag, n - i);
    assert bits[i..][0] == bits[i];
    assert bits[i + 1..] == bits[i..][1..];
  }
}
