/** Bit vectors as sequences of booleans, index 0 being the least significant bit
    (the order of a Yosys `Const`'s `bits`). */
module Bits {

  function Pow2(k: nat): (r: nat)
    ensures r >= 1
  {
    if k == 0 then 1 else 2 * Pow2(k - 1)
  }

  /** Unsigned value of a bit vector, least significant bit first. */
  function Value(b: seq<bool>): nat
  {
    if b == [] then 0 else (if b[0] then 1 else 0) + 2 * Value(b[1..])
  }

  /** The k low bits of v, least significant bit first. */
  function NatToBits(v: nat, k: nat): (r: seq<bool>)
    ensures |r| == k
  {
    if k == 0 then [] else [v % 2 == 1] + NatToBits(v / 2, k - 1)
  }

  /** XOR of `a` with `key` on the positions both have; positions of `a`
      beyond the key are left as they are. */
  function Mask(a: seq<bool>, key: seq<bool>): (r: seq<bool>)
    ensures |r| == |a|
    ensures forall n :: 0 <= n < |a| && n < |key| ==> r[n] == (a[n] != key[n])
    ensures forall n :: |key| <= n < |a| ==> r[n] == a[n]
  {
    seq(|a|, n requires 0 <= n < |a| => if n < |key| then a[n] != key[n] else a[n])
  }

  /** Three-way comparison of two equally long vectors read as unsigned numbers:
      the highest index is scanned first. */
  function Compare(a: seq<bool>, b: seq<bool>): int
    requires |a| == |b|
  {
    if a == [] then 0
    else if a[|a| - 1] && !b[|b| - 1] then 1
    else if !a[|a| - 1] && b[|b| - 1] then -1
    else Compare(a[..|a| - 1], b[..|b| - 1])
  }

  /** Masking twice with the same key restores the vector. */
  lemma MaskInvolution(a: seq<bool>, key: seq<bool>)
    ensures Mask(Mask(a, key), key) == a
  {
  }

  /** Masking with a fixed key of full length is injective. */
  lemma MaskInjective(a: seq<bool>, b: seq<bool>, key: seq<bool>)
    requires |a| == |b|
    requires Mask(a, key) == Mask(b, key)
    ensures a == b
  {
    MaskInvolution(a, key);
    MaskInvolution(b, key);
  }

  lemma {:induction false} ValueBound(b: seq<bool>)
    ensures Value(b) < Pow2(|b|)
  {
    if b != [] {
      ValueBound(b[1..]);
    }
  }

  /** The value seen from the most significant end, the way Compare reads it. */
  lemma {:induction false} ValueSplitTop(b: seq<bool>)
    requires b != []
    ensures Value(b) == Value(b[..|b| - 1]) + (if b[|b| - 1] then Pow2(|b| - 1) else 0)
  {
    if |b| > 1 {
      var rest := b[1..];
      ValueSplitTop(rest);
      assert rest[..|rest| - 1] == b[..|b| - 1][1..];
    }
  }

  lemma {:induction false} ValueOfNatToBits(v: nat, k: nat)
    requires v < Pow2(k)
    ensures Value(NatToBits(v, k)) == v
  {
    if k > 0 {
      ValueOfNatToBits(v / 2, k - 1);
      assert NatToBits(v, k)[1..] == NatToBits(v / 2, k - 1);
    }
  }

  /** Distinct numbers below 2^k have distinct k-bit encodings. */
  lemma NatToBitsInjective(v: nat, w: nat, k: nat)
    requires v < Pow2(k) && w < Pow2(k)
    requires NatToBits(v, k) == NatToBits(w, k)
    ensures v == w
  {
    ValueOfNatToBits(v, k);
    ValueOfNatToBits(w, k);
  }

  lemma {:induction false} NatToBitsOfValue(b: seq<bool>)
    ensures NatToBits(Value(b), |b|) == b
  {
    if b != [] {
      NatToBitsOfValue(b[1..]);
      assert b == [b[0]] + b[1..];
    }
  }

  /** Compare agrees with the numeric order of the values. */
  lemma {:induction false} CompareIsNumeric(a: seq<bool>, b: seq<bool>)
    requires |a| == |b|
    ensures Compare(a, b) == 0 <==> a == b
    ensures Compare(a, b) == -1 <==> Value(a) < Value(b)
    ensures Compare(a, b) == 1 <==> Value(a) > Value(b)
  {
    if a != [] {
      var n := |a|;
      ValueBound(a[..n - 1]);
      ValueBound(b[..n - 1]);
      ValueSplitTop(a);
      ValueSplitTop(b);
      CompareIsNumeric(a[..n - 1], b[..n - 1]);
      assert a == a[..n - 1] + [a[n - 1]];
      assert b == b[..n - 1] + [b[n - 1]];
    }
  }

  /** The k-bit encodings of 0 .. 2^k - 1 are strictly ascending under Compare. */
  lemma NatToBitsAscending(v: nat, w: nat, k: nat)
    requires v < w < Pow2(k)
    ensures Compare(NatToBits(v, k), NatToBits(w, k)) == -1
  {
    ValueOfNatToBits(v, k);
    ValueOfNatToBits(w, k);
    CompareIsNumeric(NatToBits(v, k), NatToBits(w, k));
  }
}
