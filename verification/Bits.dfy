/** Bit masks as natural numbers. */
module Bits {

  function Pow2(k: nat): (p: nat)
    ensures p >= 1
  {
    if k == 0 then 1 else 2 * Pow2(k - 1)
  }

  predicate Bit(mask: nat, k: nat)
    decreases k
  {
    if k == 0 then mask % 2 == 1 else Bit(mask / 2, k - 1)
  }

  /** `mask | (1 << k)` */
  function SetBit(mask: nat, k: nat): nat
    decreases k
  {
    if k == 0 then (if mask % 2 == 1 then mask else mask + 1)
    else 2 * SetBit(mask / 2, k - 1) + mask % 2
  }

  /** `mask & ~(1 << k)` */
  function ClearBit(mask: nat, k: nat): nat
    decreases k
  {
    if k == 0 then (if mask % 2 == 1 then mask - 1 else mask)
    else 2 * ClearBit(mask / 2, k - 1) + mask % 2
  }

  /** The number of set bits. */
  function Ones(mask: nat): nat {
    if mask == 0 then 0 else mask % 2 + Ones(mask / 2)
  }

  lemma {:induction false} SetBitExact(mask: nat, k: nat, j: nat)
    ensures Bit(SetBit(mask, k), j) <==> j == k || Bit(mask, j)
    decreases k
  {
    if k > 0 && j > 0 { SetBitExact(mask / 2, k - 1, j - 1); }
  }

  lemma {:induction false} ClearBitExact(mask: nat, k: nat, j: nat)
    ensures Bit(ClearBit(mask, k), j) <==> j != k && Bit(mask, j)
    decreases k
  {
    if k > 0 && j > 0 { ClearBitExact(mask / 2, k - 1, j - 1); }
  }

  lemma OnesDouble(half: nat, low: nat)
    requires low < 2
    ensures Ones(2 * half + low) == low + Ones(half)
  {
  }

  lemma {:induction false} ClearBitOnes(mask: nat, k: nat)
    requires Bit(mask, k)
    ensures ClearBit(mask, k) < mask && Ones(ClearBit(mask, k)) == Ones(mask) - 1
    decreases k
  {
    OnesDouble(mask / 2, mask % 2);
    if k > 0 {
      ClearBitOnes(mask / 2, k - 1);
      OnesDouble(ClearBit(mask / 2, k - 1), mask % 2);
    } else {
      OnesDouble(mask / 2, 0);
    }
  }

  lemma HalfBelow(mask: nat, p: nat)
    ensures mask < 2 * p <==> mask / 2 < p
    ensures mask < p ==> 2 * mask + 1 < 2 * p
  {
  }

  lemma {:induction false} SetBitBound(mask: nat, k: nat, n: nat)
    requires mask < Pow2(n) && k < n
    ensures SetBit(mask, k) < Pow2(n)
    decreases k
  {
    var p := Pow2(n - 1);
    HalfBelow(mask, p);
    if k == 0 {
      HalfBelow(mask / 2, p);
    } else {
      SetBitBound(mask / 2, k - 1, n - 1);
      HalfBelow(SetBit(mask / 2, k - 1), p);
    }
  }

  /** A number whose low `n` bits are `low` and whose other bits are `high`. */
  lemma {:induction false} BitSplit(low: nat, high: nat, n: nat, k: nat)
    requires low < Pow2(n)
    ensures Bit(low + high * Pow2(n), k) <==> if k < n then Bit(low, k) else Bit(high, k - n)
    decreases n
  {
    if n > 0 {
      var rest := high * Pow2(n - 1);
      assert low + high * Pow2(n) == low + 2 * rest;
      assert (low + 2 * rest) % 2 == low % 2 && (low + 2 * rest) / 2 == low / 2 + rest;
      if k > 0 { BitSplit(low / 2, high, n - 1, k - 1); }
    }
  }

  lemma {:induction false} ZeroBits(k: nat)
    ensures !Bit(0, k)
  {
    if k > 0 { ZeroBits(k - 1); }
  }

  /** A mask with no bit set is zero. */
  lemma {:induction false} NoBits(mask: nat)
    requires forall j: nat :: !Bit(mask, j)
    ensures mask == 0
  {
    if mask != 0 {
      assert !Bit(mask, 0);
      forall j: nat ensures !Bit(mask / 2, j) { assert !Bit(mask, j + 1); }
      NoBits(mask / 2);
    }
  }

  /** The mask whose set bits are exactly those below `k` is `2^k - 1`. */
  lemma {:induction false} LowBits(mask: nat, k: nat)
    requires forall j: nat :: Bit(mask, j) <==> j < k
    ensures mask == Pow2(k) - 1
  {
    if k == 0 {
      NoBits(mask);
    } else {
      assert Bit(mask, 0);
      forall j: nat ensures Bit(mask / 2, j) <==> j < k - 1 { assert Bit(mask, j + 1) <==> j + 1 < k; }
      LowBits(mask / 2, k - 1);
    }
  }
}
