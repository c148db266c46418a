/** Slot masks: 64-bit words whose bit i stands for slot i + 1. A word is its unsigned value; the bit
    operations are written out on the bits, lowest first. */
module SlotMasks {
  import opened Common

  const WORD := 0x1_0000_0000_0000_0000

  type Mask = m: nat | m < WORD

  /** Bit i of the word. */
  predicate HasBit(m: nat, i: nat) {
    if i == 0 then m % 2 == 1 else HasBit(m / 2, i - 1)
  }

  /** The places of the bits that are set. */
  function Bits(m: nat): (r: set<nat>)
    ensures forall i: nat :: i in r <==> i < 64 && HasBit(m, i)
  {
    set i: nat | i < 64 && HasBit(m, i)
  }

  /** 1ull << n */
  function OneAt(n: nat): (r: nat)
    ensures r >= 1
  {
    if n == 0 then 1 else 2 * OneAt(n - 1)
  }

  /** a | b */
  function Or(a: nat, b: nat): nat {
    if a == 0 then b else if b == 0 then a
    else 2 * Or(a / 2, b / 2) + (if a % 2 == 1 || b % 2 == 1 then 1 else 0)
  }

  /** a & b */
  function And(a: nat, b: nat): nat {
    if a == 0 || b == 0 then 0
    else 2 * And(a / 2, b / 2) + (if a % 2 == 1 && b % 2 == 1 then 1 else 0)
  }

  /** a & ~b */
  function AndNot(a: nat, b: nat): nat {
    if a == 0 then 0
    else 2 * AndNot(a / 2, b / 2) + (if a % 2 == 1 && b % 2 == 0 then 1 else 0)
  }

  lemma {:induction false} ZeroHasNone(i: nat)
    ensures !HasBit(0, i)
    decreases i
  {
    if i > 0 {
      ZeroHasNone(i - 1);
    }
  }

  lemma {:induction false} OrBit(a: nat, b: nat, i: nat)
    ensures HasBit(Or(a, b), i) <==> HasBit(a, i) || HasBit(b, i)
    decreases i
  {
    ZeroHasNone(i);
    if i > 0 && a != 0 && b != 0 {
      OrBit(a / 2, b / 2, i - 1);
    }
  }

  lemma {:induction false} AndBit(a: nat, b: nat, i: nat)
    ensures HasBit(And(a, b), i) <==> HasBit(a, i) && HasBit(b, i)
    decreases i
  {
    ZeroHasNone(i);
    if i > 0 && a != 0 && b != 0 {
      AndBit(a / 2, b / 2, i - 1);
    }
  }

  lemma {:induction false} AndNotBit(a: nat, b: nat, i: nat)
    ensures HasBit(AndNot(a, b), i) <==> HasBit(a, i) && !HasBit(b, i)
    decreases i
  {
    ZeroHasNone(i);
    if i > 0 && a != 0 {
      AndNotBit(a / 2, b / 2, i - 1);
    }
  }

  lemma {:induction false} OneAtBit(n: nat, i: nat)
    ensures HasBit(OneAt(n), i) <==> i == n
    decreases i
  {
    if i > 0 {
      if n == 0 {
        ZeroHasNone(i - 1);
      } else {
        assert OneAt(n) / 2 == OneAt(n - 1);
        OneAtBit(n - 1, i - 1);
      }
    }
  }

  /** 2^n - 1 has the low n bits. */
  lemma {:induction false} OnesBit(n: nat, i: nat)
    ensures HasBit(OneAt(n) - 1, i) <==> i < n
    decreases i
  {
    if n == 0 {
      ZeroHasNone(i);
    } else {
      assert (OneAt(n) - 1) / 2 == OneAt(n - 1) - 1;
      if i > 0 {
        OnesBit(n - 1, i - 1);
      }
    }
  }

  /** The operations stay inside any power of two that bounds their operands. */
  lemma {:induction false} OpsBounded(a: nat, b: nat, n: nat)
    requires a < OneAt(n)
    ensures And(a, b) < OneAt(n) && And(b, a) < OneAt(n) && AndNot(a, b) < OneAt(n)
    ensures b < OneAt(n) ==> Or(a, b) < OneAt(n)
    decreases n
  {
    if n > 0 {
      OpsBounded(a / 2, b / 2, n - 1);
    }
  }

  lemma OneAt16()
    ensures OneAt(16) == 0x1_0000
  {
    assert OneAt(4) == 16;
    OneAtAdds(4, 4);
    OneAtAdds(8, 8);
  }

  lemma WordIsOneAt64()
    ensures OneAt(64) == WORD
  {
    hide OneAt;
    OneAt16();
    OneAtAdds(16, 16);
    OneAtAdds(32, 32);
  }

  lemma {:induction false} OneAtAdds(m: nat, n: nat)
    ensures OneAt(m + n) == OneAt(m) * OneAt(n)
    decreases n
  {
    if n > 0 {
      OneAtAdds(m, n - 1);
      assert OneAt(m + n) == 2 * OneAt(m + n - 1);
    }
  }

  lemma {:induction false} OneAtMonotone(m: nat, n: nat)
    requires m <= n
    ensures OneAt(m) <= OneAt(n)
    decreases n
  {
    if m < n {
      OneAtMonotone(m, n - 1);
    }
  }

  /** Union, intersection and difference of the bits. */
  lemma OpsBits(a: nat, b: nat)
    ensures Bits(Or(a, b)) == Bits(a) + Bits(b)
    ensures Bits(And(a, b)) == Bits(a) * Bits(b)
    ensures Bits(AndNot(a, b)) == Bits(a) - Bits(b)
  {
    hide HasBit, Or, And, AndNot;
    forall i: nat | i < 64
      ensures HasBit(Or(a, b), i) <==> HasBit(a, i) || HasBit(b, i)
      ensures HasBit(And(a, b), i) <==> HasBit(a, i) && HasBit(b, i)
      ensures HasBit(AndNot(a, b), i) <==> HasBit(a, i) && !HasBit(b, i)
    {
      OrBit(a, b, i);
      AndBit(a, b, i);
      AndNotBit(a, b, i);
    }
  }

  lemma OneBit(n: nat)
    requires n < 64
    ensures Bits(OneAt(n)) == {n}
  {
    hide HasBit, OneAt;
    forall i: nat
      ensures HasBit(OneAt(n), i) <==> i == n
    {
      OneAtBit(n, i);
    }
  }

  lemma NoBits()
    ensures Bits(0) == {}
  {
    forall i: nat
      ensures !HasBit(0, i)
    {
      ZeroHasNone(i);
    }
  }

  /** SlotMaskForMaxSlot: the low bits. */
  function SlotMaskForMaxSlot(maxSlot: nat): nat {
    if maxSlot >= 64 then WORD - 1
    else if maxSlot == 0 then 0
    else OneAt(maxSlot) - 1
  }

  /** The mask for maxSlot holds exactly the slots up to it, 64 at most. */
  lemma SlotMaskBits(maxSlot: nat)
    ensures Bits(SlotMaskForMaxSlot(maxSlot)) == Below(Min(maxSlot, 64))
    ensures SlotMaskForMaxSlot(maxSlot) < WORD
  {
    hide HasBit;
    var n := Min(maxSlot, 64);
    WordIsOneAt64();
    OneAtMonotone(n, 64);
    var ones := OneAt(n) - 1;
    assert SlotMaskForMaxSlot(maxSlot) == ones by {
      assert n == 0 ==> OneAt(n) == 1;
    }
    forall i: nat
      ensures HasBit(ones, i) <==> i < n
    {
      OnesBit(n, i);
    }
  }

  /** A word below 2^n without a bit in the low n places is zero. */
  lemma {:induction false} ClearIsZero(m: nat, n: nat)
    requires m < OneAt(n)
    requires forall i: nat :: i < n ==> !HasBit(m, i)
    ensures m == 0
    decreases n
  {
    if n > 0 {
      NoneAbove(m, n);
      ClearIsZero(m / 2, n - 1);
      assert !HasBit(m, 0);
    }
  }

  lemma NoneAbove(m: nat, n: nat)
    requires forall k: nat :: k < n ==> !HasBit(m, k)
    ensures forall k: nat :: k < n - 1 ==> !HasBit(m / 2, k)
  {
    forall k: nat | k < n - 1
      ensures !HasBit(m / 2, k)
    {
      assert !HasBit(m, k + 1);
    }
  }

  /** mask & (mask - 1) clears the lowest bit and no other. */
  lemma {:induction false} ClearsLowest(m: nat, low: nat, i: nat)
    requires m > 0 && HasBit(m, low) && forall k: nat :: k < low ==> !HasBit(m, k)
    ensures HasBit(And(m, m - 1), i) <==> HasBit(m, i) && i != low
    decreases low
  {
    AndBit(m, m - 1, i);
    if low == 0 {
      assert (m - 1) / 2 == m / 2;
    } else {
      assert !HasBit(m, 0);
      assert (m - 1) / 2 == m / 2 - 1;
      if i > 0 {
        NoneAbove(m, low);
        ClearsLowest(m / 2, low - 1, i - 1);
        AndBit(m / 2, m / 2 - 1, i - 1);
      }
    }
  }

  lemma ClearOneBit(m: Mask)
    requires m != 0
    ensures And(m, m - 1) < WORD
    ensures |Bits(And(m, m - 1))| + 1 == |Bits(m)|
  {
    hide HasBit, And;
    WordIsOneAt64();
    OpsBounded(m, m - 1, 64);
    var low := SomeBit(m);
    low := LowestFrom(m, low);
    forall i: nat
      ensures HasBit(And(m, m - 1), i) <==> HasBit(m, i) && i != low
    {
      ClearsLowest(m, low, i);
    }
    assert Bits(m) == Bits(And(m, m - 1)) + {low};
  }

  lemma SomeBit(m: Mask) returns (i: nat)
    requires m != 0
    ensures i < 64 && HasBit(m, i)
  {
    hide HasBit;
    WordIsOneAt64();
    if forall k: nat :: k < 64 ==> !HasBit(m, k) {
      ClearIsZero(m, 64);
    }
    i :| i < 64 && HasBit(m, i);
  }

  lemma {:induction false} LowestFrom(m: nat, high: nat) returns (low: nat)
    requires HasBit(m, high)
    ensures low <= high && HasBit(m, low) && forall k: nat :: k < low ==> !HasBit(m, k)
    decreases high
  {
    hide HasBit;
    if k: nat :| k < high && HasBit(m, k) {
      low := LowestFrom(m, k);
    } else {
      low := high;
    }
  }

  /** The number of set bits, by clearing the lowest one until none is left. */
  method CountSlots(mask: Mask) returns (count: nat)
    ensures count == |Bits(mask)|
  {
    hide HasBit, And;
    var m: Mask := mask;
    count := 0;
    NoBits();
    while m != 0
      invariant count + |Bits(m)| == |Bits(mask)|
      decreases |Bits(m)|
    {
      ClearOneBit(m);
      m := And(m, m - 1);
      count := count + 1;
    }
  }
}
