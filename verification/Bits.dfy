/**
 The fixed-width unsigned integers behind the bitmaps and masks. A value is a natural number below
 `Pow2(bits)`; the bitwise operators are defined digit by digit, and every operation is related to
 the truth value of single bits.
 */
module Bits {
  import opened Arith

  predicate GetBit(x: nat, i: nat) {
    if i == 0 then x % 2 == 1 else GetBit(x / 2, i - 1)
  }

  function And(x: nat, y: nat): nat {
    if x == 0 || y == 0 then 0
    else (if x % 2 == 1 && y % 2 == 1 then 1 else 0) + 2 * And(x / 2, y / 2)
  }

  function Or(x: nat, y: nat): nat
    decreases x + y
  {
    if x == 0 then y else if y == 0 then x
    else (if x % 2 == 1 || y % 2 == 1 then 1 else 0) + 2 * Or(x / 2, y / 2)
  }

  /** Complement within `bits` digits. */
  function Not(x: nat, bits: nat): nat
    requires x < Pow2(bits)
  {
    Pow2(bits) - 1 - x
  }

  /** Zero has `bits` trailing zeros. */
  function TrailingZeros(x: nat, bits: nat): nat
    decreases bits
  {
    if bits == 0 || x % 2 == 1 then 0 else 1 + TrailingZeros(x / 2, bits - 1)
  }

  /** The mask of the digits `start..end`, cut off at the width of the type. */
  function OnesTruncated(start: nat, end: nat, bits: nat): nat
    requires start <= end && start < bits
  {
    if end >= bits
    then (Pow2(bits) - Pow2(start)) % Pow2(bits)
    else (Pow2(end) - Pow2(start)) % Pow2(bits)
  }

  function BitScanForward(x: nat, start: nat, bits: nat): nat
    requires x < Pow2(bits)
  {
    if start >= bits then bits
    else
      var m := OnesTruncated(0, start, bits);
      TrailingZeros(And(x, Not(m, bits)), bits)
  }

  function SetBit(x: nat, i: nat, bits: nat): nat {
    if i < bits then Or(x, Pow2(i)) else x
  }

  function ClearBit(x: nat, i: nat, bits: nat): nat
    requires x < Pow2(bits)
  {
    if i < bits then
      Pow2Mono(i, bits);
      And(x, Not(Pow2(i), bits))
    else x
  }

  // ----- single bits of every operator -----

  lemma {:induction false} ZeroBits(i: nat)
    ensures !GetBit(0, i)
  {
    if i != 0 {
      ZeroBits(i - 1);
    }
  }

  lemma {:induction false} NoBitsIsZero(x: nat, bits: nat)
    requires x < Pow2(bits)
    requires forall i :: 0 <= i < bits ==> !GetBit(x, i)
    ensures x == 0
  {
    if bits != 0 {
      assert !GetBit(x, 0);
      forall i | 0 <= i < bits - 1
        ensures !GetBit(x / 2, i)
      {
        assert !GetBit(x, i + 1);
      }
      NoBitsIsZero(x / 2, bits - 1);
    }
  }

  lemma {:induction false} BitsBelowWidth(x: nat, i: nat, bits: nat)
    requires x < Pow2(bits) && GetBit(x, i)
    ensures i < bits
  {
    if bits == 0 {
      ZeroBits(i);
    } else if i != 0 {
      BitsBelowWidth(x / 2, i - 1, bits - 1);
    }
  }

  lemma {:induction false} AndBit(x: nat, y: nat, i: nat)
    ensures GetBit(And(x, y), i) <==> GetBit(x, i) && GetBit(y, i)
  {
    ZeroBits(i);
    if x != 0 && y != 0 && i != 0 {
      AndBit(x / 2, y / 2, i - 1);
      assert And(x, y) / 2 == And(x / 2, y / 2);
    }
  }

  lemma {:induction false} AndBound(x: nat, y: nat)
    ensures And(x, y) <= x
  {
    if x != 0 && y != 0 {
      AndBound(x / 2, y / 2);
    }
  }

  lemma {:induction false} OrBit(x: nat, y: nat, i: nat)
    ensures GetBit(Or(x, y), i) <==> GetBit(x, i) || GetBit(y, i)
    decreases x + y
  {
    ZeroBits(i);
    if x != 0 && y != 0 && i != 0 {
      OrBit(x / 2, y / 2, i - 1);
      assert Or(x, y) / 2 == Or(x / 2, y / 2);
    }
  }

  lemma {:induction false} OrBound(x: nat, y: nat, bits: nat)
    requires x < Pow2(bits) && y < Pow2(bits)
    ensures Or(x, y) < Pow2(bits)
  {
    if x != 0 && y != 0 {
      OrBound(x / 2, y / 2, bits - 1);
    }
  }

  lemma {:induction false} NotBit(x: nat, bits: nat, i: nat)
    requires x < Pow2(bits) && i < bits
    ensures GetBit(Not(x, bits), i) <==> !GetBit(x, i)
  {
    assert Not(x, bits) % 2 != x % 2;
    if i != 0 {
      NotBit(x / 2, bits - 1, i - 1);
      assert Not(x, bits) / 2 == Not(x / 2, bits - 1);
    }
  }

  lemma {:induction false} Pow2Bit(k: nat, i: nat)
    ensures GetBit(Pow2(k), i) <==> i == k
  {
    if k == 0 {
      if i != 0 {
        ZeroBits(i - 1);
      }
    } else if i != 0 {
      assert Pow2(k) / 2 == Pow2(k - 1);
      Pow2Bit(k - 1, i - 1);
    }
  }

  lemma {:induction false} OnesBit(k: nat, i: nat)
    ensures GetBit(Pow2(k) - 1, i) <==> i < k
  {
    if k == 0 {
      ZeroBits(i);
    } else if i != 0 {
      assert (Pow2(k) - 1) / 2 == Pow2(k - 1) - 1;
      OnesBit(k - 1, i - 1);
    }
  }

  lemma {:induction false} TrailingZerosFirst(x: nat, bits: nat)
    requires x < Pow2(bits)
    ensures TrailingZeros(x, bits) <= bits
    ensures forall i :: 0 <= i < TrailingZeros(x, bits) ==> !GetBit(x, i)
    ensures TrailingZeros(x, bits) < bits ==> GetBit(x, TrailingZeros(x, bits))
  {
    if bits != 0 && x % 2 == 0 {
      TrailingZerosFirst(x / 2, bits - 1);
    }
  }

  // ----- masks as remainders -----

  lemma HalfRemainder(x: nat, g: nat)
    requires g > 0
    ensures x % (2 * g) == x % 2 + 2 * (x / 2 % g)
  {
    var q := x / 2 / g;
    DivBounds(x / 2, g);
    assert q * (2 * g) == 2 * (q * g);
    assert (q + 1) * (2 * g) == 2 * (q * g) + 2 * g;
    DivUnique(x, 2 * g, q);
  }

  /** Masking with `Pow2(k) - 1` is the remainder modulo `Pow2(k)`. */
  lemma {:induction false} AndOnes(x: nat, k: nat)
    ensures And(x, Pow2(k) - 1) == x % Pow2(k)
  {
    if x == 0 {
      DivUnique(0, Pow2(k), 0);
    } else if k != 0 {
      AndOnes(x / 2, k - 1);
      HalfRemainder(x, Pow2(k - 1));
      assert (Pow2(k) - 1) / 2 == Pow2(k - 1) - 1;
    }
  }

  /** Masking with the complement of `Pow2(k) - 1` rounds down to a multiple of `Pow2(k)`. */
  lemma {:induction false} AndNotOnes(x: nat, k: nat, bits: nat)
    requires x < Pow2(bits) && k <= bits
    ensures Pow2(k) - 1 < Pow2(bits)
    ensures And(x, Not(Pow2(k) - 1, bits)) == RoundDown(x, Pow2(k))
    decreases k
  {
    hide RoundDown, And;
    Pow2Mono(k, bits);
    if k == 0 {
      MaskAll(x, bits);
    } else {
      var m := Not(Pow2(k) - 1, bits);
      AndNotOnes(x / 2, k - 1, bits - 1);
      assert m / 2 == Not(Pow2(k - 1) - 1, bits - 1) && m % 2 == 0;
      MaskStep(x, m, Pow2(k - 1));
    }
  }

  lemma MaskAll(x: nat, bits: nat)
    requires x < Pow2(bits)
    ensures And(x, Not(0, bits)) == RoundDown(x, 1)
  {
    hide And;
    AndOnes(x, bits);
    DivUnique(x, Pow2(bits), 0);
    DivUnique(x, 1, x);
  }

  lemma MaskStep(x: nat, m: nat, g: nat)
    requires 0 < g && m % 2 == 0 && And(x / 2, m / 2) == RoundDown(x / 2, g)
    ensures And(x, m) == RoundDown(x, 2 * g)
  {
    hide RoundDown;
    RoundDownHalf(x, g);
    assert x == 0 || m == 0 || And(x, m) == 2 * And(x / 2, m / 2);
  }

  lemma RoundDownHalf(x: nat, g: nat)
    requires 0 < g
    ensures RoundDown(x, 2 * g) == 2 * RoundDown(x / 2, g)
  {
    HalfRemainder(x, g);
    DivBounds(x, 2 * g);
    DivBounds(x / 2, g);
  }

  // ----- what the operations mean for the set of ones -----

  /** The scan finds the least one at or after `start`, and `bits` when there is none. */
  lemma BitScanForwardFirst(x: nat, start: nat, bits: nat)
    requires x < Pow2(bits)
    ensures var r := BitScanForward(x, start, bits);
            && r <= bits
            && (r < bits ==> start <= r && GetBit(x, r))
            && (forall i :: start <= i < r ==> !GetBit(x, i))
  {
    if start < bits {
      Pow2Mono(start, bits);
      var m := OnesTruncated(0, start, bits);
      DivUnique(Pow2(start) - 1, Pow2(bits), 0);
      assert m == Pow2(start) - 1;
      var y := And(x, Not(m, bits));
      AndBound(x, Not(m, bits));
      TrailingZerosFirst(y, bits);
      forall i | 0 <= i < bits
        ensures GetBit(y, i) <==> start <= i && GetBit(x, i)
      {
        AndBit(x, Not(m, bits), i);
        NotBit(m, bits, i);
        OnesBit(start, i);
      }
    }
  }

  lemma SetBitSets(x: nat, i: nat, bits: nat, j: nat)
    requires x < Pow2(bits) && i < bits
    ensures SetBit(x, i, bits) < Pow2(bits)
    ensures GetBit(SetBit(x, i, bits), j) <==> i == j || GetBit(x, j)
  {
    Pow2Mono(i, bits);
    OrBound(x, Pow2(i), bits);
    OrBit(x, Pow2(i), j);
    Pow2Bit(i, j);
  }

  lemma ClearBitClears(x: nat, i: nat, bits: nat, j: nat)
    requires x < Pow2(bits) && i < bits
    ensures ClearBit(x, i, bits) < Pow2(bits)
    ensures GetBit(ClearBit(x, i, bits), j) <==> i != j && GetBit(x, j)
  {
    Pow2Mono(i, bits);
    var m := Not(Pow2(i), bits);
    AndBound(x, m);
    AndBit(x, m, j);
    Pow2Bit(i, j);
    if j < bits {
      NotBit(Pow2(i), bits, j);
    } else if GetBit(x, j) {
      BitsBelowWidth(x, j, bits);
    }
  }
}
