/** Python's unbounded integer bit operations, restricted to the naturals, and
    the two bit permutations of a condensed BIT-MASK: gathering the bits a mask
    selects into the low-order positions, and scattering them back. */
module Bits {

  function Pow2(n: nat): (r: nat)
    ensures r >= 1
  {
    if n == 0 then 1 else 2 * Pow2(n - 1)
  }

  /** Bit `j` of `x`, i.e. `x & (1 << j) != 0`. */
  predicate Bit(x: nat, j: nat)
  {
    if j == 0 then x % 2 == 1 else Bit(x / 2, j - 1)
  }

  /** `a & b` */
  function And(a: nat, b: nat): nat
  {
    if a == 0 || b == 0 then 0
    else 2 * And(a / 2, b / 2) + (if a % 2 == 1 && b % 2 == 1 then 1 else 0)
  }

  /** `a | b` */
  function Or(a: nat, b: nat): nat
  {
    if a == 0 then b
    else if b == 0 then a
    else 2 * Or(a / 2, b / 2) + (if a % 2 == 1 || b % 2 == 1 then 1 else 0)
  }

  /** Number of one bits, `bin(m).count("1")`. */
  function Popcount(m: nat): nat
  {
    if m == 0 then 0 else m % 2 + Popcount(m / 2)
  }

  /** The `j` low-order bits of `x`, i.e. `x & ((1 << j) - 1)`. */
  function Low(x: nat, j: nat): nat
  {
    if j == 0 then 0 else x % 2 + 2 * Low(x / 2, j - 1)
  }

  /** Condensed apply: bit k of the result is the bit of `v` at the position of
      the k-th one bit of `m`, counted upwards from the least significant. */
  function Gather(v: nat, m: nat): nat
  {
    if m == 0 then 0
    else if m % 2 == 1 then v % 2 + 2 * Gather(v / 2, m / 2)
    else Gather(v / 2, m / 2)
  }

  /** Condensed unapply: bit k of `r` is placed at the position of the k-th
      one bit of `m`; every other bit of the result is zero. */
  function Scatter(r: nat, m: nat): nat
  {
    if m == 0 then 0
    else if m % 2 == 1 then r % 2 + 2 * Scatter(r / 2, m / 2)
    else 2 * Scatter(r, m / 2)
  }

  /** Position of the k-th one bit of `m` (k counted from 0). */
  function NthSetBit(m: nat, k: nat): (p: nat)
    requires k < Popcount(m)
    ensures Bit(m, p)
  {
    if m % 2 == 1 then
      if k == 0 then 0 else 1 + NthSetBit(m / 2, k - 1)
    else
      1 + NthSetBit(m / 2, k)
  }

  // ---------------------------------------------------------------------
  // Powers of two and single bits

  lemma {:induction false} Pow2Grows(n: nat)
    ensures n < Pow2(n)
  {
    if n > 0 { Pow2Grows(n - 1); }
  }

  lemma {:induction false} Pow2Monotone(a: nat, b: nat)
    requires a <= b
    ensures Pow2(a) <= Pow2(b)
  {
    if a < b { Pow2Monotone(a, b - 1); }
  }

  lemma {:induction false} Pow2Add(a: nat, b: nat)
    ensures Pow2(a + b) == Pow2(a) * Pow2(b)
  {
    if b > 0 {
      Pow2Add(a, b - 1);
      assert Pow2(a + b) == 2 * Pow2(a + b - 1);
    }
  }

  /** `x & (1 << j)` is `1 << j` when bit j is set and 0 otherwise. */
  lemma {:induction false} AndPow2(x: nat, j: nat)
    ensures And(x, Pow2(j)) == if Bit(x, j) then Pow2(j) else 0
  {
    if j > 0 {
      AndPow2(x / 2, j - 1);
      assert Pow2(j) == 2 * Pow2(j - 1);
    }
  }

  /** `a | (1 << k)` adds `1 << k` to a value below it. */
  lemma {:induction false} OrPow2(a: nat, k: nat)
    requires a < Pow2(k)
    ensures Or(a, Pow2(k)) == a + Pow2(k)
  {
    if k > 0 && a > 0 {
      OrPow2(a / 2, k - 1);
    }
  }

  /** AND is bitwise: a bit of `a & b` is set iff it is set in both. */
  lemma {:induction false} AndBit(a: nat, b: nat, i: nat)
    ensures Bit(And(a, b), i) <==> Bit(a, i) && Bit(b, i)
  {
    if i > 0 {
      AndBit(a / 2, b / 2, i - 1);
      if a == 0 { ZeroHasNoBits(i); ZeroHasNoBits(i - 1); }
      if b == 0 { ZeroHasNoBits(i); ZeroHasNoBits(i - 1); }
    }
  }

  lemma {:induction false} ZeroHasNoBits(i: nat)
    ensures !Bit(0, i)
  {
    if i > 0 { ZeroHasNoBits(i - 1); }
  }

  /** Masking twice is masking once. */
  lemma {:induction false} AndIdempotent(v: nat, m: nat)
    ensures And(And(v, m), m) == And(v, m)
  {
    if v != 0 && m != 0 {
      AndIdempotent(v / 2, m / 2);
    }
  }

  /** A masked value is no larger than either operand. */
  lemma {:induction false} AndBelow(a: nat, b: nat)
    ensures And(a, b) <= a && And(a, b) <= b
  {
    if a != 0 && b != 0 { AndBelow(a / 2, b / 2); }
  }

  // ---------------------------------------------------------------------
  // Low-order bits

  lemma {:induction false} LowBelow(x: nat, j: nat)
    ensures Low(x, j) < Pow2(j)
  {
    if j > 0 { LowBelow(x / 2, j - 1); }
  }

  /** A value below `2^j` is its own `j` low-order bits. */
  lemma {:induction false} LowOfSmall(x: nat, j: nat)
    requires x < Pow2(j)
    ensures Low(x, j) == x
  {
    if j > 0 { LowOfSmall(x / 2, j - 1); }
  }

  lemma {:induction false} PopcountStep(m: nat, j: nat)
    ensures Popcount(Low(m, j + 1)) == Popcount(Low(m, j)) + (if Bit(m, j) then 1 else 0)
  {
    if j > 0 {
      PopcountStep(m / 2, j - 1);
      LowParts(m, j + 1);
      LowParts(m, j);
      PopcountUnfold(Low(m, j + 1));
      PopcountUnfold(Low(m, j));
      assert Bit(m, j) == Bit(m / 2, j - 1);
    }
  }

  // ---------------------------------------------------------------------
  // Gather: the loop's step, its bound, its meaning

  /** One iteration of the condensed apply loop: looking at mask bit j adds the
      value's bit j at the next free result position. */
  lemma {:induction false} GatherStep(v: nat, m: nat, j: nat)
    ensures Gather(Low(v, j + 1), Low(m, j + 1))
         == Gather(Low(v, j), Low(m, j))
            + (if Bit(m, j) && Bit(v, j) then Pow2(Popcount(Low(m, j))) else 0)
  {
    if j > 0 {
      GatherStep(v / 2, m / 2, j - 1);
      var lv, lm := Low(v, j + 1), Low(m, j + 1);
      var pv, pm := Low(v, j), Low(m, j);
      LowParts(v, j + 1);
      LowParts(m, j + 1);
      LowParts(v, j);
      LowParts(m, j);
      GatherUnfold(lv, lm);
      GatherUnfold(pv, pm);
      PopcountUnfold(pm);
      var inner := Popcount(Low(m / 2, j - 1));
      if m % 2 == 1 {
        assert Popcount(pm) == inner + 1;
        assert Pow2(Popcount(pm)) == 2 * Pow2(inner);
      } else {
        assert Popcount(pm) == inner;
      }
    }
  }

  /** The lowest bit and the rest of `Low(x, j)`. */
  lemma LowParts(x: nat, j: nat)
    requires j > 0
    ensures Low(x, j) % 2 == x % 2 && Low(x, j) / 2 == Low(x / 2, j - 1)
  {
    var rest := Low(x / 2, j - 1);
    assert Low(x, j) == x % 2 + 2 * rest;
    HalfOf(x % 2, rest);
  }

  /** Dividing `a + 2 * b` by two, for a single bit `a`. */
  lemma HalfOf(a: nat, b: nat)
    requires a < 2
    ensures (a + 2 * b) % 2 == a && (a + 2 * b) / 2 == b
  {
  }

  lemma GatherUnfold(v: nat, m: nat)
    ensures Gather(v, m)
         == if m % 2 == 1 then v % 2 + 2 * Gather(v / 2, m / 2) else Gather(v / 2, m / 2)
  {
  }

  lemma ScatterUnfold(r: nat, m: nat)
    ensures Scatter(r, m)
         == if m % 2 == 1 then r % 2 + 2 * Scatter(r / 2, m / 2) else 2 * Scatter(r, m / 2)
  {
  }

  lemma PopcountUnfold(m: nat)
    ensures Popcount(m) == m % 2 + Popcount(m / 2)
  {
  }

  /** Bits of `v` above the mask do not matter. */
  lemma {:induction false} GatherOfLow(v: nat, m: nat, j: nat)
    requires m < Pow2(j)
    ensures Gather(Low(v, j), m) == Gather(v, m)
  {
    if m > 0 {
      assert j > 0;
      GatherOfLow(v / 2, m / 2, j - 1);
    }
  }

  /** The condensed value fits in popcount(mask) bits. */
  lemma {:induction false} GatherBelow(v: nat, m: nat)
    ensures Gather(v, m) < Pow2(Popcount(m))
  {
    if m > 0 { GatherBelow(v / 2, m / 2); }
  }

  /** Gathering only moves bits downwards, so it never grows the value. */
  lemma {:induction false} GatherAtMost(v: nat, m: nat)
    ensures Gather(v, m) <= v
  {
    if m > 0 { GatherAtMost(v / 2, m / 2); }
  }

  /** Only the masked bits of `v` are read. */
  lemma {:induction false} GatherOfMasked(v: nat, m: nat)
    ensures Gather(And(v, m), m) == Gather(v, m)
  {
    if m > 0 {
      GatherOfMasked(v / 2, m / 2);
      if v == 0 { assert And(v, m) == 0; }
    }
  }

  /** Result bit k is the value's bit at the k-th one bit of the mask. */
  lemma {:induction false} GatherBit(v: nat, m: nat, k: nat)
    requires k < Popcount(m)
    ensures Bit(Gather(v, m), k) <==> Bit(v, NthSetBit(m, k))
  {
    if m % 2 == 1 {
      if k > 0 { GatherBit(v / 2, m / 2, k - 1); }
    } else {
      GatherBit(v / 2, m / 2, k);
    }
  }

  // ---------------------------------------------------------------------
  // Scatter: the loop's step, its meaning, and the two inverse laws

  /** One iteration of the condensed unapply loop: looking at mask bit j
      places the next unread input bit at position j. */
  lemma {:induction false} ScatterStep(r: nat, m: nat, j: nat)
    ensures Scatter(r, Low(m, j + 1))
         == Scatter(r, Low(m, j))
            + (if Bit(m, j) && Bit(r, Popcount(Low(m, j))) then Pow2(j) else 0)
  {
    if j > 0 {
      var lm, pm := Low(m, j + 1), Low(m, j);
      LowParts(m, j + 1);
      LowParts(m, j);
      ScatterUnfold(r, lm);
      ScatterUnfold(r, pm);
      PopcountUnfold(pm);
      assert Pow2(j) == 2 * Pow2(j - 1);
      var inner := Popcount(Low(m / 2, j - 1));
      if m % 2 == 1 {
        ScatterStep(r / 2, m / 2, j - 1);
        assert Popcount(pm) == inner + 1;
        assert Bit(r, inner + 1) == Bit(r / 2, inner);
      } else {
        ScatterStep(r, m / 2, j - 1);
        assert Popcount(pm) == inner;
      }
    }
  }

  /** Every set bit of a scattered value lies inside the mask. */
  lemma {:induction false} ScatterInsideMask(r: nat, m: nat, i: nat)
    ensures Bit(Scatter(r, m), i) ==> Bit(m, i)
  {
    if m == 0 {
      ZeroHasNoBits(i);
    } else if i > 0 {
      if m % 2 == 1 { ScatterInsideMask(r / 2, m / 2, i - 1); }
      else { ScatterInsideMask(r, m / 2, i - 1); }
    }
  }

  /** Bit k of the input lands on the k-th one bit of the mask. */
  lemma {:induction false} ScatterBit(r: nat, m: nat, k: nat)
    requires k < Popcount(m)
    ensures Bit(Scatter(r, m), NthSetBit(m, k)) <==> Bit(r, k)
  {
    if m % 2 == 1 {
      if k > 0 { ScatterBit(r / 2, m / 2, k - 1); }
    } else {
      ScatterBit(r, m / 2, k);
    }
  }

  /** Scattering a gathered value restores exactly the masked bits. */
  lemma {:induction false} ScatterGather(v: nat, m: nat)
    ensures Scatter(Gather(v, m), m) == And(v, m)
  {
    if m > 0 {
      ScatterGather(v / 2, m / 2);
      if v == 0 { assert And(v / 2, m / 2) == 0; }
    }
  }

  /** Gathering a scattered value gives back the popcount(mask) low bits. */
  lemma {:induction false} GatherScatter(r: nat, m: nat)
    ensures Gather(Scatter(r, m), m) == Low(r, Popcount(m))
  {
    if m > 0 {
      if m % 2 == 1 { GatherScatter(r / 2, m / 2); }
      else { GatherScatter(r, m / 2); }
    }
  }

  /** A scattered value is never larger than the mask. */
  lemma {:induction false} ScatterAtMost(r: nat, m: nat)
    ensures Scatter(r, m) <= m
  {
    if m > 0 {
      if m % 2 == 1 { ScatterAtMost(r / 2, m / 2); }
      else { ScatterAtMost(r, m / 2); }
    }
  }

  // ---------------------------------------------------------------------
  // The two bit-by-bit loops of StandardLengthType

  /** `((x & (1 << j)) >> j) << k` is `1 << k` when bit j of x is set, else 0. */
  lemma MovedBit(x: nat, j: nat, k: nat)
    ensures And(x, Pow2(j)) / Pow2(j) * Pow2(k) == if Bit(x, j) then Pow2(k) else 0
  {
    AndPow2(x, j);
    var p := Pow2(j);
    if Bit(x, j) {
      assert And(x, p) / p == 1;
    } else {
      assert And(x, p) / p == 0;
    }
  }

  /** OR-ing a bit above every bit of `a` is addition. */
  lemma OrAbove(a: nat, k: nat, present: bool)
    requires a < Pow2(k)
    ensures Or(a, if present then Pow2(k) else 0) == a + (if present then Pow2(k) else 0)
  {
    if present { OrPow2(a, k); }
  }

  /** The condensed branch of `__apply_mask`. */
  method CondensedApply(value: nat, mask: nat) returns (result: nat)
    ensures result == Gather(value, mask)
  {
    result := 0;
    var maskBit: nat := 0;
    var resultBit: nat := 0;
    while Pow2(maskBit) <= mask
      invariant maskBit <= mask
      invariant resultBit == Popcount(Low(mask, maskBit))
      invariant result == Gather(Low(value, maskBit), Low(mask, maskBit))
      invariant result < Pow2(resultBit)
      decreases mask - maskBit
    {
      Pow2Grows(maskBit);
      GatherStep(value, mask, maskBit);
      PopcountStep(mask, maskBit);
      AndPow2(mask, maskBit);
      if And(mask, Pow2(maskBit)) != 0 {
        MovedBit(value, maskBit, resultBit);
        OrAbove(result, resultBit, Bit(value, maskBit));
        result := Or(result, And(value, Pow2(maskBit)) / Pow2(maskBit) * Pow2(resultBit));
        resultBit := resultBit + 1;
      }
      maskBit := maskBit + 1;
    }
    LowOfSmall(mask, maskBit);
    GatherOfLow(value, mask, maskBit);
  }

  /** The condensed branch of `__unapply_mask`. */
  method CondensedUnapply(raw: nat, mask: nat) returns (result: nat)
    ensures result == Scatter(raw, mask)
  {
    result := 0;
    var maskBit: nat := 0;
    var inputBit: nat := 0;
    while Pow2(maskBit) <= mask
      invariant maskBit <= mask
      invariant inputBit == Popcount(Low(mask, maskBit))
      invariant result == Scatter(raw, Low(mask, maskBit))
      invariant result < Pow2(maskBit)
      decreases mask - maskBit
    {
      Pow2Grows(maskBit);
      ScatterStep(raw, mask, maskBit);
      PopcountStep(mask, maskBit);
      AndPow2(mask, maskBit);
      if And(mask, Pow2(maskBit)) != 0 {
        MovedBit(raw, inputBit, maskBit);
        OrAbove(result, maskBit, Bit(raw, inputBit));
        result := Or(result, And(raw, Pow2(inputBit)) / Pow2(inputBit) * Pow2(maskBit));
        inputBit := inputBit + 1;
      }
      maskBit := maskBit + 1;
    }
    LowOfSmall(mask, maskBit);
  }
}
