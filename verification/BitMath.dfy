/** Rounding helpers of lib/common.h: aligned_to and next_power_of_two. */
module BitMath {
  import opened Arithmetic

  const SIZE_MAX := 0xffff_ffff_ffff_ffff

  ghost function Pow2(k: nat): (p: nat)
    ensures p >= 1
  {
    if k == 0 then 1 else 2 * Pow2(k - 1)
  }

  ghost predicate PowerOfTwo(n: nat) {
    exists k: nat :: n == Pow2(k)
  }

  lemma DoublePowerOfTwo(n: nat)
    requires PowerOfTwo(n)
    ensures PowerOfTwo(2 * n)
  {
    var k: nat :| n == Pow2(k);
    assert 2 * n == Pow2(k + 1);
  }

  lemma {:induction false} Pow2Monotone(a: nat, b: nat)
    requires a <= b
    ensures Pow2(a) <= Pow2(b)
  {
    if a < b { Pow2Monotone(a, b - 1); }
  }

  /** No power of two lies strictly between a power of two and its double. */
  lemma NoPowerBetween(p: nat, n: nat)
    requires PowerOfTwo(p) && PowerOfTwo(n) && p < n
    ensures 2 * p <= n
  {
    var j: nat :| p == Pow2(j);
    var k: nat :| n == Pow2(k);
    if k <= j { Pow2Monotone(k, j); } else { Pow2Monotone(j + 1, k); }
  }

  /** The least power of two that is at least n. */
  ghost predicate IsCeilingPower(n: nat, p: nat) {
    PowerOfTwo(p) && n <= p && forall q: nat :: PowerOfTwo(q) && n <= q ==> p <= q
  }

  method NextPowerOfTwo(value: nat) returns (result: nat)
    ensures IsCeilingPower(value, result)
    ensures value <= 1 || result < 2 * value
  {
    result := 1;
    assert Pow2(0) == 1;
    while result < value
      invariant PowerOfTwo(result)
      invariant result == 1 || result < 2 * value
      invariant forall q: nat :: PowerOfTwo(q) && value <= q ==> result <= q
      decreases value - result
    {
      DoublePowerOfTwo(result);
      forall q: nat | PowerOfTwo(q) && value <= q
        ensures 2 * result <= q
      {
        NoPowerBetween(result, q);
      }
      result := 2 * result;
    }
  }

  /** The result after k turns of the loop in 64-bit arithmetic, where the last bit is shifted out. */
  function Shifted(k: nat): nat {
    if k == 0 then 1
    else
      var twice := 2 * Shifted(k - 1);
      if twice <= SIZE_MAX then twice else twice - (SIZE_MAX + 1)
  }

  lemma {:induction false} ShiftedIsPow2(k: nat)
    ensures Shifted(k) == if k <= 63 then Pow2(k) else 0
  {
    if k > 0 {
      ShiftedIsPow2(k - 1);
      PowersFit(k);
    }
  }

  lemma PowersFit(k: nat)
    ensures k <= 63 ==> Pow2(k) <= SIZE_MAX
    ensures k == 64 ==> Pow2(k) == SIZE_MAX + 1
  {
    Pow2Of64();
    if k <= 63 { Pow2Monotone(k, 63); }
  }

  /** In 64-bit arithmetic the loop ends exactly for arguments up to 2^63, after values that all fit. */
  lemma ReturnsIff(value: nat)
    ensures (exists k :: Shifted(k) >= value) <==> value <= Pow2(63)
    ensures CeilingPower(value) <= SIZE_MAX <==> value <= Pow2(63)
  {
    Pow2Of64();
    if exists k :: Shifted(k) >= value {
      var k :| Shifted(k) >= value;
      ShiftedIsPow2(k);
      if k <= 63 { Pow2Monotone(k, 63); }
    }
    ShiftedIsPow2(63);
    if CeilingPower(value) > Pow2(63) { NoPowerBetween(Pow2(63), CeilingPower(value)); }
  }

  /** The value NextPowerOfTwo computes, as a function. */
  ghost function CeilingPower(n: nat): (p: nat)
    ensures IsCeilingPower(n, p)
  {
    if n <= 1 then
      assert Pow2(0) == 1;
      1
    else
      var half := CeilingPower((n + 1) / 2);
      DoubleCeiling(n, half);
      2 * half
  }

  lemma DoubleCeiling(n: nat, half: nat)
    requires n >= 2 && IsCeilingPower((n + 1) / 2, half)
    ensures IsCeilingPower(n, 2 * half)
  {
    DoublePowerOfTwo(half);
    forall q: nat | PowerOfTwo(q) && n <= q
      ensures 2 * half <= q
    {
      var k: nat :| q == Pow2(k);
      assert q == 2 * Pow2(k - 1);
      assert PowerOfTwo(Pow2(k - 1));
    }
  }

  // ----- aligned_to: (size + alignment - 1) & ~(alignment - 1), bit by bit

  /** Bitwise and of two unsigned values. */
  function BitAnd(x: nat, y: nat): (r: nat)
    decreases x
  {
    if x == 0 then 0 else 2 * BitAnd(x / 2, y / 2) + if x % 2 == 1 && y % 2 == 1 then 1 else 0
  }

  /** Bitwise complement in 64 bits. */
  function BitNot(x: nat): nat
    requires x <= SIZE_MAX
  {
    SIZE_MAX - x
  }

  function RoundDown(x: nat, p: nat): nat
    requires p > 0
  {
    x / p * p
  }

  /** The first multiple of `alignment` at or above `size`, counting up in steps of `alignment`. */
  function AlignUp(size: nat, alignment: nat): (r: nat)
    requires alignment > 0
    ensures size <= r < size + alignment
  {
    if size == 0 then 0
    else if size <= alignment then alignment
    else alignment + AlignUp(size - alignment, alignment)
  }

  function AlignedTo(size: nat, alignment: nat): nat
    requires 0 < alignment && size + alignment - 1 <= SIZE_MAX
  {
    BitAnd(size + alignment - 1, BitNot(alignment - 1))
  }

  /** x & (Pow2(w) - Pow2(k)) clears the k low bits of any x below Pow2(w). */
  lemma {:induction false} MaskClearsLowBits(x: nat, k: nat, w: nat)
    requires k <= w && x < Pow2(w)
    ensures Pow2(k) <= Pow2(w)
    ensures BitAnd(x, Pow2(w) - Pow2(k)) == RoundDown(x, Pow2(k))
    decreases w
  {
    Pow2Monotone(k, w);
    if k == 0 {
      MaskOfOnes(x, w);
      assert RoundDown(x, 1) == x;
    } else {
      MaskClearsLowBits(x / 2, k - 1, w - 1);
      MaskStep(x, Pow2(k - 1), Pow2(w - 1));
    }
  }

  lemma MaskStep(x: nat, p: nat, q: nat)
    requires 0 < p <= q && BitAnd(x / 2, q - p) == RoundDown(x / 2, p)
    ensures BitAnd(x, 2 * q - 2 * p) == RoundDown(x, 2 * p)
  {
    EvenMask(x, q - p);
    HalveQuotient(x, p);
  }

  lemma {:induction false} EvenMask(x: nat, m: nat)
    ensures BitAnd(x, 2 * m) == 2 * BitAnd(x / 2, m)
  {
  }

  lemma {:induction false} MaskOfOnes(x: nat, w: nat)
    requires x < Pow2(w)
    ensures BitAnd(x, Pow2(w) - 1) == x
    decreases w
  {
    if x > 0 {
      MaskOfOnes(x / 2, w - 1);
      OddMask(x, Pow2(w - 1) - 1);
    }
  }

  lemma {:induction false} OddMask(x: nat, m: nat)
    ensures BitAnd(x, 2 * m + 1) == 2 * BitAnd(x / 2, m) + x % 2
  {
  }

  lemma HalveQuotient(x: nat, p: nat)
    requires p > 0
    ensures 2 * RoundDown(x / 2, p) == RoundDown(x, 2 * p)
  {
    var q, r := x / (2 * p), x % (2 * p);
    assert x == 2 * p * q + r;
    assert x / 2 == p * q + r / 2 && r / 2 < p by { assert 2 * p * q == 2 * (p * q); }
    DivisionIsUnique(x / 2, p, q, r / 2);
    assert 2 * (q * p) == q * (2 * p);
  }

  /** For a power-of-two alignment the bit expression is rounding up, and the result is the least
      multiple of the alignment that is not below the size. */
  lemma AlignedToRoundsUp(size: nat, k: nat)
    requires size + Pow2(k) - 1 <= SIZE_MAX
    ensures AlignedTo(size, Pow2(k)) == AlignUp(size, Pow2(k))
    ensures size <= AlignedTo(size, Pow2(k)) < size + Pow2(k)
    ensures AlignedTo(size, Pow2(k)) % Pow2(k) == 0
  {
    Pow2Of64();
    if k > 64 { Pow2Monotone(65, k); }
    MaskClearsLowBits(size + Pow2(k) - 1, k, 64);
    AlignUpRoundsDown(size, Pow2(k));
  }

  lemma Pow2Of64()
    ensures Pow2(64) == SIZE_MAX + 1
    ensures Pow2(65) == 2 * (SIZE_MAX + 1)
  {
    Pow2Of32();
    Pow2Sum(32, 32);
  }

  lemma Pow2Of32()
    ensures Pow2(32) == 0x1_0000_0000
  {
    assert Pow2(8) == 256;
    Pow2Sum(8, 8);
    Pow2Sum(16, 16);
  }

  lemma {:induction false} Pow2Sum(a: nat, b: nat)
    ensures Pow2(a + b) == Pow2(a) * Pow2(b)
  {
    if b > 0 {
      Pow2Sum(a, b - 1);
      assert Pow2(a) * (2 * Pow2(b - 1)) == 2 * (Pow2(a) * Pow2(b - 1));
    }
  }

  lemma RoundDownIsMultiple(x: nat, p: nat)
    requires p > 0
    ensures RoundDown(x, p) % p == 0 && RoundDown(x + p, p) == RoundDown(x, p) + p
  {
    var q, r := x / p, x % p;
    assert x == p * q + r && p * q == q * p;
    DivisionIsUnique(q * p, p, q, 0);
    assert p * (q + 1) == p * q + p == (q + 1) * p;
    DivisionIsUnique(x + p, p, q + 1, r);
  }

  lemma {:induction false} AlignUpRoundsDown(size: nat, alignment: nat)
    requires alignment > 0
    ensures AlignUp(size, alignment) == RoundDown(size + alignment - 1, alignment)
    ensures AlignUp(size, alignment) % alignment == 0
  {
    RoundDownIsMultiple(size + alignment - 1, alignment);
    if size == 0 {
      DivisionIsUnique(alignment - 1, alignment, 0, alignment - 1);
    } else if size <= alignment {
      DivisionIsUnique(size + alignment - 1, alignment, 1, size - 1);
    } else {
      AlignUpRoundsDown(size - alignment, alignment);
      RoundDownIsMultiple(size - 1, alignment);
    }
  }
}
