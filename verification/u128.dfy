/** The 128-bit mask of wildcard depths, with each bitwise operation written out on the integer it denotes. */
module U128 {

  const BITS := 128
  type u128 = x: int | 0 <= x < Pow2(BITS)

  function Pow2(n: nat): (p: nat)
    ensures p >= 1
  {
    if n == 0 then 1 else 2 * Pow2(n - 1)
  }

  /** Bit `i` of `x`. */
  predicate Bit(x: nat, i: nat) {
    if i == 0 then x % 2 == 1 else Bit(x / 2, i - 1)
  }

  function BitAnd(x: nat, y: nat): (z: nat)
    ensures z <= x
  {
    if x == 0 then 0 else (if x % 2 == 1 && y % 2 == 1 then 1 else 0) + 2 * BitAnd(x / 2, y / 2)
  }

  function BitOr(x: nat, y: nat): (z: nat)
    decreases x + y
  {
    if x == 0 then y
    else if y == 0 then x
    else (if x % 2 == 1 || y % 2 == 1 then 1 else 0) + 2 * BitOr(x / 2, y / 2)
  }

  function BitNot(x: u128): u128 {
    Pow2(BITS) - 1 - x
  }

  /** Position of the highest set bit, plus one; zero for zero. */
  function BitLength(x: nat): (n: nat) {
    if x == 0 then 0 else 1 + BitLength(x / 2)
  }

  function LeadingZeros(x: u128): (n: nat)
    ensures x != 0 ==> n < BITS
  {
    BitLengthBound(x, BITS);
    BITS - BitLength(x)
  }

  lemma {:induction false} Pow2Mono(m: nat, n: nat)
    requires m < n
    ensures Pow2(m) < Pow2(n)
  {
    if m < n - 1 { Pow2Mono(m, n - 1); }
  }

  lemma Pow2Fits(d: nat)
    requires d < BITS
    ensures Pow2(d) < Pow2(BITS)
  {
    Pow2Mono(d, BITS);
  }

  /** `1u128 << d`. */
  function OneShl(d: nat): u128
    requires d < BITS
  {
    Pow2Fits(d);
    Pow2(d)
  }

  lemma {:induction false} BitLengthBound(x: nat, n: nat)
    ensures x < Pow2(n) <==> BitLength(x) <= n
  {
    if n == 0 || x == 0 {
    } else {
      BitLengthBound(x / 2, n - 1);
    }
  }

  lemma {:induction false} ZeroHasNoBits(i: nat)
    ensures !Bit(0, i)
  {
    if i > 0 { ZeroHasNoBits(i - 1); }
  }

  lemma {:induction false} BitOfAnd(x: nat, y: nat, i: nat)
    ensures Bit(BitAnd(x, y), i) <==> Bit(x, i) && Bit(y, i)
  {
    if x == 0 {
      ZeroHasNoBits(i);
    } else if i > 0 {
      assert BitAnd(x, y) / 2 == BitAnd(x / 2, y / 2);
      BitOfAnd(x / 2, y / 2, i - 1);
    }
  }

  lemma OrHalves(x: nat, y: nat)
    requires x != 0 && y != 0
    ensures BitOr(x, y) / 2 == BitOr(x / 2, y / 2)
    ensures BitOr(x, y) % 2 == 1 <==> x % 2 == 1 || y % 2 == 1
  {
  }

  lemma {:induction false} BitOfOr(x: nat, y: nat, i: nat)
    ensures Bit(BitOr(x, y), i) <==> Bit(x, i) || Bit(y, i)
    decreases i
  {
    if x == 0 || y == 0 {
      ZeroHasNoBits(i);
    } else {
      OrHalves(x, y);
      if i > 0 { BitOfOr(x / 2, y / 2, i - 1); }
    }
  }

  lemma {:induction false} OrFits(x: nat, y: nat, n: nat)
    requires x < Pow2(n) && y < Pow2(n)
    ensures BitOr(x, y) < Pow2(n)
    decreases n
  {
    if x != 0 && y != 0 && n > 0 { OrFits(x / 2, y / 2, n - 1); }
  }

  lemma {:induction false} BitOfComplement(x: nat, n: nat, i: nat)
    requires x < Pow2(n) && i < n
    ensures Bit(Pow2(n) - 1 - x, i) <==> !Bit(x, i)
  {
    if i > 0 {
      assert (Pow2(n) - 1 - x) / 2 == Pow2(n - 1) - 1 - x / 2;
      BitOfComplement(x / 2, n - 1, i - 1);
    }
  }

  lemma BitOfNot(x: u128, i: nat)
    requires i < BITS
    ensures Bit(BitNot(x), i) <==> !Bit(x, i)
  {
    BitOfComplement(x, BITS, i);
  }

  lemma {:induction false} BitOfPow2(d: nat, i: nat)
    ensures Bit(Pow2(d), i) <==> i == d
  {
    if d == 0 {
      if i > 0 { ZeroHasNoBits(i - 1); }
    } else if i > 0 {
      assert Pow2(d) / 2 == Pow2(d - 1);
      BitOfPow2(d - 1, i - 1);
    }
  }

  /** `(1 << n) - 1` is exactly the bits below `n`. */
  lemma {:induction false} BitOfLowMask(n: nat, i: nat)
    ensures Bit(Pow2(n) - 1, i) <==> i < n
  {
    if n == 0 {
      ZeroHasNoBits(i);
    } else if i > 0 {
      assert (Pow2(n) - 1) / 2 == Pow2(n - 1) - 1;
      BitOfLowMask(n - 1, i - 1);
    }
  }

  /** `127 - leading_zeros` is a set bit and nothing above it is set. */
  lemma {:induction false} HighestBit(x: nat)
    requires x != 0
    ensures Bit(x, BitLength(x) - 1)
    ensures forall i: nat | i >= BitLength(x) :: !Bit(x, i)
  {
    if x / 2 != 0 { HighestBit(x / 2); }
    forall i: nat | i >= BitLength(x) ensures !Bit(x, i) {
      if x / 2 == 0 { ZeroHasNoBits(i - 1); } else { assert i - 1 >= BitLength(x / 2); }
    }
  }
}
