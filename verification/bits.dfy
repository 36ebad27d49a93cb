/** Bit-level view of a non-negative big integer, as `math/big` exposes it:
    `BitLen`, `Bit(i)` and right shift. Used for exponent scanning in the
    field layer and for the curve parameter `x` that drives the Miller loop. */
module Bits {
  import opened ModArith

  /** Number of bits needed to write `n`; 0 for `n == 0`. */
  function BitLen(n: nat): nat
  {
    if n == 0 then 0 else 1 + BitLen(n / 2)
  }

  /** `(n >> i) & 1 == 1`. */
  function Bit(n: nat, i: nat): bool
  {
    if i == 0 then n % 2 == 1 else Bit(n / 2, i - 1)
  }

  /** `n >> i`. */
  function Shift(n: nat, i: nat): nat
  {
    if i == 0 then n else Shift(n / 2, i - 1)
  }

  /** Number of set bits of `n`. */
  function PopCount(n: nat): nat
  {
    if n == 0 then 0 else n % 2 + PopCount(n / 2)
  }

  /** Number of set bits of `n` among bits `0 .. k-1`. */
  function PopCountBelow(n: nat, k: nat): nat
  {
    if k == 0 then 0 else (if Bit(n, k - 1) then 1 else 0) + PopCountBelow(n, k - 1)
  }

  lemma {:induction false} BitIsShiftParity(n: nat, i: nat)
    ensures Bit(n, i) <==> Shift(n, i) % 2 == 1
    decreases i
  {
    if i > 0 {
      BitIsShiftParity(n / 2, i - 1);
    }
  }

  /** Shifting one more place halves the shifted value. */
  lemma {:induction false} ShiftSucc(n: nat, i: nat)
    ensures Shift(n, i + 1) == Shift(n, i) / 2
    decreases i
  {
    if i > 0 {
      ShiftSucc(n / 2, i - 1);
    }
  }

  /** Shifting past the bit length leaves nothing. */
  lemma {:induction false} ShiftPastLen(n: nat, i: nat)
    requires i >= BitLen(n)
    ensures Shift(n, i) == 0
    decreases i
  {
    if i > 0 {
      ShiftPastLen(n / 2, i - 1);
    }
  }

  /** Bit `BitLen(n) - 1` of a positive number is set. */
  lemma {:induction false} TopBitSet(n: nat)
    requires n > 0
    ensures Bit(n, BitLen(n) - 1)
    decreases n
  {
    if n / 2 > 0 {
      TopBitSet(n / 2);
    }
  }

  /** Counting the bits below the bit length counts all of them. */
  lemma {:induction false} PopCountBelowLen(n: nat)
    ensures PopCountBelow(n, BitLen(n)) == PopCount(n)
    decreases n
  {
    if n > 0 {
      PopCountBelowLen(n / 2);
      PopCountBelowHalf(n, BitLen(n / 2));
    }
  }

  /** Bits of `n` below `k + 1` are bit 0 followed by the bits of `n / 2` below `k`. */
  lemma {:induction false} PopCountBelowHalf(n: nat, k: nat)
    ensures PopCountBelow(n, k + 1) == n % 2 + PopCountBelow(n / 2, k)
    decreases k
  {
    if k > 0 {
      PopCountBelowHalf(n, k - 1);
    }
  }

  /** Appending `k` low bits below a positive `m` adds `k` to the bit length. */
  lemma {:induction false} BitLenLowBits(m: nat, b: nat, k: nat)
    requires m > 0 && b < Pow2(k)
    ensures BitLen(Pow2(k) * m + b) == k + BitLen(m)
    decreases k
  {
    if k > 0 {
      var n := Pow2(k) * m + b;
      DoubleTimes(Pow2(k - 1), m);
      assert n / 2 == Pow2(k - 1) * m + b / 2;
      BitLenLowBits(m, b / 2, k - 1);
    }
  }

  /** Appending `k` low bits moves every bit of `m` up by `k`. */
  lemma {:induction false} BitLowBits(m: nat, b: nat, k: nat, i: nat)
    requires b < Pow2(k)
    ensures Bit(Pow2(k) * m + b, i + k) == Bit(m, i)
    decreases k
  {
    if k > 0 {
      var n := Pow2(k) * m + b;
      DoubleTimes(Pow2(k - 1), m);
      assert n / 2 == Pow2(k - 1) * m + b / 2;
      BitLowBits(m, b / 2, k - 1, i);
    }
  }

  /** Appending `k` low bits holding `b` adds exactly the set bits of `b`. */
  lemma {:induction false} PopCountLowBits(m: nat, b: nat, k: nat)
    requires b < Pow2(k)
    ensures PopCount(Pow2(k) * m + b) == PopCount(b) + PopCount(m)
    decreases k
  {
    if k == 0 {
      assert b == 0;
    } else {
      var n := Pow2(k) * m + b;
      DoubleTimes(Pow2(k - 1), m);
      assert n / 2 == Pow2(k - 1) * m + b / 2;
      assert n % 2 == b % 2;
      PopCountLowBits(m, b / 2, k - 1);
      if n > 0 {
        assert PopCount(n) == n % 2 + PopCount(n / 2);
      }
      if b > 0 {
        assert PopCount(b) == b % 2 + PopCount(b / 2);
      }
    }
  }

  /** The three facts above for a number `n` given as `m` followed by `k` low bits `b`. */
  lemma Appended(n: nat, m: nat, b: nat, k: nat, i: nat)
    requires b < Pow2(k) && n == Pow2(k) * m + b
    ensures m > 0 ==> BitLen(n) == k + BitLen(m)
    ensures Bit(n, i + k) == Bit(m, i)
    ensures PopCount(n) == PopCount(b) + PopCount(m)
  {
    if m > 0 {
      BitLenLowBits(m, b, k);
    }
    BitLowBits(m, b, k, i);
    PopCountLowBits(m, b, k);
  }
}
