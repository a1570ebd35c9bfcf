/**
 * The least power of two greater than a number, by smearing its highest bit
 * over all the lower ones. Words of width 2^k are numbers below 2^(2^k).
 */
module P2Ceil {

  function Pow2(k: nat): (p: nat)
    ensures p > 0
  {
    if k == 0 then 1 else 2 * Pow2(k - 1)
  }

  function Bit(n: nat, i: nat): bool {
    if i == 0 then n % 2 == 1 else Bit(n / 2, i - 1)
  }

  /** Bitwise or. */
  function Or(a: nat, b: nat): nat {
    if a == 0 && b == 0 then 0
    else 2 * Or(a / 2, b / 2) + if a % 2 == 1 || b % 2 == 1 then 1 else 0
  }

  /** Right shift. */
  function Shr(n: nat, shift: nat): nat {
    if shift == 0 then n else Shr(n / 2, shift - 1)
  }

  function Kernel(shift: nat, n: nat): nat {
    Or(n, Shr(n, shift))
  }

  /** The kernel with the shifts 1, 2, 4, ..., 2^(k-1). */
  function Smear(n: nat, k: nat): nat {
    if k == 0 then n else Kernel(Pow2(k - 1), Smear(n, k - 1))
  }

  /** `p2ceil` for words of width 2^k, where the sum wraps around. */
  function Ceil(n: nat, k: nat): nat {
    (1 + Smear(n, k)) % Pow2(Pow2(k))
  }

  function P2Ceil64(n: nat): nat {
    (1 + Kernel(32, Kernel(16, Kernel(8, Kernel(4, Kernel(2, Kernel(1, n))))))) % 0x1_0000_0000_0000_0000
  }

  function P2Ceil32(n: nat): nat {
    (1 + Kernel(16, Kernel(8, Kernel(4, Kernel(2, Kernel(1, n)))))) % 0x1_0000_0000
  }

  function P2Ceil16(n: nat): nat {
    (1 + Kernel(8, Kernel(4, Kernel(2, Kernel(1, n))))) % 0x1_0000
  }

  function P2Ceil8(n: nat): nat {
    (1 + Kernel(4, Kernel(2, Kernel(1, n)))) % 0x100
  }

  // ---------------------------------------------------------------------
  // Bits
  // ---------------------------------------------------------------------

  lemma {:induction false} OrBit(a: nat, b: nat, i: nat)
    ensures Bit(Or(a, b), i) <==> Bit(a, i) || Bit(b, i)
  {
    if a == 0 && b == 0 {
      ZeroBit(i);
    } else {
      var r := Or(a, b);
      assert r / 2 == Or(a / 2, b / 2);
      if i > 0 {
        OrBit(a / 2, b / 2, i - 1);
      }
    }
  }

  lemma {:induction false} ZeroBit(i: nat)
    ensures !Bit(0, i)
  {
    if i > 0 {
      ZeroBit(i - 1);
    }
  }

  lemma {:induction false} ShrBit(n: nat, shift: nat, i: nat)
    ensures Bit(Shr(n, shift), i) == Bit(n, i + shift)
  {
    if shift > 0 {
      ShrBit(n / 2, shift - 1, i);
    }
  }

  /** A number below a power of two has no bit from that power on, and conversely. */
  lemma {:induction false} BitsBelow(n: nat, k: nat, i: nat)
    requires n < Pow2(k) && k <= i
    ensures !Bit(n, i)
  {
    if k == 0 {
      ZeroBit(i);
    } else {
      BitsBelow(n / 2, k - 1, i - 1);
    }
  }

  lemma {:induction false} AllOnes(k: nat, i: nat)
    ensures Bit(Pow2(k) - 1, i) <==> i < k
  {
    if k == 0 {
      ZeroBit(i);
    } else if i > 0 {
      assert (Pow2(k) - 1) / 2 == Pow2(k - 1) - 1;
      AllOnes(k - 1, i - 1);
    }
  }

  /** Numbers with the same bits are equal. */
  lemma {:induction false} SameBits(a: nat, b: nat)
    requires forall i: nat :: Bit(a, i) == Bit(b, i)
    ensures a == b
    decreases a + b
  {
    assert Bit(a, 0) == Bit(b, 0);
    if a > 0 || b > 0 {
      forall i: nat
        ensures Bit(a / 2, i) == Bit(b / 2, i)
      {
        assert Bit(a, i + 1) == Bit(b, i + 1);
      }
      SameBits(a / 2, b / 2);
    }
  }

  /** The number of bits of a number; zero has none. */
  function BitLength(n: nat): (l: nat)
    ensures n < Pow2(l)
    ensures l > 0 ==> Pow2(l - 1) <= n
    ensures l == 0 <==> n == 0
  {
    if n == 0 then 0 else 1 + BitLength(n / 2)
  }

  lemma {:induction false} HighestBit(n: nat)
    requires n > 0
    ensures Bit(n, BitLength(n) - 1)
  {
    if n > 1 {
      HighestBit(n / 2);
    }
  }

  // ---------------------------------------------------------------------
  // Smearing
  // ---------------------------------------------------------------------

  ghost predicate AnyBit(n: nat, lo: nat, hi: nat) {
    exists j: nat :: lo <= j < hi && Bit(n, j)
  }

  /** After the shifts up to 2^(k-1), a bit is set when one of the 2^k bits from it up was. */
  lemma {:induction false} SmearReach(n: nat, k: nat, i: nat)
    ensures Bit(Smear(n, k), i) <==> AnyBit(n, i, i + Pow2(k))
  {
    if k > 0 {
      var half, s := Pow2(k - 1), Smear(n, k - 1);
      OrBit(s, Shr(s, half), i);
      ShrBit(s, half, i);
      SmearReach(n, k - 1, i);
      SmearReach(n, k - 1, i + half);
    }
  }

  /** Smearing sets every bit at or below the highest set bit, and no other. */
  lemma SmearFills(n: nat, k: nat, i: nat)
    requires n < Pow2(Pow2(k))
    ensures Bit(Smear(n, k), i) <==> i < BitLength(n)
  {
    SmearReach(n, k, i);
    var l := BitLength(n);
    LengthFits(n, Pow2(k));
    if i < l {
      HighestBit(n);
      assert i <= l - 1 < i + Pow2(k);
    } else {
      forall j: nat | i <= j
        ensures !Bit(n, j)
      {
        BitsBelow(n, l, j);
      }
    }
  }

  lemma {:induction false} Pow2Monotone(j: nat, k: nat)
    ensures j < k ==> Pow2(j) < Pow2(k)
    ensures j <= k ==> Pow2(j) <= Pow2(k)
    decreases k
  {
    if j < k {
      Pow2Monotone(j, k - 1);
    }
  }

  lemma LengthFits(n: nat, w: nat)
    requires n < Pow2(w)
    ensures BitLength(n) <= w
  {
    var l := BitLength(n);
    if l > 0 {
      Pow2Monotone(w, l - 1);
    }
  }

  /** The smeared number is one less than a power of two. */
  lemma SmearValue(n: nat, k: nat)
    requires n < Pow2(Pow2(k))
    ensures Smear(n, k) == Pow2(BitLength(n)) - 1
  {
    var l := BitLength(n);
    forall i: nat
      ensures Bit(Smear(n, k), i) == Bit(Pow2(l) - 1, i)
    {
      SmearFills(n, k, i);
      AllOnes(l, i);
    }
    SameBits(Smear(n, k), Pow2(l) - 1);
  }

  /** `p` is the least power of two greater than `n`. */
  ghost predicate IsLeastPowerAbove(n: nat, p: nat) {
    && (exists e: nat :: p == Pow2(e))
    && n < p
    && (forall f: nat :: n < Pow2(f) ==> p <= Pow2(f))
  }

  lemma LeastPower(n: nat)
    ensures IsLeastPowerAbove(n, Pow2(BitLength(n)))
  {
    forall f: nat | n < Pow2(f)
      ensures Pow2(BitLength(n)) <= Pow2(f)
    {
      LengthFits(n, f);
      Pow2Monotone(BitLength(n), f);
    }
  }

  lemma CeilValue(n: nat, k: nat)
    requires n < Pow2(Pow2(k))
    ensures Ceil(n, k) == if n < Pow2(Pow2(k) - 1) then Pow2(BitLength(n)) else 0
  {
    var w, l := Pow2(k), BitLength(n);
    SmearValue(n, k);
    LengthFits(n, w);
    if n < Pow2(w - 1) {
      LengthFits(n, w - 1);
      Pow2Monotone(l, w);
      SmallRemainder(Pow2(l), Pow2(w));
    } else {
      Pow2Monotone(l, w - 1);
      assert l == w;
      SelfRemainder(Pow2(w));
    }
  }

  /**
   * For every width W = 2^k and every word n, the result is the least power of
   * two greater than n if and only if n < 2^(W-1); otherwise the sum wraps
   * around to zero.
   */
  lemma CeilCorrect(n: nat, k: nat)
    requires n < Pow2(Pow2(k))
    ensures IsLeastPowerAbove(n, Ceil(n, k)) <==> n < Pow2(Pow2(k) - 1)
    ensures Pow2(Pow2(k) - 1) <= n ==> Ceil(n, k) == 0
    ensures n == 0 ==> Ceil(n, k) == 1
  {
    CeilValue(n, k);
    LeastPower(n);
  }

  lemma SelfRemainder(b: nat)
    requires b > 0
    ensures b % b == 0
  {
  }

  lemma SmallRemainder(a: nat, b: nat)
    requires a < b
    ensures a % b == a
  {
  }

  // ---------------------------------------------------------------------
  // The four overloads
  // ---------------------------------------------------------------------

  lemma {:induction false} Pow2Add(j: nat, k: nat)
    ensures Pow2(j + k) == Pow2(j) * Pow2(k)
  {
    if j > 0 {
      Pow2Add(j - 1, k);
    }
  }

  /** The powers of two around a doubled width. */
  lemma Doubled(w: nat, p: nat)
    requires w > 0 && Pow2(w) == p
    ensures Pow2(2 * w) == p * p
    ensures 2 * Pow2(2 * w - 1) == p * p
  {
    Pow2Add(w, w);
  }

  lemma Widths()
    ensures Pow2(8) == 0x100 && Pow2(7) == 0x80
    ensures Pow2(16) == 0x1_0000 && Pow2(15) == 0x8000
    ensures Pow2(32) == 0x1_0000_0000 && Pow2(31) == 0x8000_0000
    ensures Pow2(64) == 0x1_0000_0000_0000_0000 && Pow2(63) == 0x8000_0000_0000_0000
  {
    assert Pow2(4) == 16;
    Doubled(4, 0x10);
    Doubled(8, 0x100);
    Doubled(16, 0x1_0000);
    Doubled(32, 0x1_0000_0000);
  }

  /** The nested shifts of the overloads. */
  lemma Nested(n: nat)
    ensures Smear(n, 3) == Kernel(4, Kernel(2, Kernel(1, n)))
    ensures Smear(n, 4) == Kernel(8, Smear(n, 3))
    ensures Smear(n, 5) == Kernel(16, Smear(n, 4))
    ensures Smear(n, 6) == Kernel(32, Smear(n, 5))
  {
    assert Pow2(0) == 1 && Pow2(1) == 2 && Pow2(2) == 4 && Pow2(3) == 8 && Pow2(4) == 16 && Pow2(5) == 32;
    assert Smear(n, 1) == Kernel(1, n);
    assert Smear(n, 2) == Kernel(2, Smear(n, 1));
  }

  /** The overloads are the widths 8, 16, 32 and 64 of the general function. */
  lemma Overloads(n: nat)
    ensures P2Ceil8(n) == Ceil(n, 3) && P2Ceil16(n) == Ceil(n, 4)
    ensures P2Ceil32(n) == Ceil(n, 5) && P2Ceil64(n) == Ceil(n, 6)
    ensures Pow2(3) == 8 && Pow2(4) == 16 && Pow2(5) == 32 && Pow2(6) == 64
  {
    assert Pow2(3) == 8 && Pow2(4) == 16 && Pow2(5) == 32 && Pow2(6) == 64;
    Widths();
    Nested(n);
  }

  lemma P2Ceil8Correct(n: nat)
    requires n < 0x100
    ensures IsLeastPowerAbove(n, P2Ceil8(n)) <==> n < 0x80
  {
    Overloads(n);
    Widths();
    CeilCorrect(n, 3);
  }

  lemma P2Ceil16Correct(n: nat)
    requires n < 0x1_0000
    ensures IsLeastPowerAbove(n, P2Ceil16(n)) <==> n < 0x8000
  {
    Overloads(n);
    Widths();
    CeilCorrect(n, 4);
  }

  lemma P2Ceil32Correct(n: nat)
    requires n < 0x1_0000_0000
    ensures IsLeastPowerAbove(n, P2Ceil32(n)) <==> n < 0x8000_0000
  {
    Overloads(n);
    Widths();
    CeilCorrect(n, 5);
  }

  /** The documented bound is off by one: at 2^63 itself the result is zero. */
  lemma P2Ceil64Correct(n: nat)
    requires n < 0x1_0000_0000_0000_0000
    ensures IsLeastPowerAbove(n, P2Ceil64(n)) <==> n < 0x8000_0000_0000_0000
    ensures n == 0x8000_0000_0000_0000 ==> P2Ceil64(n) == 0
  {
    Overloads(n);
    Widths();
    CeilCorrect(n, 6);
  }
}
