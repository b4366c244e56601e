/** Unsigned machine words as naturals: the bitwise operators that `sign_bits` and the binary scan use. */
module BitWords {

  function Pow2(n: nat): (p: nat)
    ensures p >= 1
  {
    if n == 0 then 1 else 2 * Pow2(n - 1)
  }

  predicate Bit(a: nat, i: nat) {
    if i == 0 then a % 2 == 1 else Bit(a / 2, i - 1)
  }

  function Or(a: nat, b: nat): nat
    decreases a + b
  {
    if a == 0 && b == 0 then 0
    else (if a % 2 == 1 || b % 2 == 1 then 1 else 0) + 2 * Or(a / 2, b / 2)
  }

  function Xor(a: nat, b: nat): nat
    decreases a + b
  {
    if a == 0 && b == 0 then 0
    else (if a % 2 != b % 2 then 1 else 0) + 2 * Xor(a / 2, b / 2)
  }

  function PopCount(a: nat): nat {
    if a == 0 then 0 else a % 2 + PopCount(a / 2)
  }

  /** How many of the low `n` bits are set. */
  function BitsBelow(a: nat, n: nat): nat {
    if n == 0 then 0 else BitsBelow(a, n - 1) + if Bit(a, n - 1) then 1 else 0
  }

  lemma {:induction false} ZeroHasNoBits(i: nat)
    ensures !Bit(0, i)
  {
    if i > 0 { ZeroHasNoBits(i - 1); }
  }

  lemma {:induction false} BitOr(a: nat, b: nat, i: nat)
    ensures Bit(Or(a, b), i) == (Bit(a, i) || Bit(b, i))
  {
    if a == 0 && b == 0 {
      ZeroHasNoBits(i);
    } else if i > 0 {
      BitOr(a / 2, b / 2, i - 1);
    }
  }

  lemma {:induction false} BitXor(a: nat, b: nat, i: nat)
    ensures Bit(Xor(a, b), i) == (Bit(a, i) != Bit(b, i))
  {
    if a == 0 && b == 0 {
      ZeroHasNoBits(i);
    } else if i > 0 {
      BitXor(a / 2, b / 2, i - 1);
    }
  }

  lemma {:induction false} BitPow2(k: nat, i: nat)
    ensures Bit(Pow2(k), i) == (i == k)
  {
    if k == 0 {
      if i > 0 { ZeroHasNoBits(i - 1); }
    } else if i > 0 {
      BitPow2(k - 1, i - 1);
    }
  }

  lemma {:induction false} Pow2Increases(k: nat, n: nat)
    requires k < n
    ensures Pow2(k) < Pow2(n)
  {
    if n > k + 1 { Pow2Increases(k, n - 1); }
  }

  lemma {:induction false} OrFits(a: nat, b: nat, n: nat)
    requires a < Pow2(n) && b < Pow2(n)
    ensures Or(a, b) < Pow2(n)
  {
    if a == 0 && b == 0 {
    } else {
      OrFits(a / 2, b / 2, n - 1);
    }
  }

  lemma {:induction false} XorFits(a: nat, b: nat, n: nat)
    requires a < Pow2(n) && b < Pow2(n)
    ensures Xor(a, b) < Pow2(n)
  {
    if a == 0 && b == 0 {
    } else {
      XorFits(a / 2, b / 2, n - 1);
    }
  }

  /** A word is determined by its bits. */
  lemma {:induction false} SameBits(a: nat, b: nat, n: nat)
    requires a < Pow2(n) && b < Pow2(n)
    requires forall i: nat :: i < n ==> Bit(a, i) == Bit(b, i)
    ensures a == b
  {
    if n > 0 {
      forall i: nat | i < n - 1 ensures Bit(a / 2, i) == Bit(b / 2, i) {
        assert Bit(a, i + 1) == Bit(b, i + 1);
      }
      SameBits(a / 2, b / 2, n - 1);
      assert Bit(a, 0) == Bit(b, 0);
    }
  }

  lemma {:induction false} BitsBelowHalf(a: nat, n: nat)
    ensures BitsBelow(a, n + 1) == a % 2 + BitsBelow(a / 2, n)
  {
    if n > 0 { BitsBelowHalf(a, n - 1); }
  }

  lemma {:induction false} PopCountIsBitsBelow(a: nat, n: nat)
    requires a < Pow2(n)
    ensures PopCount(a) == BitsBelow(a, n)
  {
    if n > 0 {
      PopCountIsBitsBelow(a / 2, n - 1);
      BitsBelowHalf(a, n - 1);
    }
  }

  // ----- u64 words -----

  const WORD_LIMIT: nat := 0x1_0000_0000_0000_0000

  lemma WordLimitIsPow2()
    ensures Pow2(64) == WORD_LIMIT
  {
    DoublePow2(4);
    DoublePow2(8);
    DoublePow2(16);
    DoublePow2(32);
  }

  lemma DoublePow2(n: nat)
    ensures Pow2(n + n) == Pow2(n) * Pow2(n)
  {
    Pow2Adds(n, n);
  }

  lemma {:induction false} Pow2Adds(m: nat, n: nat)
    ensures Pow2(m + n) == Pow2(m) * Pow2(n)
  {
    if m > 0 {
      Pow2Adds(m - 1, n);
    }
  }

  lemma WordOrFits(a: nat, k: nat)
    requires a < WORD_LIMIT && k < 64
    ensures Or(a, Pow2(k)) < WORD_LIMIT
  {
    WordLimitIsPow2();
    Pow2Increases(k, 64);
    OrFits(a, Pow2(k), 64);
  }

  lemma WordSameBits(a: nat, b: nat)
    requires a < WORD_LIMIT && b < WORD_LIMIT
    requires forall i: nat :: i < 64 ==> Bit(a, i) == Bit(b, i)
    ensures a == b
  {
    WordLimitIsPow2();
    SameBits(a, b, 64);
  }

  lemma WordXorPopCount(a: nat, b: nat)
    requires a < WORD_LIMIT && b < WORD_LIMIT
    ensures PopCount(Xor(a, b)) == BitsBelow(Xor(a, b), 64)
  {
    WordLimitIsPow2();
    XorFits(a, b, 64);
    PopCountIsBitsBelow(Xor(a, b), 64);
  }
}
