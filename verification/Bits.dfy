/** Bitwise operations on naturals, and what they are in arithmetic. */
module Bits {
  import opened Powers

  predicate Bit(n: nat, i: nat) {
    if i == 0 then n % 2 == 1 else Bit(n / 2, i - 1)
  }

  function BitAnd(a: nat, b: nat): (r: nat)
    ensures r <= a && r <= b
  {
    if a == 0 || b == 0 then 0 else (if a % 2 == 1 && b % 2 == 1 then 1 else 0) + 2 * BitAnd(a / 2, b / 2)
  }

  function BitOr(a: nat, b: nat): nat
    decreases a + b
  {
    if a == 0 && b == 0 then 0 else (if a % 2 == 1 || b % 2 == 1 then 1 else 0) + 2 * BitOr(a / 2, b / 2)
  }

  function BitXor(a: nat, b: nat): nat
    decreases a + b
  {
    if a == 0 && b == 0 then 0 else (if a % 2 != b % 2 then 1 else 0) + 2 * BitXor(a / 2, b / 2)
  }

  // ----- bit by bit -----

  lemma {:induction false} BitOfZero(i: nat)
    ensures !Bit(0, i)
  {
    if i > 0 { BitOfZero(i - 1); }
  }

  lemma {:induction false} BitAndAt(a: nat, b: nat, i: nat)
    ensures Bit(BitAnd(a, b), i) <==> Bit(a, i) && Bit(b, i)
    decreases i
  {
    if a == 0 || b == 0 {
      BitOfZero(i);
    } else if i > 0 {
      assert BitAnd(a, b) / 2 == BitAnd(a / 2, b / 2);
      BitAndAt(a / 2, b / 2, i - 1);
    }
  }

  lemma {:induction false} BitOrAt(a: nat, b: nat, i: nat)
    ensures Bit(BitOr(a, b), i) <==> Bit(a, i) || Bit(b, i)
    decreases i
  {
    if a == 0 && b == 0 {
      BitOfZero(i);
    } else if i > 0 {
      assert BitOr(a, b) / 2 == BitOr(a / 2, b / 2);
      BitOrAt(a / 2, b / 2, i - 1);
    }
  }

  lemma {:induction false} BitXorAt(a: nat, b: nat, i: nat)
    ensures Bit(BitXor(a, b), i) <==> (Bit(a, i) != Bit(b, i))
    decreases i
  {
    if a == 0 && b == 0 {
      BitOfZero(i);
    } else if i > 0 {
      assert BitXor(a, b) / 2 == BitXor(a / 2, b / 2);
      BitXorAt(a / 2, b / 2, i - 1);
    }
  }

  /** Exclusive or undoes itself. */
  lemma {:induction false} XorTwice(a: nat, b: nat)
    ensures BitXor(BitXor(a, b), b) == a
  {
    forall i: nat ensures Bit(BitXor(BitXor(a, b), b), i) <==> Bit(a, i) {
      BitXorAt(BitXor(a, b), b, i);
      BitXorAt(a, b, i);
    }
    hide Bit, BitXor;
    SameBits(BitXor(BitXor(a, b), b), a);
  }

  /** Below a power of two only the bits under it are set. */
  lemma {:induction false} BitBound(n: nat, k: nat, i: nat)
    requires n < Pow2(k) && Bit(n, i)
    ensures i < k
    decreases k
  {
    if k == 0 {
      BitOfZero(i);
    } else if i > 0 {
      BitBound(n / 2, k - 1, i - 1);
    }
  }

  /** Naturals with the same bits are the same. */
  lemma {:induction false} SameBits(a: nat, b: nat)
    requires forall i: nat :: Bit(a, i) <==> Bit(b, i)
    ensures a == b
    decreases a + b
  {
    if a != 0 || b != 0 {
      assert Bit(a, 0) <==> Bit(b, 0);
      forall i: nat ensures Bit(a / 2, i) <==> Bit(b / 2, i) {
        assert Bit(a, i + 1) <==> Bit(b, i + 1);
      }
      SameBits(a / 2, b / 2);
    }
  }

  lemma {:induction false} BitOfPow2(k: nat, i: nat)
    ensures Bit(Pow2(k), i) <==> i == k
    decreases k
  {
    if k == 0 {
      if i > 0 { BitOfZero(i - 1); }
    } else if i > 0 {
      assert Pow2(k) / 2 == Pow2(k - 1);
      BitOfPow2(k - 1, i - 1);
    }
  }

  // ----- in arithmetic -----

  lemma {:induction false} BitOrBound(a: nat, b: nat, k: nat)
    requires a < Pow2(k) && b < Pow2(k)
    ensures BitOr(a, b) < Pow2(k) && BitXor(a, b) < Pow2(k)
    decreases k
  {
    if k > 0 { BitOrBound(a / 2, b / 2, k - 1); }
  }

  /** Halving a number that is a multiple of an even power. */
  lemma HalfOfMultiple(hi: nat, k: nat)
    requires k > 0
    ensures hi * Pow2(k) == 2 * (hi * Pow2(k - 1))
  {
  }

  /** `or` of parts that do not overlap is their sum. */
  lemma {:induction false} OrDisjoint(hi: nat, lo: nat, k: nat)
    requires lo < Pow2(k)
    ensures BitOr(hi * Pow2(k), lo) == hi * Pow2(k) + lo
    ensures BitOr(lo, hi * Pow2(k)) == hi * Pow2(k) + lo
    decreases k
  {
    if k == 0 {
      assert Pow2(0) == 1;
      OrZero(hi);
    } else {
      HalfOfMultiple(hi, k);
      var h := hi * Pow2(k - 1);
      OrDisjoint(hi, lo / 2, k - 1);
      assert (2 * h) / 2 == h && (2 * h) % 2 == 0;
    }
  }

  lemma {:induction false} OrZero(a: nat)
    ensures BitOr(a, 0) == a && BitOr(0, a) == a
  {
    if a > 0 { OrZero(a / 2); }
  }

  /** Masking with a run of low ones keeps the remainder. */
  lemma {:induction false} AndMask(a: nat, k: nat)
    ensures BitAnd(a, Pow2(k) - 1) == a % Pow2(k)
    decreases k
  {
    if k == 0 {
    } else if a == 0 {
    } else {
      AndMask(a / 2, k - 1);
      var p := Pow2(k - 1);
      assert (2 * p - 1) / 2 == p - 1 && (2 * p - 1) % 2 == 1;
      DivDiv(a, 2, p);
      assert a % (2 * p) == (a / 2 % p) * 2 + a % 2;
    }
  }

  /** `or` with a run of high ones replaces everything above bit k. */
  lemma OrHighMask(x: nat, k: nat, n: nat)
    requires k <= n && x < Pow2(n)
    ensures Pow2(k) <= Pow2(n)
    ensures BitOr(x, Pow2(n) - Pow2(k)) == Pow2(n) - Pow2(k) + x % Pow2(k)
    decreases k
  {
    hide BitOr, Pow2;
    Pow2Mono(k, n);
    PowStep(k);
    PowStep(n);
    if k == 0 {
      OrOnes(x, n);
    } else {
      OrHighMask(x / 2, k - 1, n - 1);
      var p, q := Pow2(k - 1), Pow2(n - 1);
      OrUnfold(x, 2 * (q - p));
      EvenHalf(q - p);
      LowBits(x, p);
    }
  }

  lemma EvenHalf(a: nat)
    ensures (2 * a) / 2 == a && (2 * a) % 2 == 0
  {
  }

  lemma LowBits(x: nat, p: nat)
    requires p > 0
    ensures x % (2 * p) == 2 * (x / 2 % p) + x % 2
  {
    DivDiv(x, 2, p);
  }

  lemma PowStep(k: nat)
    ensures Pow2(k) == if k == 0 then 1 else 2 * Pow2(k - 1)
  {
  }

  lemma {:induction false} OrUnfold(a: nat, b: nat)
    ensures BitOr(a, b) == (if a % 2 == 1 || b % 2 == 1 then 1 else 0) + 2 * BitOr(a / 2, b / 2)
  {
  }

  lemma {:induction false} OrOnes(x: nat, n: nat)
    requires x < Pow2(n)
    ensures BitOr(x, Pow2(n) - 1) == Pow2(n) - 1
    decreases n
  {
    if n > 0 {
      OrOnes(x / 2, n - 1);
      var q := Pow2(n - 1);
      assert (2 * q - 1) / 2 == q - 1 && (2 * q - 1) % 2 == 1;
    }
  }

  /** A bit as a quotient. */
  lemma {:induction false} BitIsQuotient(n: nat, i: nat)
    ensures Bit(n, i) <==> n / Pow2(i) % 2 == 1
    decreases i
  {
    if i == 0 {
      assert Pow2(0) == 1;
    } else {
      BitIsQuotient(n / 2, i - 1);
      DivDiv(n, 2, Pow2(i - 1));
    }
  }
}
