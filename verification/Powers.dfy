/** Powers of two and the arithmetic of dividing by them. */
module Powers {

  function Pow2(n: nat): (p: nat)
    ensures p > 0
  {
    if n == 0 then 1 else 2 * Pow2(n - 1)
  }

  lemma {:induction false} Pow2Add(a: nat, b: nat)
    ensures Pow2(a + b) == Pow2(a) * Pow2(b)
  {
    if a == 0 {
    } else {
      Pow2Add(a - 1, b);
      assert Pow2(a + b) == 2 * Pow2(a - 1 + b);
      assert 2 * (Pow2(a - 1) * Pow2(b)) == (2 * Pow2(a - 1)) * Pow2(b);
    }
  }

  lemma {:induction false} Pow2Mono(a: nat, b: nat)
    requires a <= b
    ensures Pow2(a) <= Pow2(b)
    ensures a < b ==> 2 * Pow2(a) <= Pow2(b)
    decreases b - a
  {
    if a < b {
      Pow2Mono(a, b - 1);
    }
  }

  lemma Pow2Values()
    ensures Pow2(5) == 32
    ensures Pow2(8) == 256
    ensures Pow2(10) == 1024
    ensures Pow2(32) == 0x1_0000_0000
    ensures Pow2(64) == 0x1_0000000000000000
    ensures Pow2(256) == 0x1_0000000000000000_0000000000000000_0000000000000000_0000000000000000
  {
    assert Pow2(4) == 16;
    assert Pow2(5) == 32;
    assert Pow2(8) == 256 by { Pow2Add(4, 4); }
    assert Pow2(10) == 1024 by { Pow2Add(5, 5); }
    assert Pow2(16) == 0x1_0000 by { Pow2Add(8, 8); }
    assert Pow2(32) == 0x1_0000_0000 by { Pow2Add(16, 16); }
    assert Pow2(64) == 0x1_0000000000000000 by { Pow2Add(32, 32); }
    assert Pow2(128) == 0x1_0000000000000000_0000000000000000 by { Pow2Add(64, 64); }
    assert Pow2(256) == 0x1_0000000000000000_0000000000000000_0000000000000000_0000000000000000
    by { Pow2Add(128, 128); }
  }

  /** The quotient and the remainder of a division are the only pair with these bounds. */
  lemma DivModUnique(x: int, d: int, q: int, r: int)
    requires d > 0 && x == q * d + r && 0 <= r < d
    ensures x / d == q && x % d == r
  {
    var k, s := x / d, x % d;
    SamePair(d, q, r, k, s);
  }

  lemma SamePair(d: int, q: int, r: int, k: int, s: int)
    requires d > 0 && q * d + r == k * d + s && 0 <= r < d && 0 <= s < d
    ensures q == k && r == s
  {
    assert (q - k) * d == s - r && (k - q) * d == r - s;
    if q > k { MulAtLeast(q - k, d); }
    if q < k { MulAtLeast(k - q, d); }
  }

  lemma MulAtLeast(a: int, d: int)
    requires a >= 1 && d >= 0
    ensures a * d >= d
  {
    assert a * d == (a - 1) * d + d;
  }

  /** Two divisions in a row, as one. */
  lemma Regroup(x: int, y: int, q: int, a: int, b: int, r0: int, r1: int)
    requires a > 0 && b > 0
    requires x == y * a + r0 && 0 <= r0 < a
    requires y == q * b + r1 && 0 <= r1 < b
    ensures a * b > 0 && x == q * (a * b) + (r1 * a + r0) && 0 <= r1 * a + r0 < a * b
  {
    MulShuffle(q, a, b, r1);
    assert r1 * a + (b - 1 - r1) * a == (b - 1) * a == a * b - a;
    NonNegative(r1, a);
    NonNegative(b - 1 - r1, a);
    NonNegative(a, b);
  }

  lemma MulShuffle(q: int, a: int, b: int, r: int)
    ensures (q * b + r) * a == q * (a * b) + r * a
  {
    assert (q * b) * a == q * (b * a);
    assert b * a == a * b;
  }

  lemma NonNegative(a: int, b: int)
    requires a >= 0 && b >= 0
    ensures a * b >= 0
    ensures a > 0 && b > 0 ==> a * b > 0
  {
  }

  lemma DivDiv(x: nat, a: nat, b: nat)
    requires a > 0 && b > 0
    ensures a * b > 0 && (x / a) / b == x / (a * b)
    ensures x % (a * b) == (x / a % b) * a + x % a
  {
    var y := x / a;
    var q, r1, r0 := y / b, y % b, x % a;
    Regroup(x, y, q, a, b, r0, r1);
    DivModUnique(x, a * b, q, r1 * a + r0);
  }
}
