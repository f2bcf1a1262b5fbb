/** N-byte memory operations built from 32-byte loads and stores, shifts and `or`. */
module MemoryOps {
  import opened Values
  import opened Powers
  import opened Bits
  import opened Memory
  import Evm

  // ----- the instruction sequences the lowering emits -----

  ghost function LoadCode(m: Mem, addr: nat, n: nat): nat
    requires 1 <= n <= 32
  {
    var word := ReadBE(m, addr, 32);
    if n == 32 then word else Evm.Meaning(Evm.Shr, [256 - 8 * n, word])
  }

  ghost function StoreCode(m: Mem, addr: nat, n: nat, v: nat): Mem
    requires 1 <= n <= 32
  {
    if n == 32 then WriteBE(m, addr, 32, v)
    else if n == 1 then WriteBE(m, addr, 1, v % 256)
    else
      var bits, tailBits := 8 * n, 256 - 8 * n;
      var tail := ReadBE(m, addr, 32);
      var tail1 := Evm.Meaning(Evm.Shl, [bits, tail]);
      var tail2 := Evm.Meaning(Evm.Shr, [bits, tail1]);
      var value := Evm.Meaning(Evm.Shl, [tailBits, v]);
      var updated := Evm.Meaning(Evm.Or, [tail2, value]);
      WriteBE(m, addr, 32, updated)
  }

  // ----- bytes and big-endian numbers -----

  lemma {:induction false} Pow256IsPow2(n: nat)
    ensures Pow256(n) == Pow2(8 * n)
  {
    if n > 0 {
      Pow256IsPow2(n - 1);
      Pow2Add(8, 8 * (n - 1));
      Pow2Values();
    }
  }

  lemma Pow256Add(a: nat, b: nat)
    ensures Pow256(a + b) == Pow256(a) * Pow256(b)
  {
    Pow256IsPow2(a);
    Pow256IsPow2(b);
    Pow256IsPow2(a + b);
    Pow2Add(8 * a, 8 * b);
  }

  lemma Word256()
    ensures Pow256(32) == WORD
  {
    Pow256IsPow2(32);
    Pow2Values();
  }

  lemma {:induction false} ReadBound(m: Mem, addr: nat, n: nat)
    ensures ReadBE(m, addr, n) < Pow256(n)
  {
    if n > 0 { ReadBound(m, addr, n - 1); }
  }

  /** A read in two parts. */
  lemma {:induction false} ReadSplit(m: Mem, addr: nat, a: nat, b: nat)
    ensures ReadBE(m, addr, a + b) == ReadBE(m, addr, a) * Pow256(b) + ReadBE(m, addr + a, b)
    decreases b
  {
    if b > 0 {
      ReadSplit(m, addr, a, b - 1);
      Shuffle(ReadBE(m, addr, a), Pow256(b - 1), ReadBE(m, addr + a, b - 1), m[addr + a + b - 1]);
      assert ReadBE(m, addr, a + b) == 256 * ReadBE(m, addr, a + (b - 1)) + m[addr + a + b - 1];
    }
  }

  lemma Shuffle(hi: nat, p: nat, lo: nat, byte: nat)
    ensures 256 * (hi * p + lo) + byte == hi * (256 * p) + (256 * lo + byte)
  {
    assert 256 * (hi * p) == hi * (256 * p);
  }

  lemma {:induction false} ByteOfRead(m: Mem, addr: nat, n: nat, j: nat)
    requires j < n
    ensures ReadBE(m, addr, n) / Pow256(n - 1 - j) % 256 == m[addr + j]
  {
    var last := m[addr + n - 1];
    var init := ReadBE(m, addr, n - 1);
    assert ReadBE(m, addr, n) == 256 * init + last;
    if j < n - 1 {
      ByteOfRead(m, addr, n - 1, j);
      DivDiv(256 * init + last, 256, Pow256(n - 2 - j));
      assert (256 * init + last) / 256 == init;
    }
  }

  lemma {:induction false} ReadOfBytes(m: Mem, addr: nat, n: nat, v: nat)
    requires forall a: nat | addr <= a < addr + n :: m[a] == v / Pow256(addr + n - 1 - a) % 256
    ensures ReadBE(m, addr, n) == v % Pow256(n)
    decreases n
  {
    if n > 0 {
      forall a: nat | addr <= a < addr + n - 1 ensures m[a] == (v / 256) / Pow256(addr + n - 2 - a) % 256 {
        ByteAfterShift(v, addr + n - 2 - a);
      }
      ReadOfBytes(m, addr, n - 1, v / 256);
      assert m[addr + n - 1] == v / Pow256(0) % 256;
      assert Pow256(0) == 1;
      DivDiv(v, 256, Pow256(n - 1));
    }
  }

  lemma ByteAfterShift(v: nat, k: nat)
    ensures (v / 256) / Pow256(k) == v / Pow256(k + 1)
  {
    DivDiv(v, 256, Pow256(k));
  }

  // ----- loads -----

  lemma QuotientOf(hi: nat, lo: nat, p: nat)
    requires lo < p
    ensures (hi * p + lo) / p == hi && (hi * p + lo) % p == lo
  {
    DivModUnique(hi * p + lo, p, hi, lo);
  }

  lemma {:induction false} ReadIsWord(m: Mem, addr: nat)
    ensures ReadBE(m, addr, 32) < WORD
  {
    ReadBound(m, addr, 32);
    Word256();
    hide ReadBE, Pow256;
  }

  /** A word read, as the first n bytes and the rest. */
  lemma ReadParts(m: Mem, addr: nat, n: nat)
    requires n <= 32
    ensures ReadBE(m, addr, 32) == ReadBE(m, addr, n) * Pow2(256 - 8 * n) + ReadBE(m, addr + n, 32 - n)
    ensures ReadBE(m, addr + n, 32 - n) < Pow2(256 - 8 * n)
  {
    ReadSplit(m, addr, n, 32 - n);
    ReadBound(m, addr + n, 32 - n);
    Pow256IsPow2(32 - n);
    hide ReadBE, Pow256, Pow2;
    assert n + (32 - n) == 32 && 8 * (32 - n) == 256 - 8 * n;
  }

  /** The shifted word is the big-endian number in the first n bytes. */
  lemma {:induction false} LoadIsRead(m: Mem, addr: nat, n: nat)
    requires 1 <= n <= 32
    ensures LoadCode(m, addr, n) == ReadBE(m, addr, n)
  {
    hide ReadBE, Pow256, Pow2, Evm.Meaning;
    if n < 32 {
      ReadParts(m, addr, n);
      ReadIsWord(m, addr);
      QuotientOf(ReadBE(m, addr, n), ReadBE(m, addr + n, 32 - n), Pow2(256 - 8 * n));
      Evm.ShrMeaning(256 - 8 * n, ReadBE(m, addr, 32));
    }
  }

  // ----- stores -----

  /** Shifting left in a word keeps the low part, moved up. */
  lemma {:induction false} ShiftedUp(v: Evm.Word, a: nat, b: nat)
    requires a < 256 && a + b == 256
    ensures Evm.Meaning(Evm.Shl, [a, v]) == (v % Pow2(b)) * Pow2(a)
    ensures 0 <= (v % Pow2(b)) * Pow2(a) < WORD
  {
    hide Pow2, Evm.Meaning;
    Evm.ShlMeaning(a, v);
    WordIsProduct(a, b);
    DivOf(v, Pow2(b), Pow2(a));
  }

  lemma {:induction false} WordIsProduct(a: nat, b: nat)
    requires a + b == 256
    ensures Pow2(b) * Pow2(a) == WORD
  {
    hide Pow2;
    Evm.WordIsPower();
    Pow2Add(b, a);
    assert b + a == 256;
  }

  lemma DivOf(v: nat, q: nat, p: nat)
    requires q > 0 && p > 0 && q * p == WORD
    ensures 0 <= (v % q) * p < WORD && v * p % WORD == (v % q) * p
  {
    LowMoved(v, p, q, v / q, v % q);
  }

  lemma LowMoved(v: nat, p: nat, q: nat, hi: nat, lo: nat)
    requires q * p == WORD && v == hi * q + lo && lo < q && p > 0
    ensures 0 <= lo * p < WORD && v * p % WORD == lo * p
  {
    Scaled(hi, q, lo, p);
    assert (q - lo - 1) * p == q * p - lo * p - p;
    NonNegative(q - lo - 1, p);
    NonNegative(lo, p);
    DivModUnique(v * p, WORD, hi, lo * p);
  }

  lemma Scaled(hi: nat, q: nat, lo: nat, p: nat)
    ensures (hi * q + lo) * p == hi * (q * p) + lo * p
  {
    assert (hi * q) * p == hi * (q * p);
  }

  /** The word the code stores: the new bytes above, the old ones below. */
  lemma {:induction false} UpdatedWord(m: Mem, addr: nat, n: nat, v: Evm.Word)
    requires 1 < n < 32
    ensures StoreCode(m, addr, n, v)
            == WriteBE(m, addr, 32, (v % Pow2(8 * n)) * Pow2(256 - 8 * n) + ReadBE(m, addr + n, 32 - n))
  {
    hide ReadBE, Pow256, Pow2, Evm.Meaning, WriteBE;
    var bits, tailBits := 8 * n, 256 - 8 * n;
    var tail := ReadBE(m, addr, 32);
    ReadIsWord(m, addr);
    ReadParts(m, addr, n);
    var hi, lo := ReadBE(m, addr, n), ReadBE(m, addr + n, 32 - n);
    QuotientOf(hi, lo, Pow2(tailBits));
    ShiftedUp(tail, bits, tailBits);
    var tail1 := Evm.Meaning(Evm.Shl, [bits, tail]);
    Evm.ShrMeaning(bits, tail1);
    QuotientOf(lo, 0, Pow2(bits));
    ShiftedUp(v, tailBits, bits);
    TailSmall(lo, tailBits);
    OrOf(lo, v % Pow2(bits), tailBits);
  }

  lemma {:induction false} TailSmall(lo: nat, k: nat)
    requires k <= 256 && lo < Pow2(k)
    ensures lo < WORD
  {
    Evm.WordIsPower();
    Pow2Mono(k, 256);
  }

  lemma {:induction false} OrOf(lo: nat, hi: nat, k: nat)
    requires lo < Pow2(k) && lo < WORD && 0 <= hi * Pow2(k) < WORD
    ensures Evm.Meaning(Evm.Or, [lo, hi * Pow2(k)]) == hi * Pow2(k) + lo
  {
    OrDisjoint(hi, lo, k);
    Evm.OrMeaning(lo, hi * Pow2(k));
  }

  /** One byte of a word made of two parts. */
  lemma ByteOfParts(hi: nat, lo: nat, n: nat, k: nat, j: nat)
    requires lo < Pow256(k) && j < n + k
    ensures j < k ==> (hi * Pow256(k) + lo) / Pow256(j) % 256 == lo / Pow256(j) % 256
    ensures j >= k ==> (hi * Pow256(k) + lo) / Pow256(j) % 256 == hi / Pow256(j - k) % 256
  {
    var p, x := Pow256(j), hi * Pow256(k) + lo;
    if j >= k {
      Pow256Add(k, j - k);
      QuotientOf(hi, lo, Pow256(k));
      DivDiv(x, Pow256(k), Pow256(j - k));
    } else {
      var q := Pow256(k - 1 - j);
      Pow256Add(j, k - j);
      assert Pow256(k - j) == 256 * q;
      ManyBytes(hi, q, p, lo);
    }
  }

  lemma ManyBytes(hi: nat, q: nat, p: nat, lo: nat)
    requires p > 0
    ensures (hi * (p * (256 * q)) + lo) / p % 256 == lo / p % 256
  {
    var a, r := lo / p, lo % p;
    assert lo == a * p + r;
    assert hi * (p * (256 * q)) == (256 * (hi * q)) * p;
    assert (256 * (hi * q)) * p + a * p == (256 * (hi * q) + a) * p;
    DivModUnique(hi * (p * (256 * q)) + lo, p, 256 * (hi * q) + a, r);
    DivModUnique(256 * (hi * q) + a, 256, hi * q + a / 256, a % 256);
  }

  /** Byte by byte, the word made of the new bytes and the old tail is a write of the new bytes alone. */
  lemma {:induction false} WordWriteIsShortWrite(m: Mem, addr: nat, n: nat, hi: nat)
    requires 1 <= n <= 32
    ensures WriteBE(m, addr, 32, hi * Pow256(32 - n) + ReadBE(m, addr + n, 32 - n)) == WriteBE(m, addr, n, hi)
  {
    hide Pow256, ReadBE;
    var updated := hi * Pow256(32 - n) + ReadBE(m, addr + n, 32 - n);
    forall a: nat
      ensures WriteBE(m, addr, 32, updated)[a] == WriteBE(m, addr, n, hi)[a]
    {
      if addr <= a < addr + 32 { ByteOfUpdated(m, addr, n, hi, a); }
    }
  }

  /** Each byte of the updated word is a byte of the new part or the old byte behind it. */
  lemma {:induction false} ByteOfUpdated(m: Mem, addr: nat, n: nat, hi: nat, a: nat)
    requires 1 <= n <= 32 && addr <= a < addr + 32
    ensures (hi * Pow256(32 - n) + ReadBE(m, addr + n, 32 - n)) / Pow256(addr + 31 - a) % 256
            == if a < addr + n then hi / Pow256(addr + n - 1 - a) % 256 else m[a]
  {
    hide Pow256, ReadBE;
    var lo := ReadBE(m, addr + n, 32 - n);
    ReadBound(m, addr + n, 32 - n);
    ByteOfParts(hi, lo, n, 32 - n, addr + 31 - a);
    if a >= addr + n { ByteOfRead(m, addr + n, 32 - n, a - addr - n); }
  }

  /** Writing the word changes exactly the n bytes at `addr`, to the low n bytes of the value. */
  lemma {:induction false} StoreIsWrite(m: Mem, addr: nat, n: nat, v: Evm.Word)
    requires 1 <= n <= 32
    ensures StoreCode(m, addr, n, v) == WriteBE(m, addr, n, v % Pow256(n))
  {
    hide ReadBE, Pow256, Pow2, Evm.Meaning, WriteBE;
    if n == 32 {
      Word256();
      DivModUnique(v, Pow256(32), 0, v);
    } else if n == 1 {
      Pow256IsPow2(1);
      Pow2Values();
    } else {
      UpdatedWord(m, addr, n, v);
      Pow256IsPow2(n);
      Pow256IsPow2(32 - n);
      assert 8 * (32 - n) == 256 - 8 * n;
      WordWriteIsShortWrite(m, addr, n, v % Pow256(n));
    }
  }

  /** A store of n bytes followed by a load of n bytes gives the value modulo 2^(8n). */
  lemma {:induction false} StoreThenLoad(m: Mem, addr: nat, n: nat, v: Evm.Word)
    requires 1 <= n <= 32
    ensures LoadCode(StoreCode(m, addr, n, v), addr, n) == v % Pow2(8 * n)
  {
    hide ReadBE, Pow256, Pow2, LoadCode, StoreCode;
    StoreIsWrite(m, addr, n, v);
    var low := v % Pow256(n);
    var m' := WriteBE(m, addr, n, low);
    LoadIsRead(m', addr, n);
    ReadOfBytes(m', addr, n, low);
    Pow256IsPow2(n);
    DivModUnique(low, Pow256(n), 0, low);
  }

  /** Of all memory a store of n bytes changes only the bytes addr..addr+n, each to its byte of the value. */
  lemma {:induction false} StoreExactly(m: Mem, addr: nat, n: nat, v: Evm.Word, a: nat)
    requires 1 <= n <= 32
    ensures StoreCode(m, addr, n, v)[a]
            == if addr <= a < addr + n then (v % Pow256(n)) / Pow256(addr + n - 1 - a) % 256 else m[a]
  {
    hide StoreCode, Pow256;
    StoreIsWrite(m, addr, n, v);
  }
}
