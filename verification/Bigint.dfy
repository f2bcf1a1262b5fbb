/** Number literals as lists of 32-bit limbs, least significant first. */
module Bigint {
  import opened Values
  import opened Powers
  import opened Bits
  import opened ListsOfLists

  const LIMB: int := 0x1_0000_0000

  // ----- digit lists -----

  /** The number that digits of w bits stand for, least significant first. */
  function Value(w: nat, digits: seq<nat>): nat {
    if digits == [] then 0 else digits[0] + Pow2(w) * Value(w, digits[1..])
  }

  predicate Small(w: nat, digits: seq<nat>) {
    forall i | 0 <= i < |digits| :: digits[i] < Pow2(w)
  }

  /** No leading zero limb, so zero is the empty list. */
  predicate Canonical(limbs: seq<nat>) {
    Small(32, limbs) && (limbs != [] ==> limbs[|limbs| - 1] != 0)
  }

  lemma {:induction false} ValueAppend(w: nat, a: seq<nat>, b: seq<nat>)
    ensures Value(w, a + b) == Value(w, a) + Pow2(w * |a|) * Value(w, b)
    decreases |a|
  {
    if a == [] {
      assert a + b == b;
      assert w * |a| == 0;
    } else {
      assert (a + b)[1..] == a[1..] + b;
      ValueAppend(w, a[1..], b);
      assert w * |a| == w + w * (|a| - 1);
      Pow2Add(w, w * (|a| - 1));
      Distribute(Pow2(w), Value(w, a[1..]), Pow2(w * (|a| - 1)), Value(w, b));
    }
  }

  lemma Distribute(p: int, x: int, q: int, y: int)
    ensures p * (x + q * y) == p * x + (p * q) * y
  {
  }

  lemma {:induction false} ValueBound(w: nat, a: seq<nat>)
    requires Small(w, a)
    ensures Value(w, a) < Pow2(w * |a|)
    decreases |a|
  {
    if a == [] {
      assert w * |a| == 0;
    } else {
      ValueBound(w, a[1..]);
      assert w * |a| == w + w * (|a| - 1);
      Pow2Add(w, w * (|a| - 1));
      DigitStep(a[0], Pow2(w), Value(w, a[1..]), Pow2(w * (|a| - 1)));
    }
  }

  lemma DigitStep(d: int, p: int, v: int, q: int)
    requires 0 <= d < p && v + 1 <= q
    ensures d + p * v < p * q
  {
    assert p * (q - v - 1) == p * q - p * v - p;
    NonNegative(p, q - v - 1);
  }

  lemma {:induction false} ValueSnoc(w: nat, a: seq<nat>, d: nat)
    ensures Value(w, a + [d]) == Value(w, a) + Pow2(w * |a|) * d
  {
    ValueAppend(w, a, [d]);
    assert [d][1..] == [];
    assert Value(w, [d]) == d + Pow2(w) * 0;
  }

  /** The top limb is non-zero exactly if the number needs all the limbs. */
  lemma {:induction false} TopLimb(limbs: seq<nat>)
    requires Small(32, limbs) && limbs != []
    ensures limbs[|limbs| - 1] != 0 <==> Value(32, limbs) >= Pow2(32 * (|limbs| - 1))
  {
    var n := |limbs| - 1;
    var low, top := limbs[..n], limbs[n];
    assert low + [top] == limbs;
    ValueSnoc(32, low, top);
    ValueBound(32, low);
    TopStep(Value(32, low), Pow2(32 * n), top);
  }

  lemma TopStep(v: int, p: int, top: nat)
    requires 0 <= v < p
    ensures top != 0 <==> v + p * top >= p
  {
    if top != 0 { MulAtLeast(top, p); }
    assert p * top == top * p;
  }

  /** Numbers have one canonical list each. */
  lemma {:induction false} CanonicalUnique(a: seq<nat>, b: seq<nat>)
    requires Canonical(a) && Canonical(b) && Value(32, a) == Value(32, b)
    ensures a == b
    decreases |a|
  {
    if a == [] || b == [] {
      NonEmptyPositive(a);
      NonEmptyPositive(b);
    } else {
      SamePair(Pow2(32), Value(32, a[1..]), a[0], Value(32, b[1..]), b[0]);
      CanonicalUnique(a[1..], b[1..]);
    }
  }

  lemma {:induction false} NonEmptyPositive(a: seq<nat>)
    requires Canonical(a)
    ensures a != [] ==> Value(32, a) > 0
  {
    if a != [] { TopLimb(a); }
  }

  // ----- numerals -----

  const NO_DIGIT: nat := 255

  function Digit(c: char): nat {
    if '0' <= c <= '9' then c as nat - '0' as nat
    else if 'a' <= c <= 'f' then c as nat - 'a' as nat + 10
    else if 'A' <= c <= 'F' then c as nat - 'A' as nat + 10
    else NO_DIGIT
  }

  /** Digits below the radix, and underscores anywhere. */
  predicate Numeral(s: string, radix: nat) {
    forall i | 0 <= i < |s| :: s[i] == '_' || Digit(s[i]) < radix
  }

  /** What a numeral means; underscores mean nothing. */
  function Meaning(s: string, radix: nat): nat {
    if s == [] then 0
    else
      var init, c := s[..|s| - 1], s[|s| - 1];
      if c == '_' then Meaning(init, radix) else Meaning(init, radix) * radix + Digit(c)
  }

  function DigitCount(s: string): nat {
    if s == [] then 0 else (if s[0] == '_' then 0 else 1) + DigitCount(s[1..])
  }

  function StripLeading(s: string): (r: string)
    ensures r != [] ==> r[0] != '0' && r[0] != '_'
    ensures |r| <= |s| && r == s[|s| - |r|..]
  {
    if s != [] && (s[0] == '0' || s[0] == '_') then StripLeading(s[1..]) else s
  }

  lemma {:induction false} MeaningSnoc(s: string, c: char, radix: nat)
    ensures Meaning(s + [c], radix) == if c == '_' then Meaning(s, radix) else Meaning(s, radix) * radix + Digit(c)
  {
    assert (s + [c])[..|s|] == s;
  }

  /** A numeral read from the front, in a radix that is a power of two. */
  lemma {:induction false} MeaningFront(s: string, k: nat)
    requires s != []
    ensures Meaning(s, Pow2(k)) == (if s[0] == '_' then 0 else Digit(s[0]) * Pow2(k * DigitCount(s[1..])))
                                   + Meaning(s[1..], Pow2(k))
    decreases |s|
  {
    hide Pow2, Digit;
    var rest := s[1..];
    if rest == [] {
      assert s[..0] == [];
      assert k * 0 == 0;
      One();
    } else {
      var n := |s| - 1;
      var init, c := s[..n], s[n];
      var mid := init[1..];
      MeaningFront(init, k);
      assert s == init + [c] && rest == mid + [c];
      MeaningSnoc(init, c, Pow2(k));
      MeaningSnoc(mid, c, Pow2(k));
      CountSnoc(mid, c);
      hide Meaning, DigitCount;
      if c != '_' && s[0] != '_' {
        NextPower(k, DigitCount(mid));
        FrontStep(Meaning(s, Pow2(k)), Meaning(init, Pow2(k)), Meaning(rest, Pow2(k)), Digit(s[0]),
                  Pow2(k * DigitCount(mid)), Pow2(k * DigitCount(rest)), Pow2(k), Meaning(mid, Pow2(k)), Digit(c));
      }
    }
  }

  lemma {:induction false} NextPower(k: nat, m: nat)
    ensures Pow2(k * (m + 1)) == Pow2(k * m) * Pow2(k)
  {
    assert k * (m + 1) == k * m + k;
    Pow2Add(k * m, k);
  }

  lemma FrontStep(all: int, init: int, rest: int, d: int, p: int, p': int, q: int, mid: int, e: int)
    requires all == init * q + e && init == d * p + mid && rest == mid * q + e && p' == p * q
    ensures all == d * p' + rest
  {
    MulShuffle2(d, p, q, mid);
  }

  lemma One()
    ensures Pow2(0) == 1
  {
  }

  lemma MulShuffle2(d: int, p: int, q: int, v: int)
    ensures (d * p + v) * q == d * (p * q) + v * q
  {
    assert (d * p) * q == d * (p * q);
  }

  lemma {:induction false} CountSnoc(s: string, c: char)
    ensures DigitCount(s + [c]) == DigitCount(s) + if c == '_' then 0 else 1
    decreases |s|
  {
    if s == [] {
      assert [c][1..] == [];
    } else {
      assert (s + [c])[1..] == s[1..] + [c];
      CountSnoc(s[1..], c);
    }
  }

  /** Leading zeros and underscores mean nothing. */
  lemma {:induction false} StripKeepsMeaning(s: string, radix: nat)
    ensures Numeral(s, radix) ==> Numeral(StripLeading(s), radix)
    ensures Meaning(StripLeading(s), radix) == Meaning(s, radix)
    decreases |s|
  {
    if s != [] && (s[0] == '0' || s[0] == '_') {
      DropFront(s, radix);
      StripKeepsMeaning(s[1..], radix);
    }
  }

  lemma {:induction false} DropFront(s: string, radix: nat)
    requires s != [] && (s[0] == '0' || s[0] == '_')
    ensures Meaning(s[1..], radix) == Meaning(s, radix)
    decreases |s|
  {
    var rest := s[1..];
    if rest == [] {
      assert s[..0] == [];
    } else {
      DropFront(s[..|s| - 1], radix);
      assert s[..|s| - 1][1..] == rest[..|rest| - 1];
    }
  }

  // ----- the canonical list of a number -----

  function Limbs(n: nat): seq<nat> {
    if n == 0 then [] else [n % LIMB] + Limbs(n / LIMB)
  }

  lemma {:induction false} LimbsCanonical(n: nat)
    ensures Canonical(Limbs(n)) && Value(32, Limbs(n)) == n
  {
    Pow2Values();
    if n > 0 {
      LimbsCanonical(n / LIMB);
      var rest := Limbs(n / LIMB);
      assert Limbs(n)[1..] == rest;
      if n / LIMB == 0 { assert rest == [] && n % LIMB == n; }
      assert n == n % LIMB + LIMB * (n / LIMB);
    }
  }

  lemma {:induction false} CanonicalIsLimbs(a: seq<nat>)
    requires Canonical(a)
    ensures a == Limbs(Value(32, a))
  {
    LimbsCanonical(Value(32, a));
    CanonicalUnique(a, Limbs(Value(32, a)));
  }

  /** Numerals of one value, in whatever radix and however written, are parsed to the same list. */
  lemma {:induction false} RadixAgreement(s: string, r: nat, t: string, q: nat)
    ensures Meaning(s, r) == Meaning(t, q) <==> Limbs(Meaning(s, r)) == Limbs(Meaning(t, q))
  {
    LimbsCanonical(Meaning(s, r));
    LimbsCanonical(Meaning(t, q));
    hide Meaning, Limbs, Value;
  }

  // ----- multiplying and adding in place -----

  function NewLimb(limb: nat, mul: nat, carry: nat): nat {
    (limb * mul % LIMB + carry) % LIMB
  }

  function NewCarry(limb: nat, mul: nat, carry: nat): nat {
    limb * mul / LIMB + if limb * mul % LIMB + carry >= LIMB then 1 else 0
  }

  /** One limb: the 64-bit product and the carry are split exactly, and the new carry fits 32 bits. */
  lemma LimbStep(limb: nat, mul: nat, carry: nat)
    requires limb < LIMB && mul < LIMB && carry < LIMB
    ensures limb * mul < LIMB * LIMB && limb * mul % LIMB + carry < 2 * LIMB
    ensures NewLimb(limb, mul, carry) < LIMB && NewCarry(limb, mul, carry) < LIMB
    ensures NewLimb(limb, mul, carry) + NewCarry(limb, mul, carry) * LIMB == limb * mul + carry
  {
    var res := limb * mul;
    ProductBound(limb, mul, LIMB - 1);
    LimbSplit(res, carry);
  }

  lemma ProductBound(limb: int, mul: int, m: int)
    requires 0 <= limb <= m && 0 <= mul <= m
    ensures 0 <= limb * mul <= m * m
  {
    assert (m - limb) * mul == m * mul - limb * mul;
    assert m * (m - mul) == m * m - m * mul;
    NonNegative(m - limb, mul);
    NonNegative(m, m - mul);
    NonNegative(limb, mul);
  }

  lemma LimbSplit(res: nat, carry: nat)
    requires res <= (LIMB - 1) * (LIMB - 1) && carry < LIMB
    ensures var c := res / LIMB + (if res % LIMB + carry >= LIMB then 1 else 0);
            c < LIMB && (res % LIMB + carry) % LIMB + c * LIMB == res + carry
  {
  }

  /** The invariant of the loop, one limb further. */
  lemma {:induction false} CarryStep(done: seq<nat>, seen: seq<nat>, limb: nat, mul: nat, add: nat, carry: nat)
    requires |done| == |seen| && limb < LIMB && mul < LIMB && carry < LIMB
    requires Value(32, done) + carry * Pow2(32 * |done|) == Value(32, seen) * mul + add
    ensures Value(32, done + [NewLimb(limb, mul, carry)]) + NewCarry(limb, mul, carry) * Pow2(32 * (|done| + 1))
            == Value(32, seen + [limb]) * mul + add
  {
    hide Value, NewLimb, NewCarry, Pow2;
    var p := Pow2(32 * |done|);
    var a, c := NewLimb(limb, mul, carry), NewCarry(limb, mul, carry);
    LimbStep(limb, mul, carry);
    ValueSnoc(32, done, a);
    ValueSnoc(32, seen, limb);
    assert 32 * (|done| + 1) == 32 * |done| + 32;
    Pow2Add(32 * |done|, 32);
    Pow2Values();
    CarryArithmetic(Value(32, done), Value(32, seen), p, a, c, limb, mul, add, carry,
                    Value(32, done + [a]), Value(32, seen + [limb]), Pow2(32 * (|done| + 1)));
  }

  lemma CarryArithmetic(v: int, u: int, p: int, a: int, c: int, limb: int, mul: int, add: int, carry: int,
                        v': int, u': int, p': int)
    requires a + c * LIMB == limb * mul + carry && v + carry * p == u * mul + add
    requires v' == v + p * a && u' == u + p * limb && p' == p * LIMB
    ensures v' + c * p' == u' * mul + add
  {
    assert p * (a + c * LIMB) == p * a + c * (p * LIMB) by {
      assert p * (c * LIMB) == c * (p * LIMB);
    }
    assert p * (limb * mul + carry) == (p * limb) * mul + carry * p by {
      assert p * (limb * mul) == (p * limb) * mul;
    }
  }

  /** All limbs of the list being pushed are multiplied and added to in place; nothing before it is touched. */
  method MulAddOverLimbs(storage: ListOfLists<nat>, start: nat, mul: nat, add: nat, ghost before: seq<nat>, ghost list: seq<nat>)
      returns (carry: nat, ghost updated: seq<nat>)
    requires storage.Pushing(before, list) && start == |before| && Small(32, list) && mul < LIMB && add < LIMB
    modifies storage`values
    ensures storage.Pushing(before, updated) && |updated| == |list| && Small(32, updated) && carry < LIMB
    ensures Value(32, updated) + carry * Pow2(32 * |list|) == Value(32, list) * mul + add
  {
    hide Value, NewLimb, NewCarry;
    Pow2Values();
    hide Pow2;
    carry, updated := add, [];
    NoLimbs();
    assert list[..0] == [];
    for i := 0 to |storage.values| - start
      invariant |updated| == i && Small(32, updated) && carry < LIMB
      invariant storage.values == before + updated + list[i..]
      invariant Value(32, updated) + carry * Pow2(32 * i) == Value(32, list[..i]) * mul + add
    {
      var limb := storage.values[start + i];
      assert limb == list[i] && list[..i + 1] == list[..i] + [limb];
      LimbStep(limb, mul, carry);
      CarryStep(updated, list[..i], limb, mul, add, carry);
      var newLimb := NewLimb(limb, mul, carry);
      carry := NewCarry(limb, mul, carry);
      Replaced(before + updated, list[i..], newLimb);
      storage.values := storage.values[start + i := newLimb];
      assert before + updated + [newLimb] == before + (updated + [newLimb]);
      assert list[i..][1..] == list[i + 1..];
      updated := updated + [newLimb];
    }
    assert list[..|list|] == list && list[|list|..] == [];
    assert before + updated + [] == before + updated;
  }

  lemma NoLimbs()
    ensures Value(32, []) == 0 && Pow2(32 * 0) == 1
  {
  }

  lemma Replaced<T>(a: seq<T>, b: seq<T>, x: T)
    requires b != []
    ensures (a + b)[|a| := x] == a + [x] + b[1..]
  {
  }

  // ----- the parsers -----

  /** Adding a digit to a canonical list keeps it canonical, once a non-zero carry is pushed. */
  lemma StillCanonical(list: seq<nat>, updated: seq<nat>, carry: nat, dig: nat)
    requires Canonical(list) && |updated| == |list| && Small(32, updated) && carry < LIMB && dig < 10
    requires Value(32, updated) + carry * Pow2(32 * |list|) == Value(32, list) * 10 + dig
    ensures Canonical(if carry > 0 then updated + [carry] else updated)
    ensures Value(32, if carry > 0 then updated + [carry] else updated) == Value(32, list) * 10 + dig
  {
    Pow2Values();
    hide Value, Pow2;
    if carry > 0 {
      ValueSnoc(32, updated, carry);
      assert carry * Pow2(32 * |list|) == Pow2(32 * |list|) * carry;
    } else {
      assert carry * Pow2(32 * |list|) == 0;
      if list != [] {
        TopLimb(list);
        TopLimb(updated);
      }
    }
  }

  method AddDigit(storage: ListOfLists<nat>, start: nat, dig: nat, ghost before: seq<nat>, ghost list: seq<nat>)
      returns (ghost longer: seq<nat>)
    requires storage.Pushing(before, list) && start == |before| && Canonical(list) && dig < 10
    modifies storage`values
    ensures storage.Pushing(before, longer) && Canonical(longer) && Value(32, longer) == Value(32, list) * 10 + dig
  {
    hide Value, Pow2;
    var carry, updated := MulAddOverLimbs(storage, start, 10, dig, before, list);
    StillCanonical(list, updated, carry, dig);
    if carry > 0 {
      storage.Push(carry, before, updated);
      longer := updated + [carry];
    } else {
      longer := updated;
    }
  }

  lemma {:induction false} NothingYet(radix: nat)
    ensures Canonical([]) && Value(32, []) == 0 && Meaning([], radix) == 0
  {
  }

  method FromRadix10In(s: string, storage: ListOfLists<nat>) returns (idx: Option<nat>)
    requires storage.Valid() && Numeral(s, 10)
    modifies storage
    ensures idx.Some? <==> old(|storage.values|) + |Limbs(Meaning(s, 10))| <= U32_MAX
    ensures idx.Some? ==> storage.Valid() && idx.value == |old(storage.Contents())|
                          && storage.Contents() == old(storage.Contents()) + [Limbs(Meaning(s, 10))]
  {
    hide Value, Limbs, Lists, Canonical, Meaning, StripLeading;
    var start := |storage.values|;
    ghost var before, list := storage.values, [];
    assert before + [] == before;
    StripKeepsMeaning(s, 10);
    NothingYet(10);
    var t := StripLeading(s);
    for k := 0 to |t|
      invariant storage.Pushing(before, list) && storage.starts == old(storage.starts)
      invariant Canonical(list) && Value(32, list) == Meaning(t[..k], 10)
    {
      assert t[..k + 1] == t[..k] + [t[k]];
      MeaningSnoc(t[..k], t[k], 10);
      if t[k] != '_' {
        list := AddDigit(storage, start, Digit(t[k]), before, list);
      }
    }
    assert t[..|t|] == t;
    CanonicalIsLimbs(list);
    idx := storage.Finish(start, before, list);
  }

  // ----- radix sixteen and two: a fixed number of bits per digit -----

  predicate BitsPerDigit(k: nat, perLimb: nat) {
    (k == 4 && perLimb == 8) || (k == 1 && perLimb == 32)
  }

  /** What the loop has read of the numeral so far, from its end: full limbs and a part of the next. */
  predicate ReadSoFar(rest: string, k: nat, perLimb: nat, list: seq<nat>, i: nat, limb: nat) {
    && i < perLimb && limb < Pow2(k * i) && Small(32, list)
    && |list| * perLimb + i == DigitCount(rest)
    && Value(32, list) + Pow2(32 * |list|) * limb == Meaning(rest, Pow2(k))
  }

  /** A digit is put above the bits of the limb so far. */
  lemma {:induction false} OneMoreDigit(rest: string, c: char, k: nat, perLimb: nat, list: seq<nat>, i: nat, limb: nat)
    requires BitsPerDigit(k, perLimb) && ReadSoFar(rest, k, perLimb, list, i, limb) && c != '_' && Digit(c) < Pow2(k)
    ensures var limb' := BitOr(limb, Digit(c) * Pow2(k * i));
            && limb' < Pow2(k * (i + 1))
            && |list| * perLimb + (i + 1) == DigitCount([c] + rest)
            && Value(32, list) + Pow2(32 * |list|) * limb' == Meaning([c] + rest, Pow2(k))
  {
    var x := Digit(c);
    hide Digit, Value, Pow2, BitOr, Meaning;
    OrDisjoint(x, limb, k * i);
    assert ([c] + rest)[1..] == rest;
    MeaningFront([c] + rest, k);
    Positions(k, perLimb, |list|, i);
    Pow2Add(32 * |list|, k * i);
    assert k * (i + 1) == k + k * i;
    Pow2Add(k, k * i);
    DigitAbove(x, Pow2(k), limb, Pow2(k * i));
    Scaled(Value(32, list), Pow2(32 * |list|), limb, x, Pow2(k * i));
  }

  lemma Positions(k: nat, perLimb: nat, n: nat, i: nat)
    requires BitsPerDigit(k, perLimb)
    ensures k * (n * perLimb + i) == 32 * n + k * i
  {
  }

  lemma DigitAbove(x: nat, p: nat, low: nat, q: nat)
    requires x < p && low < q
    ensures x * q + low < p * q
  {
    assert (p - 1 - x) * q == p * q - q - x * q;
    NonNegative(p - 1 - x, q);
  }

  lemma Scaled(v: int, p: int, limb: int, x: int, q: int)
    ensures v + p * (x * q + limb) == x * (p * q) + (v + p * limb)
  {
    assert p * (x * q) == x * (p * q);
  }

  lemma {:induction false} FullLimb(rest: string, k: nat, perLimb: nat, list: seq<nat>, limb: nat)
    requires BitsPerDigit(k, perLimb) && Small(32, list) && limb < Pow2(k * perLimb)
    requires |list| * perLimb + perLimb == DigitCount(rest)
    requires Value(32, list) + Pow2(32 * |list|) * limb == Meaning(rest, Pow2(k))
    ensures limb < Pow2(32) && ReadSoFar(rest, k, perLimb, list + [limb], 0, 0)
  {
    hide Value, Pow2, Meaning, DigitCount;
    assert k * perLimb == 32;
    ValueSnoc(32, list, limb);
    One();
    assert Pow2(32 * |list + [limb]|) * 0 == 0;
  }

  /** A numeral that starts with a non-zero digit needs all its digits. */
  lemma {:induction false} FirstDigitCounts(t: string, k: nat)
    requires t != [] && t[0] != '_' && Digit(t[0]) != 0
    ensures DigitCount(t) > 0 && Meaning(t, Pow2(k)) >= Pow2(k * (DigitCount(t) - 1))
  {
    hide Digit, Pow2, Meaning;
    MeaningFront(t, k);
    MulAtLeast(Digit(t[0]), Pow2(k * DigitCount(t[1..])));
  }

  lemma TimesZero(p: int, x: int)
    ensures x == 0 ==> p * x == 0
  {
  }

  /** At the end of the loop, pushing a partial limb that is not zero completes the canonical list. */
  lemma {:induction false} PartialLimb(t: string, k: nat, perLimb: nat, list: seq<nat>, i: nat, limb: nat)
    requires BitsPerDigit(k, perLimb) && ReadSoFar(t, k, perLimb, list, i, limb)
    requires t != [] ==> t[0] != '_' && Digit(t[0]) != 0
    ensures (if i > 0 && limb != 0 then list + [limb] else list) == Limbs(Meaning(t, Pow2(k)))
  {
    hide Digit, Value, Pow2, Meaning, Limbs;
    var v := Meaning(t, Pow2(k));
    One();
    NothingYet(Pow2(k));
    if t != [] {
      FirstDigitCounts(t, k);
      Positions(k, perLimb, |list|, i);
      ValueBound(32, list);
      if i == 0 {
        assert limb == 0 by { assert k * i == 0; }
        assert Pow2(32 * |list|) * limb == 0;
        assert k * (DigitCount(t) - 1) == 32 * |list| - k;
        Pow2Mono(32 * (|list| - 1), k * (DigitCount(t) - 1));
        TopLimb(list);
        CanonicalIsLimbs(list);
      } else {
        Pow2Mono(32 * |list|, k * (DigitCount(t) - 1)) by { assert k * (DigitCount(t) - 1) == 32 * |list| + k * (i - 1); }
        TimesZero(Pow2(32 * |list|), limb);
        assert limb != 0;
        Pow2Mono(k * i, 32);
        ValueSnoc(32, list, limb);
        CanonicalIsLimbs(list + [limb]);
      }
    } else {
      assert |list| * perLimb == 0 && i == 0;
      assert limb == 0 by { assert k * i == 0; }
      assert list == [];
      CanonicalIsLimbs(list);
    }
  }

  /** Digits are read from the least significant one on; every full limb is pushed. */
  method FromDigitBits(s: string, k: nat, perLimb: nat, storage: ListOfLists<nat>) returns (idx: Option<nat>)
    requires storage.Valid() && BitsPerDigit(k, perLimb) && Numeral(s, Pow2(k))
    modifies storage
    ensures idx.Some? <==> old(|storage.values|) + |Limbs(Meaning(s, Pow2(k)))| <= U32_MAX
    ensures idx.Some? ==> storage.Valid() && idx.value == |old(storage.Contents())|
                          && storage.Contents() == old(storage.Contents()) + [Limbs(Meaning(s, Pow2(k)))]
  {
    hide Value, Limbs, Lists, Meaning, StripLeading, Pow2, BitOr, Digit, DigitCount;
    var start := |storage.values|;
    ghost var before, list := storage.values, [];
    assert before + [] == before;
    StripKeepsMeaning(s, Pow2(k));
    StripDigit(s);
    var t := StripLeading(s);
    var i: nat, limb: nat := 0, 0;
    NothingRead(k, perLimb);
    assert t[|t|..] == [];
    for j := |t| downto 0
      invariant storage.Pushing(before, list) && storage.starts == old(storage.starts)
      invariant ReadSoFar(t[j..], k, perLimb, list, i, limb)
    {
      assert t[j..] == [t[j]] + t[j + 1..];
      if t[j] == '_' {
        UnderscoreRead(t[j + 1..], k, perLimb, list, i, limb);
      } else {
        OneMoreDigit(t[j + 1..], t[j], k, perLimb, list, i, limb);
        limb := BitOr(limb, Digit(t[j]) * Pow2(k * i));
        i := (i + 1) % perLimb;
        if i == 0 {
          FullLimb(t[j..], k, perLimb, list, limb);
          storage.Push(limb, before, list);
          list := list + [limb];
          limb := 0;
        }
      }
    }
    assert t[0..] == t;
    PartialLimb(t, k, perLimb, list, i, limb);
    if i > 0 && limb != 0 {
      storage.Push(limb, before, list);
      list := list + [limb];
    }
    idx := storage.Finish(start, before, list);
  }

  lemma {:induction false} StripDigit(s: string)
    ensures var t := StripLeading(s); t != [] ==> t[0] != '_' && Digit(t[0]) != 0
  {
  }

  lemma NothingRead(k: nat, perLimb: nat)
    requires BitsPerDigit(k, perLimb)
    ensures ReadSoFar([], k, perLimb, [], 0, 0)
  {
    assert k * 0 == 0;
  }

  lemma UnderscoreRead(rest: string, k: nat, perLimb: nat, list: seq<nat>, i: nat, limb: nat)
    requires BitsPerDigit(k, perLimb) && ReadSoFar(rest, k, perLimb, list, i, limb)
    ensures ReadSoFar(['_'] + rest, k, perLimb, list, i, limb)
  {
    hide Value, Pow2, Meaning, Digit;
    assert (['_'] + rest)[1..] == rest;
    MeaningFront(['_'] + rest, k);
  }

  method FromRadix16In(s: string, storage: ListOfLists<nat>) returns (idx: Option<nat>)
    requires storage.Valid() && Numeral(s, 16)
    modifies storage
    ensures idx.Some? <==> old(|storage.values|) + |Limbs(Meaning(s, 16))| <= U32_MAX
    ensures idx.Some? ==> storage.Valid() && idx.value == |old(storage.Contents())|
                          && storage.Contents() == old(storage.Contents()) + [Limbs(Meaning(s, 16))]
  {
    hide Limbs, Lists, Meaning;
    assert Pow2(4) == 16;
    idx := FromDigitBits(s, 4, 8, storage);
  }

  method FromRadix2In(s: string, storage: ListOfLists<nat>) returns (idx: Option<nat>)
    requires storage.Valid() && Numeral(s, 2)
    modifies storage
    ensures idx.Some? <==> old(|storage.values|) + |Limbs(Meaning(s, 2))| <= U32_MAX
    ensures idx.Some? ==> storage.Valid() && idx.value == |old(storage.Contents())|
                          && storage.Contents() == old(storage.Contents()) + [Limbs(Meaning(s, 2))]
  {
    hide Limbs, Lists, Meaning;
    assert Pow2(1) == 2;
    idx := FromDigitBits(s, 1, 32, storage);
  }

  // ----- limbs to a machine word -----

  const LIMBS_PER_WORD: nat := 8

  /** Limbs past the eighth that are all zero do not count. */
  lemma {:induction false} ZeroTail(limbs: seq<nat>)
    ensures (forall i | 0 <= i < |limbs| :: limbs[i] == 0) <==> Value(32, limbs) == 0
    decreases |limbs|
  {
    if limbs != [] {
      ZeroTail(limbs[1..]);
      assert forall i | 0 <= i < |limbs[1..]| :: limbs[1..][i] == limbs[i + 1];
      NonNegative(Pow2(32), Value(32, limbs[1..]));
      if forall i | 0 <= i < |limbs| :: limbs[i] == 0 {
        assert forall i | 0 <= i < |limbs[1..]| :: limbs[1..][i] == 0;
      }
    }
  }

  /** The value fits a machine word exactly if everything past the eighth limb is zero. */
  lemma FitsWord(limbs: seq<nat>)
    requires Small(32, limbs)
    ensures var low := if |limbs| > LIMBS_PER_WORD then limbs[..LIMBS_PER_WORD] else limbs;
            var tail := if |limbs| > LIMBS_PER_WORD then limbs[LIMBS_PER_WORD..] else [];
            && Value(32, low) < WORD
            && (Value(32, limbs) < WORD <==> forall i | 0 <= i < |tail| :: tail[i] == 0)
            && (Value(32, limbs) < WORD ==> Value(32, limbs) == Value(32, low))
  {
    Pow2Values();
    hide Value, Pow2;
    var low := if |limbs| > LIMBS_PER_WORD then limbs[..LIMBS_PER_WORD] else limbs;
    var tail := if |limbs| > LIMBS_PER_WORD then limbs[LIMBS_PER_WORD..] else [];
    assert low + tail == limbs;
    ValueAppend(32, low, tail);
    ValueBound(32, low);
    Pow2Mono(32 * |low|, 256);
    ZeroTail(tail);
    if |limbs| > LIMBS_PER_WORD {
      assert 32 * |low| == 256;
      HighPart(Value(32, low), WORD, Value(32, tail));
    }
  }

  lemma HighPart(low: nat, p: nat, high: nat)
    requires low < p
    ensures low + p * high < p <==> high == 0
    ensures high == 0 ==> low + p * high == low
  {
    if high > 0 { MulAtLeast(high, p); }
    assert p * high == high * p;
  }

  /** Two 32-bit limbs make one 64-bit limb. */
  lemma {:induction false} PairStep(words: seq<nat>, limbs: seq<nat>, lo: nat, hi: nat)
    requires 2 * |words| == |limbs| && Value(64, words) == Value(32, limbs)
    ensures Value(64, words + [hi * LIMB + lo]) == Value(32, limbs + [lo, hi])
  {
    hide Value;
    Pow2Values();
    ValueSnoc(64, words, hi * LIMB + lo);
    ValueSnoc(32, limbs, lo);
    ValueSnoc(32, limbs + [lo], hi);
    assert limbs + [lo] + [hi] == limbs + [lo, hi];
    hide Pow2;
    assert 64 * |words| == 32 * |limbs| && 32 * |limbs + [lo]| == 32 * |limbs| + 32;
    Pow2Add(32 * |limbs|, 32);
    PairArithmetic(Pow2(32 * |limbs|), hi, lo);
  }

  lemma PairArithmetic(p: int, hi: int, lo: int)
    ensures p * (hi * LIMB + lo) == p * lo + (p * LIMB) * hi
  {
    assert p * (hi * LIMB) == (p * LIMB) * hi;
  }

  lemma {:induction false} ZerosAdded(w: nat, a: seq<nat>, zeros: seq<nat>)
    requires forall i | 0 <= i < |zeros| :: zeros[i] == 0
    ensures Value(w, a + zeros) == Value(w, a)
    decreases |zeros|
  {
    hide Value;
    if zeros == [] {
      assert a + zeros == a;
    } else {
      var n := |zeros| - 1;
      assert zeros[n] == 0;
      assert a + zeros == (a + zeros[..n]) + [0];
      ZerosAdded(w, a, zeros[..n]);
      ValueSnoc(w, a + zeros[..n], 0);
      TimesZero(Pow2(w * |a + zeros[..n]|), 0);
    }
  }

  /** Pairs of limbs are put into the four 64-bit limbs of a word; an odd last limb has no upper half. */
  method PairUp(limbs: seq<nat>) returns (words: array<nat>)
    requires |limbs| <= LIMBS_PER_WORD
    ensures words.Length == 4 && Value(64, words[..]) == Value(32, limbs)
  {
    hide Value;
    ghost var padded := if |limbs| % 2 == 1 then limbs + [0] else limbs;
    if |limbs| % 2 == 1 { ZerosAdded(32, limbs, [0]); }
    words := new nat[4](_ => 0);
    NoLimbs();
    NoWords();
    var k := 0;
    while k < 4 && 2 * k < |limbs|
      invariant 0 <= k <= 4 && 2 * k <= |padded|
      invariant Value(64, words[..k]) == Value(32, padded[..2 * k])
      invariant forall i | k <= i < 4 :: words[i] == 0
    {
      var lo, hi := limbs[2 * k], if 2 * k + 1 < |limbs| then limbs[2 * k + 1] else 0;
      ghost var done := words[..k];
      words[k] := hi * LIMB + lo;
      assert words[..k + 1] == done + [hi * LIMB + lo];
      assert padded[..2 * (k + 1)] == padded[..2 * k] + [lo, hi];
      PairStep(done, padded[..2 * k], lo, hi);
      k := k + 1;
    }
    assert padded[..2 * k] == padded;
    assert words[..] == words[..k] + words[k..];
    ZerosAdded(64, words[..k], words[k..]);
  }

  lemma NoWords()
    ensures Value(64, []) == 0
  {
  }

  method LimbsToU256(limbs: seq<nat>) returns (r: Option<nat>)
    requires Small(32, limbs)
    ensures r == if Value(32, limbs) < WORD then Some(Value(32, limbs)) else None
  {
    hide Value;
    FitsWord(limbs);
    var low := limbs;
    if |limbs| > LIMBS_PER_WORD {
      low := limbs[..LIMBS_PER_WORD];
      for i := LIMBS_PER_WORD to |limbs|
        invariant forall j | 0 <= j < i - LIMBS_PER_WORD :: limbs[LIMBS_PER_WORD..][j] == 0
      {
        assert limbs[LIMBS_PER_WORD..][i - LIMBS_PER_WORD] == limbs[i];
        if limbs[i] != 0 { return None; }
      }
    }
    var words := PairUp(low);
    r := Some(Value(64, words[..]));
  }

  /**
   * The documented rule, that a list is refused exactly if it has more than eight limbs, holds of a list if and only
   * if it has at most eight or one past the eighth is not zero.
   */
  lemma {:induction false} DocumentedRefusalIff(limbs: seq<nat>)
    requires Small(32, limbs)
    ensures (Value(32, limbs) >= WORD <==> |limbs| > LIMBS_PER_WORD)
            <==> (|limbs| <= LIMBS_PER_WORD || exists i | LIMBS_PER_WORD <= i < |limbs| :: limbs[i] != 0)
  {
    hide Value;
    FitsWord(limbs);
    if |limbs| > LIMBS_PER_WORD {
      var tail := limbs[LIMBS_PER_WORD..];
      forall i | LIMBS_PER_WORD <= i < |limbs| ensures limbs[i] == tail[i - LIMBS_PER_WORD] {}
      if Value(32, limbs) >= WORD {
        var j :| 0 <= j < |tail| && tail[j] != 0;
        assert limbs[LIMBS_PER_WORD + j] != 0;
      }
    }
  }

  /** Nine limbs of which only the first is not zero are not refused. */
  method NineLimbs() returns (r: Option<nat>)
    ensures r == Some(7)
  {
    hide Value;
    var limbs := [7, 0, 0, 0, 0, 0, 0, 0, 0];
    ZerosAdded(32, [7], limbs[1..]);
    assert [7] + limbs[1..] == limbs;
    assert Value(32, [7]) == 7 by { OneLimb(); }
    r := LimbsToU256(limbs);
  }

  lemma OneLimb()
    ensures Value(32, [7]) == 7
  {
  }

  // ----- printing and parsing -----

  const LOWER: string := "0123456789abcdef"
  const UPPER: string := "0123456789ABCDEF"

  /** The digits of a number from the left, the k-th character of the alphabet standing for k. */
  function Printed(n: nat, radix: nat, alphabet: string): string
    requires 2 <= radix <= |alphabet|
  {
    QuotientSmaller(n, radix);
    if n < radix then [alphabet[n]] else Printed(n / radix, radix, alphabet) + [alphabet[n % radix]]
  }

  lemma QuotientSmaller(n: nat, radix: nat)
    requires radix >= 2
    ensures 0 <= n / radix && n / radix * radix + n % radix == n && n % radix < radix
    ensures n >= radix ==> n / radix < n
  {
    Smaller(n, n / radix, radix, n % radix);
  }

  lemma Smaller(n: nat, q: int, radix: nat, r: nat)
    requires n == q * radix + r && r < radix && radix >= 2
    ensures 0 <= q && (n >= radix ==> q < n)
  {
    if q < 0 {
      assert (-(q + 1)) * radix == -(q * radix) - radix;
      NonNegative(-(q + 1), radix);
    } else {
      assert q * radix == q * 2 + q * (radix - 2);
      NonNegative(q, radix - 2);
    }
  }

  lemma DigitOf(k: nat, alphabet: string)
    requires k < 16 && (alphabet == LOWER || alphabet == UPPER)
    ensures Digit(alphabet[k]) == k && alphabet[k] != '_'
  {
  }

  /** A printed number is a numeral, and means the number. */
  lemma {:induction false} PrintedMeans(n: nat, radix: nat, alphabet: string)
    requires 2 <= radix <= 16 && (alphabet == LOWER || alphabet == UPPER)
    ensures Numeral(Printed(n, radix, alphabet), radix) && Meaning(Printed(n, radix, alphabet), radix) == n
    decreases n
  {
    hide Digit, Meaning;
    QuotientSmaller(n, radix);
    var q, r := n / radix, n % radix;
    if n < radix {
      DigitOf(n, alphabet);
      MeaningSnoc([], alphabet[n], radix);
      NothingYet(radix);
      assert [] + [alphabet[n]] == [alphabet[n]];
    } else {
      PrintedMeans(q, radix, alphabet);
      DigitOf(r, alphabet);
      MeaningSnoc(Printed(q, radix, alphabet), alphabet[r], radix);
    }
  }

  /** Printing a number in any of the three radices and parsing it stores the limbs of that very number. */
  method PrintThenParse(n: nat, radix: nat, alphabet: string, storage: ListOfLists<nat>) returns (idx: Option<nat>)
    requires storage.Valid() && radix in {2, 10, 16} && (alphabet == LOWER || alphabet == UPPER)
    modifies storage
    ensures idx.Some? <==> old(|storage.values|) + |Limbs(n)| <= U32_MAX
    ensures idx.Some? ==> storage.Valid() && storage.Contents() == old(storage.Contents()) + [Limbs(n)]
  {
    hide Limbs, Meaning, Printed, Numeral;
    PrintedMeans(n, radix, alphabet);
    var s := Printed(n, radix, alphabet);
    if radix == 2 {
      idx := FromRadix2In(s, storage);
    } else if radix == 10 {
      idx := FromRadix10In(s, storage);
    } else {
      idx := FromRadix16In(s, storage);
    }
  }
}
