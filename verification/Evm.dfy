/**
 * The arithmetic used for folding, as the code computes it on 256-bit words, and what the EVM means by each
 * operation (Appendix H.2 of the Ethereum Yellow Paper; EIP-145 for the shifts).
 */
module Evm {
  import opened Values
  import opened Powers
  import opened Bits

  datatype FoldOp =
    | Add | Mul | Sub | Div | SDiv | Mod | SMod | AddMod | MulMod | Exp | SignExtend
    | Lt | Gt | SLt | SGt | Eq | IsZero | And | Or | Xor | Not | Byte | Shl | Shr | Sar

  const WIDE: int := WORD * WORD
  const HALF: int := 0x8000000000000000_0000000000000000_0000000000000000_0000000000000000
  const MAX: int := 0xFFFFFFFFFFFFFFFF_FFFFFFFFFFFFFFFF_FFFFFFFFFFFFFFFF_FFFFFFFFFFFFFFFF
  const USIZE: nat := 0x1_0000000000000000

  function Arity(f: FoldOp): nat {
    match f
    case Not => 1
    case IsZero => 1
    case AddMod => 3
    case MulMod => 3
    case _ => 2
  }

  type Word = a: int | 0 <= a < WORD

  function Flag(b: bool): nat { if b then 1 else 0 }

  function Pow(b: nat, e: nat): nat {
    if e == 0 then 1 else b * Pow(b, e - 1)
  }

  // ----- what the operations mean; operands are words, and anything larger is reduced to one first -----

  /** A word read as a two's complement number. */
  function Signed(a: Word): int { if a < HALF then a else a - WORD }

  function ToWord(i: int): Word { i % WORD }

  function Abs(i: int): nat { if i < 0 then -i else i }

  /** Division rounding towards zero. */
  function Quotient(a: int, b: int): int
    requires b != 0
  {
    if (a < 0) == (b < 0) then Abs(a) / Abs(b) else -(Abs(a) / Abs(b))
  }

  /** The remainder that goes with it, which has the sign of the dividend. */
  function Remainder(a: int, b: int): int
    requires b != 0
  {
    if a < 0 then -(Abs(a) % Abs(b)) else Abs(a) % Abs(b)
  }

  /** The low b+1 bytes read as a two's complement number; all of the word from b = 31 on. */
  function Extended(b: Word, x: Word): int {
    if b >= 31 then x
    else
      var k := 8 * (b + 1);
      var low := x % Pow2(k);
      if low < Pow2(k - 1) then low else low - Pow2(k)
  }

  function Meaning(f: FoldOp, args: seq<nat>): nat
    requires |args| == Arity(f)
  {
    var a := ToWord(args[0]);
    if |args| == 1 then
      if f == Not then ToWord(-1 - a) else Flag(a == 0)
    else if |args| == 3 then Meaning3(f, a, ToWord(args[1]), ToWord(args[2]))
    else Meaning2(f, a, ToWord(args[1]))
  }

  function Meaning3(f: FoldOp, a: Word, b: Word, n: Word): nat {
    if n == 0 then 0 else if f == AddMod then (a + b) % n else (a * b) % n
  }

  function Meaning2(f: FoldOp, a: Word, b: Word): nat
    requires Arity(f) == 2
  {
    match f
    case Add => ToWord(a + b)
    case Mul => ToWord(a * b)
    case Sub => ToWord(a - b)
    case Div => if b == 0 then 0 else a / b
    case SDiv => if b == 0 then 0 else ToWord(Quotient(Signed(a), Signed(b)))
    case Mod => if b == 0 then 0 else a % b
    case SMod => if b == 0 then 0 else ToWord(Remainder(Signed(a), Signed(b)))
    case Exp => Pow(a, b) % WORD
    case SignExtend => ToWord(Extended(a, b))
    case Lt => Flag(a < b)
    case Gt => Flag(a > b)
    case SLt => Flag(Signed(a) < Signed(b))
    case SGt => Flag(Signed(a) > Signed(b))
    case Eq => Flag(a == b)
    case And => BitAnd(a, b)
    case Or => BitOr(a, b)
    case Xor => BitXor(a, b)
    case Byte => if a < 32 then b / Pow2(8 * (31 - a)) % 256 else 0
    case Shl => b * Pow2(a) % WORD
    case Shr => b / Pow2(a)
    case Sar => ToWord(Signed(b) / Pow2(a))
  }

  // ----- what the code computes -----

  function WrappingSub(a: Word, b: Word): Word { if a >= b then a - b else WORD + a - b }

  /** `value << shift`: everything is shifted out from 256 on. */
  function WordShl(shift: nat, value: Word): Word { if shift >= 256 then 0 else value * Pow2(shift) % WORD }

  function WordShr(shift: nat, value: Word): nat {
    hide Pow2;
    if shift >= 256 then 0
    else
      QuotientNonNegative(value, Pow2(shift));
      value / Pow2(shift)
  }

  lemma QuotientNonNegative(b: int, d: int)
    requires b >= 0 && d > 0
    ensures b / d >= 0
  {
  }

  function Negated(a: Word): Word { if a == 0 then 0 else WORD - a }

  predicate Negative(a: Word) { a >= HALF }

  /** The magnitude of a two's complement word. */
  function Magnitude(a: Word): (m: Word)
    ensures a != 0 ==> m != 0
    ensures m <= HALF
  {
    if Negative(a) then Negated(a) else a
  }

  function Sdiv(a: Word, b: Word): Word {
    if b == 0 then 0
    else
      QuotientSmall(Magnitude(a), Magnitude(b));
      var d := Magnitude(a) / Magnitude(b);
      if Negative(a) == Negative(b) then d else Negated(d)
  }

  /** `checked_rem` refuses a zero divisor and the minimum over minus one, and both give zero. */
  function Smod(a: Word, b: Word): Word {
    if b == 0 || (a == HALF && b == MAX) then 0
    else
      var r := Magnitude(a) % Magnitude(b);
      if Negative(a) then Negated(r) else r
  }

  function SignExtendCode(b: Word, x: Word): nat {
    if b >= USIZE || b >= 32 then x
    else
      var pos := (b + 1) * 8 - 1;
      if Bit(x, pos) then BitOr(x, WordShl(pos + 1, MAX))
      else BitAnd(x, WrappingSub(WordShl(pos + 1, 1), 1))
  }

  function ByteCode(i: Word, x: Word): nat {
    if i >= USIZE || i >= 32 then 0 else x / Pow2(8 * (31 - i)) % 256
  }

  /** An arithmetic shift fills with copies of the sign bit. */
  function Asr(value: Word, shift: nat): nat {
    if shift == 0 then value
    else if shift >= 255 then (if Negative(value) then MAX else 0)
    else if Negative(value) then BitOr(WordShr(shift, value), WordShl(256 - shift, MAX))
    else WordShr(shift, value)
  }

  function SarCode(shift: Word, value: Word): nat {
    if shift < USIZE then Asr(value, shift) else if Negative(value) then MAX else 0
  }

  function Fold(f: FoldOp, args: seq<nat>): nat
    requires |args| == Arity(f)
  {
    var a := ToWord(args[0]);
    if |args| == 1 then
      if f == Not then MAX - a else Flag(a == 0)
    else if |args| == 3 then Fold3(f, a, ToWord(args[1]), ToWord(args[2]))
    else Fold2(f, a, ToWord(args[1]))
  }

  /** The low 512 bits. */
  function Wrapped(x: nat): (r: nat)
    ensures r < WIDE
  {
    if x < WIDE then x else Wrapped(x - WIDE)
  }

  /** The sum and the product are taken in 512 bits before they are reduced. */
  function Fold3(f: FoldOp, a: Word, b: Word, n: Word): nat {
    if n == 0 then 0 else Wrapped(if f == AddMod then a + b else a * b) % n
  }

  function Fold2(f: FoldOp, a: Word, b: Word): nat
    requires Arity(f) == 2
  {
    match f
    case Add => (a + b) % WORD
    case Mul => (a * b) % WORD
    case Sub => WrappingSub(a, b)
    case Div => if b == 0 then 0 else a / b
    case SDiv => Sdiv(a, b)
    case Mod => if b == 0 then 0 else a % b
    case SMod => Smod(a, b)
    case Exp => Pow(a, b) % WORD
    case SignExtend => SignExtendCode(a, b)
    case Lt => Flag(a < b)
    case Gt => Flag(a > b)
    case SLt => Flag(Signed(a) < Signed(b))
    case SGt => Flag(Signed(a) > Signed(b))
    case Eq => Flag(a == b)
    case And => BitAnd(a, b)
    case Or => BitOr(a, b)
    case Xor => BitXor(a, b)
    case Byte => ByteCode(a, b)
    case Shl => WordShl(a, b)
    case Shr => WordShr(a, b)
    case Sar => SarCode(a, b)
  }

  // ----- the code computes what is meant -----

  lemma WordIsPower()
    ensures Pow2(256) == WORD && Pow2(255) == HALF
  {
    Pow2Values();
    assert Pow2(256) == 2 * Pow2(255);
  }

  lemma QuotientSmall(b: nat, d: nat)
    requires d > 0
    ensures b / d <= b
  {
    SmallerQuotient(b, d, b / d, b % d);
  }

  lemma SmallerQuotient(b: nat, d: nat, q: nat, r: nat)
    requires d > 0 && b == q * d + r
    ensures q <= b
  {
    if q > 0 { MulAtLeast(d, q); }
    assert d * q == q * d;
  }

  lemma {:induction false} ShiftedOut(a: nat, b: Word)
    requires a >= 256
    ensures b * Pow2(a) % WORD == 0 && b / Pow2(a) == 0
  {
    WordIsPower();
    Pow2Add(a - 256, 256);
    Regrouped(b, Pow2(a - 256), WORD);
    DivModUnique(b * Pow2(a), WORD, b * Pow2(a - 256), 0);
    Pow2Mono(256, a);
    DivModUnique(b, Pow2(a), 0, b);
  }

  lemma Regrouped(a: int, b: int, c: int)
    ensures a * (b * c) == (a * b) * c
  {
  }

  lemma ShiftsMean(a: Word, b: Word)
    ensures WordShl(a, b) == Meaning2(Shl, a, b) < WORD
    ensures WordShr(a, b) == Meaning2(Shr, a, b) < WORD
  {
    if a >= 256 { ShiftedOut(a, b); } else { QuotientSmall(b, Pow2(a)); }
  }

  lemma MagnitudeIsAbs(a: Word)
    ensures Magnitude(a) == Abs(Signed(a))
    ensures Negative(a) <==> Signed(a) < 0
    ensures Signed(a) == 0 <==> a == 0
  {
  }

  lemma NegatedIsToWord(d: int)
    requires 0 <= d < WORD
    ensures Negated(d) == ToWord(-d)
  {
    if d > 0 { DivModUnique(-d, WORD, -1, WORD - d); }
  }

  lemma SdivMeans(a: Word, b: Word)
    ensures Sdiv(a, b) == Meaning2(SDiv, a, b)
  {
    MeaningOfSdiv(a, b);
    if b != 0 {
      hide Meaning2, Magnitude, Signed, Negated, Abs, Negative, ToWord, Sdiv, Quotient;
      MagnitudeIsAbs(a);
      MagnitudeIsAbs(b);
      var q := Magnitude(a) / Magnitude(b);
      QuotientSmall(Magnitude(a), Magnitude(b));
      SdivCode(a, b, q);
      QuotientIs(Signed(a), Signed(b), q);
      NegatedIsToWord(q);
      SmallWord(q);
    }
  }

  lemma SdivCode(a: Word, b: Word, q: nat)
    requires b != 0 && Magnitude(b) > 0 && q == Magnitude(a) / Magnitude(b)
    ensures Sdiv(a, b) == if Negative(a) == Negative(b) then q else Negated(q)
  {
    hide Magnitude, Negated, Negative;
  }

  lemma QuotientIs(x: int, y: int, q: int)
    requires y != 0 && Abs(y) > 0 && q == Abs(x) / Abs(y)
    ensures Quotient(x, y) == if (x < 0) == (y < 0) then q else -q
  {
    hide Abs;
  }

  lemma MeaningOfSdiv(a: Word, b: Word)
    ensures Meaning2(SDiv, a, b) == if b == 0 then 0 else ToWord(Quotient(Signed(a), Signed(b)))
    ensures Signed(b) == 0 <==> b == 0
  {
    hide Quotient, ToWord;
  }

  lemma SmodMeans(a: Word, b: Word)
    ensures Smod(a, b) == Meaning2(SMod, a, b)
  {
    MeaningOfSmod(a, b);
    if b != 0 {
      hide Meaning2, Magnitude, Signed, Negated, Abs, Negative, ToWord;
      MagnitudeIsAbs(a);
      MagnitudeIsAbs(b);
      var m, d := Magnitude(a), Magnitude(b);
      OneDivides(m, d);
      if a == HALF && b == MAX {
        MinusOne();
      }
      NegatedIsToWord(m % d);
      SmallWord(m % d);
    }
  }

  lemma MeaningOfSmod(a: Word, b: Word)
    ensures Meaning2(SMod, a, b) == if b == 0 then 0 else ToWord(Remainder(Signed(a), Signed(b)))
  {
    hide Signed, Remainder, ToWord;
  }

  lemma SmallWord(r: nat)
    requires r < WORD
    ensures ToWord(r) == r && ToWord(0) == 0 && Negated(0) == 0
  {
  }

  lemma MinusOne()
    ensures Magnitude(MAX) == 1
  {
  }

  lemma OneDivides(x: int, d: int)
    requires d > 0
    ensures 0 <= x % d < d && (d == 1 ==> x % d == 0)
  {
  }

  /** The bit below a power of two says which half the remainder is in. */
  lemma SignBit(x: nat, k: nat)
    requires k > 0
    ensures Bit(x, k - 1) <==> x % Pow2(k) >= Pow2(k - 1)
  {
    BitIsQuotient(x, k - 1);
    var p := Pow2(k - 1);
    DivDiv(x, p, 2);
    assert p * 2 == Pow2(k);
    HalfOf(x / p % 2, x % p, p);
  }

  lemma HalfOf(bit: nat, low: nat, p: nat)
    requires bit < 2 && low < p
    ensures bit == 1 <==> bit * p + low >= p
  {
  }

  lemma {:induction false} HighOnes(k: nat)
    requires k < 256
    ensures Pow2(k) <= WORD && WordShl(k, MAX) == WORD - Pow2(k)
  {
    WordIsPower();
    Pow2Mono(k, 256);
    var p := Pow2(k);
    AllOnesTimes(p);
    DivModUnique(MAX * p, WORD, p - 1, WORD - p);
  }

  lemma AllOnesTimes(p: int)
    ensures MAX * p == (p - 1) * WORD + (WORD - p)
  {
  }

  lemma SignExtendMeans(b: Word, x: Word)
    ensures SignExtendCode(b, x) == Meaning2(SignExtend, b, x) < WORD
  {
    if b < 31 {
      NarrowExtend(b, x);
    } else if b == 31 {
      WordIsPower();
      if Bit(x, 255) {
        OrZero(x);
      } else {
        AndMask(x, 256);
        DivModUnique(x, WORD, 0, x);
      }
    }
  }

  lemma NarrowExtend(b: Word, x: Word)
    requires b < 31
    ensures SignExtendCode(b, x) == ToWord(Extended(b, x))
  {
    hide BitOr, BitAnd, Bit;
    WordIsPower();
    var k := 8 * (b + 1);
    Pow2Mono(k, 255);
    SignBit(x, k);
    hide Pow2, WordShl;
    var p, low := Pow2(k), x % Pow2(k);
    HighOnes(k);
    if Bit(x, k - 1) {
      OrHighMask(x, k, 256);
      DivModUnique(low - p, WORD, -1, WORD + low - p);
    } else {
      DivModUnique(1 * p, WORD, 0, p);
      AndMask(x, k);
      DivModUnique(low, WORD, 0, low);
    }
  }

  lemma SarMeans(shift: Word, value: Word)
    ensures SarCode(shift, value) == Meaning2(Sar, shift, value) < WORD
  {
    hide Pow2, BitOr, WordShl;
    if shift >= 255 {
      FarShift(shift, value);
    } else if Negative(value) && shift > 0 {
      NegativeShift(shift, value);
    } else if shift == 0 {
      NoShift(value);
    } else {
      PlainShift(shift, value);
    }
  }

  lemma NoShift(value: Word)
    ensures Pow2(0) == 1 && ToWord(Signed(value)) == value
  {
    if Negative(value) { DivModUnique(Signed(value), WORD, -1, value); } else { DivModUnique(value, WORD, 0, value); }
  }

  lemma {:induction false} PlainShift(shift: nat, value: Word)
    requires value < HALF
    ensures value / Pow2(shift) < WORD && ToWord(value / Pow2(shift)) == value / Pow2(shift)
  {
    hide Pow2;
    QuotientSmall(value, Pow2(shift));
    QuotientNonNegative(value, Pow2(shift));
    DivModUnique(value / Pow2(shift), WORD, 0, value / Pow2(shift));
  }

  lemma {:induction false} FarShift(shift: nat, value: Word)
    requires shift >= 255
    ensures ToWord(Signed(value) / Pow2(shift)) == if Negative(value) then MAX else 0
  {
    WordIsPower();
    Pow2Mono(255, shift);
    if Negative(value) {
      DivModUnique(Signed(value), Pow2(shift), -1, Pow2(shift) + Signed(value));
      DivModUnique(-1, WORD, -1, MAX);
    } else {
      DivModUnique(value, Pow2(shift), 0, value);
    }
  }

  lemma {:induction false} NegativeShift(shift: nat, value: Word)
    requires 0 < shift < 255 && value >= HALF
    ensures Asr(value, shift) == ToWord(Signed(value) / Pow2(shift)) < WORD
  {
    hide Pow2, BitOr, WordShl;
    var q := ShiftParts(shift, value);
    assert WordShr(shift, value) == q;
  }

  lemma ShiftParts(shift: nat, value: Word) returns (q: nat)
    requires 0 < shift < 255 && value >= HALF
    ensures q == value / Pow2(shift)
    ensures BitOr(q, WordShl(256 - shift, MAX)) == ToWord((value - WORD) / Pow2(shift)) < WORD
  {
    hide BitOr, WordShl;
    WordIsPower();
    var p, h := Pow2(shift), Pow2(256 - shift);
    Pow2Add(256 - shift, shift);
    hide Pow2;
    q := value / p;
    SplitShift(value, q, p, value % p, h);
    FilledShift(q, 256 - shift);
    FloorShift(value, p, q, h, value % p);
  }

  lemma {:induction false} FilledShift(q: nat, k: nat)
    requires k < 256 && q < Pow2(k)
    ensures Pow2(k) <= WORD && BitOr(q, WordShl(k, MAX)) == WORD - Pow2(k) + q
  {
    WordIsPower();
    HighOnes(k);
    OrHighMask(q, k, 256);
    DivModUnique(q, Pow2(k), 0, q);
  }

  lemma FloorShift(value: int, p: int, q: int, h: int, r: int)
    requires p > 0 && value - WORD == (q - h) * p + r && 0 <= r < p && 0 <= q < h <= WORD
    ensures ToWord((value - WORD) / p) == WORD + q - h
  {
    DivModUnique(value - WORD, p, q - h, r);
    DivModUnique(q - h, WORD, -1, WORD + q - h);
  }

  /** Dividing a number below h * p by p stays below h, and taking h * p off it takes h off the quotient. */
  lemma SplitShift(value: Word, q: nat, p: nat, r: nat, h: nat)
    requires value == q * p + r && r < p && h * p == WORD
    ensures q < h <= WORD && value - WORD == (q - h) * p + r
  {
    assert (q - h) * p == q * p - h * p;
    if q >= h { MulMono(h, q, p); }
    MulAtLeast(p, h);
    assert p * h == h * p;
  }

  lemma MulMono(a: nat, b: nat, c: nat)
    requires a <= b
    ensures a * c <= b * c
  {
    assert (b - a) * c >= 0;
    assert (b - a) * c == b * c - a * c;
  }

  lemma {:induction false} BitwiseSmall(a: Word, b: Word)
    ensures BitAnd(a, b) < WORD && BitOr(a, b) < WORD && BitXor(a, b) < WORD
  {
    WordIsPower();
    BitOrBound(a, b, 256);
  }

  lemma TernaryMeans(f: FoldOp, a: Word, b: Word, n: Word)
    ensures Fold3(f, a, b, n) == Meaning3(f, a, b, n) < WORD
  {
    ProductSmall(a, b);
  }

  lemma ProductSmall(a: Word, b: Word)
    ensures 0 <= a * b < WIDE && a + b < WIDE
  {
    MulMono(a, MAX, b);
    MulMono(b, MAX, MAX);
    assert b * MAX == MAX * b;
  }

  /** Folding is what the machine would have computed, for every operation and all words. */
  lemma FoldMeansOp(f: FoldOp, args: seq<nat>)
    requires |args| == Arity(f) && forall i | 0 <= i < |args| :: args[i] < WORD
    ensures Fold(f, args) == Meaning(f, args) < WORD
  {
    hide Fold2, Meaning2, Fold3, Meaning3;
    var a: int := ToWord(args[0]);
    if |args| == 1 {
      if f == Not { DivModUnique(-1 - a, WORD, -1, MAX - a); }
    } else if |args| == 3 {
      TernaryMeans(f, a, ToWord(args[1]), ToWord(args[2]));
    } else {
      Fold2Means(f, a, ToWord(args[1]));
    }
  }

  lemma Fold2Means(f: FoldOp, a: Word, b: Word)
    requires Arity(f) == 2
    ensures Fold2(f, a, b) == Meaning2(f, a, b) < WORD
  {
    hide Sdiv, Smod, SignExtendCode, SarCode, WordShl, WordShr, Extended, Pow, BitAnd, BitOr, BitXor, Pow2, Signed;
    match f
    case Sub => if a < b { DivModUnique(a - b, WORD, -1, WORD + a - b); } else { DivModUnique(a - b, WORD, 0, a - b); }
    case SDiv => SdivMeans(a, b);
    case SMod => SmodMeans(a, b);
    case SignExtend => SignExtendMeans(a, b);
    case Sar => SarMeans(a, b);
    case Shl => ShiftsMean(a, b);
    case Shr => ShiftsMean(a, b);
    case Div => if b != 0 { QuotientSmall(a, b); }
    case And => BitwiseSmall(a, b);
    case Or => BitwiseSmall(a, b);
    case Xor => BitwiseSmall(a, b);
    case _ =>
  }

  // ----- laws -----

  /** The laws of powers. */
  lemma {:induction false} PowLaws(b: nat, m: nat, n: nat)
    ensures Pow(b, 0) == 1 && Pow(b, 1) == b
    ensures Pow(b, m + n) == Pow(b, m) * Pow(b, n)
    decreases m
  {
    assert Pow(b, 1) == b * Pow(b, 0);
    if m > 0 {
      PowLaws(b, m - 1, n);
      assert m + n - 1 == m - 1 + n;
      Regrouped(b, Pow(b, m - 1), Pow(b, n));
    }
  }

  /** The bitwise operations, bit by bit. */
  lemma {:induction false} BitwiseLaws(a: Word, b: Word, i: nat)
    ensures Bit(Fold(And, [a, b]), i) <==> (Bit(a, i) && Bit(b, i))
    ensures Bit(Fold(Or, [a, b]), i) <==> (Bit(a, i) || Bit(b, i))
    ensures Bit(Fold(Xor, [a, b]), i) <==> (Bit(a, i) != Bit(b, i))
  {
    BitAndAt(a, b, i);
    BitOrAt(a, b, i);
    BitXorAt(a, b, i);
    hide Bit, BitAnd, BitOr, BitXor, Pow;
    assert ToWord(a) == a && ToWord(b) == b;
  }

  /** Comparisons fold to 0 or 1, and so do the bitwise operations on operands that are 0 or 1. */
  lemma {:induction false} FoldIsFlag(f: FoldOp, args: seq<nat>)
    requires |args| == Arity(f)
    requires f in {Lt, Gt, SLt, SGt, Eq, IsZero}
             || (f in {And, Or, Xor} && forall i | 0 <= i < |args| :: args[i] <= 1)
    ensures Fold(f, args) <= 1
  {
    hide Pow, Signed, Pow2;
    if f in {And, Or, Xor} {
      hide BitAnd, BitOr, BitXor;
      assert ToWord(args[0]) == args[0] && ToWord(args[1]) == args[1];
      assert Pow2(1) == 2 by { Pow2One(); }
      BitOrBound(args[0], args[1], 1);
    }
  }

  lemma Pow2One()
    ensures Pow2(1) == 2
  {
  }

  /** Division and remainder fit together, the minimum over minus one included. */
  lemma SdivSmodIdentity(a: Word, b: Word)
    requires b != 0
    ensures ToWord(Sdiv(a, b) * b + Smod(a, b)) == a
  {
    SdivMeans(a, b);
    SmodMeans(a, b);
    var sa, sb := Signed(a), Signed(b);
    var q, r := Quotient(sa, sb), Remainder(sa, sb);
    QuotientRemainder(sa, sb);
    var kb, ka := (if b < HALF then 0 else 1), (if a < HALF then 0 else 1);
    hide Sdiv, Smod, Quotient, Remainder;
    SameResidue(q, sb, r, sa, Sdiv(a, b), b, Smod(a, b), a, q / WORD, kb, r / WORD, ka);
  }

  /** Congruent factors and summands give congruent results. */
  lemma SameResidue(q: int, s: int, r: int, t: int, q': int, s': int, r': int, t': Word, kq: int, ks: int, kr: int, kt: int)
    requires q' == q - kq * WORD && s' == s + ks * WORD && r' == r - kr * WORD && t' == t + kt * WORD
    requires q * s + r == t
    ensures (q' * s' + r') % WORD == t'
  {
    Congruent(q, s, r, kq, ks, kr, WORD);
    var k := q * ks - kq * s - kq * ks * WORD - kr;
    DivModUnique(q' * s' + r', WORD, k - kt, t');
  }

  lemma Congruent(q: int, s: int, r: int, kq: int, kb: int, kr: int, m: int)
    ensures (q - kq * m) * (s + kb * m) + (r - kr * m) == q * s + r + (q * kb - kq * s - kq * kb * m - kr) * m
  {
    assert (q - kq * m) * (s + kb * m) == q * s + q * (kb * m) - (kq * m) * s - (kq * m) * (kb * m);
    assert (q * kb - kq * s - kq * kb * m - kr) * m == (q * kb) * m - (kq * s) * m - (kq * kb * m) * m - kr * m;
    assert (kq * m) * (kb * m) == (kq * kb * m) * m;
    assert (kq * m) * s == (kq * s) * m;
    assert q * (kb * m) == (q * kb) * m;
  }

  lemma QuotientRemainder(a: int, b: int)
    requires b != 0
    ensures Quotient(a, b) * b + Remainder(a, b) == a
  {
    var m: int, n: int := Abs(a), Abs(b);
    var d := m / n;
    assert d * n + m % n == m;
    assert (-d) * n == -(d * n) && d * (-n) == -(d * n) && (-d) * (-n) == d * n;
  }

  /** A shift to the right rounds down, whatever the sign and however far. */
  lemma {:induction false} SarIsFloor(shift: Word, value: Word)
    ensures SarCode(shift, value) < WORD
    ensures var q := Signed(SarCode(shift, value));
            q * Pow2(shift) <= Signed(value) < (q + 1) * Pow2(shift)
  {
    SarMeans(shift, value);
    FloorLaw(Signed(value), Pow2(shift));
    hide SarCode, Pow2, Signed;
  }

  lemma FloorLaw(s: int, p: int)
    requires -HALF <= s < HALF && p > 0
    ensures var q := Signed(ToWord(s / p)); q * p <= s < (q + 1) * p
  {
    FloorRange(s, p, s / p, s % p);
    SignedToWord(s / p);
  }

  lemma FloorRange(s: int, p: int, q: int, r: int)
    requires -HALF <= s < HALF && p > 0 && s == q * p + r && 0 <= r < p
    ensures -HALF <= q < HALF && q * p <= s < (q + 1) * p
  {
    assert (q + 1) * p == q * p + p;
    assert (q - HALF) * p == q * p - HALF * p;
    assert (-HALF - 1 - q) * p == -HALF * p - p - q * p;
    AtLeastHalf(p);
    if q >= HALF { NonNegative(q - HALF, p); }
    if q < -HALF { NonNegative(-HALF - 1 - q, p); }
  }

  lemma AtLeastHalf(p: int)
    requires p > 0
    ensures HALF * p >= HALF
  {
  }

  lemma SignedToWord(i: int)
    requires -HALF <= i < HALF
    ensures Signed(ToWord(i)) == i
  {
    if i < 0 { DivModUnique(i, WORD, -1, WORD + i); } else { DivModUnique(i, WORD, 0, i); }
  }

  /** `signextend` keeps the signed value of the low bytes, and doing it again changes nothing. */
  lemma SignExtendLaws(b: Word, x: Word)
    ensures SignExtendCode(b, x) < WORD
    ensures SignExtendCode(b, SignExtendCode(b, x)) == SignExtendCode(b, x)
    ensures b < 31 ==> Signed(SignExtendCode(b, x)) == Extended(b, x)
  {
    hide SignExtendCode, Extended, Signed, ToWord;
    SignExtendMeans(b, x);
    SignExtendMeans(b, SignExtendCode(b, x));
    ExtendTwice(b, x);
  }

  lemma ExtendTwice(b: Word, x: Word)
    ensures Extended(b, ToWord(Extended(b, x))) == Extended(b, x)
    ensures b < 31 ==> Signed(ToWord(Extended(b, x))) == Extended(b, x)
  {
    if b < 31 {
      ExtendedRange(b, x);
      SignedToWord(Extended(b, x));
      SameLow(b, x);
    } else {
      DivModUnique(x, WORD, 0, x);
    }
  }

  lemma ExtendedRange(b: Word, x: Word)
    requires b < 31
    ensures -HALF <= Extended(b, x) < HALF
  {
    WordIsPower();
    Pow2Mono(8 * (b + 1), 255);
  }

  lemma {:induction false} SameLow(b: Word, x: Word)
    requires b < 31
    ensures ToWord(Extended(b, x)) % Pow2(8 * (b + 1)) == x % Pow2(8 * (b + 1))
  {
    WordIsPower();
    var k := 8 * (b + 1);
    var p, h := Pow2(k), Pow2(256 - k);
    Pow2Add(256 - k, k);
    var low := x % p;
    Pow2Mono(k, 255);
    LowOfWord(low, p, h);
    hide Pow2, ToWord;
  }

  lemma LowOfWord(low: int, p: int, h: int)
    requires 0 <= low < p && h * p == WORD && p <= WORD
    ensures ToWord(low) % p == low && ToWord(low - p) % p == low
  {
    DivModUnique(low, WORD, 0, low);
    DivModUnique(low, p, 0, low);
    DivModUnique(low - p, WORD, -1, WORD + low - p);
    assert (h - 1) * p == h * p - p;
    DivModUnique(WORD + low - p, p, h - 1, low);
  }

  // ----- the meanings the lowering of memory operations relies on -----

  lemma {:induction false} ShrMeaning(bits: Word, v: Word)
    ensures Meaning(Shr, [bits, v]) == v / Pow2(bits)
  {
    hide Pow2, Pow, BitAnd, BitOr, BitXor, Extended, Quotient, Remainder, Signed;
    assert ToWord(bits) == bits && ToWord(v) == v;
  }

  lemma {:induction false} ShlMeaning(bits: Word, v: Word)
    ensures Meaning(Shl, [bits, v]) == v * Pow2(bits) % WORD
  {
    hide Pow2, Pow, BitAnd, BitOr, BitXor, Extended, Quotient, Remainder, Signed;
    assert ToWord(bits) == bits && ToWord(v) == v;
  }

  lemma {:induction false} OrMeaning(a: Word, b: Word)
    ensures Meaning(Or, [a, b]) == BitOr(a, b)
  {
    hide Pow2, Pow, BitAnd, BitOr, BitXor, Extended, Quotient, Remainder, Signed;
    assert ToWord(a) == a && ToWord(b) == b;
  }

  // ----- the three meanings the evaluator relies on when it rewrites -----

  lemma EqMeaning(a: Word, b: Word)
    ensures Meaning(Eq, [a, b]) == Flag(a == b)
  {
  }

  lemma IsZeroMeaning(a: Word)
    ensures Meaning(IsZero, [a]) == Flag(a == 0)
  {
  }

  lemma XorMeaning(a: Word, b: Word)
    requires a < 2 && b < 2
    ensures Meaning(Xor, [a, b]) == Flag(a != b)
  {
    assert a / 2 == 0 && b / 2 == 0;
    assert BitXor(0, 0) == 0;
  }
}
