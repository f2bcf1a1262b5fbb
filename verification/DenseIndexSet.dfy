/** A set of indices as a vector of 64-bit words. */
module DenseIndexSets {
  import opened Values
  import opened Powers
  import opened Bits

  const BITS: nat := 64
  const ALL_ONES: nat := 0xFFFF_FFFF_FFFF_FFFF

  predicate Words(inner: seq<nat>) {
    forall i | 0 <= i < |inner| :: inner[i] <= ALL_ONES
  }

  predicate Has(inner: seq<nat>, i: nat) {
    i / BITS < |inner| && Bit(inner[i / BITS], i % BITS)
  }

  /** The mathematical set the words stand for. */
  ghost function Elements(inner: seq<nat>): set<nat> {
    set i: nat | i < BITS * |inner| && Has(inner, i)
  }

  lemma ElementsAre(inner: seq<nat>, i: nat)
    ensures i in Elements(inner) <==> Has(inner, i)
  {
    if i / BITS < |inner| { assert i < BITS * |inner|; }
  }

  // ----- single bits -----

  lemma AllOnesPower()
    ensures Pow2(BITS) == ALL_ONES + 1
  {
    Pow2Values();
  }

  /** `word & (1 << bit) != 0`. */
  lemma {:induction false} TestBit(w: nat, b: nat)
    ensures BitAnd(w, Pow2(b)) != 0 <==> Bit(w, b)
  {
    BitAndAt(w, Pow2(b), b);
    BitOfPow2(b, b);
    if BitAnd(w, Pow2(b)) != 0 {
      var i := LowBit(BitAnd(w, Pow2(b)));
      BitAndAt(w, Pow2(b), i);
      BitOfPow2(b, i);
    } else {
      BitOfZero(b);
    }
  }

  /** The position of the lowest set bit, and that it is the lowest. */
  function TrailingZeros(w: nat): nat
    requires w != 0
  {
    if w % 2 == 1 then 0 else 1 + TrailingZeros(w / 2)
  }

  lemma {:induction false} LowBit(w: nat) returns (i: nat)
    requires w != 0
    ensures i == TrailingZeros(w) && Bit(w, i) && forall j: nat | j < i :: !Bit(w, j)
    decreases w
  {
    if w % 2 == 1 {
      i := 0;
    } else {
      var j := LowBit(w / 2);
      i := j + 1;
      forall k: nat | k < i ensures !Bit(w, k) {
        if k > 0 { assert Bit(w, k) == Bit(w / 2, k - 1); }
      }
    }
  }

  /** `w & (w - 1)` takes the lowest bit away and no other. */
  lemma {:induction false} ClearLowest(w: nat, i: nat)
    requires w != 0
    ensures Bit(BitAnd(w, w - 1), i) <==> Bit(w, i) && i != TrailingZeros(w)
    decreases w
  {
    BitAndAt(w, w - 1, i);
    if w % 2 == 1 {
      if i > 0 { assert (w - 1) / 2 == w / 2; }
    } else {
      if i > 0 {
        assert (w - 1) / 2 == w / 2 - 1;
        ClearLowest(w / 2, i - 1);
        BitAndAt(w / 2, w / 2 - 1, i - 1);
      }
    }
  }

  /** `word & !(1 << bit)`. */
  lemma MaskedOut(w: nat, b: nat, i: nat)
    requires b < BITS && w <= ALL_ONES
    ensures Pow2(b) <= ALL_ONES
    ensures Bit(BitAnd(w, ALL_ONES - Pow2(b)), i) <==> Bit(w, i) && i != b
  {
    AllOnesPower();
    Pow2Mono(b, BITS);
    BitAndAt(w, ALL_ONES - Pow2(b), i);
    if i < BITS {
      ComplementBit(BITS, Pow2(b), i);
      BitOfPow2(b, i);
    } else if Bit(w, i) {
      BitBound(w, BITS, i);
    }
  }

  lemma {:induction false} ComplementBit(n: nat, x: nat, i: nat)
    requires x < Pow2(n) && i < n
    ensures Bit(Pow2(n) - 1 - x, i) <==> !Bit(x, i)
    decreases n
  {
    var c, half := Pow2(n) - 1 - x, Pow2(n - 1);
    assert c == 2 * (half - 1 - x / 2) + (1 - x % 2);
    assert c / 2 == half - 1 - x / 2 && c % 2 == 1 - x % 2;
    if i > 0 { ComplementBit(n - 1, x / 2, i - 1); }
  }

  // ----- counting -----

  function CountOnes(w: nat): nat {
    if w == 0 then 0 else w % 2 + CountOnes(w / 2)
  }

  predicate BitAbove(w: nat, base: nat, i: nat) {
    base <= i && Bit(w, i - base)
  }

  /** The bits of a word, each `base` higher. */
  ghost function BitsFrom(w: nat, base: nat): set<nat> {
    set i: nat | base <= i < base + w && BitAbove(w, base, i)
  }

  lemma {:induction false} BitBelow(w: nat, i: nat)
    requires Bit(w, i)
    ensures i < w
    decreases i
  {
    if i > 0 { BitBelow(w / 2, i - 1); }
  }

  lemma {:induction false} OnesCounted(w: nat, base: nat)
    ensures |BitsFrom(w, base)| == CountOnes(w)
    decreases w
  {
    if w == 0 {
      assert BitsFrom(w, base) == {};
    } else {
      var rest := BitsFrom(w / 2, base + 1);
      OnesCounted(w / 2, base + 1);
      var low: set<nat> := if w % 2 == 1 then {base} else {};
      forall i: nat ensures i in BitsFrom(w, base) <==> i in low + rest {
        if i > base {
          assert BitAbove(w, base, i) == BitAbove(w / 2, base + 1, i);
          if BitAbove(w, base, i) {
            BitBelow(w, i - base);
            BitBelow(w / 2, i - base - 1);
          }
        }
      }
      assert BitsFrom(w, base) == low + rest;
      assert base !in rest;
    }
  }

  function TotalOnes(inner: seq<nat>): nat {
    if inner == [] then 0 else TotalOnes(inner[..|inner| - 1]) + CountOnes(inner[|inner| - 1])
  }

  /** The sum of the words' counts is the size of the set. */
  lemma {:induction false} LengthIsCardinality(inner: seq<nat>)
    requires Words(inner)
    ensures TotalOnes(inner) == |Elements(inner)|
    decreases |inner|
  {
    hide CountOnes;
    if inner == [] {
      assert Elements(inner) == {};
    } else {
      var n := |inner| - 1;
      var low, top := Elements(inner[..n]), BitsFrom(inner[n], BITS * n);
      LengthIsCardinality(inner[..n]);
      OnesCounted(inner[n], BITS * n);
      forall i: nat ensures i in Elements(inner) <==> i in low + top {
        ElementsAre(inner, i);
        ElementsAre(inner[..n], i);
        TopWord(inner, i);
      }
      assert Elements(inner) == low + top;
      forall i | i in low ensures i !in top {
        ElementsAre(inner[..n], i);
      }
    }
  }

  lemma TopWord(inner: seq<nat>, i: nat)
    requires Words(inner) && inner != []
    ensures var n := |inner| - 1; i in BitsFrom(inner[n], BITS * n) <==> i / BITS == n && Has(inner, i)
  {
    var n := |inner| - 1;
    if i >= BITS * n && Bit(inner[n], i - BITS * n) {
      AllOnesPower();
      BitBound(inner[n], BITS, i - BITS * n);
      BitBelow(inner[n], i - BITS * n);
      SplitIndex(i, n, i - BITS * n);
    }
    if i / BITS == n { assert i == BITS * n + i % BITS; if Has(inner, i) { BitBelow(inner[n], i % BITS); } }
  }

  lemma SplitIndex(i: nat, word: nat, bit: nat)
    requires i == BITS * word + bit && bit < BITS
    ensures i / BITS == word && i % BITS == bit
  {
    DivModUnique(i, BITS, word, bit);
  }

  // ----- the operations on words -----

  lemma {:induction false} OrPow(w: nat, b: nat, i: nat)
    requires b < BITS && w <= ALL_ONES
    ensures BitOr(w, Pow2(b)) <= ALL_ONES
    ensures Bit(BitOr(w, Pow2(b)), i) <==> Bit(w, i) || i == b
  {
    AllOnesPower();
    Pow2Mono(b, BITS);
    BitOrBound(w, Pow2(b), BITS);
    BitOrAt(w, Pow2(b), i);
    BitOfPow2(b, i);
  }

  lemma {:induction false} AddedElements(inner: seq<nat>, i: nat)
    requires Words(inner) && i / BITS < |inner|
    ensures var inner' := inner[i / BITS := BitOr(inner[i / BITS], Pow2(i % BITS))];
            Words(inner') && Elements(inner') == Elements(inner) + {i}
  {
    hide Bit, BitOr, Pow2;
    var k := i / BITS;
    var inner' := inner[k := BitOr(inner[k], Pow2(i % BITS))];
    OrPow(inner[k], i % BITS, 0);
    forall j: nat ensures j in Elements(inner') <==> j in Elements(inner) + {i} {
      ElementsAre(inner', j);
      ElementsAre(inner, j);
      OrPow(inner[k], i % BITS, j % BITS);
    }
  }

  lemma {:induction false} RemovedElements(inner: seq<nat>, i: nat)
    requires Words(inner) && i / BITS < |inner|
    ensures Pow2(i % BITS) <= ALL_ONES
    ensures var inner' := inner[i / BITS := BitAnd(inner[i / BITS], ALL_ONES - Pow2(i % BITS))];
            Words(inner') && Elements(inner') == Elements(inner) - {i}
  {
    hide Bit, BitAnd, Pow2;
    var k := i / BITS;
    MaskedOut(inner[k], i % BITS, 0);
    var inner' := inner[k := BitAnd(inner[k], ALL_ONES - Pow2(i % BITS))];
    forall j: nat ensures j in Elements(inner') <==> j in Elements(inner) - {i} {
      ElementsAre(inner', j);
      ElementsAre(inner, j);
      MaskedOut(inner[k], i % BITS, j % BITS);
    }
  }

  function Zeros(n: nat): seq<nat> { seq(n, _ => 0) }

  /** Growing the vector adds nothing to the set. */
  lemma GrownElements(inner: seq<nat>, n: nat)
    requires Words(inner)
    ensures Words(inner + Zeros(n)) && Elements(inner + Zeros(n)) == Elements(inner)
  {
    hide Bit;
    forall j: nat ensures j in Elements(inner + Zeros(n)) <==> j in Elements(inner) {
      ElementsAre(inner + Zeros(n), j);
      ElementsAre(inner, j);
      BitOfZero(j % BITS);
    }
  }

  /** Two vectors of one length stand for one set only if they are equal. */
  lemma SameElements(a: seq<nat>, b: seq<nat>)
    requires |a| == |b| && Words(a) && Words(b) && Elements(a) == Elements(b)
    ensures a == b
  {
    AllOnesPower();
    forall k | 0 <= k < |a| ensures a[k] == b[k] {
      forall i: nat ensures Bit(a[k], i) <==> Bit(b[k], i) {
        if i < BITS {
          SplitIndex(BITS * k + i, k, i);
          ElementsAre(a, BITS * k + i);
          ElementsAre(b, BITS * k + i);
        } else {
          if Bit(a[k], i) { BitBound(a[k], BITS, i); }
          if Bit(b[k], i) { BitBound(b[k], BITS, i); }
        }
      }
      SameBits(a[k], b[k]);
    }
  }

  lemma UnionElements(a: seq<nat>, b: seq<nat>, r: seq<nat>)
    requires Words(a) && Words(b) && |b| <= |a| == |r|
    requires forall k | 0 <= k < |b| :: r[k] == BitOr(a[k], b[k])
    requires forall k | |b| <= k < |a| :: r[k] == a[k]
    ensures Words(r) && Elements(r) == Elements(a) + Elements(b)
  {
    hide Bit, BitOr;
    forall k | 0 <= k < |r| ensures r[k] <= ALL_ONES {
      AllOnesPower();
      if k < |b| { BitOrBound(a[k], b[k], BITS); }
    }
    forall j: nat ensures j in Elements(r) <==> j in Elements(a) + Elements(b) {
      ElementsAre(r, j);
      ElementsAre(a, j);
      ElementsAre(b, j);
      if j / BITS < |b| { BitOrAt(a[j / BITS], b[j / BITS], j % BITS); }
    }
  }

  lemma NoElements(inner: seq<nat>)
    requires Words(inner)
    ensures Elements(inner) == {} <==> forall i | 0 <= i < |inner| :: inner[i] == 0
  {
    GrownElements([], |inner|);
    assert [] + Zeros(|inner|) == Zeros(|inner|);
    assert Elements([]) == {};
    if Elements(inner) == {} { SameElements(inner, Zeros(|inner|)); }
    if forall i | 0 <= i < |inner| :: inner[i] == 0 { assert inner == Zeros(|inner|); }
  }

  class DenseIndexSet {
    var inner: seq<nat>

    ghost predicate Valid()
      reads this
    {
      Words(inner)
    }

    ghost function Contents(): set<nat>
      reads this
    {
      Elements(inner)
    }

    constructor ()
      ensures Valid() && Contents() == {}
    {
      inner := [];
    }

    method Clear()
      requires Valid()
      modifies this
      ensures Valid() && Contents() == {}
    {
      inner := Zeros(|inner|);
      NoElements(inner);
    }

    method Len() returns (n: nat)
      requires Valid()
      ensures n == |Contents()|
    {
      n := 0;
      for k := 0 to |inner|
        invariant n == TotalOnes(inner[..k])
      {
        assert inner[..k + 1][..k] == inner[..k];
        n := n + CountOnes(inner[k]);
      }
      assert inner[..|inner|] == inner;
      LengthIsCardinality(inner);
    }

    method IsEmpty() returns (b: bool)
      requires Valid()
      ensures b == (Contents() == {})
    {
      NoElements(inner);
      b := forall i | 0 <= i < |inner| :: inner[i] == 0;
    }

    method Contains(i: nat) returns (b: bool)
      requires Valid()
      ensures b == (i in Contents())
    {
      ElementsAre(inner, i);
      var word, bit := i / BITS, i % BITS;
      if word >= |inner| { return false; }
      TestBit(inner[word], bit);
      b := BitAnd(inner[word], Pow2(bit)) != 0;
    }

    /** `capacity` is what the vector has room for once space was reserved. */
    method Add(i: nat, capacity: nat) returns (added: bool)
      requires Valid() && capacity > i / BITS
      modifies this
      ensures Valid() && Contents() == old(Contents()) + {i} && added == (i !in old(Contents()))
    {
      var word, bit := i / BITS, i % BITS;
      if word >= |inner| {
        GrownElements(inner, capacity - |inner|);
        inner := inner + Zeros(capacity - |inner|);
      }
      ElementsAre(inner, i);
      TestBit(inner[word], bit);
      AddedElements(inner, i);
      added := BitAnd(inner[word], Pow2(bit)) == 0;
      inner := inner[word := BitOr(inner[word], Pow2(bit))];
    }

    method Remove(i: nat) returns (removed: bool)
      requires Valid()
      modifies this
      ensures Valid() && Contents() == old(Contents()) - {i} && removed == (i in old(Contents()))
    {
      var word, bit := i / BITS, i % BITS;
      ElementsAre(inner, i);
      if word >= |inner| { return false; }
      TestBit(inner[word], bit);
      RemovedElements(inner, i);
      removed := BitAnd(inner[word], Pow2(bit)) != 0;
      inner := inner[word := BitAnd(inner[word], ALL_ONES - Pow2(bit))];
    }

    method UnionWith(other: DenseIndexSet) returns (changed: bool)
      requires Valid() && other.Valid() && other != this
      modifies this
      ensures Valid() && Contents() == old(Contents()) + other.Contents()
      ensures changed == (Contents() != old(Contents()))
    {
      hide BitOr, Elements;
      if |other.inner| > |inner| {
        GrownElements(inner, |other.inner| - |inner|);
        inner := inner + Zeros(|other.inner| - |inner|);
      }
      ghost var start := inner;
      changed := false;
      for k := 0 to |other.inner|
        invariant |inner| == |start|
        invariant forall j | 0 <= j < k :: inner[j] == BitOr(start[j], other.inner[j])
        invariant forall j | k <= j < |inner| :: inner[j] == start[j]
        invariant changed == (inner != start)
      {
        var before := inner[k];
        inner := inner[k := BitOr(inner[k], other.inner[k])];
        changed := changed || inner[k] != before;
      }
      UnionElements(start, other.inner, inner);
      if changed && Elements(start) == Elements(inner) { SameElements(start, inner); }
    }

    method Iter() returns (it: DenseIndexSetIter)
      requires Valid()
      ensures fresh(it) && it.set_ == inner && it.Valid() && forall i: nat :: it.Pending(i) <==> i in Contents()
    {
      it := new DenseIndexSetIter(inner);
    }
  }

  /** What an iterator still has to give: the bits left of its word, and the words after it. */
  predicate PendingAt(inner: seq<nat>, wordIdx: nat, word: nat, i: nat) {
    if i / BITS == wordIdx then Bit(word, i % BITS) else i / BITS > wordIdx && Has(inner, i)
  }

  lemma {:induction false} FirstPending(inner: seq<nat>, wordIdx: nat, word: nat)
    requires word != 0 && word <= ALL_ONES
    ensures var b := TrailingZeros(word);
            var i := BITS * wordIdx + b;
            && b < BITS && PendingAt(inner, wordIdx, word, i)
            && (forall j: nat | PendingAt(inner, wordIdx, word, j) :: i <= j)
            && forall j: nat :: PendingAt(inner, wordIdx, BitAnd(word, word - 1), j)
                                <==> PendingAt(inner, wordIdx, word, j) && j != i
  {
    hide Has;
    var b := LowBit(word);
    AllOnesPower();
    BitBound(word, BITS, b);
    hide Bit, BitAnd, TrailingZeros;
    SplitIndex(BITS * wordIdx + b, wordIdx, b);
    forall j: nat
      ensures PendingAt(inner, wordIdx, word, j) ==> BITS * wordIdx + b <= j
      ensures PendingAt(inner, wordIdx, BitAnd(word, word - 1), j)
              <==> PendingAt(inner, wordIdx, word, j) && j != BITS * wordIdx + b
    {
      ClearLowest(word, j % BITS);
    }
  }

  lemma NextWord(inner: seq<nat>, wordIdx: nat, j: nat)
    ensures wordIdx + 1 < |inner| ==>
              (PendingAt(inner, wordIdx, 0, j) <==> PendingAt(inner, wordIdx + 1, inner[wordIdx + 1], j))
    ensures wordIdx + 1 >= |inner| ==> !PendingAt(inner, wordIdx, 0, j) && !PendingAt(inner, wordIdx + 1, 0, j)
  {
    BitOfZero(j % BITS);
    hide Bit;
  }

  class DenseIndexSetIter {
    const set_: seq<nat>
    var wordIdx: nat
    var word: nat

    ghost predicate Valid()
      reads this
    {
      Words(set_) && word <= ALL_ONES
    }

    ghost predicate Pending(i: nat)
      reads this
    {
      PendingAt(set_, wordIdx, word, i)
    }

    constructor (inner: seq<nat>)
      requires Words(inner)
      ensures set_ == inner && Valid() && forall i: nat :: Pending(i) <==> i in Elements(inner)
    {
      set_, wordIdx := inner, 0;
      word := if |inner| > 0 then inner[0] else 0;
      new;
      forall i: nat ensures Pending(i) <==> i in Elements(inner) {
        ElementsAre(inner, i);
        BitOfZero(i % BITS);
      }
    }

    /** The smallest element not given yet, or none when there is none. */
    method Next() returns (r: Option<nat>)
      requires Valid()
      modifies this
      ensures Valid()
      ensures r.None? ==> forall j: nat :: !old(Pending(j))
      ensures r.Some? ==> old(Pending(r.value)) && forall j: nat | old(Pending(j)) :: r.value <= j
      ensures r.Some? ==> forall j: nat :: Pending(j) <==> old(Pending(j)) && j != r.value
      ensures r.Some? ==> wordIdx < |set_| || (wordIdx == old(wordIdx))
      ensures r.Some? ==> wordIdx > old(wordIdx) || (wordIdx == old(wordIdx) && word < old(word))
    {
      hide PendingAt, TrailingZeros, BitAnd;
      while true
        invariant Valid() && (forall j: nat :: Pending(j) <==> old(Pending(j)))
        invariant wordIdx >= old(wordIdx) && (wordIdx == old(wordIdx) ==> word == old(word))
        invariant wordIdx < |set_| || wordIdx == old(wordIdx)
        decreases |set_| - wordIdx
      {
        if word != 0 {
          FirstPending(set_, wordIdx, word);
          var bit := TrailingZeros(word);
          word := BitAnd(word, word - 1);
          return Some(BITS * wordIdx + bit);
        }
        forall j: nat ensures wordIdx + 1 < |set_| ==>
              (PendingAt(set_, wordIdx, 0, j) <==> PendingAt(set_, wordIdx + 1, set_[wordIdx + 1], j))
          ensures wordIdx + 1 >= |set_| ==> !PendingAt(set_, wordIdx, 0, j)
        {
          NextWord(set_, wordIdx, j);
        }
        assert wordIdx + 1 >= |set_| ==> forall j: nat :: !Pending(j);
        wordIdx := wordIdx + 1;
        if wordIdx >= |set_| { return None; }
        word := set_[wordIdx];
      }
    }
  }

  predicate Ascending(s: seq<nat>) {
    forall i, j | 0 <= i < j < |s| :: s[i] < s[j]
  }

  /** Iterating gives exactly the elements, once each, in strictly ascending order. */
  method Collect(s: DenseIndexSet) returns (r: seq<nat>)
    requires s.Valid()
    ensures Ascending(r) && forall i: nat :: i in r <==> i in s.Contents()
  {
    hide PendingAt, Elements, Words;
    r := [];
    var it := s.Iter();
    var next: Option<nat> := it.Next();
    while next.Some?
      invariant it.Valid() && Ascending(r)
      invariant forall i: nat :: i in s.Contents() <==> i in r || (next.Some? && (i == next.value || it.Pending(i)))
      invariant next.Some? ==> forall k | 0 <= k < |r| :: r[k] < next.value
      invariant next.Some? ==> forall i: nat | it.Pending(i) :: next.value < i
      decreases next.Some?, if it.wordIdx <= |it.set_| then |it.set_| - it.wordIdx else 0, it.word
    {
      r := r + [next.value];
      next := it.Next();
    }
  }
}
