/** The chunked arena: append-only storage in chunks of doubling size, with stable 32-bit offsets. */
module Arenas {
  import opened Values
  import opened Powers

  const MAX_CHUNKS: nat := 22
  const FIRST: nat := 1024

  function ChunkSize(k: nat): (s: nat)
    ensures s >= FIRST
  {
    FIRST * Pow2(if k == 0 then 0 else k - 1)
  }

  function StartOffset(k: nat): nat {
    if k == 0 then 0 else FIRST * Pow2(k - 1)
  }

  /** The position of the highest set bit. */
  function ILog2(n: nat): nat
    requires n > 0
  {
    if n == 1 then 0 else 1 + ILog2(n / 2)
  }

  datatype Place = Place(chunk: nat, rel: nat)

  function OffsetToChunk(offset: nat): (p: Place)
    ensures offset < FIRST ==> p == Place(0, offset)
  {
    if offset < FIRST then Place(0, offset)
    else
      var multiples := offset / FIRST;
      LogIsFloor(multiples);
      var start := FIRST * Pow2(ILog2(multiples));
      Place(ILog2(multiples) + 1, offset - start)
  }

  lemma {:induction false} LogIsFloor(n: nat)
    requires n > 0
    ensures Pow2(ILog2(n)) <= n < 2 * Pow2(ILog2(n))
  {
    if n > 1 { LogIsFloor(n / 2); }
  }

  lemma {:induction false} LogUnique(n: nat, k: nat)
    requires n > 0 && Pow2(k) <= n < 2 * Pow2(k)
    ensures ILog2(n) == k
    decreases k
  {
    if k > 0 {
      assert Pow2(k) == 2 * Pow2(k - 1);
      LogUnique(n / 2, k - 1);
    }
  }

  /** Chunk k ends where chunk k+1 starts. */
  lemma ChunksTile(k: nat)
    ensures StartOffset(k) + ChunkSize(k) == StartOffset(k + 1)
  {
  }

  /** Finding the chunk of an offset undoes adding its start. */
  lemma OffsetInverse(k: nat, rel: nat)
    requires rel < ChunkSize(k)
    ensures OffsetToChunk(StartOffset(k) + rel) == Place(k, rel)
  {
    if k > 0 {
      var p := Pow2(k - 1);
      var multiples := (StartOffset(k) + rel) / FIRST;
      assert p <= multiples < 2 * p;
      LogUnique(multiples, k - 1);
    }
  }

  // ----- the state and its operations -----

  /** A chunk the system allocator gave is an identity; a pointer is an identity and a distance into the chunk. */
  datatype Pointer = Pointer(chunk: nat, rel: nat)

  datatype Arena = Arena(align: nat, index: nat, rel: nat, remaining: nat, chunks: seq<Option<nat>>, nextId: nat)

  /** What one request was given; nothing was allocated for an empty one, so its pointer dangles. */
  datatype Given = Given(offset: nat, size: nat, ptr: Option<Pointer>)

  predicate Alignment(align: nat) {
    align > 0 && FIRST % align == 0
  }

  function Rounded(size: nat, align: nat): nat
    requires align > 0
  {
    (size + align - 1) / align * align
  }

  function Empty(align: nat): Arena {
    Arena(align, 0, 0, FIRST, seq(MAX_CHUNKS, _ => None), 0)
  }

  /** Leaving chunks behind until one has room; none when the last has too little. */
  function WithRoom(a: Arena, size: nat): Option<Arena>
    decreases MAX_CHUNKS - a.index
  {
    if size <= a.remaining then Some(a)
    else if a.index + 1 >= MAX_CHUNKS then None
    else WithRoom(a.(index := a.index + 1, rel := 0, remaining := ChunkSize(a.index + 1)), size)
  }

  function Take(a: Arena, size: nat): (Arena, Given)
    requires |a.chunks| == MAX_CHUNKS && a.index < MAX_CHUNKS && size <= a.remaining
  {
    var offset := StartOffset(a.index) + a.rel;
    var b := if a.rel == 0 && size > 0 then a.(chunks := a.chunks[a.index := Some(a.nextId)], nextId := a.nextId + 1) else a;
    (b.(rel := a.rel + size, remaining := a.remaining - size),
     Given(offset, size, if size > 0 && b.chunks[b.index].Some? then Some(Pointer(b.chunks[b.index].value, a.rel)) else None))
  }

  function Resolve(a: Arena, offset: nat): Option<Pointer>
    requires |a.chunks| == MAX_CHUNKS
  {
    var p := OffsetToChunk(offset);
    if p.chunk < MAX_CHUNKS && a.chunks[p.chunk].Some? then Some(Pointer(a.chunks[p.chunk].value, p.rel)) else None
  }

  function End(a: Arena): nat { StartOffset(a.index) + a.rel }

  ghost predicate Valid(a: Arena) {
    && Alignment(a.align)
    && |a.chunks| == MAX_CHUNKS && a.index < MAX_CHUNKS
    && a.rel + a.remaining == ChunkSize(a.index) && a.rel % a.align == 0
    && (a.chunks[a.index].Some? <==> a.rel > 0)
    && (forall k | a.index < k < MAX_CHUNKS :: a.chunks[k].None?)
    && (forall k | 0 <= k < MAX_CHUNKS && a.chunks[k].Some? :: a.chunks[k].value < a.nextId)
    && (forall j, k | 0 <= j < k < MAX_CHUNKS && a.chunks[j].Some? && a.chunks[k].Some? :: a.chunks[j].value != a.chunks[k].value)
  }

  lemma EmptyValid(align: nat)
    requires Alignment(align)
    ensures Valid(Empty(align)) && End(Empty(align)) == 0
  {
    assert 0 % align == 0;
  }

  // ----- alignment -----

  lemma Multiple(a: nat, k: nat)
    requires a > 0
    ensures k * a % a == 0
  {
    DivModUnique(k * a, a, k, 0);
  }

  lemma SumAligned(x: nat, y: nat, a: nat)
    requires a > 0 && x % a == 0 && y % a == 0
    ensures (x + y) % a == 0
  {
    assert x == x / a * a && y == y / a * a;
    assert x + y == (x / a + y / a) * a;
    Multiple(a, x / a + y / a);
  }

  lemma ChunksAligned(k: nat, align: nat)
    requires Alignment(align)
    ensures ChunkSize(k) % align == 0 && StartOffset(k) % align == 0
  {
    var q, p := FIRST / align, Pow2(if k == 0 then 0 else k - 1);
    assert FIRST == q * align;
    assert FIRST * p == (q * p) * align by { assert (q * align) * p == (q * p) * align; }
    Multiple(align, q * p);
    Multiple(align, 0);
  }

  lemma RoundedAligned(size: nat, align: nat)
    requires align > 0
    ensures Rounded(size, align) % align == 0 && size <= Rounded(size, align) < size + align
    ensures size == 0 <==> Rounded(size, align) == 0
  {
    var n := size + align - 1;
    Multiple(align, n / align);
    assert n == n / align * align + n % align;
    if size == 0 { DivModUnique(n, align, 0, n); }
  }

  /** The rounded size is the least multiple of the alignment that holds the request. */
  lemma RoundedLeast(size: nat, align: nat, other: nat)
    requires align > 0 && other % align == 0 && other >= size
    ensures Rounded(size, align) <= other
  {
    RoundedAligned(size, align);
    hide Rounded;
    var r := Rounded(size, align);
    var p, q := r / align, other / align;
    assert r == p * align && other == q * align;
    if q < p {
      assert (p - q) * align == p * align - q * align;
      AtLeast(p - q, align);
    }
  }

  lemma AtLeast(k: nat, a: nat)
    requires k > 0
    ensures k * a >= a
  {
  }

  // ----- finding room -----

  lemma NextChunkValid(a: Arena)
    requires Valid(a) && a.index + 1 < MAX_CHUNKS
    ensures var b := a.(index := a.index + 1, rel := 0, remaining := ChunkSize(a.index + 1));
            Valid(b) && End(b) == End(a) + a.remaining
  {
    ChunksTile(a.index);
    Multiple(a.align, 0);
  }

  lemma {:induction false} RoomFound(a: Arena, size: nat)
    requires Valid(a)
    ensures WithRoom(a, size).Some? ==>
              var b := WithRoom(a, size).value;
              && Valid(b) && b.align == a.align && b.chunks == a.chunks && b.nextId == a.nextId
              && size <= b.remaining && End(a) <= End(b)
    decreases MAX_CHUNKS - a.index
  {
    hide ChunkSize, StartOffset, Valid;
    if size > a.remaining && a.index + 1 < MAX_CHUNKS {
      NextChunkValid(a);
      RoomFound(a.(index := a.index + 1, rel := 0, remaining := ChunkSize(a.index + 1)), size);
    }
  }

  /** Skipping chunks that are too small for one request wastes less than the request itself. */
  lemma {:induction false} SkippedSmall(a: Arena, size: nat)
    requires Valid(a) && a.rel == 0 && a.index > 0 && End(a) <= 2 * size
    ensures WithRoom(a, size).Some? ==> End(WithRoom(a, size).value) <= 2 * size
    decreases MAX_CHUNKS - a.index
  {
    hide Valid;
    assert a.remaining == ChunkSize(a.index) by { ValidSize(a); }
    if size > a.remaining && a.index + 1 < MAX_CHUNKS {
      NextChunkValid(a);
      SkippedSmall(a.(index := a.index + 1, rel := 0, remaining := ChunkSize(a.index + 1)), size);
    }
  }

  lemma ValidSize(a: Arena)
    requires Valid(a)
    ensures a.rel + a.remaining == ChunkSize(a.index)
  {
  }

  /** One request moves the end by at most three times its size. */
  lemma {:induction false} FootprintStep(a: Arena, size: nat)
    requires Valid(a)
    ensures WithRoom(a, size).Some? ==> End(WithRoom(a, size).value) + size <= End(a) + 3 * size
  {
    hide Valid;
    if size > a.remaining && a.index + 1 < MAX_CHUNKS {
      NextChunkValid(a);
      var b := a.(index := a.index + 1, rel := 0, remaining := ChunkSize(a.index + 1));
      if size > b.remaining { SkippedSmall(b, size); }
    }
  }

  lemma LastChunk()
    ensures StartOffset(MAX_CHUNKS - 1) + ChunkSize(MAX_CHUNKS - 1) == Pow2(31)
    ensures 2 * ChunkSize(MAX_CHUNKS - 1) == Pow2(31)
  {
    Pow2Values();
    Pow2Add(10, 20);
    assert Pow2(31) == 2 * Pow2(30);
  }

  /** The arena is only out of chunks when what was asked for, three times over, does not fit 2^31. */
  lemma {:induction false} OutOfChunks(a: Arena, size: nat)
    requires Valid(a)
    ensures WithRoom(a, size).None? ==> End(a) + 3 * size > Pow2(31)
    decreases MAX_CHUNKS - a.index
  {
    LastChunk();
    hide Pow2, ChunkSize, StartOffset;
    if size > a.remaining && a.index + 1 < MAX_CHUNKS {
      NextChunkValid(a);
      var b := a.(index := a.index + 1, rel := 0, remaining := ChunkSize(a.index + 1));
      hide Valid;
      if WithRoom(b, size).None? { FarTooLarge(b, size); }
    }
  }

  lemma {:induction false} FarTooLarge(a: Arena, size: nat)
    requires Valid(a) && a.rel == 0 && WithRoom(a, size).None?
    ensures 3 * size > Pow2(31)
    decreases MAX_CHUNKS - a.index
  {
    LastChunk();
    hide Pow2, ChunkSize, StartOffset;
    if a.index + 1 < MAX_CHUNKS {
      NextChunkValid(a);
      FarTooLarge(a.(index := a.index + 1, rel := 0, remaining := ChunkSize(a.index + 1)), size);
    }
  }

  /** The room in chunk k as the arena meets it: what is left of the current chunk, all of a later one. */
  function RoomIn(a: Arena, k: nat): nat {
    if k == a.index then a.remaining else ChunkSize(k)
  }

  /** The first chunk from the current one on that has room is used, and there is none only if none has room. */
  lemma {:induction false} FirstFit(a: Arena, size: nat)
    requires a.index < MAX_CHUNKS
    ensures match WithRoom(a, size)
            case None => forall k | a.index <= k < MAX_CHUNKS :: RoomIn(a, k) < size
            case Some(b) =>
              && a.index <= b.index < MAX_CHUNKS && size <= RoomIn(a, b.index)
              && (forall k | a.index <= k < b.index :: RoomIn(a, k) < size)
              && End(b) == if b.index == a.index then End(a) else StartOffset(b.index)
    decreases MAX_CHUNKS - a.index
  {
    hide ChunkSize, StartOffset;
    if size > a.remaining && a.index + 1 < MAX_CHUNKS {
      var next := a.(index := a.index + 1, rel := 0, remaining := ChunkSize(a.index + 1));
      FirstFit(next, size);
      assert forall k | next.index <= k < MAX_CHUNKS :: RoomIn(a, k) == RoomIn(next, k);
    }
  }

  // ----- one request -----

  function Alloc(a: Arena, minSize: nat): Option<(Arena, Given)>
    requires Alignment(a.align) && |a.chunks| == MAX_CHUNKS && a.index < MAX_CHUNKS
  {
    RoomShape(a, Rounded(minSize, a.align));
    match WithRoom(a, Rounded(minSize, a.align))
    case None => None
    case Some(b) => Some(Take(b, Rounded(minSize, a.align)))
  }

  lemma {:induction false} RoomShape(a: Arena, size: nat)
    requires |a.chunks| == MAX_CHUNKS && a.index < MAX_CHUNKS
    ensures WithRoom(a, size).Some? ==>
              var b := WithRoom(a, size).value; |b.chunks| == MAX_CHUNKS && b.index < MAX_CHUNKS && size <= b.remaining
    decreases MAX_CHUNKS - a.index
  {
    if size > a.remaining && a.index + 1 < MAX_CHUNKS {
      RoomShape(a.(index := a.index + 1, rel := 0, remaining := ChunkSize(a.index + 1)), size);
    }
  }

  /** An allocation that still stands: aligned, inside its chunk, and found again from its offset. */
  ghost predicate Good(a: Arena, g: Given)
    requires |a.chunks| == MAX_CHUNKS && a.align > 0
  {
    && g.offset % a.align == 0
    && g.ptr.Some? && Resolve(a, g.offset) == g.ptr
    && g.ptr.value.rel + g.size <= ChunkSize(OffsetToChunk(g.offset).chunk)
  }

  /** Chunks once allocated are never allocated again, and nothing given before is lost. */
  ghost predicate Keeps(a: Arena, b: Arena) {
    && |a.chunks| == |b.chunks| == MAX_CHUNKS && a.align == b.align
    && a.nextId <= b.nextId
    && forall k | 0 <= k < MAX_CHUNKS && a.chunks[k].Some? :: b.chunks[k] == a.chunks[k]
  }

  lemma TakeFacts(a: Arena, size: nat)
    requires Valid(a) && size <= a.remaining && size % a.align == 0
    ensures var (b, g) := Take(a, size);
            && Valid(b) && Keeps(a, b)
            && g.offset == End(a) && g.size == size && End(b) == g.offset + g.size
            && (size > 0 ==> Good(b, g))
            && (size == 0 ==> g.ptr.None?)
  {
    hide ChunkSize, StartOffset, OffsetToChunk;
    SumAligned(a.rel, size, a.align);
    if size > 0 {
      ChunksAligned(a.index, a.align);
      SumAligned(StartOffset(a.index), a.rel, a.align);
      OffsetInverse(a.index, a.rel);
    }
  }

  lemma AllocFacts(a: Arena, minSize: nat)
    requires Valid(a) && Alloc(a, minSize).Some?
    ensures var (b, g) := Alloc(a, minSize).value;
            && Valid(b) && Keeps(a, b) && b.align == a.align
            && End(a) <= g.offset && End(b) == g.offset + g.size && g.size == Rounded(minSize, a.align) >= minSize
            && End(b) <= End(a) + 3 * g.size
            && (minSize > 0 ==> Good(b, g))
  {
    hide Take, Rounded, WithRoom, End, Good;
    var size := Rounded(minSize, a.align);
    RoundedAligned(minSize, a.align);
    RoomFound(a, size);
    FootprintStep(a, size);
    TakeFacts(WithRoom(a, size).value, size);
  }

  /**
   * Where a request goes: directly behind the last one if its size, rounded up to a multiple of the alignment and no
   * further, still fits the chunk; otherwise to the start of the first later chunk that holds it.
   */
  lemma {:induction false} AllocPlace(a: Arena, minSize: nat)
    requires Valid(a)
    ensures match Alloc(a, minSize)
            case None => forall k | a.index <= k < MAX_CHUNKS :: RoomIn(a, k) < Rounded(minSize, a.align)
            case Some((b, g)) =>
              && g.size % a.align == 0 && minSize <= g.size < minSize + a.align
              && g.size <= RoomIn(a, b.index) && (forall k | a.index <= k < b.index :: RoomIn(a, k) < g.size)
              && g.offset == if b.index == a.index then End(a) else StartOffset(b.index)
  {
    RoundedAligned(minSize, a.align);
    FirstFit(a, Rounded(minSize, a.align));
    RoomShape(a, Rounded(minSize, a.align));
    hide Rounded, WithRoom, StartOffset, ChunkSize;
  }

  lemma GoodStays(a: Arena, b: Arena, g: Given)
    requires Keeps(a, b) && a.align > 0 && Good(a, g)
    ensures Good(b, g)
  {
    hide OffsetToChunk, ChunkSize;
  }

  // ----- whole runs -----

  function Run(a: Arena, sizes: seq<nat>): Option<(Arena, seq<Given>)>
    requires Valid(a)
    decreases |sizes|
  {
    if sizes == [] then Some((a, []))
    else
      match Alloc(a, sizes[0])
      case None => None
      case Some((b, g)) =>
        AllocFacts(a, sizes[0]);
        match Run(b, sizes[1..])
        case None => None
        case Some((c, gs)) => Some((c, [g] + gs))
  }

  function TotalRounded(sizes: seq<nat>, align: nat): nat
    requires align > 0
  {
    if sizes == [] then 0 else Rounded(sizes[0], align) + TotalRounded(sizes[1..], align)
  }

  function Total(sizes: seq<nat>): nat {
    if sizes == [] then 0 else sizes[0] + Total(sizes[1..])
  }

  /** Rounding adds less than the alignment to each request. */
  lemma {:induction false} RoundingWaste(sizes: seq<nat>, align: nat)
    requires align > 0
    ensures Total(sizes) <= TotalRounded(sizes, align) <= Total(sizes) + |sizes| * (align - 1)
    decreases |sizes|
  {
    hide Rounded;
    if sizes != [] {
      RoundedAligned(sizes[0], align);
      RoundingWaste(sizes[1..], align);
      OneMore(|sizes| - 1, align - 1);
    }
  }

  lemma OneMore(n: nat, k: nat)
    ensures (n + 1) * k == n * k + k
  {
  }

  /** What a run was given lies behind one another, from the end before it to the end after it, and stays good. */
  ghost predicate Laid(a: Arena, c: Arena, sizes: seq<nat>, gs: seq<Given>)
    requires |c.chunks| == MAX_CHUNKS && c.align > 0
  {
    && |gs| == |sizes|
    && (forall i | 0 <= i < |gs| :: End(a) <= gs[i].offset && gs[i].offset + gs[i].size <= End(c) && gs[i].size >= sizes[i])
    && (forall i, j | 0 <= i < j < |gs| :: gs[i].offset + gs[i].size <= gs[j].offset)
    && (forall i | 0 <= i < |gs| && sizes[i] > 0 :: Good(c, gs[i]))
  }

  lemma {:induction false} RunInOrder(a: Arena, sizes: seq<nat>)
    requires Valid(a) && Run(a, sizes).Some?
    ensures var (c, gs) := Run(a, sizes).value;
            && Valid(c) && Keeps(a, c) && End(a) <= End(c) <= End(a) + 3 * TotalRounded(sizes, a.align)
            && Laid(a, c, sizes, gs)
    decreases |sizes|
  {
    hide Alloc, End, Good, Rounded;
    if sizes != [] {
      AllocFacts(a, sizes[0]);
      var (b, g) := Alloc(a, sizes[0]).value;
      RunInOrder(b, sizes[1..]);
      var (c, gs) := Run(b, sizes[1..]).value;
      if sizes[0] > 0 { GoodStays(b, c, g); }
      LaidCons(a, b, c, sizes, g, gs);
    }
  }

  /** Over a whole run, what was asked for bounds the end: less than one alignment is added to each request. */
  lemma {:induction false} RunLaid(a: Arena, sizes: seq<nat>)
    requires Valid(a) && Run(a, sizes).Some?
    ensures var (c, gs) := Run(a, sizes).value;
            && Valid(c) && Keeps(a, c) && Laid(a, c, sizes, gs)
            && End(a) <= End(c) <= End(a) + 3 * (Total(sizes) + |sizes| * (a.align - 1))
  {
    hide Run, Laid, Keeps, End, TotalRounded, Total;
    RunInOrder(a, sizes);
    RoundingWaste(sizes, a.align);
  }

  lemma LaidCons(a: Arena, b: Arena, c: Arena, sizes: seq<nat>, g: Given, gs: seq<Given>)
    requires |c.chunks| == MAX_CHUNKS && c.align > 0 && sizes != []
    requires Laid(b, c, sizes[1..], gs) && End(a) <= g.offset && End(b) == g.offset + g.size <= End(c) && g.size >= sizes[0]
    requires sizes[0] > 0 ==> Good(c, g)
    ensures Laid(a, c, sizes, [g] + gs)
  {
    hide Good, End;
    var all := [g] + gs;
    forall i | 0 <= i < |all|
      ensures End(a) <= all[i].offset && all[i].offset + all[i].size <= End(c) && all[i].size >= sizes[i]
      ensures sizes[i] > 0 ==> Good(c, all[i])
    {
      if i > 0 { assert all[i] == gs[i - 1] && sizes[i] == sizes[1..][i - 1]; }
    }
    forall i, j | 0 <= i < j < |all| ensures all[i].offset + all[i].size <= all[j].offset {
      assert all[j] == gs[j - 1];
      if i > 0 { assert all[i] == gs[i - 1]; }
    }
  }

  /** Arena safety over every run from a fresh arena: two non-empty allocations share no byte, by offset or by pointer. */
  lemma {:induction false} RunSafe(align: nat, sizes: seq<nat>, i: nat, j: nat)
    requires Alignment(align) && i < j < |sizes| && sizes[i] > 0 && sizes[j] > 0
    requires Valid(Empty(align)) && Run(Empty(align), sizes).Some?
    ensures var (c, gs) := Run(Empty(align), sizes).value;
            && |gs| == |sizes| && |c.chunks| == MAX_CHUNKS && c.align == align
            && Good(c, gs[i]) && Good(c, gs[j])
            && gs[i].offset + gs[i].size <= gs[j].offset
            && (gs[i].ptr.value.chunk == gs[j].ptr.value.chunk ==>
                  gs[i].ptr.value.rel + gs[i].size <= gs[j].ptr.value.rel)
  {
    hide Good, Run;
    RunLaid(Empty(align), sizes);
    var (c, gs) := Run(Empty(align), sizes).value;
    PointersApart(c, gs[i], gs[j]);
  }

  lemma OffsetSplit(offset: nat)
    ensures var p := OffsetToChunk(offset); StartOffset(p.chunk) + p.rel == offset
  {
    if offset >= FIRST { LogIsFloor(offset / FIRST); }
  }

  lemma PointersApart(a: Arena, g: Given, h: Given)
    requires Valid(a) && Good(a, g) && Good(a, h) && g.offset + g.size <= h.offset
    ensures g.ptr.value.chunk == h.ptr.value.chunk ==> g.ptr.value.rel + g.size <= h.ptr.value.rel
  {
    hide OffsetToChunk, StartOffset, ChunkSize;
    OffsetSplit(g.offset);
    OffsetSplit(h.offset);
  }

  /** A run cannot be refused while three times the rounded sizes fit 2^31. */
  lemma {:induction false} NoPanicRounded(a: Arena, sizes: seq<nat>)
    requires Valid(a) && End(a) + 3 * TotalRounded(sizes, a.align) <= Pow2(31)
    ensures Run(a, sizes).Some?
    decreases |sizes|
  {
    hide Take, Rounded, Pow2, Good;
    if sizes != [] {
      OutOfChunks(a, Rounded(sizes[0], a.align));
      AllocFacts(a, sizes[0]);
      NoPanicRounded(Alloc(a, sizes[0]).value.0, sizes[1..]);
    }
  }

  /** The same over the sizes asked for. */
  lemma {:induction false} NoPanicWhileSmall(a: Arena, sizes: seq<nat>)
    requires Valid(a) && End(a) + 3 * (Total(sizes) + |sizes| * (a.align - 1)) <= Pow2(31)
    ensures Run(a, sizes).Some?
  {
    hide Run, End, TotalRounded, Total, Pow2;
    RoundingWaste(sizes, a.align);
    NoPanicRounded(a, sizes);
  }

  // ----- the arena as the compiler has it -----

  class ChunkedArena {
    const align: nat
    var index: nat
    var rel: nat
    var remaining: nat
    var chunks: seq<Option<nat>>
    /** The allocator's side: how many chunks it has given out. */
    var nextId: nat

    ghost function State(): Arena
      reads this
    {
      Arena(align, index, rel, remaining, chunks, nextId)
    }

    constructor (align: nat)
      requires Alignment(align)
      ensures State() == Empty(align) && Valid(State())
    {
      this.align := align;
      index, rel, remaining := 0, 0, FIRST;
      chunks := seq(MAX_CHUNKS, _ => None);
      nextId := 0;
      new;
      EmptyValid(align);
    }

    /** Expects a chunk that was not allocated yet. */
    method AllocateChunk(k: nat) returns (chunk: nat)
      requires k < |chunks| && chunks[k].None?
      modifies this`chunks, this`nextId
      ensures chunk == old(nextId) && nextId == chunk + 1 && chunks == old(chunks)[k := Some(chunk)]
    {
      chunk := nextId;
      nextId := nextId + 1;
      chunks := chunks[k := Some(chunk)];
    }

    /** Panics when the arena is out of chunks. */
    method AllocAppend(minSize: nat) returns (r: Option<Given>)
      requires Valid(State())
      modifies this
      ensures r.Some? <==> Alloc(old(State()), minSize).Some?
      ensures r.Some? ==> (State(), r.value) == Alloc(old(State()), minSize).value && Valid(State())
    {
      hide ChunkSize, StartOffset, Rounded, Good;
      ghost var start := State();
      var size := Rounded(minSize, align);
      while size > remaining
        invariant Valid(State()) && WithRoom(State(), size) == WithRoom(start, size) && State().align == start.align
        invariant chunks == start.chunks && nextId == start.nextId
        decreases MAX_CHUNKS - index
      {
        if index + 1 >= MAX_CHUNKS { return None; }
        NextChunkValid(State());
        index := index + 1;
        rel := 0;
        remaining := ChunkSize(index);
      }
      ghost var roomy := State();
      RoundedAligned(minSize, align);
      TakeFacts(roomy, size);
      var offset := StartOffset(index) + rel;
      var ptr := None;
      if rel == 0 {
        if size > 0 {
          var chunk := AllocateChunk(index);
          ptr := Some(Pointer(chunk, 0));
        }
      } else if size > 0 {
        ptr := Some(Pointer(chunks[index].value, rel));
      }
      rel := rel + size;
      remaining := remaining - size;
      r := Some(Given(offset, size, ptr));
    }

    method Get(offset: nat) returns (ptr: Option<Pointer>)
      requires Valid(State())
      ensures ptr == Resolve(State(), offset)
    {
      var p := OffsetToChunk(offset);
      if p.chunk < MAX_CHUNKS && chunks[p.chunk].Some? { ptr := Some(Pointer(chunks[p.chunk].value, p.rel)); } else { ptr := None; }
    }
  }
}
