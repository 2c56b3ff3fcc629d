/** The allocator: `lmc_valloc`, `__lmc_free`, `lmc_compact_free_chunks` and their
    helpers, updating the mapped bytes in place.  A call made with `te` (the
    process has test crashes enabled) may stop at any LMC_TEST_CRASH site. */
module Pools {
  import opened Memory
  import opened Rounding
  import opened FreeList
  import opened Links
  import opened Regions

  // Offsets in lmc_mem_descriptor_t.  `first_free` and `dummy2` are the sentinel's `next` and `size`.
  const FIRST_FREE: nat := 0
  const TOTAL_SIZE: nat := 16
  const MAGIC: nat := 24
  const VA_HASH: nat := 32
  const LOCKED: nat := 40
  const VERSION: nat := 48
  const OP_ID: nat := 56
  const LOG_P1: nat := 64
  const LOG_P2: nat := 72
  const MIN_ALLOC: nat := 80

  const MAX_SIZE: nat := 0x7FFF_FFFF_FFFF_FFF8  // no wrap-around in `size + 8` or in the rounding

  function Max(a: nat, b: nat): nat {
    if a > b then a else b
  }

  /** `lmc_min_alloc_size`. */
  function MinAlloc(m: Bytes): nat
    requires DESC <= |m|
  {
    if Word(m, VERSION) > 1 then Word(m, MIN_ALLOC) else 0
  }

  /** The block size `lmc_valloc` looks for. */
  function Need(m: Bytes, size: nat): (s: nat)
    requires DESC <= |m|
    ensures s >= size + 8 && s >= MIN_BLOCK
  {
    NeedFor(MinAlloc(m), size)
  }

  /** The same with `min` as the smallest size of a block. */
  function NeedFor(min: nat, size: nat): (s: nat)
    ensures s >= size + 8 && s >= MIN_BLOCK && s >= min
  {
    Max(min, Round(Max(size + 8, HEADER + 8)))
  }

  /** The least power of two that holds a size word and `size` bytes, or a chunk header. */
  ghost predicate Rounded(size: nat, p: nat) {
    size + 8 <= 0x1_0000_0000 && LeastPow2From(p, if size > HEADER then size + 8 else HEADER + 8)
  }

  /** The size of a block is the larger of that and the smallest size. */
  lemma NeedExact(min: nat, size: nat, p: nat)
    requires Rounded(size, p)
    ensures NeedFor(min, size) == Max(min, p)
  {
    hide Round;
    RoundUpTo32Bits(Max(size + 8, HEADER + 8));
  }

  /** Bytes from 8 on that are neither free nor in [a, a + n) keep their value. */
  ghost predicate Kept(m: Bytes, m': Bytes, fs: Chunks, a: nat, n: nat) {
    |m'| == |m| && forall k :: 8 <= k < |m| && !Covers(fs, k) && !(a <= k < a + n) ==> m'[k] == m[k]
  }

  /** A word written inside a free chunk keeps everything else. */
  lemma PutKept(m: Bytes, fs: Chunks, i: nat, p: nat, v: nat)
    requires |m| < LIMIT && p + 8 <= |m| && v < LIMIT
    requires i < |fs| && fs[i].off <= p && p + 8 <= fs[i].End()
    ensures Kept(m, Put(m, p, v), fs, 0, 0)
  {
    hide Word, Put;
    forall k | p <= k < p + 8 ensures Covers(fs, k) { CoversAt(fs, i, k); }
  }

  /** Taking chunk `i` off the list. */
  lemma UnlinkStores(m: Bytes, fs: Chunks, i: nat)
    requires Stores(m, fs) && InPool(fs, |m|) && i < |fs|
    ensures var m' := Put(m, NodeOff(fs, i - 1), OffOr0(fs, i + 1));
      Stores(m', RemoveAt(fs, i)) && Kept(m, m', fs, 0, 0)
  {
    Unlinked(m, fs, i);
    hide Word, Put, Stores;
    if i > 0 {
      PutKept(m, fs, i - 1, NodeOff(fs, i - 1), OffOr0(fs, i + 1));
    }
  }

  /** Changing the size of chunk `i`. */
  lemma ResizeStores(m: Bytes, fs: Chunks, i: nat, v: nat)
    requires Stores(m, fs) && InPool(fs, |m|) && i < |fs| && fs[i].off + v <= |m|
    ensures var m' := Put(m, fs[i].off + 8, v);
      Stores(m', fs[i := Chunk(fs[i].off, v)]) && Kept(m, m', fs, 0, 0)
  {
    SizeSet(m, fs, i, v);
    hide Word, Put, Stores;
    PutKept(m, fs, i, fs[i].off + 8, v);
  }

  /** Writing inside a region without free bytes keeps the list. */
  lemma WriteOutside(m: Bytes, m': Bytes, fs: Chunks, a: nat, n: nat)
    requires Stores(m, fs) && InPool(fs, |m|) && Outside(fs, a, n) && a >= 16
    requires |m'| == |m| && forall k :: 0 <= k < |m| && !(a <= k < a + n) ==> m'[k] == m[k]
    ensures Stores(m', fs)
  {
    hide Word;
    forall i, k | 0 <= i < |fs| && fs[i].off <= k < fs[i].off + HEADER
      ensures m'[k] == m[k]
    {
      assert Clear(fs[i], Chunk(a, n));
    }
    StoresFrame(m, m', fs);
  }

  /** The bytes after chunk `i` gave up its last `t` bytes. */
  function Carved(m: Bytes, fs: Chunks, i: nat, t: nat): Bytes
    requires |m| < LIMIT && i < |fs| && t <= fs[i].size <= |m|
    requires fs[i].off + HEADER <= |m| && NodeOff(fs, i - 1) + 8 <= |m| && OffOr0(fs, i + 1) < LIMIT
  {
    if t == fs[i].size then Put(m, NodeOff(fs, i - 1), OffOr0(fs, i + 1))
    else Put(m, fs[i].off + 8, fs[i].size - t)
  }

  lemma CarvedStores(m: Bytes, fs: Chunks, i: nat, t: nat)
    requires Stores(m, fs) && InPool(fs, |m|) && i < |fs| && t <= fs[i].size
    requires OffOr0(fs, i + 1) < LIMIT
    ensures Stores(Carved(m, fs, i, t), Carve(fs, i, t)) && Kept(m, Carved(m, fs, i, t), fs, 0, 0)
  {
    hide Word, Put, Stores, Kept, Covers;
    StoresOffs(m, fs);
    InPoolAt(fs, |m|, i);
    if i > 0 { InPoolAt(fs, |m|, i - 1); }
    if t == fs[i].size { UnlinkStores(m, fs, i); } else { ResizeStores(m, fs, i, fs[i].size - t); }
  }

  /** Writing the size word of a region carved from `fs`, whose list is now `gs`. */
  lemma StampedStores(m: Bytes, m1: Bytes, fs: Chunks, gs: Chunks, a: nat, t: nat)
    requires Stores(m1, gs) && InPool(gs, |m1|) && Kept(m, m1, fs, 0, 0)
    requires Outside(gs, a, t) && DESC <= a && HEADER <= t && a + t <= |m1|
    requires forall k :: a <= k < a + t ==> Covers(fs, k)
    ensures Stores(Put(m1, a, t), gs) && Kept(m, Put(m1, a, t), fs, 0, 0)
  {
    hide Word, Put;
    WriteOutside(m1, Put(m1, a, t), gs, a, t);
  }

  /** Everything carving establishes, before and after the size word is written. */
  lemma CarveFacts(m: Bytes, fs: Chunks, live: Live, i: nat, s: nat)
    requires Stores(m, fs) && InPool(fs, |m|) && Apart(fs) && Separate(live, fs, |m|)
    requires i < |fs| && MIN_BLOCK <= s <= fs[i].size
    requires OffOr0(fs, i + 1) < LIMIT && |m| < LIMIT
    ensures var t := Share(fs[i].size, s);
      var a := fs[i].End() - t;
      var m1 := Carved(m, fs, i, t);
      var gs := Carve(fs, i, t);
      && a !in live && InPool(gs, |m|) && Apart(gs) && (NoTouch(fs) ==> NoTouch(gs)) && Separate(live[a := t], gs, |m|)
      && (Tiled(live, fs, |m|) ==> Tiled(live[a := t], gs, |m|))
      && Stores(m1, gs) && Kept(m, m1, fs, 0, 0)
      && a + 8 <= |m| && t < LIMIT
      && Stores(Put(m1, a, t), gs) && Kept(m, Put(m1, a, t), fs, 0, 0)
  {
    hide Word, Put, Stores, Carved, NoTouch, Apart, Separate, Tiled, Outside, Kept, Carve;
    var t := Share(fs[i].size, s);
    var a := fs[i].End() - t;
    CarveApart(fs, i, s, |m|);
    CarveRegions(live, fs, i, s, |m|);
    CarvedStores(m, fs, i, t);
    forall k | a <= k < a + t ensures Covers(fs, k) { CoversAt(fs, i, k); }
    KeptLength(m, Carved(m, fs, i, t), fs);
    StampedStores(m, Carved(m, fs, i, t), fs, Carve(fs, i, t), a, t);
  }

  /** The descriptor words other than `first_free` are kept. */
  lemma KeptDescriptor(m: Bytes, m': Bytes, fs: Chunks, a: nat, n: nat, w: nat)
    requires DESC <= |m| && Kept(m, m', fs, a, n) && InPool(fs, |m|) && (n == 0 || a >= DESC)
    requires 8 <= w && w + 8 <= DESC
    ensures Word(m', w) == Word(m, w)
  {
    hide Word;
    AgreeWord(m, m', w);
  }

  lemma KeptSelf(m: Bytes, fs: Chunks)
    ensures Kept(m, m, fs, 0, 0)
  {
  }

  lemma KeptTrans(m0: Bytes, m1: Bytes, m2: Bytes, fs: Chunks, a: nat, n: nat)
    requires Kept(m0, m1, fs, a, n) && Kept(m1, m2, fs, a, n)
    ensures Kept(m0, m2, fs, a, n)
  {
  }

  lemma KeptLength(m: Bytes, m': Bytes, fs: Chunks)
    requires Kept(m, m', fs, 0, 0)
    ensures |m'| == |m|
  {
  }

  /** The variables of `__lmc_free`'s search loop when the walk reaches node `k`. */
  ghost predicate Search(fs: Chunks, va: nat, size: nat, k: int, cur: nat, end: bool, prev: nat) {
    && -1 <= k <= |fs| && (end <==> k == |fs|) && (!end ==> cur == NodeOff(fs, k))
    && (k >= 0 ==> prev == NodeOff(fs, k - 1))
    && forall q :: 0 <= q < k ==> !Meets(fs[q], va, size)
  }

  lemma SearchStart(fs: Chunks, va: nat, size: nat)
    ensures Search(fs, va, size, -1, 0, false, 0)
  {
  }

  /** One step of that loop: the double-free branch is not taken. */
  lemma SearchStep(m: Bytes, fs: Chunks, va: nat, size: nat, k: int, cur: nat, prev: nat)
    requires Stores(m, fs) && Search(fs, va, size, k, cur, false, prev)
    requires Outside(fs, va, size) && size > 0 && va >= DESC
    ensures cur + HEADER <= |m|
    ensures var next, sz := Word(m, cur), Word(m, cur + 8);
      if cur + sz == va || va + size == cur then
        k >= 0 && k == FirstMeeting(fs, va, size) && prev == NodeOff(fs, k - 1) &&
        fs[k] == Chunk(cur, sz) && next == OffOr0(fs, k + 1)
      else
        !(cur <= va <= cur + sz) && Search(fs, va, size, k + 1, next, next == 0, cur)
  {
    hide Word, FirstMeeting, Stores, Outside, Meets;
    var i := if k >= 0 then k else 0;
    assert k >= 0 ==> cur + HEADER <= |m| && Word(m, cur + 8) == fs[k].size by { if k >= 0 { SizeReads(m, fs, k); } }
    SentinelReads(m, fs, k);
    if k >= 0 {
      ClearAt(fs, va, size, k);
      MeetsDef(fs[k], va, size);
      if Meets(fs[k], va, size) { MeetingIs(fs, va, size, k); }
    }
  }

  lemma ClearAt(fs: Chunks, va: nat, size: nat, k: nat)
    requires Outside(fs, va, size) && k < |fs|
    ensures Clear(fs[k], Chunk(va, size))
  {
  }

  /** Where the walk goes on from list node `k`; the sentinel has size 0. */
  lemma SentinelReads(m: Bytes, fs: Chunks, k: int)
    requires Stores(m, fs) && -1 <= k < |fs|
    ensures DESC <= |m| && Word(m, 8) == 0
    ensures NodeOff(fs, k) + HEADER <= |m| && Word(m, NodeOff(fs, k)) == OffOr0(fs, k + 1)
    ensures OffOr0(fs, k + 1) == 0 <==> k + 1 == |fs|
  {
    hide Word;
    NextWord(m, fs, k);
  }

  /* ---- The memory side of compaction ---- */

  /** `m'` stores the list `gs` and differs from `m` only where `fs` was free. */
  ghost predicate Became(m: Bytes, m': Bytes, fs: Chunks, gs: Chunks) {
    Kept(m, m', fs, 0, 0) && Stores(m', gs)
  }

  lemma BecameLength(m: Bytes, m': Bytes, fs: Chunks, gs: Chunks)
    requires Became(m, m', fs, gs)
    ensures |m'| == |m| && Stores(m', gs)
  {
  }

  lemma BecameSelf(m: Bytes, fs: Chunks)
    requires Stores(m, fs)
    ensures Became(m, m, fs, fs)
  {
  }

  /** Merging with the chunk above: after the size is raised, and after the chunk above is unlinked. */
  lemma GrowStores(m: Bytes, fs: Chunks, i: nat, j: nat)
    requires Stores(m, fs) && InPool(fs, |m|) && i < |fs| && j < |fs| && fs[i].End() == fs[j].off
    ensures fs[i].off + HEADER <= |m| && fs[i].size + fs[j].size < LIMIT
    ensures Became(m, Put(m, fs[i].off + 8, fs[i].size + fs[j].size), fs, Grown(fs, i, j))
  {
    hide Word, Put, Stores, InPool, Kept;
    InPoolAt(fs, |m|, i);
    InPoolAt(fs, |m|, j);
    StoresOffs(m, fs);
    ResizeStores(m, fs, i, fs[i].size + fs[j].size);
    assert Grown(fs, i, j) == fs[i := Chunk(fs[i].off, fs[i].size + fs[j].size)];
  }

  lemma StoresOffs(m: Bytes, fs: Chunks)
    requires Stores(m, fs)
    ensures DESC <= |m| < LIMIT
    ensures forall k :: 0 <= k < |fs| ==> fs[k].off >= DESC
  {
  }

  lemma SizeReads(m: Bytes, fs: Chunks, i: nat)
    requires Stores(m, fs) && i < |fs|
    ensures DESC <= fs[i].off && fs[i].off + HEADER <= |m| && Word(m, fs[i].off + 8) == fs[i].size
    ensures Word(m, fs[i].off) == OffOr0(fs, i + 1)
    ensures fs[i].off == OffOr0(fs, 0) <==> i == 0
  {
    NextWord(m, fs, i);
  }

  /** After growing, chunk `i` still says where the list goes on. */
  lemma GrownReads(m1: Bytes, fs: Chunks, i: nat, j: nat)
    requires i < |fs| && j < |fs| && i != j && Stores(m1, Grown(fs, i, j))
    ensures fs[i].off + HEADER <= |m1| && (Word(m1, fs[i].off) == fs[j].off <==> j == i + 1)
    ensures fs[j].off >= DESC && fs[i].off >= DESC
  {
    hide Word;
    var gs := Grown(fs, i, j);
    NextWord(m1, gs, i);
    assert gs[j] == fs[j] && gs[i].off == fs[i].off;
  }

  lemma MergedUpDef(fs: Chunks, i: nat, j: nat)
    requires i < |fs| && j < |fs| && i != j && forall k :: 0 <= k < |fs| ==> fs[k].off >= DESC
    ensures j == 0 ==> MergedUp(fs, i, j) == Grown(fs, i, j) && PrevOff(fs, i, j) == 0
    ensures j == i + 1 ==> NodeOff(fs, j - 1) == fs[i].off
    ensures j > 0 && j != i + 1 ==> PrevOff(fs, i, j) == NodeOff(fs, j - 1)
    ensures j > 0 ==> NodeOff(fs, j - 1) != 0
  {
  }

  lemma UnlinkAbove(m: Bytes, m1: Bytes, fs: Chunks, i: nat, j: nat)
    requires Stores(m, fs) && InPool(fs, |m|) && i < |fs| && 0 < j < |fs| && i != j
    requires Became(m, m1, fs, Grown(fs, i, j))
    ensures NodeOff(fs, j - 1) + 8 <= |m1| && OffOr0(fs, j + 1) < LIMIT
    ensures Became(m, Put(m1, NodeOff(fs, j - 1), OffOr0(fs, j + 1)), fs, MergedUp(fs, i, j))
    ensures Word(m1, fs[j].off) == OffOr0(fs, j + 1) && fs[j].off + HEADER <= |m1|
  {
    hide Word, Put, Stores, InPool, Kept, Covers;
    var gs := Grown(fs, i, j);
    BecameLength(m, m1, fs, gs);
    StoresOffs(m, fs);
    InPoolAt(fs, |m|, j);
    InPoolAt(fs, |m|, j - 1);
    if j + 1 < |fs| { InPoolAt(fs, |m|, j + 1); }
    assert NodeOff(gs, j - 1) == NodeOff(fs, j - 1) && OffOr0(gs, j + 1) == OffOr0(fs, j + 1);
    Unlinked(m1, gs, j);
    SizeReads(m1, gs, j);
    PutKept(m1, fs, j - 1, NodeOff(fs, j - 1), OffOr0(fs, j + 1));
    KeptTrans(m, m1, Put(m1, NodeOff(fs, j - 1), OffOr0(fs, j + 1)), fs, 0, 0);
  }

  /** Merging with the chunk below: after chunk `i` is unlinked, and after the lower one has grown. */
  lemma UnlinkBecame(m: Bytes, fs: Chunks, i: nat)
    requires Stores(m, fs) && InPool(fs, |m|) && i < |fs|
    ensures NodeOff(fs, i - 1) + 8 <= |m| && OffOr0(fs, i + 1) < LIMIT
    ensures Became(m, Put(m, NodeOff(fs, i - 1), OffOr0(fs, i + 1)), fs, RemoveAt(fs, i))
  {
    UnlinkStores(m, fs, i);
  }

  lemma GrowBelow(m: Bytes, m1: Bytes, fs: Chunks, i: nat, j: nat)
    requires Stores(m, fs) && InPool(fs, |m|) && i < |fs| && j < |fs| && fs[j].End() == fs[i].off
    requires Became(m, m1, fs, RemoveAt(fs, i))
    ensures fs[j].off + HEADER <= |m1| && fs[j].size + fs[i].size < LIMIT && Word(m1, fs[j].off + 8) == fs[j].size
    ensures Became(m, Put(m1, fs[j].off + 8, fs[j].size + fs[i].size), fs, MergedDown(fs, i, j))
  {
    hide Word, Put, Stores, InPool, Kept, Covers;
    InPoolAt(fs, |m|, i);
    InPoolAt(fs, |m|, j);
    BecameLength(m, m1, fs, RemoveAt(fs, i));
    var hs := RemoveAt(fs, i);
    var q := if j < i then j else j - 1;
    assert hs[q] == fs[j];
    var v := fs[j].size + fs[i].size;
    StoresOffs(m1, hs);
    SizeReads(m1, hs, q);
    SizeSet(m1, hs, q, v);
    assert hs[q := Chunk(fs[j].off, v)] == MergedDown(fs, i, j);
    PutKept(m1, fs, j, fs[j].off + 8, v);
    KeptTrans(m, m1, Put(m1, fs[j].off + 8, v), fs, 0, 0);
  }

  /* ---- The memory side of freeing ---- */

  lemma AbsorbAt(fs: Chunks, i: nat, va: nat, size: nat)
    requires i < |fs|
    ensures |Absorb(fs, i, va, size)| == |fs|
    ensures Absorb(fs, i, va, size)[i].off == if fs[i].End() == va then fs[i].off else va
    ensures CompactCrash(Absorb(fs, i, va, size), i, Absorb(fs, i, va, size))
  {
  }

  /** A free chunk below takes the region over. */
  lemma AbsorbLower(m: Bytes, fs: Chunks, i: nat, va: nat, size: nat)
    requires Stores(m, fs) && InPool(fs, |m|) && i < |fs| && fs[i].End() == va
    requires DESC <= va && va + size <= |m| && size > 0
    ensures fs[i].off + HEADER <= |m| && fs[i].size + size < LIMIT
    ensures Absorbed(m, Put(m, fs[i].off + 8, fs[i].size + size), fs, i, va, size)
  {
    hide Word, Put, Stores, Kept, Covers;
    StoresOffs(m, fs);
    InPoolAt(fs, |m|, i);
    AbsorbCovers(fs, i, va, size, |m|);
    ResizeStores(m, fs, i, fs[i].size + size);
    KeptMore(m, Put(m, fs[i].off + 8, fs[i].size + size), fs, va, size);
  }

  lemma KeptMore(m: Bytes, m': Bytes, fs: Chunks, a: nat, n: nat)
    requires Kept(m, m', fs, 0, 0)
    ensures Kept(m, m', fs, a, n)
  {
  }

  /** The bytes after chunk `i` absorbed the region, before compaction. */
  ghost predicate Absorbed(m: Bytes, m1: Bytes, fs: Chunks, i: nat, va: nat, size: nat)
    requires i < |fs|
  {
    && Kept(m, m1, fs, va, size) && Stores(m1, Absorb(fs, i, va, size))
    && InPool(Absorb(fs, i, va, size), |m|)
    && forall b {:trigger Covers(Absorb(fs, i, va, size), b)} ::
         Covers(Absorb(fs, i, va, size), b) <==> Covers(fs, b) || va <= b < va + size
  }

  lemma AbsorbedStores(m: Bytes, m1: Bytes, fs: Chunks, i: nat, va: nat, size: nat)
    requires i < |fs| && Absorbed(m, m1, fs, i, va, size)
    ensures |m1| == |m| && Stores(m1, Absorb(fs, i, va, size)) && InPool(Absorb(fs, i, va, size), |m|)
    ensures Kept(m, m1, fs, va, size)
  {
    hide Absorb, Stores, InPool, Covers;
  }

  lemma KeptNone(m: Bytes, fs: Chunks, a: nat, n: nat)
    ensures Kept(m, m, fs, a, n)
  {
  }

  /** What compaction then changes was free or in the region. */
  lemma AbsorbedKept(m: Bytes, m1: Bytes, m2: Bytes, fs: Chunks, i: nat, va: nat, size: nat)
    requires i < |fs| && Absorbed(m, m1, fs, i, va, size) && Kept(m1, m2, Absorb(fs, i, va, size), 0, 0)
    ensures Kept(m, m2, fs, va, size)
  {
    hide Absorb, Stores, InPool, Covers;
  }

  /** The region takes the place of the free chunk above it. */
  lemma AbsorbUpper(m: Bytes, fs: Chunks, i: nat, va: nat, size: nat)
    requires Stores(m, fs) && InPool(fs, |m|) && i < |fs|
    requires va + size == fs[i].off && fs[i].End() != va
    requires Outside(fs, va, size) && DESC <= va && va + size <= |m| && size > 0
    ensures va + HEADER <= |m| && NodeOff(fs, i - 1) + 8 <= |m|
    ensures OffOr0(fs, i + 1) < LIMIT && size + fs[i].size < LIMIT && va < LIMIT
    ensures Absorbed(m, Put(Put(Put(m, va, OffOr0(fs, i + 1)), va + 8, size + fs[i].size), NodeOff(fs, i - 1), va),
              fs, i, va, size)
  {
    hide Word, Put, Stores, Kept, Covers, Heads, Hooked, InPool, Outside;
    StoresOffs(m, fs);
    InPoolAt(fs, |m|, i);
    if i > 0 { InPoolAt(fs, |m|, i - 1); }
    if i + 1 < |fs| { InPoolAt(fs, |m|, i + 1); }
    AbsorbCovers(fs, i, va, size, |m|);
    var gs, c := Absorb(fs, i, va, size), Chunk(va, size + fs[i].size);
    assert gs == fs[i := c];
    assert Heads(fs, |m|) by { StoresHeads(m, fs); }
    HeadsMoved(fs, i, c, |m|, va, size);
    HookedBy(m, c, OffOr0(fs, i + 1), NodeOff(fs, i - 1));
    var m' := Put(Put(Put(m, c.off, OffOr0(fs, i + 1)), c.off + 8, c.size), NodeOff(fs, i - 1), c.off);
    Replaced(m, m', fs, i, c);
    HookKept(m, fs, i, c, va, size, OffOr0(fs, i + 1));
  }

  /** Hooking in a header only touches the region, chunk `i` and its predecessor's header. */
  lemma HookKept(m: Bytes, fs: Chunks, i: nat, c: Chunk, va: nat, size: nat, next: nat)
    requires |m| < LIMIT && i <= |fs| && InPool(fs, |m|) && next < LIMIT && c.size < LIMIT
    requires c.off == va && va + HEADER <= |m| && NodeOff(fs, i - 1) + 8 <= |m|
    requires size >= HEADER || (i < |fs| && va + size == fs[i].off)
    ensures Kept(m, Put(Put(Put(m, c.off, next), c.off + 8, c.size), NodeOff(fs, i - 1), c.off), fs, va, size)
  {
    hide Word, Put, Covers;
    var p := NodeOff(fs, i - 1);
    if i > 0 {
      InPoolAt(fs, |m|, i - 1);
      forall k | p <= k < p + 8 ensures Covers(fs, k) { CoversAt(fs, i - 1, k); }
    }
    if i < |fs| {
      InPoolAt(fs, |m|, i);
      forall k | fs[i].off <= k < fs[i].off + HEADER ensures Covers(fs, k) { CoversAt(fs, i, k); }
    }
  }

  /** The region becomes the head of the list. */
  lemma PushFacts(m: Bytes, fs: Chunks, va: nat, size: nat)
    requires Stores(m, fs) && InPool(fs, |m|) && FirstMeeting(fs, va, size) == |fs|
    requires Outside(fs, va, size) && DESC <= va && va + size <= |m| && size >= HEADER
    ensures Stores(Pushing(m, va, size), Release(fs, va, size)) && Kept(m, Pushing(m, va, size), fs, va, size)
  {
    hide Word, Put, Stores, Kept, Covers, Heads, Hooked, InPool, FirstMeeting, Outside, Compacted, Absorb;
    assert Release(fs, va, size) == [Chunk(va, size)] + fs;
    StoresOffs(m, fs);
    NextWord(m, fs, -1);
    if |fs| > 0 { InPoolAt(fs, |m|, 0); }
    var c := Chunk(va, size);
    assert Heads(fs, |m|) by { StoresHeads(m, fs); }
    HeadsPushed(fs, c, |m|);
    HookedBy(m, c, OffOr0(fs, 0), 0);
    Pushed(m, Put(Put(Put(m, c.off, OffOr0(fs, 0)), c.off + 8, c.size), 0, c.off), fs, c);
    HookKept(m, fs, 0, c, va, size, OffOr0(fs, 0));
  }

  lemma StoresHeads(m: Bytes, fs: Chunks)
    requires Stores(m, fs)
    ensures Heads(fs, |m|)
  {
  }

  /** The bytes after region [va, va + size) was made the head of the list: a chunk
      header is written at `va` even if the region is too short for one. */
  function Pushing(m: Bytes, va: nat, size: nat): Bytes
    requires DESC <= va && va + HEADER <= |m| < LIMIT && size < LIMIT
  {
    Put(Put(Put(m, va, Word(m, 0)), va + 8, size), 0, va)
  }

  /** The header leaves everything outside the region alone exactly if the region
      is long enough, or the bytes behind it happen to be those of the header. */
  lemma PushKeepsOutside(m: Bytes, va: nat, size: nat)
    requires DESC <= va && va + HEADER <= |m| < LIMIT && size < LIMIT
    ensures var m' := Pushing(m, va, size);
      (forall k :: 8 <= k < |m| && !(va <= k < va + size) ==> m'[k] == m[k]) <==>
      size >= HEADER || m[va + size..va + HEADER] == (Digits(Word(m, 0), 8) + Digits(size, 8))[size..]
  {
    hide Word, Digits;
    var m' := Pushing(m, va, size);
    var h := Digits(Word(m, 0), 8) + Digits(size, 8);
    PushedHeader(m, va, size);
    if size < HEADER {
      assert m'[va + size..va + HEADER] == h[size..] by {
        assert m'[va..va + HEADER] == h;
        assert m'[va + size..va + HEADER] == m'[va..va + HEADER][size..];
      }
      if m[va + size..va + HEADER] == h[size..] {
        forall k | va + size <= k < va + HEADER
          ensures m'[k] == m[k]
        {
          assert m'[k] == m'[va + size..va + HEADER][k - va - size];
          assert m[k] == m[va + size..va + HEADER][k - va - size];
        }
      }
      if forall k :: 8 <= k < |m| && !(va <= k < va + size) ==> m'[k] == m[k] {
        assert m'[va + size..va + HEADER] == m[va + size..va + HEADER];
      }
    }
  }

  lemma PushedHeader(m: Bytes, va: nat, size: nat)
    requires DESC <= va && va + HEADER <= |m| < LIMIT && size < LIMIT
    ensures var m' := Pushing(m, va, size);
      && |m'| == |m| && m'[va..va + HEADER] == Digits(Word(m, 0), 8) + Digits(size, 8)
      && forall k :: 8 <= k < |m| && !(va <= k < va + HEADER) ==> m'[k] == m[k]
  {
    hide Word, Digits;
    var m1 := Put(m, va, Word(m, 0));
    var m2 := Put(m1, va + 8, size);
    var m' := Put(m2, 0, va);
    assert m1[va..va + 8] == Digits(Word(m, 0), 8);
    assert m2[va + 8..va + 16] == Digits(size, 8);
    assert m'[va..va + HEADER] == m1[va..va + 8] + m2[va + 8..va + 16];
  }

  /** A single byte given back that way destroys the size word of the block behind
      it: whatever that word was, the block's size is then 2^56 or more. */
  lemma OneByteBreaks(m: Bytes, va: nat)
    requires DESC <= va && va + HEADER <= |m| < LIMIT
    ensures Word(Pushing(m, va, 1), va + 1) >= 0x100_0000_0000_0000
  {
    hide Digits;
    var m' := Pushing(m, va, 1);
    PushedHeader(m, va, 1);
    var h := Digits(Word(m, 0), 8) + Digits(1, 8);
    var w := m'[va + 1..va + 9];
    assert w[7] == m'[va..va + HEADER][8] == Digits(1, 8)[0];
    FirstDigit(1, 8);
    LittleTop(w, 7);
    Pow256Of7();
  }

  /** LMC_TEST_CRASH: with test crashes enabled the process may die here. */
  method TestCrash(te: bool) returns (dies: bool)
    ensures dies ==> te
  {
    dies := *;
    dies := dies && te;
  }

  lemma {:induction false} FirstFitIs(fs: Chunks, s: nat, i: nat)
    requires i <= |fs| && (forall j :: 0 <= j < i ==> fs[j].size < s) && (i < |fs| ==> s <= fs[i].size)
    ensures FirstFit(fs, s) == i
  {
  }

  /** What one step along the list reads, seen from chunk `i`. */
  lemma NodeFacts(m: Bytes, fs: Chunks, i: nat, k: int)
    requires Stores(m, fs) && i < |fs| && -1 <= k < |fs|
    ensures NodeOff(fs, k) + HEADER <= |m|
    ensures Word(m, NodeOff(fs, k)) == OffOr0(fs, k + 1)
    ensures Word(m, NodeOff(fs, k) + 8) == if k < 0 then 0 else fs[k].size
    ensures NodeOff(fs, k) == fs[i].off <==> k == i
    ensures OffOr0(fs, k + 1) == fs[i].off <==> k + 1 == i
    ensures OffOr0(fs, k + 1) == 0 <==> k + 1 == |fs|
    ensures fs[i].off >= DESC
    ensures PrevOff(fs, i, k + 1) == if k == i then PrevOff(fs, i, k) else NodeOff(fs, k)
  {
    NextWord(m, fs, k);
  }

  /** No chunk before `k` but chunk `i` and its list predecessor borders chunk `i`. */
  ghost predicate NoneMeets(fs: Chunks, i: nat, k: int)
    requires i < |fs| && k <= |fs|
  {
    forall q :: 0 <= q < k && q != i && q + 1 != i ==> !Meets(fs[q], fs[i].off, fs[i].size)
  }

  /** `va_previous` when the walk reaches node `k`: the last node passed other than chunk `i`. */
  function PrevOff(fs: Chunks, i: nat, k: int): nat
    requires i < |fs| && k <= |fs|
  {
    if k <= 0 then 0 else NodeOff(fs, if k - 1 == i then i - 1 else k - 1)
  }

  /** The variables of compaction's search loop when the walk reaches node `k`. */
  ghost predicate Walk(fs: Chunks, i: nat, k: int, cur: nat, end: bool, chunkP: nat, prev: nat, down: bool, j: int) {
    && i < |fs| && -1 <= k <= |fs| && (end <==> k == |fs|) && (!end ==> cur == NodeOff(fs, k))
    && (k > i - 1 ==> chunkP == NodeOff(fs, i - 1))
    && prev == PrevOff(fs, i, k)
    && (!down ==> NoneMeets(fs, i, k))
    && (down ==> 0 <= j < |fs| && j == Partner(fs, i, 0) && fs[j].End() == fs[i].off)
  }

  /** One step of that loop, branch by branch. */
  lemma WalkStep(m: Bytes, fs: Chunks, i: nat, k: int, cur: nat, chunkP: nat, prev: nat, down: bool, j: int)
    requires Stores(m, fs) && Walk(fs, i, k, cur, false, chunkP, prev, down, j)
    ensures cur + HEADER <= |m|
    ensures var next, size := Word(m, cur), Word(m, cur + 8);
      var va, end := fs[i].off, next == 0;
      if cur == va then Walk(fs, i, k + 1, next, end, chunkP, prev, down, j)
      else if next == va then Walk(fs, i, k + 1, next, end, cur, cur, down, j)
      else if !down && cur + size == va then k >= 0 && Walk(fs, i, k + 1, next, end, chunkP, cur, true, k)
      else if !down && va + fs[i].size == cur then
        k >= 0 && k == Partner(fs, i, 0) && fs[k].off == cur && fs[k].End() != va && prev == PrevOff(fs, i, k)
      else Walk(fs, i, k + 1, next, end, chunkP, cur, down, j)
  {
    hide Partner, Meets, Stores, Heads, Word;
    NodeFacts(m, fs, i, k);
    var next, size := Word(m, cur), Word(m, cur + 8);
    var va := fs[i].off;
    if cur == va {
      Advance(fs, i, k, next, chunkP, prev, down, j);
    } else if next == va {
      Advance(fs, i, k, next, cur, cur, down, j);
    } else if !down && (cur + size == va || va + fs[i].size == cur) {
      assert k >= 0;
      assert Meets(fs[k], va, fs[i].size) by { MeetsDef(fs[k], va, fs[i].size); }
      PartnerIs(fs, i, k);
      if cur + size == va { Advance(fs, i, k, next, chunkP, cur, true, k); }
    } else {
      if !down && k >= 0 { MeetsDef(fs[k], va, fs[i].size); }
      Advance(fs, i, k, next, chunkP, cur, down, j);
    }
  }

  lemma Advance(fs: Chunks, i: nat, k: int, next: nat, chunkP: nat, prev: nat, down: bool, j: int)
    requires i < |fs| && -1 <= k < |fs| && next == OffOr0(fs, k + 1) && (next == 0 <==> k + 1 == |fs|)
    requires k + 1 > i - 1 ==> chunkP == NodeOff(fs, i - 1)
    requires prev == PrevOff(fs, i, k + 1)
    requires !down ==> NoneMeets(fs, i, k)
    requires !down ==> (k < 0 || k == i || k + 1 == i || !Meets(fs[k], fs[i].off, fs[i].size))
    requires down ==> 0 <= j < |fs| && j == Partner(fs, i, 0) && fs[j].End() == fs[i].off
    ensures Walk(fs, i, k + 1, next, next == 0, chunkP, prev, down, j)
  {
    hide Partner, Meets;
  }

  lemma WalkStart(fs: Chunks, i: nat)
    requires i < |fs|
    ensures Walk(fs, i, -1, 0, false, 0, 0, false, |fs|)
  {
    hide Partner, Meets;
  }

  lemma PartnerIs(fs: Chunks, i: nat, k: nat)
    requires i < |fs| && k <= |fs|
    requires NoneMeets(fs, i, k)
    requires k < |fs| ==> k != i && k + 1 != i && Meets(fs[k], fs[i].off, fs[i].size)
    ensures Partner(fs, i, 0) == k
  {
  }

  /* ---- Writes that leave the allocator alone ---- */

  /** The bytes `s` written at `a`. */
  function Overwrite(m: Bytes, a: nat, s: Bytes): (r: Bytes)
    requires a + |s| <= |m|
    ensures |r| == |m| && r[a..a + |s|] == s
    ensures forall k :: 0 <= k < |m| && !(a <= k < a + |s|) ==> r[k] == m[k]
  {
    m[..a] + s + m[a + |s|..]
  }

  /** Writing the payload of a used region. */
  lemma LiveWrite(m: Bytes, m': Bytes, fs: Chunks, live: Live, a: nat)
    requires Stores(m, fs) && InPool(fs, |m|) && Separate(live, fs, |m|) && Word(m, TOTAL_SIZE) + DESC == |m|
    requires a in live && |m'| == |m| && forall k :: 0 <= k < |m| && !(a + 8 <= k < a + live[a]) ==> m'[k] == m[k]
    ensures Stores(m', fs) && Word(m', TOTAL_SIZE) + DESC == |m|
    ensures Word(m', a) == Word(m, a)
  {
    hide Word;
    WriteOutside(m, m', fs, a, live[a]);
    AgreeWord(m, m', TOTAL_SIZE);
    AgreeWord(m, m', a);
  }

  lemma DescriptorWrite(m: Bytes, m': Bytes, fs: Chunks)
    requires Stores(m, fs) && InPool(fs, |m|) && Word(m, TOTAL_SIZE) + DESC == |m|
    requires |m'| == |m| && forall k :: 0 <= k < |m| && !(MAGIC <= k < DESC) ==> m'[k] == m[k]
    ensures Stores(m', fs) && Word(m', TOTAL_SIZE) + DESC == |m|
  {
    hide Word;
    StoresFrame(m, m', fs);
    AgreeWord(m, m', TOTAL_SIZE);
  }

  /** The pool right after initialisation. */
  lemma OneChunk(m: Bytes)
    requires DESC + HEADER <= |m| < LIMIT && Word(m, 0) == DESC && Word(m, 8) == 0
    requires Word(m, DESC) == 0 && Word(m, DESC + 8) == |m| - DESC
    ensures var fs := [Chunk(DESC, |m| - DESC)];
      Stores(m, fs) && Canonical(fs, |m|) && Separate(map[], fs, |m|) && Tiled(map[], fs, |m|)
  {
    hide Word, Covers;
    var fs := [Chunk(DESC, |m| - DESC)];
    forall b | DESC <= b < |m| ensures Covers(fs, b) { CoversAt(fs, 0, b); }
  }

  /** What `lmc_valloc` answers and does to list and used regions: `r` is 0 and nothing
      changes, or the block of payload `r` is carved from the first fit. */
  ghost predicate Allots(m0: Bytes, fs0: Chunks, live0: Live, size: nat, m: Bytes, fs: Chunks, live: Live, r: nat,
      crashed: bool)
  {
    && DESC <= |m0|
    && var i := FirstFit(fs0, Need(m0, size));
       if size == 0 || i == |fs0| then
         !crashed && r == 0 && m == m0 && fs == fs0 && live == live0
       else
         var t := Share(fs0[i].size, Need(m0, size));
         var a := fs0[i].End() - t;
         && a !in live0 && a + 8 <= |m|
         && fs == Carve(fs0, i, t) && live == live0[a := t]
         && (!crashed ==> r == a + 8 && Word(m, a) == t)
  }

  lemma LiveBounds(live: Live, fs: Chunks, n: nat, a: nat)
    requires Separate(live, fs, n) && a in live
    ensures DESC <= a && a + 8 <= n && live[a] > HEADER && a + live[a] <= n && Outside(fs, a, live[a])
  {
  }

  /** The other regions beside the list of a free that crashed. */
  lemma CrashLaid(live: Live, fs: Chunks, a: nat, r: Chunks, n: nat)
    requires InPool(fs, n) && Separate(live, fs, n) && a in live && ReleaseCrash(fs, a, live[a], r)
    ensures InPool(r, n) && Separate(live - {a}, r, n)
  {
    hide InPool, ReleaseCrash, Covers, Outside, Crisp;
    LiveBounds(live, fs, n, a);
    CrashKeeps(fs, a, live[a], r, n);
    forall b | b in live - {a}
      ensures Outside(r, b, live[b])
    {
      OutsideUncovered(fs, b, live[b]);
      assert Disjoint(a, live[a], b, live[b]);
      UncoveredOutside(r, b, live[b], n);
    }
  }

  class Pool {
    const mem: array<byte>
    ghost var M: Bytes      // the mapped bytes as a value
    ghost var fs: Chunks    // the free list they store
    ghost var live: Live    // the used regions

    ghost predicate Sync()
      reads this`M, mem
    {
      M == mem[..] && DESC <= |M| < LIMIT
    }

    /** The bytes store the list, whose chunks lie in the pool. */
    ghost predicate Chained()
      reads this`M, this`fs, mem
    {
      Sync() && Stores(M, fs) && InPool(fs, |M|) && Word(M, TOTAL_SIZE) + DESC == |M|
    }

    /** And no two chunks overlap or touch. */
    ghost predicate Listed()
      reads this, mem
    {
      Chained() && Canonical(fs, |M|)
    }

    /** Any list beside the used regions. */
    ghost predicate Laid()
      reads this, mem
    {
      Chained() && Separate(live, fs, |M|)
    }

    /** Separate chunks beside the used regions, touching or not. */
    ghost predicate Placed()
      reads this, mem
    {
      Laid() && Apart(fs)
    }

    lemma OkPlaced()
      ensures Ok() <==> Placed() && NoTouch(fs)
    {
    }

    ghost predicate Ok()
      reads this, mem
    {
      Listed() && Separate(live, fs, |M|)
    }

    /** A mapping fresh from the file system: all zero. */
    constructor (n: nat)
      requires DESC <= n < LIMIT
      ensures Sync() && |M| == n && Zeroed(M, 0, n) && fresh(mem)
    {
      mem := new byte[n](_ => 0);
      fs, live := [], map[];
      new;
      M := mem[..];
    }

    /** Every byte after the descriptor is free or used. */
    ghost predicate Full()
      reads this
    {
      Tiled(live, fs, |M|)
    }

    function Load(a: nat): (v: nat)
      requires Sync() && a + 8 <= |M|
      reads this, mem
      ensures v == Word(M, a)
    {
      Word(mem[..], a)
    }

    method Store(a: nat, v: nat)
      requires Sync() && a + 8 <= |M| && v < LIMIT
      modifies this`M, mem
      ensures Sync() && M == Put(old(M), a, v)
    {
      var d := Digits(v, 8);
      for i := 0 to 8
        invariant M == old(M) && |M| == mem.Length
        invariant forall k :: 0 <= k < |M| ==> mem[k] == if a <= k < a + i then d[k - a] else M[k]
      {
        mem[a + i] := d[i];
      }
      M := Put(M, a, v);
      assert M == mem[..] by {
        assert M == old(M)[..a] + d + old(M)[a + 8..];
      }
    }

    /** `memcpy` of `s` to offset `a`. */
    method StoreBytes(a: nat, s: Bytes)
      requires Sync() && a + |s| <= |M|
      modifies this`M, mem
      ensures Sync() && M == Overwrite(old(M), a, s)
    {
      for i := 0 to |s|
        invariant M == old(M) && |M| == mem.Length
        invariant forall k :: 0 <= k < |M| ==> mem[k] == if a <= k < a + i then s[k - a] else M[k]
      {
        mem[a + i] := s[i];
      }
      M := Overwrite(M, a, s);
    }

    /** A word inside the payload of a live block. */
    method Poke(ghost block: nat, a: nat, v: nat)
      requires Laid() && block in live && block + 8 <= a && a + 8 <= block + live[block] && v < LIMIT
      modifies this`M, mem
      ensures Laid() && M == Put(old(M), a, v)
    {
      hide Word, Put, Stores, InPool, Apart, NoTouch;
      LiveWrite(M, Put(M, a, v), fs, live, block);
      Store(a, v);
    }

    /** Bytes inside the payload of a live block. */
    method PokeBytes(ghost block: nat, a: nat, s: Bytes)
      requires Laid() && block in live && block + 8 <= a && a + |s| <= block + live[block]
      modifies this`M, mem
      ensures Laid() && M == Overwrite(old(M), a, s)
    {
      hide Word, Stores, InPool, Apart, NoTouch;
      LiveWrite(M, Overwrite(M, a, s), fs, live, block);
      StoreBytes(a, s);
    }

    /** A descriptor word that the allocator does not use as part of the free list. */
    method PokeDescriptor(w: nat, v: nat)
      requires Chained() && MAGIC <= w && w + 8 <= DESC && v < LIMIT
      modifies this`M, mem
      ensures Chained() && M == Put(old(M), w, v)
    {
      hide Word, Stores, InPool, Apart, NoTouch;
      DescriptorWrite(M, Put(M, w, v), fs);
      Store(w, v);
    }

    /** First fit: the chunk `c` to carve and its list predecessor `p`, 0 for none. */
    method FindFit(s: nat) returns (c: nat, p: nat, ghost i: nat)
      requires Chained()
      ensures i == FirstFit(fs, s) && c == OffOr0(fs, i) && p == NodeOff(fs, i - 1)
      ensures if i < |fs| then
          && DESC <= c && c + HEADER <= |M| && p + 8 <= |M|
          && Word(M, c + 8) == fs[i].size && Word(M, c) == OffOr0(fs, i + 1)
        else c == 0
    {
      hide Word;
      c, p, i := Load(FIRST_FREE), 0, 0;
      while c != 0 && Load(c + 8) < s
        invariant i <= |fs| && c == OffOr0(fs, i) && p == NodeOff(fs, i - 1)
        invariant forall j :: 0 <= j < i ==> fs[j].size < s
        decreases |fs| - i
      {
        p := c;
        NextWord(M, fs, i);
        c := Load(c);
        i := i + 1;
      }
      FirstFitIs(fs, s, i);
      if i < |fs| { NextWord(M, fs, i); }
    }

    /** `lmc_valloc`.  A crash leaves the carved region used but its size word unwritten. */
    method Valloc(size: nat, te: bool) returns (r: nat, crashed: bool)
      requires Placed() && size <= MAX_SIZE
      modifies this`M, this`fs, this`live, mem
      ensures Placed() && (NoTouch(old(fs)) ==> NoTouch(fs)) && Kept(old(M), M, old(fs), 0, 0)
      ensures crashed ==> te
      ensures Allots(old(M), old(fs), old(live), size, M, fs, live, r, crashed)
      ensures old(Full()) ==> Full()
    {
      hide Word, Put, Stores, NoTouch, Apart, InPool, Separate, Tiled, Kept, Covers, Carve, Need, Heads, FirstFit;
      KeptSelf(M, fs);
      crashed, r := false, 0;
      var s := Need(mem[..], size);
      var c, p, i := FindFit(s);
      if size == 0 || c == 0 { return; }
      var csize, next := Load(c + 8), Load(c);
      ghost var m0, fs0 := M, fs;
      CarveFacts(M, fs, live, i, s);
      if csize - s < HEADER { s := csize; }
      ghost var a := fs[i].End() - s;
      if csize == s {
        if p != 0 { Store(p, next); } else { Store(FIRST_FREE, next); }
        fs, live := Carve(fs, i, s), live[a := s];
        KeptDescriptor(m0, M, fs0, 0, 0, TOTAL_SIZE);
        crashed := TestCrash(te);
        if crashed { return; }
        r := c;
      } else {
        Store(c + 8, csize - s);
        fs, live := Carve(fs, i, s), live[a := s];
        KeptDescriptor(m0, M, fs0, 0, 0, TOTAL_SIZE);
        crashed := TestCrash(te);
        if crashed { return; }
        r := c + (csize - s);
      }
      Store(r, s);
      KeptLength(m0, M, fs0);
      KeptDescriptor(m0, M, fs0, 0, 0, TOTAL_SIZE);
      r := r + 8;
    }

    /** The search loop of `lmc_compact_free_chunks`: the partner of chunk `i` in
        list order, with what the merges need to know about its surroundings. */
    method FindPartner(va: nat, ghost i: nat)
      returns (up: bool, down: bool, x: nat, prev: nat, chunkP: nat, ghost j: nat)
      requires Sync() && Stores(M, fs) && i < |fs| && fs[i].off == va
      ensures j == Partner(fs, i, 0) && x == OffOr0(fs, j)
      ensures down == (j < |fs| && fs[j].End() == va)
      ensures up == (j < |fs| && fs[j].End() != va)
      ensures up ==> prev == PrevOff(fs, i, j)
      ensures down ==> chunkP == NodeOff(fs, i - 1)
    {
      hide Word, Stores, Heads, PrevOff;
      assert va + HEADER <= |M| && Word(M, va + 8) == fs[i].size by { NodeFacts(M, fs, i, i); }
      var size := Load(va + 8);
      var cur, end := 0, false;
      ghost var k := -1;
      up, down, x, prev, chunkP, j := false, false, 0, 0, 0, |fs|;
      WalkStart(fs, i);
      while !end
        invariant Walk(fs, i, k, cur, end, chunkP, prev, down, j) && !up
        invariant down ==> x == fs[j].off
        decreases |fs| - k
      {
        WalkStep(M, fs, i, k, cur, chunkP, prev, down, j);
        var next, curSize := Load(cur), Load(cur + 8);
        if cur != va {
          if next == va {
            chunkP := cur;
          } else if !down {
            if cur + curSize == va {
              down, x, j := true, cur, k;
            } else if va + size == cur {
              up, x, j := true, cur, k;
              return;
            }
          }
          prev := cur;
        }
        cur, end, k := next, next == 0, k + 1;
      }
      if !down { x, j := 0, |fs|; PartnerIs(fs, i, |fs|); }
    }

    /** Merging chunk `i` at `va` with the chunk `x` above it. */
    method MergeUp(va: nat, x: nat, previous: nat, te: bool, ghost i: nat, ghost j: nat) returns (crashed: bool)
      requires Sync() && Stores(M, fs) && InPool(fs, |M|)
      requires i < |fs| && j < |fs| && i != j && fs[i].off == va && fs[j].off == x && fs[i].End() == x
      requires previous == PrevOff(fs, i, j)
      modifies this`M, this`fs, mem
      ensures Sync() && Became(old(M), M, old(fs), fs)
      ensures crashed ==> te
      ensures fs == MergedUp(old(fs), i, j) || (crashed && fs == Grown(old(fs), i, j))
    {
      hide Word, Put, Stores, InPool, Heads, MergedUp, Grown, Kept;
      ghost var m0, fs0 := M, fs;
      var prev := previous;
      GrowStores(m0, fs0, i, j);
      SizeReads(m0, fs0, i);
      SizeReads(m0, fs0, j);
      var size := Load(va + 8) + Load(x + 8);
      Store(va + 8, size);
      fs := Grown(fs0, i, j);
      ghost var m1 := M;
      BecameLength(m0, m1, fs0, fs);
      GrownReads(m1, fs0, i, j);
      crashed := TestCrash(te);
      if crashed { return; }
      if Load(va) == x { prev := va; }
      crashed := TestCrash(te);
      if crashed { return; }
      crashed := TestCrash(te);
      if crashed { return; }
      StoresOffs(m0, fs0);
      MergedUpDef(fs0, i, j);
      if prev != 0 {
        UnlinkAbove(m0, m1, fs0, i, j);
        Store(prev, Load(x));
        fs := MergedUp(fs0, i, j);
        BecameLength(m0, M, fs0, fs);
      }
      crashed := TestCrash(te);
    }

    /** Merging chunk `i` at `va` into the chunk `x` below it. */
    method MergeDown(va: nat, x: nat, chunkP: nat, te: bool, ghost i: nat, ghost j: nat) returns (crashed: bool)
      requires Sync() && Stores(M, fs) && InPool(fs, |M|)
      requires i < |fs| && j < |fs| && i != j && fs[i].off == va && fs[j].off == x && fs[j].End() == va
      requires chunkP == NodeOff(fs, i - 1)
      modifies this`M, this`fs, mem
      ensures Sync() && Became(old(M), M, old(fs), fs)
      ensures crashed ==> te
      ensures fs == MergedDown(old(fs), i, j) || (crashed && (fs == old(fs) || fs == RemoveAt(old(fs), i)))
    {
      hide Word, Put, Stores, InPool, Heads, MergedDown, Grown, Kept, RemoveAt;
      ghost var m0, fs0 := M, fs;
      BecameSelf(m0, fs0);
      SizeReads(m0, fs0, i);
      UnlinkBecame(m0, fs0, i);
      if i > 0 { SizeReads(m0, fs0, i - 1); }
      NextWord(m0, fs0, -1);
      var size := Load(va + 8);
      crashed := TestCrash(te);
      if crashed { return; }
      if chunkP != 0 {
        Store(chunkP, Load(va));
        fs := RemoveAt(fs0, i);
      }
      crashed := TestCrash(te);
      if crashed { return; }
      assert chunkP != 0 ==> Word(M, 0) == Word(m0, 0);
      if Load(FIRST_FREE) == va {
        Store(FIRST_FREE, Load(va));
        fs := RemoveAt(fs0, i);
      }
      crashed := TestCrash(te);
      if crashed { return; }
      GrowBelow(m0, M, fs0, i, j);
      Store(x + 8, Load(x + 8) + size);
      fs := MergedDown(fs0, i, j);
    }

    /** `lmc_compact_free_chunks` around chunk `i`. */
    method Compact(va: nat, te: bool, ghost i: nat) returns (crashed: bool)
      requires Sync() && Stores(M, fs) && InPool(fs, |M|) && i < |fs| && fs[i].off == va
      modifies this`M, this`fs, mem
      ensures Sync() && Became(old(M), M, old(fs), fs)
      ensures crashed ==> te && CompactCrash(old(fs), i, fs)
      ensures !crashed ==> fs == Compacted(old(fs), i)
    {
      hide Word, Put, Stores, InPool, Heads, MergedDown, MergedUp, Grown, Partner;
      BecameSelf(M, fs);
      crashed := false;
      var up, down, x, prev, chunkP, j := FindPartner(va, i);
      if up {
        crashed := MergeUp(va, x, prev, te, i, j);
      }
      if down {
        crashed := MergeDown(va, x, chunkP, te, i, j);
      }
    }

    /** The search loop of `__lmc_free`: the first chunk bordering [va, va + size). */
    method FindMeeting(va: nat, size: nat)
      returns (lower: bool, upper: bool, freed: bool, c: nat, prev: nat, ghost i: nat)
      requires Sync() && Stores(M, fs) && Outside(fs, va, size) && size > 0 && va >= DESC
      ensures !freed && i == FirstMeeting(fs, va, size)
      ensures i == |fs| ==> !lower && !upper
      ensures i < |fs| ==> lower == (fs[i].End() == va) && upper == !lower
      ensures i < |fs| ==> c == fs[i].off && prev == NodeOff(fs, i - 1)
    {
      hide Word, Stores, FirstMeeting;
      var cur: nat := 0;
      var end := false;
      ghost var k := -1;
      lower, upper, freed, c, prev, i := false, false, false, 0, 0, |fs|;
      SearchStart(fs, va, size);
      while !end
        invariant Search(fs, va, size, k, cur, end, prev) && !lower && !upper && !freed
        decreases |fs| - k
      {
        SearchStep(M, fs, va, size, k, cur, prev);
        var next, curEnd := Load(cur), cur + Load(cur + 8);
        if curEnd == va {
          lower, c, i := true, cur, k;
          return;
        } else if va + size == cur {
          upper, c, i := true, cur, k;
          return;
        }
        if cur <= va && va <= curEnd {
          freed := true;
          return;
        }
        prev, cur, end, k := cur, next, next == 0, k + 1;
      }
      MeetingIs(fs, va, size, |fs|);
    }

    /** `__lmc_free`: gives the region [va, va + size) back, whatever the chunks of
        the list are.  A region that is `short` of a chunk header and borders no
        free chunk gets one all the same; only a store past the mapping's end is not made. */
    method RawFree(va: nat, size: nat, te: bool) returns (crashed: bool, short: bool)
      requires Chained() && Outside(fs, va, size) && DESC <= va && va + size <= |M| && size > 0
      modifies this`M, this`fs, mem
      ensures Sync() && |M| == |old(M)| && (crashed ==> te && !short)
      ensures short <==> !HasRoom(old(fs), va, size)
      ensures short ==> fs == old(fs) && M == if va + HEADER <= |M| then Pushing(old(M), va, size) else old(M)
      ensures !short ==> Stores(M, fs) && Kept(old(M), M, old(fs), va, size)
      ensures !crashed && !short ==> fs == Release(old(fs), va, size) && Chained()
      ensures crashed ==> ReleaseCrash(old(fs), va, size, fs)
    {
      hide Word, Put, Stores, InPool, Heads, FirstMeeting, Absorb, Compacted, CompactCrash, Covers, Kept, Outside;
      crashed, short := false, false;
      ghost var m0, fs0 := M, fs;
      ReleaseCovers(fs, va, size, |M|);
      var lower, upper, freed, c, prev, i := FindMeeting(va, size);
      if freed { return; }
      if lower {
        crashed := FreeLower(va, size, c, te, i);
      } else if upper {
        crashed := FreeUpper(va, size, c, prev, te, i);
      } else {
        short := size < HEADER;
        if va + HEADER > mem.Length { return; }
        if !short { PushFacts(m0, fs0, va, size); }
        assert Word(m0, 0) < LIMIT && va < LIMIT;
        Store(va, Load(FIRST_FREE));
        Store(va + 8, size);
        Store(FIRST_FREE, va);
        if short { return; }
        fs := Release(fs0, va, size);
      }
      KeptDescriptor(m0, M, fs0, va, size, TOTAL_SIZE);
    }

    /** The branch of `__lmc_free` for a free chunk that ends at the region. */
    method FreeLower(va: nat, size: nat, c: nat, te: bool, ghost i: nat) returns (crashed: bool)
      requires Sync() && Stores(M, fs) && InPool(fs, |M|) && DESC <= va && va + size <= |M| && size > 0
      requires i == FirstMeeting(fs, va, size) && i < |fs| && fs[i].End() == va && c == fs[i].off
      modifies this`M, this`fs, mem
      ensures Sync() && Stores(M, fs) && Kept(old(M), M, old(fs), va, size)
      ensures !crashed ==> fs == Release(old(fs), va, size)
      ensures crashed ==> te && ReleaseCrash(old(fs), va, size, fs)
    {
      hide Word, Put, Stores, InPool, Heads, FirstMeeting, Absorb, Compacted, CompactCrash, Covers, Kept;
      ghost var m0, fs0 := M, fs;
      AbsorbAt(fs0, i, va, size);
      KeptNone(m0, fs0, va, size);
      crashed := TestCrash(te);
      if crashed { return; }
      AbsorbLower(m0, fs0, i, va, size);
      SizeReads(m0, fs0, i);
      Store(c + 8, Load(c + 8) + size);
      fs := Absorb(fs0, i, va, size);
      ghost var m1 := M;
      AbsorbedStores(m0, m1, fs0, i, va, size);
      crashed := TestCrash(te);
      if crashed { return; }
      crashed := Compact(c, te, i);
      AbsorbedKept(m0, m1, M, fs0, i, va, size);
    }

    /** The branch for a free chunk that starts where the region ends. */
    method FreeUpper(va: nat, size: nat, c: nat, prev: nat, te: bool, ghost i: nat) returns (crashed: bool)
      requires Sync() && Stores(M, fs) && InPool(fs, |M|) && Outside(fs, va, size) && DESC <= va && va + size <= |M|
      requires size > 0
      requires i == FirstMeeting(fs, va, size) && i < |fs| && fs[i].End() != va && c == fs[i].off
      requires prev == NodeOff(fs, i - 1)
      modifies this`M, this`fs, mem
      ensures Sync() && Stores(M, fs) && Kept(old(M), M, old(fs), va, size)
      ensures !crashed ==> fs == Release(old(fs), va, size)
      ensures crashed ==> te && ReleaseCrash(old(fs), va, size, fs)
    {
      hide Word, Put, Stores, InPool, Heads, FirstMeeting, Absorb, Compacted, CompactCrash, Covers, Kept, Outside;
      ghost var m0, fs0 := M, fs;
      assert va + size == c by { MeetsDef(fs[i], va, size); }
      AbsorbAt(fs0, i, va, size);
      AbsorbUpper(m0, fs0, i, va, size);
      SizeReads(m0, fs0, i);
      Store(va, Load(c));
      Store(va + 8, size + Load(c + 8));
      Store(prev, va);
      fs := Absorb(fs0, i, va, size);
      ghost var m1 := M;
      AbsorbedStores(m0, m1, fs0, i, va, size);
      crashed := Compact(va, te, i);
      AbsorbedKept(m0, m1, M, fs0, i, va, size);
    }

    /** `lmc_is_va_valid`. */
    predicate VaValid(va: nat)
      requires Sync()
      reads this, mem
    {
      va <= Load(TOTAL_SIZE) + DESC
    }

    /** `lmc_free`, on any list.  Null and out-of-range pointers are ignored.  Separate
        chunks stay separate unless the block lets one grow up to a list head it
        touched all along. */
    method Free(chunk: nat, te: bool) returns (crashed: bool)
      requires Laid()
      requires DESC + 8 <= chunk <= |M| ==> chunk - 8 in live && Word(M, chunk - 8) == live[chunk - 8]
      modifies this`M, this`fs, this`live, mem
      ensures Laid() && |M| == |old(M)|
      ensures !(DESC + 8 <= chunk <= |M|) ==>
        !crashed && M == old(M) && fs == old(fs) && live == old(live)
      ensures DESC + 8 <= chunk <= |M| ==>
        && Kept(old(M), M, old(fs), chunk - 8, old(live)[chunk - 8])
        && live == old(live) - {chunk - 8}
        && (crashed ==> te && ReleaseCrash(old(fs), chunk - 8, old(live)[chunk - 8], fs))
        && (!crashed ==> fs == Release(old(fs), chunk - 8, old(live)[chunk - 8]))
      ensures !crashed && DESC + 8 <= chunk <= |M| && old(Apart(fs)) ==>
        if Doubles(old(fs), chunk - 8, old(live)[chunk - 8]) then Twice(fs) else Apart(fs)
      ensures !crashed && old(Canonical(fs, |M|)) ==> Canonical(fs, |M|)
      ensures !crashed && old(Full()) ==> Full()
    {
      hide Word, Put, Stores, InPool, Apart, NoTouch, Covers, Release, Tiled, Outside, Doubles, Twice, Separate,
        ReleaseCrash, Canonical, Kept;
      crashed := false;
      if chunk == 0 { return; }
      if !(chunk >= DESC + 8) || !VaValid(chunk) { return; }
      var va := chunk - 8;
      var size := Load(va);
      ghost var m0, fs0, live0 := M, fs, live;
      LiveBounds(live, fs, |M|, va);
      ReleaseRegions(live, fs, va, |M|);
      if Apart(fs) { ReleaseApart(fs, va, size, |M|); }
      var short;
      crashed, short := RawFree(va, size, te);
      live := live - {va};
      if crashed { CrashLaid(live0, fs0, va, fs, |m0|); }
      KeptDescriptor(m0, M, fs0, va, size, TOTAL_SIZE);
    }

    /** `lmc_init_memory` on a mapping whose `dummy2` is zero. */
    method InitMemory()
      requires Sync() && |M| >= DESC + HEADER && Word(M, 8) == 0
      modifies this`M, this`fs, this`live, mem
      ensures Ok() && |M| == |old(M)| && fs == [Chunk(DESC, |M| - DESC)] && live == map[] && Tiled(live, fs, |M|)
      ensures Word(M, LOCKED) == 1 && Word(M, VERSION) == 2 && Word(M, MAGIC) == 0xF00D
      ensures forall k :: OP_ID <= k < DESC ==> M[k] == old(M)[k]
    {
      hide Word, Put, Covers, Stores, Canonical, Separate, Tiled;
      var s := mem.Length - DESC;
      Store(FIRST_FREE, DESC);
      Store(MAGIC, 0xF00D);
      Store(VERSION, 2);
      Store(LOCKED, 1);
      Store(TOTAL_SIZE, s);
      Store(DESC, 0);
      Store(DESC + 8, s);
      fs, live := [Chunk(DESC, s)], map[];
      OneChunk(M);
    }

    /** `lmc_status`: the loop over the free list. */
    method Status() returns (total: nat, shm: nat, free: nat, freeMem: nat, largest: nat, chunks: nat)
      requires Listed()
      ensures shm == |M| && total == |M| - DESC && chunks == |fs| && free == Total(fs)
      ensures freeMem == if free > 0 then free - 8 else 0
      ensures forall c :: c in fs ==> c.size <= largest
      ensures fs != [] ==> exists c :: c in fs && c.size == largest
      ensures fs == [] ==> largest == 0
      // what can be allocated is what reaches no further than that
      ensures forall s: nat :: s > 0 ==> (FirstFit(fs, s) < |fs| <==> s <= largest)
    {
      hide Word, Stores, Apart, NoTouch;
      total, shm := Load(TOTAL_SIZE), Load(TOTAL_SIZE) + DESC;
      free, largest, chunks := 0, 0, 0;
      NextWord(M, fs, -1);
      var c := Load(FIRST_FREE);
      while c != 0
        invariant chunks <= |fs| && c == OffOr0(fs, chunks)
        invariant free + Total(fs[chunks..]) == Total(fs)
        invariant forall i :: 0 <= i < chunks ==> fs[i].size <= largest
        invariant chunks > 0 ==> exists i :: 0 <= i < chunks && fs[i].size == largest
        invariant chunks == 0 ==> largest == 0
        decreases |fs| - chunks
      {
        SizeReads(M, fs, chunks);
        InPoolAt(fs, |M|, chunks);
        if !VaValid(c) {
          assert false;
        }
        free := free + Load(c + 8);
        if Load(c + 8) > largest { largest := Load(c + 8); }
        assert fs[chunks].size == largest || chunks > 0;
        chunks := chunks + 1;
        c := Load(c);
      }
      assert fs[chunks..] == [];
      forall s: nat | s > 0
        ensures FirstFit(fs, s) < |fs| <==> s <= largest
      {
        var i := FirstFit(fs, s);
        if i < |fs| { assert fs[i].size >= s; }
      }
      freeMem := if free > 0 then free - 8 else 0;
    }
  }
}
