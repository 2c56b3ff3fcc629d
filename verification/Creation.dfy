/** Making a namespace: `lmc_init_memory`, `ht_hash_create` and the settings of a
    fresh pool, as `__local_memcache_create` and `local_memcache_clear` use them. */
module Creation {
  import opened Memory
  import opened Rounding
  import opened FreeList
  import opened Links
  import opened Regions
  import opened Allocation
  import opened Pools
  import opened Marking
  import opened Tables
  import opened Health
  import opened Repair
  import opened TableSteps
  import opened HashTables
  import opened Sweeping
  import opened Recovery

  /** `memset(base + va, 0, n)` inside a live block. */
  method Clear(p: Pool, ghost block: nat, va: nat, n: nat)
    requires p.Ok() && block in p.live && block + 8 <= va && va + n <= block + p.live[block]
    modifies p`M, p.mem
    ensures p.Ok() && |p.M| == |old(p.M)| && Zeroed(p.M, va, n)
    ensures forall k :: 0 <= k < |p.M| && !(va <= k < va + n) ==> p.M[k] == old(p.M)[k]
  {
    hide Word, Stores, Canonical, Separate;
    var s: Bytes := seq(n, _ => 0);
    ghost var m0 := p.M;
    assert va + n <= |m0| by { BlockFits(p, block); }
    p.PokeBytes(block, va, s);
    forall k | va <= k < va + n
      ensures p.M[k] == 0
    {
      assert p.M[k] == p.M[va..va + |s|][k - va];
    }
  }

  lemma BlockFits(p: Pool, block: nat)
    requires p.Ok() && block in p.live
    ensures DESC <= block && HEADER < p.live[block] && block + p.live[block] <= |p.M|
  {
  }

  lemma KeptSame(m: Bytes, m': Bytes, fs: Chunks)
    requires Kept(m, m', fs, 0, 0) && InPool(fs, |m|)
    ensures |m'| == |m| && Agree(m, m', 8, DESC - 8)
  {
    hide Covers;
    forall k | 0 <= k < DESC ensures !Covers(fs, k) { if Covers(fs, k) { var i := CoverIndex(fs, k); } }
  }

  lemma OneChunkServes(n: nat, s: nat)
    requires DESC <= n
    ensures Serves([Chunk(DESC, n - DESC)], s) <==> s <= n - DESC
  {
    assert [Chunk(DESC, n - DESC)][1..] == [];
  }

  /** The pool after the first block was handed out, from the end of its one chunk. */
  lemma OneChunkTaken(n: nat, s: nat)
    requires DESC <= n && s + HEADER <= n - DESC
    ensures Taken([Chunk(DESC, n - DESC)], s) == [Chunk(DESC, n - DESC - s)]
  {
    assert FirstFit([Chunk(DESC, n - DESC)], s) == 0;
  }

  /** The block the table needs in a pool that was just initialised. */
  lemma FirstNeed(m: Bytes)
    requires DESC <= |m| && Word(m, VERSION) == 2
    ensures Need(m, TABLE) == NeedFor(Word(m, MIN_ALLOC), TABLE) == Max(Word(m, MIN_ALLOC), Round(TABLE + 8))
  {
    hide Word, Round;
  }

  lemma EmptyCheckable(t: HashTable)
    requires t.Valid() && t.view == map[] && t.pool.Full()
    ensures Checkable(t) && t.pool.Sync() && t.ht + TABLE <= |t.pool.M| < LIMIT
  {
    hide Word, TableOk, Sound, Stores, Canonical, Separate, Counts, Crumbled, Tiled;
    TiledCrumbled(t.pool.live, t.pool.fs, |t.pool.M|);
    TableFits(t.St(), t.cmp, t.ht, t.chains);
  }

  /** `ht_hash_create`. */
  method HashCreate(p: Pool, cmp: Matching) returns (t: HashTable?)
    requires p.Ok() && p.Full() && p.live == map[] && Sound(cmp)
    modifies p`M, p`fs, p`live, p.mem
    ensures p.Ok() && p.Full() && Agree(old(p.M), p.M, 8, DESC - 8)
    ensures t == null <==> !Serves(old(p.fs), Need(old(p.M), TABLE))
    ensures t != null ==> fresh(t) && t.pool == p && t.cmp == cmp && t.Valid() && t.view == map[] && t.stray == 0
    ensures t != null ==> p.live.Keys == {t.ht - 8} && NoLeaks(p.live, StartsOf(t))
    ensures t != null ==> p.fs == Taken(old(p.fs), Need(old(p.M), TABLE))
  {
    hide Word, Stores, Canonical, Separate, Tiled, Kept, Sound, TableOk, Need;
    ghost var m0, fs0 := p.M, p.fs;
    p.OkPlaced();
    var va, crashed := p.Valloc(TABLE, false);
    p.OkPlaced();
    CanonicalDef(fs0, |m0|);
    KeptSame(m0, p.M, fs0);
    t := null;
    if va == 0 { return; }
    var a := va - 8;
    ghost var m1 := p.M;
    BlockFits(p, a);
    Clear(p, a, va, TABLE);
    AgreeWord(m1, p.M, a);
    t := new HashTable(p, va, cmp);
    NoNodes(t.ht, t.chains);
  }

  lemma {:induction false} NoNodes(ht: nat, chains: seq<seq<Node>>)
    requires forall k :: 0 <= k < |chains| ==> chains[k] == []
    ensures FlatNodes(chains) == [] && Starts(ht, FlatNodes(chains)) == {ht - 8}
  {
    if chains != [] { NoNodes(ht, chains[..|chains| - 1]); }
  }

  /** `lmc_init_memory` and `ht_hash_create` on a mapping whose `dummy2` is zero:
      a new namespace, or an old one being cleared, all of whose entries vanish. */
  method Reset(p: Pool, cmp: Matching) returns (t: HashTable?)
    requires p.Sync() && |p.M| >= DESC + HEADER && Word(p.M, 8) == 0 && Sound(cmp)
    modifies p`M, p`fs, p`live, p.mem
    ensures |p.M| == |old(p.M)|
    ensures t == null <==> |p.M| - DESC < Max(Word(old(p.M), MIN_ALLOC), Round(TABLE + 8))
    ensures t != null ==>
      fresh(t) && t.pool == p && t.cmp == cmp && Checkable(t) && p.Full() && NoLeaks(p.live, StartsOf(t))
    ensures t != null ==> t.view == map[] && t.stray == 0 && Word(p.M, VA_HASH) == t.ht && Word(p.M, LOCKED) == 1
    ensures t != null ==> Word(p.M, VERSION) == 2 && Word(p.M, MIN_ALLOC) == Word(old(p.M), MIN_ALLOC)
    ensures t != null ==> Word(p.M, OP_ID) == Word(old(p.M), OP_ID)
    ensures t != null ==> p.fs == Taken([Chunk(DESC, |p.M| - DESC)], NeedFor(Word(old(p.M), MIN_ALLOC), TABLE))
  {
    hide Word, Put, Stores, Canonical, Separate, Tiled, Sound, TableOk, Need, NoLeaks, Starts, FlatNodes, Crumbled,
      Pool.Full, Checkable, Serves, Intact, Mendable, Doubled, Taken, NeedFor;
    ghost var m0 := p.M;
    p.InitMemory();
    ghost var m1 := p.M;
    AgreeWord(m0, m1, MIN_ALLOC);
    FirstNeed(m1);
    OneChunkServes(|m1|, Need(m1, TABLE));
    assert p.Full() by { FullIs(p); }
    t := HashCreate(p, cmp);
    if t == null { return; }
    AgreeWord(m1, p.M, LOCKED);
    AgreeWord(m1, p.M, VERSION);
    AgreeWord(m1, p.M, MIN_ALLOC);
    AgreeWord(m0, m1, OP_ID);
    AgreeWord(m1, p.M, OP_ID);
    EmptyCheckable(t);
    CheckableIntact(t);
    PokeWord(t, VA_HASH, t.ht);
  }

  /** A new namespace, as `__local_memcache_create` leaves it: of at least one
      megabyte, empty and unlocked.  The table always fits, and the rest is one chunk.
      The smallest block is the least power of two from `minAlloc` on; for 0, the
      default, there is no smallest block. */
  method Create(n: nat, minAlloc: nat, cmp: Matching) returns (t: HashTable)
    requires Sound(cmp) && MIN_POOL <= n < LIMIT && Round(minAlloc) < LIMIT
    ensures fresh(t) && fresh(t.pool) && fresh(t.pool.mem) && t.cmp == cmp && |t.pool.M| == n
    ensures Checkable(t) && t.pool.Full() && NoLeaks(t.pool.live, StartsOf(t)) && t.view == map[] && t.stray == 0
    ensures Word(t.pool.M, VA_HASH) == t.ht && Word(t.pool.M, LOCKED) == 0 && MinAlloc(t.pool.M) == Round(minAlloc)
    ensures Quiet(t.pool.M) && t.pool.fs == [Chunk(DESC, n - DESC - TABLE_BLOCK)]
    ensures minAlloc == 0 ==> MinAlloc(t.pool.M) == 0
    ensures 1 <= minAlloc <= 0x1_0000_0000 ==> LeastPow2From(MinAlloc(t.pool.M), minAlloc)
    ensures minAlloc >= 1 ==> (LeastPow2From(MinAlloc(t.pool.M), minAlloc) <==> NoLongZeroRun(minAlloc - 1))
    ensures forall size: nat, p: nat :: Rounded(size, p) ==> Need(t.pool.M, size) == Max(MinAlloc(t.pool.M), p)
  {
    hide Word, Put, Stores, Canonical, Separate, Tiled, Sound, TableOk, NoLeaks, Starts, FlatNodes, Crumbled,
      Pool.Full, Checkable, Serves, Round, Zeroed, Intact, Mendable, Doubled, NeedFor, Taken, Rounded, NoLongZeroRun,
      LeastPow2From, Quiet;
    var p := new Pool(n);
    ZeroedWord(p.M, n, 8);
    ZeroedWord(p.M, n, MIN_ALLOC);
    ZeroedWord(p.M, n, OP_ID);
    TableRound();
    var r := Reset(p, cmp);
    t := r;
    CheckableIntact(t);
    OneChunkTaken(n, TABLE_BLOCK);
    PokeWord(t, MIN_ALLOC, Round(minAlloc));
    PokeWord(t, LOCKED, 0);
    assert Quiet(t.pool.M) by { NoOp(t.pool.M); }
    SmallestBlock(minAlloc);
    forall size: nat, p: nat | Rounded(size, p)
      ensures Need(t.pool.M, size) == Max(MinAlloc(t.pool.M), p)
    {
      NeedExact(MinAlloc(t.pool.M), size, p);
    }
  }

  lemma NoOp(m: Bytes)
    requires DESC <= |m| && Word(m, OP_ID) == 0
    ensures Quiet(m)
  {
    hide Word;
  }

  lemma SmallestBlock(minAlloc: nat)
    ensures minAlloc == 0 ==> Round(minAlloc) == 0
    ensures 1 <= minAlloc <= 0x1_0000_0000 ==> LeastPow2From(Round(minAlloc), minAlloc)
    ensures minAlloc >= 1 ==> (LeastPow2From(Round(minAlloc), minAlloc) <==> NoLongZeroRun(minAlloc - 1))
  {
    hide Smear, NoLongZeroRun, LeastPow2From;
    if minAlloc >= 1 { RoundExact(minAlloc); }
    if 1 <= minAlloc <= 0x1_0000_0000 { RoundUpTo32Bits(minAlloc); }
  }

  /** The block of the table when there is no smallest block. */
  const TABLE_BLOCK: nat := 0x4_0000

  const MIN_POOL: nat := 0x10_0000

  lemma ZeroedWord(m: Bytes, n: nat, w: nat)
    requires |m| == n && Zeroed(m, 0, n) && w + 8 <= n
    ensures Word(m, w) == 0
  {
    hide Word;
    ZeroWord(m, w);
  }

  lemma TableRound()
    ensures Round(TABLE + 8) == TABLE_BLOCK && NeedFor(0, TABLE) == TABLE_BLOCK
  {
    hide Round;
    assert Pow2(17) < TABLE + 8 <= Pow2(18) == TABLE_BLOCK by { Pow2Of18(); }
    LeastAbove(TABLE + 8, 17);
    RoundUpTo32Bits(TABLE + 8);
  }

  lemma Pow2Of18()
    ensures Pow2(18) == 0x4_0000 && Pow2(17) == 0x2_0000
  {
    assert Pow2(6) == 64;
    assert Pow2(12) == 4096;
  }

  lemma FullIs(p: Pool)
    requires Tiled(p.live, p.fs, |p.M|)
    ensures p.Full()
  {
    hide Tiled;
  }
}
