/** What the table operations rely on between their steps: strings and entries in
    blocks of their own, the redo log, what an allocation or a free leaves alone. */
module TableSteps {
  import opened Memory
  import opened FreeList
  import opened Links
  import opened Regions
  import opened Allocation
  import opened Pools
  import opened Marking
  import opened Tables

  const OP_HT_SET: nat := 1    // LMC_OP_HT_SET
  const MAX_STRING: nat := 0x3FFF_FFFF_FFFF_FFF0

  /** Used regions and the descriptor keep their bytes; regions may be added. */
  ghost predicate Preserves(m: Bytes, live: Live, m': Bytes, live': Live) {
    && |m'| == |m| && Agree(m, m', 8, DESC - 8)
    && forall a :: a in live ==> a in live' && live'[a] == live[a] && Agree(m, m', a, live[a])
  }

  /** The allocator only touches free bytes. */
  lemma KeptPreserves(m: Bytes, m': Bytes, fs: Chunks, live: Live, live': Live, n: nat)
    requires Kept(m, m', fs, 0, 0) && Separate(live, fs, |m|) && InPool(fs, |m|)
    requires forall a :: a in live ==> a in live' && live'[a] == live[a]
    ensures Preserves(m, live, m', live')
  {
    hide Covers;
    forall k | 0 <= k < DESC ensures !Covers(fs, k) { if Covers(fs, k) { var i := CoverIndex(fs, k); } }
    forall a | a in live
      ensures Agree(m, m', a, live[a])
    {
      OutsideUncovered(fs, a, live[a]);
    }
  }

  /** Used regions keep their bytes; regions may be added. */
  ghost predicate RegionsKept(m: Bytes, live: Live, m': Bytes, live': Live) {
    |m'| == |m| && forall a :: a in live ==> a in live' && live'[a] == live[a] && Agree(m, m', a, live[a])
  }

  lemma PreservesRegions(m: Bytes, live: Live, m': Bytes, live': Live)
    requires Preserves(m, live, m', live')
    ensures RegionsKept(m, live, m', live')
  {
  }

  lemma RegionsTrans(m0: Bytes, live0: Live, m1: Bytes, live1: Live, m2: Bytes)
    requires RegionsKept(m0, live0, m1, live1) && |m2| == |m1| && forall a :: a in live1 ==> Agree(m1, m2, a, live1[a])
    ensures RegionsKept(m0, live0, m2, live1)
  {
    forall a | a in live0
      ensures Agree(m0, m2, a, live0[a])
    {
      assert Agree(m0, m1, a, live0[a]) && Agree(m1, m2, a, live1[a]);
    }
  }

  lemma RegionsStay(m: Bytes, live: Live, m': Bytes, live': Live)
    requires RegionsKept(m, live, m', live')
    ensures forall a :: a in live ==> a in live'
  {
  }

  /** A string object in a live block of its own. */
  ghost predicate Holds(m: Bytes, live: Live, p: nat, s: Bytes) {
    && StrAt(m, p, s) && DESC + 8 <= p && p - 8 in live && |s| + 17 <= live[p - 8] && p - 8 + live[p - 8] <= |m|
    && Word(m, p - 8) == live[p - 8]
  }

  lemma HoldsPreserved(m: Bytes, live: Live, m': Bytes, live': Live, p: nat, s: Bytes)
    requires Holds(m, live, p, s) && Preserves(m, live, m', live')
    ensures Holds(m', live', p, s)
  {
    hide Word;
    AgreeWord(m, m', p - 8);
    StrKept(m, m', p, s, p - 8, live[p - 8]);
  }

  lemma HoldsKept(m: Bytes, live: Live, m': Bytes, live': Live, p: nat, s: Bytes)
    requires Holds(m, live, p, s) && RegionsKept(m, live, m', live')
    ensures Holds(m', live', p, s)
  {
    hide Word;
    AgreeWord(m, m', p - 8);
    StrKept(m, m', p, s, p - 8, live[p - 8]);
  }

  lemma DescriptorPreserved(m: Bytes, live: Live, m': Bytes, live': Live, w: nat)
    requires Preserves(m, live, m', live') && 8 <= w && w + 8 <= DESC <= |m|
    ensures Word(m', w) == Word(m, w)
  {
    hide Word;
    AgreeWord(m, m', w);
  }

  /** What one visit of a node reads. */
  lemma NodeReads(st: State, cmp: Matching, k: nat, head: nat, c: seq<Node>, i: nat)
    requires ChainOk(st, cmp, k, head, c) && i < |c|
    ensures var n := c[i];
      && n.va != 0 && n.va + ENTRY <= |st.m|
      && Word(st.m, n.va) == (if i + 1 < |c| then c[i + 1].va else 0)
      && Word(st.m, n.va + 8) == n.kp && Word(st.m, n.va + 16) == n.vp
      && StrAt(st.m, n.kp, n.key) && n.kp >= DESC + 8
      && (n.value.Some? ==> StrAt(st.m, n.vp, n.value.value) && n.vp >= DESC + 8)
      && (n.value.None? ==> n.vp == 0)
  {
    hide Word, StrAt;
    assert NodeOk(st, cmp, k, c[i]);
    if i + 1 < |c| { assert Word(st.m, c[i].va) == c[i + 1].va; }
  }

  /** `va` is the payload of a live block that was not live before. */
  ghost predicate NewBlock(m: Bytes, live: Live, live0: Live, va: nat, size: nat) {
    && DESC + 8 <= va && va - 8 !in live0 && va - 8 in live && live == live0[va - 8 := live[va - 8]]
    && size + 8 <= live[va - 8] && va - 8 + live[va - 8] <= |m| && Word(m, va - 8) == live[va - 8]
  }

  /** A log that redo will not act on. */
  ghost predicate Quiet(m: Bytes) {
    && DESC <= |m|
    && (Word(m, OP_ID) == 0 || (Word(m, OP_ID) == OP_HT_SET && (Word(m, LOG_P1) == 0 || Word(m, LOG_P2) == 0)))
  }

  /** A log from which redo can set `key` to `value`. */
  ghost predicate Pending(m: Bytes, live: Live, key: Bytes, value: Bytes) {
    && DESC <= |m| && Word(m, OP_ID) == OP_HT_SET
    && Holds(m, live, Word(m, LOG_P1), key) && Holds(m, live, Word(m, LOG_P2), value)
  }

  /** The two logged copies and the entry block of an insert under way. */
  ghost predicate Prepared(m: Bytes, live: Live, role: map<nat, Role>, key: Bytes, value: Bytes) {
    && Pending(m, live, key, value)
    && var kp, vp := Word(m, LOG_P1), Word(m, LOG_P2);
       kp != vp && kp - 8 !in role && vp - 8 !in role
  }

  /** An entry block under construction: live, stamped, no part of the table. */
  ghost predicate Building(st: State, va: nat, key: Bytes, value: Bytes) {
    && DESC <= |st.m| && DESC + 8 <= va && va - 8 in st.live && va - 8 !in st.role && ENTRY + 8 <= st.live[va - 8]
    && va - 8 + st.live[va - 8] <= |st.m| && Word(st.m, va - 8) == st.live[va - 8]
    && va != Word(st.m, LOG_P1) && va != Word(st.m, LOG_P2)
    && Prepared(st.m, st.live, st.role, key, value)
  }

  /** Every used region was used before or is one of `added`. */
  ghost predicate OnlyMore(live0: Live, live: Live, added: set<int>) {
    forall a :: a in live ==> a in live0 || a in added
  }

  lemma MoreOne(live0: Live, live: Live, a: nat)
    requires live.Keys <= live0.Keys + {a}
    ensures OnlyMore(live0, live, {a})
  {
  }

  lemma MoreTwo(live0: Live, live1: Live, live2: Live, v: int, k: int)
    requires OnlyMore(live0, live1, {v}) && OnlyMore(live1, live2, {k})
    ensures OnlyMore(live0, live2, {k, v})
  {
  }

  /** At most two more used regions. */
  ghost predicate AtMostTwoMore(live0: Live, live: Live) {
    exists l1 :: AtMostOneMore(live0, l1) && AtMostOneMore(l1, live)
  }

  /** Writing above the allocator's part of the descriptor leaves regions alone. */
  lemma DescriptorRegions(m: Bytes, m': Bytes, fs: Chunks, live: Live)
    requires Separate(live, fs, |m|) && |m'| == |m| && forall k :: DESC <= k < |m| ==> m'[k] == m[k]
    ensures forall a :: a in live ==> Agree(m, m', a, live[a])
  {
  }

  /** Descriptor words other than the head of the free list and the log are the same. */
  ghost predicate SameDescriptor(m: Bytes, m': Bytes) {
    |m'| == |m| && forall k :: 8 <= k < DESC && k < |m| && !(OP_ID <= k < MIN_ALLOC) ==> m'[k] == m[k]
  }

  lemma SameTransitive(m: Bytes, m1: Bytes, m2: Bytes)
    requires SameDescriptor(m, m1) && SameDescriptor(m1, m2)
    ensures SameDescriptor(m, m2)
  {
  }

  lemma SameSelf(m: Bytes)
    ensures SameDescriptor(m, m)
  {
  }

  lemma SameWord(m: Bytes, m': Bytes, w: nat)
    requires SameDescriptor(m, m') && DESC <= |m| && 8 <= w && (w + 8 <= OP_ID || w == MIN_ALLOC)
    ensures |m'| == |m| && Word(m', w) == Word(m, w)
  {
    hide Word;
    AgreeWord(m, m', w);
  }

  /** All of the descriptor but the head of the free list is the same: the log, too. */
  ghost predicate SameLog(m: Bytes, m': Bytes) {
    Agree(m, m', 8, DESC - 8)
  }

  lemma LogSelf(m: Bytes)
    ensures SameLog(m, m)
  {
  }

  lemma LogTrans(m: Bytes, m1: Bytes, m2: Bytes)
    requires SameLog(m, m1) && SameLog(m1, m2)
    ensures SameLog(m, m2)
  {
  }

  lemma LogDescriptor(m: Bytes, m': Bytes)
    requires SameLog(m, m')
    ensures |m'| == |m| && (DESC <= |m| ==> SameDescriptor(m, m'))
  {
  }

  lemma PreservesLog(m: Bytes, live: Live, m': Bytes, live': Live)
    requires Preserves(m, live, m', live')
    ensures SameLog(m, m')
  {
  }

  lemma PutLog(m: Bytes, a: nat, v: nat)
    requires DESC <= a && a + 8 <= |m| && v < LIMIT
    ensures SameLog(m, Put(m, a, v))
  {
    hide Word, Put;
  }

  lemma QuietSame(m: Bytes, m': Bytes)
    requires SameLog(m, m') && Quiet(m)
    ensures Quiet(m')
  {
    hide Word;
    AgreeWord(m, m', OP_ID);
    AgreeWord(m, m', LOG_P1);
    AgreeWord(m, m', LOG_P2);
  }

  /** What one allocation of `size` bytes did to the free list; `va` is its result. */
  ghost predicate Served(m: Bytes, fs: Chunks, size: nat, fs': Chunks, va: nat)
    requires DESC <= |m|
  {
    (va != 0 <==> Serves(fs, Need(m, size))) && fs' == Taken(fs, Need(m, size))
  }

  /** What two allocations in a row did; the second is tried if the first succeeds. */
  ghost predicate ServedTwo(m: Bytes, fs: Chunks, s1: nat, s2: nat, fs': Chunks, ok: bool)
    requires DESC <= |m|
  {
    var fs1 := Taken(fs, Need(m, s1));
    && (ok <==> Serves(fs, Need(m, s1)) && Serves(fs1, Need(m, s2)))
    && fs' == if Serves(fs, Need(m, s1)) then Taken(fs1, Need(m, s2)) else fs
  }

  lemma ServedSame(m: Bytes, m': Bytes, fs: Chunks, size: nat, fs': Chunks, va: nat)
    requires DESC <= |m| && DESC <= |m'| && SameDescriptor(m, m') && Served(m', fs, size, fs', va)
    ensures Served(m, fs, size, fs', va)
  {
    NeedSame(m, m', size);
  }

  lemma ServedValue(m: Bytes, fs: Chunks, s1: nat, s2: nat, fs1: Chunks, va: nat)
    requires DESC <= |m| && Served(m, fs, s1, fs1, va)
    ensures va == 0 ==> ServedTwo(m, fs, s1, s2, fs1, false)
  {
    hide Need;
    TakenNone(fs, Need(m, s1));
  }

  /** An allocation that fails leaves the list as it is. */
  lemma TakenNone(fs: Chunks, s: nat)
    ensures !Serves(fs, s) ==> Taken(fs, s) == fs
  {
  }

  lemma ServedBoth(m: Bytes, fs: Chunks, m1: Bytes, fs1: Chunks, s1: nat, s2: nat, fs2: Chunks, v: nat, k: nat)
    requires DESC <= |m| && DESC <= |m1| && SameDescriptor(m, m1)
    requires Served(m, fs, s1, fs1, v) && v != 0 && Served(m1, fs1, s2, fs2, k)
    ensures ServedTwo(m, fs, s1, s2, fs2, k != 0)
  {
    NeedSame(m, m1, s2);
  }

  /** An insert finds room exactly when all its blocks fit. */
  lemma ServedThree(m: Bytes, fs: Chunks, m2: Bytes, fs2: Chunks, key: Bytes, value: Bytes, ok: bool)
    requires DESC <= |m| && DESC <= |m2| && SameDescriptor(m, m2)
    requires ServedTwo(m, fs, |value| + 9, |key| + 9, fs2, ok)
    ensures Fits(fs, InsertNeeds(m, key, value)) <==> ok && Serves(fs2, Need(m2, ENTRY))
    ensures Tried(fs, InsertNeeds(m, key, value)) == if ok then Taken(fs2, Need(m2, ENTRY)) else fs2
  {
    hide Serves, Taken;
    NeedSame(m, m2, ENTRY);
    var ss := InsertNeeds(m, key, value);
    assert ss[1..] == [ss[1], ss[2]] && ss[1..][1..] == [ss[2]] && ss[1..][1..][1..] == [];
    var fs1 := Taken(fs, ss[0]);
    assert Fits(fs1, ss[1..]) <==> Serves(fs1, ss[1]) && Fits(Taken(fs1, ss[1]), ss[1..][1..]);
    assert Fits(Taken(fs1, ss[1]), ss[1..][1..]) <==> Serves(Taken(fs1, ss[1]), ss[2]);
    TakenNone(fs1, ss[1]);
    TakenNone(Taken(fs1, ss[1]), ss[2]);
    TriedThree(fs, ss);
  }

  lemma TriedThree(fs: Chunks, ss: seq<nat>)
    requires |ss| == 3
    ensures var fs1 := Taken(fs, ss[0]);
      Tried(fs, ss) == if !Serves(fs, ss[0]) then fs
        else if !Serves(fs1, ss[1]) then fs1 else Taken(Taken(fs1, ss[1]), ss[2])
  {
    hide Serves;
    var fs1 := Taken(fs, ss[0]);
    var fs2 := Taken(fs1, ss[1]);
    assert ss[1..] == [ss[1], ss[2]] && ss[1..][1..] == [ss[2]] && ss[1..][1..][1..] == [];
    assert Tried(fs1, ss[1..]) == if !Serves(fs1, ss[1]) then fs1 else Tried(fs2, ss[1..][1..]);
    assert Tried(fs2, [ss[2]]) == if !Serves(fs2, ss[2]) then fs2 else Tried(Taken(fs2, ss[2]), []);
    TakenNone(fs2, ss[2]);
  }

  lemma NeedSame(m: Bytes, m': Bytes, size: nat)
    requires DESC <= |m| && DESC <= |m'| && SameDescriptor(m, m')
    ensures Need(m', size) == Need(m, size)
  {
    hide Word;
    SameWord(m, m', VERSION);
    SameWord(m, m', MIN_ALLOC);
  }

  lemma DescriptorSame(m: Bytes, live: Live, m': Bytes, live': Live)
    requires Preserves(m, live, m', live') && DESC <= |m|
    ensures |m'| == |m| && SameDescriptor(m, m')
  {
  }

  /** The lists a process leaves that dies before both strings of an insert are logged. */
  ghost predicate DiedLogging(m: Bytes, fs: Chunks, key: Bytes, value: Bytes, fs': Chunks)
    requires DESC <= |m|
  {
    var fs1 := Taken(fs, Need(m, |value| + 9));
    fs' == fs1 || fs' == Taken(fs1, Need(m, |key| + 9))
  }

  lemma DiedAtValue(m: Bytes, m': Bytes, fs: Chunks, key: Bytes, value: Bytes, fs': Chunks)
    requires DESC <= |m| && DESC <= |m'| && SameDescriptor(m, m') && fs' == Taken(fs, Need(m', |value| + 9))
    ensures DiedLogging(m, fs, key, value, fs')
  {
    NeedSame(m, m', |value| + 9);
  }

  lemma DiedAtKey(m: Bytes, m': Bytes, fs: Chunks, key: Bytes, value: Bytes, fs1: Chunks, va: nat, fs': Chunks)
    requires DESC <= |m| && DESC <= |m'| && SameDescriptor(m, m') && fs' == Taken(fs1, Need(m', |key| + 9))
    requires Served(m, fs, |value| + 9, fs1, va)
    ensures DiedLogging(m, fs, key, value, fs')
  {
    hide Serves, Taken;
    NeedSame(m, m', |key| + 9);
  }

  /** The lists a process leaves that dies inserting: the log is complete exactly from the third allocation on. */
  ghost predicate DiedInserting(m: Bytes, fs: Chunks, key: Bytes, value: Bytes, fs': Chunks, quiet: bool)
    requires DESC <= |m|
  {
    if quiet then DiedLogging(m, fs, key, value, fs')
    else Fits(fs, InsertNeeds(m, key, value)) && fs' == Tried(fs, InsertNeeds(m, key, value))
  }

  /** The blocks an insert allocates, in order: the copies of value and key, and the entry. */
  ghost function InsertNeeds(m: Bytes, key: Bytes, value: Bytes): seq<nat>
    requires DESC <= |m|
  {
    [Need(m, |value| + 9), Need(m, |key| + 9), Need(m, ENTRY)]
  }

  /** At most one more used region. */
  ghost predicate AtMostOneMore(live0: Live, live: Live) {
    live == live0 || exists a :: a in live && a !in live0 && live == live0[a := live[a]]
  }

  lemma ShareAtLeast(size: nat, s: nat)
    requires s <= size
    ensures s <= Share(size, s) <= size
  {
  }

  lemma OneMore(live0: Live, a: nat, t: nat)
    requires a !in live0
    ensures AtMostOneMore(live0, live0[a := t])
  {
    var live := live0[a := t];
    assert a in live && live == live0[a := live[a]];
  }

  /** The size word counts `n` entries, up to wrap-around. */
  ghost predicate Counts(size: nat, n: nat) {
    size == n % LIMIT
  }

  /** The four stores that link a new entry whose key is already in place. */
  ghost predicate LinkStores(m0: Bytes, m1: Bytes, m2: Bytes, m3: Bytes, m4: Bytes, ht: nat, va: nat, k: nat, vp: nat,
      size: nat) {
    && |m0| < LIMIT && va + ENTRY <= |m0| && ht + TABLE <= |m0| && k < BUCKETS
    && vp < LIMIT && va < LIMIT && size < LIMIT
    && m1 == Put(m0, va, Head(m0, ht, k))
    && m2 == Put(m1, ht + 8 + 8 * k, va)
    && m3 == Put(m2, va + 16, vp)
    && m4 == Put(m3, ht, size)
  }

  lemma LinkWords(m0: Bytes, m1: Bytes, m2: Bytes, m3: Bytes, m4: Bytes, ht: nat, va: nat, k: nat, vp: nat, size: nat)
    requires LinkStores(m0, m1, m2, m3, m4, ht, va, k, vp, size)
    requires va + ENTRY <= ht || ht + TABLE <= va
    ensures |m4| == |m0|
    ensures Word(m4, va) == Head(m0, ht, k) && Word(m4, va + 8) == Word(m0, va + 8) && Word(m4, va + 16) == vp
    ensures Word(m4, ht) == size && Head(m4, ht, k) == va
    ensures forall j :: 0 <= j < BUCKETS && j != k ==> Head(m4, ht, j) == Head(m0, ht, j)
    ensures forall x :: 0 <= x < |m0| && !(va <= x < va + ENTRY) && !(ht <= x < ht + TABLE) ==> m4[x] == m0[x]
  {
    hide Word, Put;
    forall j | 0 <= j < BUCKETS && j != k
      ensures Head(m4, ht, j) == Head(m0, ht, j)
    {
      var b := ht + 8 + 8 * j;
      assert Word(m1, b) == Word(m0, b);
      assert Word(m2, b) == Word(m1, b);
      assert Word(m3, b) == Word(m2, b);
      assert Word(m4, b) == Word(m3, b);
    }
    assert Word(m2, va) == Word(m1, va) && Word(m3, va) == Word(m2, va) && Word(m4, va) == Word(m3, va);
    assert Word(m1, va + 8) == Word(m0, va + 8) && Word(m2, va + 8) == Word(m1, va + 8);
    assert Word(m3, va + 8) == Word(m2, va + 8) && Word(m4, va + 8) == Word(m3, va + 8);
    assert Word(m3, ht + 8 + 8 * k) == va;
  }

  lemma EmptyTable(m: Bytes, live: Live, cmp: Matching, va: nat)
    requires Sound(cmp) && DESC + 8 <= va && va + TABLE <= |m| && va - 8 in live
    requires TABLE + 8 <= live[va - 8] && va - 8 + live[va - 8] <= |m| && Word(m, va - 8) == live[va - 8]
    requires Zeroed(m, va, TABLE)
    ensures TableOk(State(m, live, map[va - 8 := TableBlock], map[]), cmp, va, seq(BUCKETS, _ => []))
    ensures Word(m, va) == 0
  {
    hide Word;
    var st := State(m, live, map[va - 8 := TableBlock], map[]);
    ZeroWord(m, va);
    forall k | 0 <= k < BUCKETS
      ensures ChainOk(st, cmp, k, Head(m, va, k), [])
    {
      ZeroWord(m, va + 8 + 8 * k);
    }
  }

  /** The pool after a crash inside freeing [a, a + n) from the separate chunks `fs0`. */
  ghost predicate TornAt(m: Bytes, live: Live, fs: Chunks, fs0: Chunks, a: nat, n: nat) {
    && Stores(m, fs) && ReleaseCrash(fs0, a, n, fs)
    && InPool(fs0, |m|) && Apart(fs0) && Outside(fs0, a, n) && DESC <= a && a + n <= |m| && n > 0
    && Separate(live, fs0, |m|) && forall b :: b in live ==> Disjoint(a, n, b, live[b])
  }

  /** If the pool was `whole`, every byte was free or in use before that free. */
  ghost predicate Torn(m: Bytes, live: Live, fs: Chunks, whole: bool) {
    exists fs0, a, n :: TornAt(m, live, fs, fs0, a, n) && (whole ==> WasWhole(live, fs0, a, n, |m|))
  }

  ghost predicate WasWhole(live: Live, fs0: Chunks, a: nat, n: nat, hi: nat) {
    a !in live && HEADER < n && Tiled(live[a := n], fs0, hi)
  }

  /** A live block with its size word in place. */
  ghost predicate Stamped(m: Bytes, live: Live, p: nat) {
    DESC + 8 <= p <= |m| && p - 8 in live && 8 <= live[p - 8] && Word(m, p - 8) == live[p - 8]
  }

  /** What the table guarantees about an entry whose value is to be replaced. */
  ghost predicate UpdateSite(st: State, n: Node) {
    && n.va + ENTRY <= |st.m| && n.va >= DESC + 8 && n.va - 8 in st.live && ENTRY + 8 <= st.live[n.va - 8]
    && Word(st.m, n.va + 16) == n.vp && (n.vp == 0 <==> n.value == None) && n.key in st.view
    && (n.vp != 0 ==> Stamped(st.m, st.live, n.vp) && n.vp - 8 in st.role && n.vp != n.va)
  }

  /** The blocks of a node that is no longer in the table. */
  ghost predicate Loose(st: State, n: Node) {
    && n.va + ENTRY <= |st.m| && Stamped(st.m, st.live, n.va) && n.va - 8 !in st.role
    && Stamped(st.m, st.live, n.kp) && n.kp - 8 !in st.role && n.kp != n.va
    && (n.vp == 0 <==> n.value == None)
    && (n.vp != 0 ==> Stamped(st.m, st.live, n.vp) && n.vp - 8 !in st.role && n.vp != n.va && n.vp != n.kp)
    && ENTRY + 8 <= st.live[n.va - 8] && Word(st.m, n.va + 8) == n.kp && Word(st.m, n.va + 16) == n.vp
  }

  /** Live blocks other than `x` keep their bytes, and all keep their size words. */
  ghost predicate Elsewhere(st: State, st': State, x: int) {
    && |st'.m| == |st.m|
    && (forall b :: b in st.live && b != x ==> Agree(st.m, st'.m, b, st.live[b]))
    && (forall b :: b in st.live && b + 8 <= |st.m| ==> Word(st'.m, b) == Word(st.m, b))
  }

  /** After such a crash the list is still in the pool; unless a chunk is counted
      twice it is apart and away from every live block. */
  lemma TornLeaksOnly(m: Bytes, live: Live, fs: Chunks, fs0: Chunks, a: nat, n: nat)
    requires TornAt(m, live, fs, fs0, a, n)
    ensures InPool(fs, |m|) && (Apart(fs) ==> Separate(live, fs, |m|))
  {
    hide InPool, Apart, Outside, ReleaseCrash, Covers, Stores, Separate;
    CrashInsideFree(fs0, a, n, fs, |m|);
    if Apart(fs) { TornSeparate(m, live, fs, fs0, a, n); }
  }

  lemma TornSeparate(m: Bytes, live: Live, fs: Chunks, fs0: Chunks, a: nat, n: nat)
    requires InPool(fs, |m|) && Separate(live, fs0, |m|) && forall b :: b in live ==> Disjoint(a, n, b, live[b])
    requires forall b :: Covers(fs, b) ==> Covers(fs0, b) || a <= b < a + n
    ensures Separate(live, fs, |m|)
  {
    hide Covers, InPool;
    forall b | b in live
      ensures Outside(fs, b, live[b])
    {
      OutsideUncovered(fs0, b, live[b]);
      UncoveredOutside(fs, b, live[b], |m|);
    }
  }

  /** Freeing one region keeps the bytes of the others. */
  lemma FreedKeeps(m: Bytes, m': Bytes, fs: Chunks, live: Live, a: nat)
    requires a in live && Separate(live, fs, |m|) && InPool(fs, |m|) && Kept(m, m', fs, a, live[a])
    ensures Preserves(m, live - {a}, m', live - {a})
  {
    hide Covers;
    forall k | 0 <= k < DESC ensures !Covers(fs, k) { if Covers(fs, k) { var i := CoverIndex(fs, k); } }
    forall b | b in live - {a}
      ensures Agree(m, m', b, live[b])
    {
      OutsideUncovered(fs, b, live[b]);
      assert Disjoint(a, live[a], b, live[b]);
    }
  }
}
