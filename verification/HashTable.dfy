/** The hash table operations on the shared pool: every pair lives in blocks the
    allocator handed out, and every operation goes through the allocator. */
module HashTables {
  import opened Memory
  import opened FreeList
  import opened Links
  import opened Regions
  import opened Allocation
  import opened Pools
  import opened Marking
  import opened Tables
  import opened TableSteps

  class HashTable {
    const pool: Pool
    const ht: nat
    const cmp: Matching
    ghost var chains: seq<seq<Node>>
    ghost var role: map<nat, Role>
    ghost var view: View
    ghost var stray: nat  // entries dropped by deleting a chain head, which `size` still counts

    ghost function St(): State
      reads this, pool
    {
      State(pool.M, pool.live, role, view)
    }

    /** The table is intact, whatever state the free list is in. */
    ghost predicate Stored()
      reads this, pool, pool.mem
    {
      && Sound(cmp) && pool.Sync() && TableOk(St(), cmp, ht, chains)
      && Counts(Word(pool.M, ht), |view| + stray)
    }

    /** And the chunks lie off all used regions. */
    ghost predicate Standing()
      reads this, pool, pool.mem
    {
      Stored() && pool.Laid()
    }

    /** And they are apart, touching or not. */
    ghost predicate Usable()
      reads this, pool, pool.mem
    {
      Standing() && Apart(pool.fs)
    }

    ghost predicate Valid()
      reads this, pool, pool.mem
    {
      Stored() && pool.Ok()
    }

    lemma ValidIs()
      ensures Valid() <==> Usable() && NoTouch(pool.fs)
      ensures Valid() <==> Standing() && Canonical(pool.fs, |pool.M|)
    {
      hide Stored, Stores, Separate, Apart, NoTouch;
    }

    /** A table over the zeroed block at `va`. */
    constructor (pool: Pool, va: nat, cmp: Matching)
      requires Sound(cmp) && pool.Ok() && DESC + 8 <= va && va + TABLE <= |pool.M| && va - 8 in pool.live
      requires TABLE + 8 <= pool.live[va - 8] && Word(pool.M, va - 8) == pool.live[va - 8]
      requires Zeroed(pool.M, va, TABLE)
      ensures this.pool == pool && this.ht == va && this.cmp == cmp
      ensures Valid() && view == map[] && stray == 0 && role == map[va - 8 := TableBlock]
      ensures |chains| == BUCKETS && forall k :: 0 <= k < BUCKETS ==> chains[k] == []
    {
      this.pool, this.ht, this.cmp := pool, va, cmp;
      chains, role, view, stray := seq(BUCKETS, _ => []), map[va - 8 := TableBlock], map[], 0;
      new;
      EmptyTable(pool.M, pool.live, cmp, va);
    }

    /** The allocator's state after a crash: intact, or caught inside a free. */
    ghost predicate CrashState(whole: bool)
      reads this, pool, pool.mem
    {
      (pool.Placed() && (whole ==> pool.Full())) || Torn(pool.M, pool.live, pool.fs, whole)
    }

    /** `lmc_string_len` and `lmc_string_data`. */
    method ReadString(p: nat, ghost s: Bytes) returns (r: Bytes)
      requires pool.Sync() && StrAt(pool.M, p, s)
      ensures r == s
    {
      hide Word;
      var l := pool.Load(p);
      r := pool.mem[p + 8..p + 8 + l];
      assert r == pool.mem[..][p + 8..p + 8 + l];
    }

    /** `ht_lookup`: the first entry of the key's bucket whose key matches, or 0. */
    method Lookup(key: Bytes) returns (hr: nat, ghost i: nat)
      requires Stored()
      ensures cmp.bucket(key) < BUCKETS == |chains|
      ensures hr == 0 ==> NoMatch(cmp, chains[cmp.bucket(key)], key)
      ensures hr != 0 ==> var c := chains[cmp.bucket(key)];
        i < |c| && c[i].va == hr && cmp.same(c[i].key, key)
    {
      hide Word, StrAt, ChainOk, Sound;
      SameSym(cmp, key, key);
      var k := cmp.bucket(key);
      ghost var st, c := St(), chains[k];
      TableAt(st, cmp, ht, chains, k);
      hr := pool.Load(ht + 8 + 8 * k);
      i := 0;
      HeadIs(st, cmp, k, hr, c);
      while hr != 0
        invariant i <= |c| && hr == (if i < |c| then c[i].va else 0) && (hr == 0 ==> i == |c|)
        invariant forall j :: 0 <= j < i ==> !cmp.same(c[j].key, key)
        decreases |c| - i
      {
        NodeReads(st, cmp, k, Head(st.m, ht, k), c, i);
        var stored := ReadString(pool.Load(hr + 8), c[i].key);
        if cmp.same(stored, key) { return; }
        hr := pool.Load(hr);
        i := i + 1;
        if i < |c| { NodeReads(st, cmp, k, Head(st.m, ht, k), c, i); }
      }
    }

    lemma HeadIs(st: State, cmp: Matching, k: nat, head: nat, c: seq<Node>)
      requires ChainOk(st, cmp, k, head, c)
      ensures head == (if |c| > 0 then c[0].va else 0) && (head == 0 ==> |c| == 0)
    {
    }

    /** `ht_get`: the value of the one matching key, none if there is none. */
    method Get(key: Bytes) returns (r: Option<Bytes>)
      requires Stored()
      ensures (forall k :: k in view ==> !cmp.same(k, key)) ==> r == None
      ensures forall k :: k in view && cmp.same(k, key) ==> r == view[k]
    {
      hide Word, StrAt, ChainOk, TableOk, NoMatch, Sound;
      var hr, i := Lookup(key);
      NoMatchInView(St(), cmp, ht, chains, key);
      if hr == 0 { return None; }
      FoundFacts(St(), key, i);
      ghost var n := chains[cmp.bucket(key)][i];
      var va := pool.Load(hr + 16);
      if va == 0 { return None; }
      var v := ReadString(va, n.value.value);
      return Some(v);
    }

    /** What a lookup that found node `i` of the key's bucket knows. */
    lemma FoundFacts(st: State, key: Bytes, i: nat)
      requires TableOk(st, cmp, ht, chains) && Sound(cmp)
      requires i < |chains[cmp.bucket(key)]| && cmp.same(chains[cmp.bucket(key)][i].key, key)
      ensures var n := chains[cmp.bucket(key)][i];
        && n.va + ENTRY <= |st.m| && Word(st.m, n.va + 16) == n.vp && Word(st.m, n.va + 8) == n.kp && n.kp != 0
        && n.key in st.view && st.view[n.key] == n.value
        && (forall k :: k in st.view && cmp.same(k, key) ==> k == n.key)
        && (n.vp == 0 <==> n.value == None) && (n.value.Some? ==> StrAt(st.m, n.vp, n.value.value))
    {
      hide Word, StrAt, ChainOk, TableOk, Sound;
      var k := cmp.bucket(key);
      SameSym(cmp, key, key);
      TableBounds(st, cmp, ht, chains);
      TableAt(st, cmp, ht, chains, k);
      ChainNode(st, cmp, k, Head(st.m, ht, k), chains[k], i);
      NodeReads(st, cmp, k, Head(st.m, ht, k), chains[k], i);
      OnlyMatch(st, chains[k][i].key, key);
    }

    lemma TableBounds(st: State, cmp: Matching, ht: nat, chains: seq<seq<Node>>)
      requires TableOk(st, cmp, ht, chains)
      ensures |chains| == BUCKETS && ht + TABLE <= |st.m| && DESC + 8 <= ht && Owns(st, ht, TableBlock, TABLE)
    {
    }

    /** A matching key in the map is the one found. */
    lemma OnlyMatch(st: State, found: Bytes, key: Bytes)
      requires TableOk(st, cmp, ht, chains) && Sound(cmp) && found in st.view && cmp.same(found, key)
      ensures forall k :: k in st.view && cmp.same(k, key) ==> k == found
    {
      hide TableOk, Sound;
      forall k | k in st.view && cmp.same(k, key)
        ensures k == found
      {
        SameSym(cmp, found, key);
        SameTrans(cmp, k, key, found);
        MatchUnique(st, cmp, ht, chains, k, found);
      }
    }

    /** `lmc_valloc` beside the table. */
    method Alloc(size: nat, te: bool) returns (va: nat, crashed: bool)
      requires Usable() && 0 < size <= MAX_SIZE
      modifies pool`M, pool`fs, pool`live, pool.mem
      ensures NoTouch(old(pool.fs)) ==> NoTouch(pool.fs)
      ensures Usable() && Preserves(old(pool.M), old(pool.live), pool.M, pool.live)
      ensures AtMostOneMore(old(pool.live), pool.live)
      ensures crashed ==> te
      ensures !crashed && va == 0 ==> pool.live == old(pool.live) && pool.M == old(pool.M) && pool.fs == old(pool.fs)
      ensures !crashed && va != 0 ==> NewBlock(pool.M, pool.live, old(pool.live), va, size)
      ensures SameDescriptor(old(pool.M), pool.M)
      ensures !crashed ==> Served(old(pool.M), old(pool.fs), size, pool.fs, va)
      ensures crashed ==> Serves(old(pool.fs), Need(old(pool.M), size))
      ensures crashed ==> pool.fs == Taken(old(pool.fs), Need(old(pool.M), size))
      ensures old(pool.Full()) ==> pool.Full()
    {
      hide Word, TableOk, Sound, Stores, Canonical, Separate, Tiled, Carve, Kept, Preserves, Outside, Counts, Need,
        AtMostOneMore, SameDescriptor, Apart, NoTouch, FirstFit;
      ghost var st, m0, fs0, live0 := St(), pool.M, pool.fs, pool.live;
      ghost var i := FirstFit(fs0, Need(m0, size));
      va, crashed := pool.Valloc(size, te);
      OneMoreSelf(live0);
      KeptLength(m0, pool.M, fs0);
      if i < |fs0| && size != 0 {
        ShareAtLeast(fs0[i].size, Need(m0, size));
        OneMore(live0, fs0[i].End() - Share(fs0[i].size, Need(m0, size)), Share(fs0[i].size, Need(m0, size)));
      }
      KeptPreserves(m0, pool.M, fs0, live0, pool.live, 0);
      DescriptorSame(m0, live0, pool.M, pool.live);
      PreservedTable(st, St());
    }

    /** The table does not notice changes that preserve the used regions. */
    lemma PreservedTable(st: State, st': State)
      requires TableOk(st, cmp, ht, chains) && Preserves(st.m, st.live, st'.m, st'.live)
      requires st'.role == st.role && st'.view == st.view
      ensures TableOk(st', cmp, ht, chains) && Word(st'.m, ht) == Word(st.m, ht)
    {
      hide Word, TableOk;
      TableFrame(st, st', cmp, ht, chains);
    }

    /** `lmc_ht_strdup`: a copy of `s` in a block of its own. */
    method Strdup(s: Bytes, te: bool) returns (va: nat, crashed: bool)
      requires Usable() && |s| <= MAX_STRING
      modifies pool`M, pool`fs, pool`live, pool.mem
      ensures NoTouch(old(pool.fs)) ==> NoTouch(pool.fs)
      ensures Usable() && Preserves(old(pool.M), old(pool.live), pool.M, pool.live)
      ensures AtMostOneMore(old(pool.live), pool.live)
      ensures crashed ==> te
      ensures !crashed && va == 0 ==> pool.live == old(pool.live) && pool.M == old(pool.M) && pool.fs == old(pool.fs)
      ensures !crashed && va != 0 ==>
        NewBlock(pool.M, pool.live, old(pool.live), va, |s| + 9) && Holds(pool.M, pool.live, va, s)
      ensures SameDescriptor(old(pool.M), pool.M)
      ensures !crashed ==> Served(old(pool.M), old(pool.fs), |s| + 9, pool.fs, va)
      ensures crashed ==> pool.fs == Taken(old(pool.fs), Need(old(pool.M), |s| + 9))
      ensures old(pool.Full()) ==> pool.Full()
    {
      hide Word, Put, Overwrite, TableOk, Sound, Stores, Canonical, Tiled, Separate, Preserves, AtMostOneMore, StrAt,
        Holds, SameDescriptor, Served;
      ghost var st0, m0, live0 := St(), pool.M, pool.live;
      va, crashed := Alloc(|s| + 9, te);
      if crashed || va == 0 { return; }
      ghost var m1, live1 := pool.M, pool.live;
      pool.Poke(va - 8, va, |s|);
      ghost var m2 := pool.M;
      pool.PokeBytes(va - 8, va + 8, s + [0]);
      BlockWritten(m0, live0, m1, live1, pool.fs, m2, pool.M, va, s);
      DescriptorSame(m0, live0, pool.M, pool.live);
      PreservedTable(st0, St());
    }

    /** Filling a new block with a string. */
    lemma BlockWritten(m0: Bytes, live0: Live, m1: Bytes, live1: Live, fs: Chunks, m2: Bytes, m3: Bytes, va: nat,
        s: Bytes)
      requires Preserves(m0, live0, m1, live1) && NewBlock(m1, live1, live0, va, |s| + 9)
      requires |m1| < LIMIT && m2 == Put(m1, va, |s|) && m3 == Overwrite(m2, va + 8, s + [0])
      requires Separate(live1, fs, |m1|)
      ensures Preserves(m0, live0, m3, live1) && Holds(m3, live1, va, s) && NewBlock(m3, live1, live0, va, |s| + 9)
    {
      hide Word, Put, Outside;
      var a := va - 8;
      assert forall k :: 0 <= k < |m1| && !(va <= k < a + live1[a]) ==> m3[k] == m1[k];
      AgreeWord(m1, m3, a);
      AgreeWord(m2, m3, va);
      assert m3[va + 8..va + 8 + |s|] == s by {
        assert m3[va + 8..va + 8 + |s + [0]|] == s + [0];
        assert m3[va + 8..va + 8 + |s|] == (s + [0])[..|s|];
      }
      forall b | b in live0
        ensures Agree(m0, m3, b, live0[b])
      {
        assert Agree(m0, m1, b, live0[b]) && Disjoint(a, live1[a], b, live1[b]);
      }
    }

    /** Writing a word of the log. */
    method PokeLog(w: nat, v: nat)
      requires Standing() && (w == OP_ID || w == LOG_P1 || w == LOG_P2) && v < LIMIT
      modifies pool`M, pool.mem
      ensures Standing() && pool.M == Put(old(pool.M), w, v)
      ensures forall a :: a in pool.live ==> Agree(old(pool.M), pool.M, a, pool.live[a])
      ensures SameDescriptor(old(pool.M), pool.M)
      ensures old(pool.Full()) ==> pool.Full()
    {
      hide Word, Put, TableOk, Sound, Stores, Canonical, Tiled;
      ghost var st := St();
      pool.PokeDescriptor(w, v);
      DescriptorRegions(st.m, pool.M, pool.fs, pool.live);
      RegionsTable(st, St());
    }

    lemma RegionsTable(st: State, st': State)
      requires TableOk(st, cmp, ht, chains) && |st'.m| == |st.m|
      requires st'.live == st.live && st'.role == st.role && st'.view == st.view
      requires forall a :: a in st.live && a in st.role ==> Agree(st.m, st'.m, a, st.live[a])
      ensures TableOk(st', cmp, ht, chains) && Word(st'.m, ht) == Word(st.m, ht)
    {
      hide Word, TableOk, Agree;
      TableFrame(st, st', cmp, ht, chains);
    }

    /** `lmc_log_op`. */
    method LogOp(op: nat)
      requires Standing() && op < LIMIT
      modifies pool`M, pool.mem
      ensures Standing() && |pool.M| == |old(pool.M)|
      ensures forall a :: a in pool.live ==> Agree(old(pool.M), pool.M, a, pool.live[a])
      ensures Word(pool.M, OP_ID) == op && Word(pool.M, LOG_P1) == 0 && Word(pool.M, LOG_P2) == 0
      ensures SameDescriptor(old(pool.M), pool.M)
      ensures old(pool.Full()) ==> pool.Full()
    {
      hide Word, Put, TableOk, Sound, Standing, Agree, Pool.Full, SameDescriptor;
      assert pool.Laid() by { StandingOk(); }
      ghost var m0 := pool.M;
      PokeLog(OP_ID, op);
      ghost var m1 := pool.M;
      PokeLog(LOG_P1, 0);
      ghost var m2 := pool.M;
      PokeLog(LOG_P2, 0);
      SameTransitive(m0, m1, m2);
      SameTransitive(m0, m2, pool.M);
      forall a | a in pool.live ensures Agree(m0, pool.M, a, pool.live[a]) {
        AgreeTrans(m0, m1, m2, a, pool.live[a]);
        AgreeTrans(m0, m2, pool.M, a, pool.live[a]);
      }
    }

    lemma AgreeTrans(m0: Bytes, m1: Bytes, m2: Bytes, a: nat, n: nat)
      requires Agree(m0, m1, a, n) && Agree(m1, m2, a, n)
      ensures Agree(m0, m2, a, n)
    {
    }

    lemma StandingOk()
      requires Standing()
      ensures pool.Laid() && pool.Sync() && Stored() && DESC <= |pool.M| < LIMIT && InPool(pool.fs, |pool.M|)
    {
    }

    /** One logged copy: `s` duplicated, and its pointer stored in the log word `w`. */
    method LogCopy(w: nat, s: Bytes, te: bool) returns (va: nat, crashed: bool)
      requires Usable() && |s| <= MAX_STRING && (w == LOG_P1 || w == LOG_P2)
      modifies pool`M, pool`fs, pool`live, pool.mem
      ensures NoTouch(old(pool.fs)) ==> NoTouch(pool.fs)
      ensures Usable() && (crashed ==> te)
      ensures RegionsKept(old(pool.M), old(pool.live), pool.M, pool.live) && AtMostOneMore(old(pool.live), pool.live)
      ensures Word(pool.M, OP_ID) == Word(old(pool.M), OP_ID)
      ensures Word(pool.M, LOG_P1) == if w == LOG_P1 && !crashed then va else Word(old(pool.M), LOG_P1)
      ensures Word(pool.M, LOG_P2) == if w == LOG_P2 && !crashed then va else Word(old(pool.M), LOG_P2)
      ensures !crashed && va == 0 ==> pool.live == old(pool.live)
      ensures !crashed && va != 0 ==>
        va >= DESC + 8 && va - 8 !in old(pool.live) && va - 8 in pool.live && Holds(pool.M, pool.live, va, s)
      ensures !crashed && va != 0 ==> OnlyMore(old(pool.live), pool.live, {va - 8})
      ensures SameDescriptor(old(pool.M), pool.M)
      ensures !crashed ==> Served(old(pool.M), old(pool.fs), |s| + 9, pool.fs, va)
      ensures crashed ==> pool.fs == Taken(old(pool.fs), Need(old(pool.M), |s| + 9))
      ensures old(pool.Full()) ==> pool.Full()
    {
      hide Word, Put, TableOk, Sound, Stores, Canonical, Tiled, Separate, Preserves, Holds, Agree, AtMostOneMore,
        Counts, Pool.Full, SameDescriptor, Served;
      ghost var m0, live0 := pool.M, pool.live;
      va, crashed := Strdup(s, te);
      ghost var m1, live1 := pool.M, pool.live;
      LogPreserved(m0, live0, m1, live1);
      PreservesRegions(m0, live0, m1, live1);
      if crashed { return; }
      PokeLog(w, va);
      SameTransitive(m0, m1, pool.M);
      RegionsTrans(m0, live0, m1, live1, pool.M);
      if va != 0 {
        HoldsRegions(m1, pool.M, live1, va, s);
        HoldsLive(m1, live1, va, s);
      }
    }

    /** The two copies an insert logs before it allocates the entry; `ok` when both were made. */
    method LogStrings(key: Bytes, value: Bytes, te: bool) returns (ok: bool, crashed: bool)
      requires Usable() && |key| <= MAX_STRING && |value| <= MAX_STRING
      modifies pool`M, pool`fs, pool`live, pool.mem
      ensures NoTouch(old(pool.fs)) ==> NoTouch(pool.fs)
      ensures Usable() && (crashed ==> te && !ok)
      ensures AtMostTwoMore(old(pool.live), pool.live)
      ensures !ok ==> AtMostOneMore(old(pool.live), pool.live) || crashed
      ensures !ok ==> Quiet(pool.M)
      ensures ok ==> Prepared(pool.M, pool.live, role, key, value)
      ensures ok ==> OnlyMore(old(pool.live), pool.live, {Word(pool.M, LOG_P1) - 8, Word(pool.M, LOG_P2) - 8})
      ensures SameDescriptor(old(pool.M), pool.M)
      ensures !crashed ==> ServedTwo(old(pool.M), old(pool.fs), |value| + 9, |key| + 9, pool.fs, ok)
      ensures crashed ==> DiedLogging(old(pool.M), old(pool.fs), key, value, pool.fs)
      ensures old(pool.Full()) ==> pool.Full()
    {
      hide Word, Put, TableOk, Sound, Stores, Canonical, Tiled, Separate, RegionsKept, Holds, Agree, AtMostOneMore,
        AtMostTwoMore, Counts, Pool.Full, SameDescriptor, Served, ServedTwo, OnlyMore, DiedLogging, Taken, Need;
      ok, crashed := false, false;
      ghost var m0, fs0, live0 := pool.M, pool.fs, pool.live;
      OneMoreSelf(live0);
      RolesLive(St());
      LogOp(OP_HT_SET);
      ghost var mL := pool.M;
      var v: nat;
      v, crashed := LogCopy(LOG_P2, value, te);
      ghost var live1, m1, fs1 := pool.live, pool.M, pool.fs;
      TwoMore(live0, live1, live1);
      SameTransitive(m0, mL, m1);
      if crashed {
        DiedAtValue(m0, mL, fs0, key, value, fs1);
        return;
      }
      ServedSame(m0, mL, fs0, |value| + 9, fs1, v);
      ServedValue(m0, fs0, |value| + 9, |key| + 9, fs1, v);
      if v == 0 { return; }
      var k: nat;
      k, crashed := LogCopy(LOG_P1, key, te);
      TwoMore(live0, live1, pool.live);
      SameTransitive(m0, m1, pool.M);
      if crashed {
        DiedAtKey(m0, m1, fs0, key, value, fs1, v, pool.fs);
        return;
      }
      ServedBoth(m0, fs0, m1, fs1, |value| + 9, |key| + 9, pool.fs, v, k);
      if k == 0 { return; }
      HoldsKept(m1, live1, pool.M, pool.live, v, value);
      RegionsStay(mL, live0, m1, live1);
      MoreTwo(live0, live1, pool.live, v - 8, k - 8);
      HoldsLive(pool.M, pool.live, k, key);
      ok := true;
    }

    lemma HoldsLive(m: Bytes, live: Live, p: nat, s: Bytes)
      requires Holds(m, live, p, s)
      ensures p - 8 in live && p >= DESC + 8
    {
    }

    lemma OneMoreSelf(live: Live)
      ensures AtMostOneMore(live, live)
    {
    }

    lemma TwoMore(live0: Live, live1: Live, live2: Live)
      requires AtMostOneMore(live0, live1) && (live2 == live1 || AtMostOneMore(live1, live2))
      ensures AtMostTwoMore(live0, live2)
    {
      assert AtMostOneMore(live1, live2);
    }

    lemma RolesLive(st: State)
      requires TableOk(st, cmp, ht, chains)
      ensures forall a :: a in st.role ==> a in st.live
    {
    }

    lemma LogPreserved(m: Bytes, live: Live, m': Bytes, live': Live)
      requires Preserves(m, live, m', live') && DESC <= |m|
      ensures |m'| == |m| && Word(m', OP_ID) == Word(m, OP_ID)
      ensures Word(m', LOG_P1) == Word(m, LOG_P1) && Word(m', LOG_P2) == Word(m, LOG_P2)
    {
      DescriptorPreserved(m, live, m', live', OP_ID);
      DescriptorPreserved(m, live, m', live', LOG_P1);
      DescriptorPreserved(m, live, m', live', LOG_P2);
    }

    lemma HoldsRegions(m: Bytes, m': Bytes, live: Live, p: nat, s: Bytes)
      requires Holds(m, live, p, s) && |m'| == |m| && forall a :: a in live ==> Agree(m, m', a, live[a])
      ensures Holds(m', live, p, s)
    {
      hide Word;
      AgreeWord(m, m', p - 8);
      StrKept(m, m', p, s, p - 8, live[p - 8]);
    }

    /** Everything but the table and the new entry keeps its bytes. */
    lemma LinkKeeps(m0: Bytes, m4: Bytes, live: Live, fs: Chunks, va: nat)
      requires Separate(live, fs, |m0|) && |m4| == |m0| && ht >= 8 && va >= 8
      requires ht - 8 in live && va - 8 in live && TABLE + 8 <= live[ht - 8] && ENTRY + 8 <= live[va - 8] && ht != va
      requires forall x :: 0 <= x < |m0| && !(va <= x < va + ENTRY) && !(ht <= x < ht + TABLE) ==> m4[x] == m0[x]
      ensures forall a :: a in live && a != va - 8 && a != ht - 8 ==> Agree(m0, m4, a, live[a])
      ensures Word(m4, va - 8) == Word(m0, va - 8) && Word(m4, ht - 8) == Word(m0, ht - 8)
      ensures forall x :: 8 <= x < DESC ==> m4[x] == m0[x]
    {
      hide Word, Outside;
      assert Disjoint(ht - 8, live[ht - 8], va - 8, live[va - 8]);
      AgreeWord(m0, m4, va - 8);
      AgreeWord(m0, m4, ht - 8);
      forall a | a in live && a != va - 8 && a != ht - 8
        ensures Agree(m0, m4, a, live[a])
      {
        assert Disjoint(a, live[a], va - 8, live[va - 8]) && Disjoint(a, live[a], ht - 8, live[ht - 8]);
      }
    }

    /** Node `n`, built in fresh blocks of state `st`, was linked and `st'` is the result. */
    ghost predicate LinkedNode(st: State, st': State, n: Node, k: nat) {
      && k < BUCKETS && 8 <= ht && ht + TABLE <= |st.m| && k == cmp.bucket(n.key)
      && st'.live == st.live && |st'.m| == |st.m| && n.value.Some?
      && st'.view == st.view[n.key := n.value]
      && n.va >= DESC + 8 && n.va - 8 in st.live && ENTRY + 8 <= st.live[n.va - 8]
      && n.va - 8 + st.live[n.va - 8] <= |st.m| && Word(st.m, n.va - 8) == st.live[n.va - 8]
      && Holds(st.m, st.live, n.kp, n.key) && Holds(st.m, st.live, n.vp, n.value.value)
      && n.va != n.kp && n.va != n.vp && n.kp != n.vp
      && n.va - 8 !in st.role && n.kp - 8 !in st.role && n.vp - 8 !in st.role
      && st'.role == st.role[n.va - 8 := EntryBlock(n.key)][n.kp - 8 := KeyBlock(n.key)][n.vp - 8 := ValueBlock(n.key)]
      && Word(st'.m, n.va) == Head(st.m, ht, k) && Head(st'.m, ht, k) == n.va
      && Word(st'.m, n.va + 8) == n.kp && Word(st'.m, n.va + 16) == n.vp
      && (forall j :: 0 <= j < BUCKETS && j != k ==> Head(st'.m, ht, j) == Head(st.m, ht, j))
      && (forall a :: a in st.live && a != n.va - 8 && a != ht - 8 ==> Agree(st.m, st'.m, a, st.live[a]))
      && Word(st'.m, n.va - 8) == Word(st.m, n.va - 8) && Word(st'.m, ht - 8) == Word(st.m, ht - 8)
    }

    /** The linked entry makes a table with one more key. */
    lemma LinkTable(st: State, st': State, n: Node, k: nat)
      requires TableOk(st, cmp, ht, chains) && Sound(cmp) && |chains| == BUCKETS && LinkedNode(st, st', n, k)
      requires NoMatch(cmp, chains[k], n.key)
      ensures n.key !in st.view
      ensures TableOk(st', cmp, ht, chains[k := [n] + chains[k]])
    {
      hide Word, StrAt, TableOk, Sound, NoMatch, Agree, NodeOk;
      TableBounds(st, cmp, ht, chains);
      TableRoles(st);
      LinkNode(st, st', k, n);
      LinkRoles(st, st', k, n);
      NodeVa(n, st, st', k);
      InsertChain(st, st', cmp, ht, chains, n);
    }

    lemma NodeVa(n: Node, st: State, st': State, k: nat)
      requires LinkedNode(st, st', n, k)
      ensures n.va != 0 && k < BUCKETS && k == cmp.bucket(n.key) && ht + TABLE <= |st'.m|
    {
    }

    lemma TableRoles(st: State)
      requires TableOk(st, cmp, ht, chains)
      ensures RolesShown(st) && ht - 8 in st.role
    {
    }

    lemma LinkNode(st: State, st': State, k: nat, n: Node)
      requires LinkedNode(st, st', n, k) && ht - 8 in st.role
      ensures NodeOk(st', cmp, k, n)
    {
      hide Word, Agree;
      StrKept(st.m, st'.m, n.kp, n.key, n.kp - 8, st.live[n.kp - 8]);
      StrKept(st.m, st'.m, n.vp, n.value.value, n.vp - 8, st.live[n.vp - 8]);
      AgreeHead(st.m, st'.m, n.kp - 8, st.live[n.kp - 8]);
      AgreeHead(st.m, st'.m, n.vp - 8, st.live[n.vp - 8]);
    }

    lemma LinkRoles(st: State, st': State, k: nat, n: Node)
      requires LinkedNode(st, st', n, k) && RolesShown(st) && Owns(st, ht, TableBlock, TABLE)
      ensures EntriesKept(st, st') && RolesShown(st') && Owns(st', ht, TableBlock, TABLE)
    {
      hide Word, Agree, StrAt;
      forall a | a in st.role && RoleKey(st.role[a]).Some?
        ensures RegionKept(st, st', a + 8)
      {
        assert a != ht - 8;
      }
    }

    lemma AgreeHead(m: Bytes, m': Bytes, a: nat, n: nat)
      requires Agree(m, m', a, n) && n >= 8 && a + n <= |m|
      ensures Word(m', a) == Word(m, a)
    {
      hide Word;
      AgreeWord(m, m', a);
    }

    /** No key of the map matches `key`. */
    ghost predicate Absent(key: Bytes)
      reads this
    {
      forall k :: k in view ==> !cmp.same(k, key)
    }

    /** Writing inside the block under construction. */
    method PokeEntry(va: nat, a: nat, v: nat, ghost key: Bytes, ghost value: Bytes)
      requires Standing() && Building(St(), va, key, value)
      requires va <= a && a + 8 <= va + ENTRY && v < LIMIT
      modifies pool`M, pool.mem
      ensures Standing() && Building(St(), va, key, value)
      ensures pool.M == Put(old(pool.M), a, v) && SameDescriptor(old(pool.M), pool.M)
    {
      hide Word, Put, TableOk, Sound, Stores, Canonical, Separate, Counts, Prepared;
      ghost var st := St();
      pool.Poke(va - 8, a, v);
      EntryPoked(st, St(), pool.fs, va, a, v, key, value);
    }

    lemma EntryPoked(st: State, st': State, fs: Chunks, va: nat, a: nat, v: nat, key: Bytes, value: Bytes)
      requires TableOk(st, cmp, ht, chains) && Building(st, va, key, value) && Separate(st.live, fs, |st.m|)
      requires va <= a && a + 8 <= va + ENTRY && v < LIMIT && |st.m| < LIMIT
      requires st' == st.(m := Put(st.m, a, v))
      ensures TableOk(st', cmp, ht, chains) && Word(st'.m, ht) == Word(st.m, ht) && Building(st', va, key, value)
    {
      hide Word, Put, TableOk, StrAt, Outside, Separate;
      AgreeWord(st.m, st'.m, va - 8);
      PokedElsewhere(st.m, st'.m, fs, st.live, va - 8);
      RolesLive(st);
      RegionsTable(st, st');
      AgreeWord(st.m, st'.m, OP_ID);
      AgreeWord(st.m, st'.m, LOG_P1);
      AgreeWord(st.m, st'.m, LOG_P2);
      HoldsOther(st.m, st'.m, st.live, va - 8, Word(st.m, LOG_P1), key);
      HoldsOther(st.m, st'.m, st.live, va - 8, Word(st.m, LOG_P2), value);
    }

    lemma PokedElsewhere(m: Bytes, m': Bytes, fs: Chunks, live: Live, a: nat)
      requires Separate(live, fs, |m|) && a in live && |m'| == |m|
      requires forall k :: 0 <= k < |m| && !(a + 8 <= k < a + live[a]) ==> m'[k] == m[k]
      ensures forall b :: b in live && b != a ==> Agree(m, m', b, live[b])
    {
      hide Outside;
      forall b | b in live && b != a
        ensures Agree(m, m', b, live[b])
      {
        assert Disjoint(a, live[a], b, live[b]);
      }
    }

    lemma HoldsOther(m: Bytes, m': Bytes, live: Live, a: nat, p: nat, s: Bytes)
      requires Holds(m, live, p, s) && |m'| == |m| && p != a + 8
      requires forall b :: b in live && b != a ==> Agree(m, m', b, live[b])
      ensures Holds(m', live, p, s)
    {
      hide Word;
      AgreeWord(m, m', p - 8);
      StrKept(m, m', p, s, p - 8, live[p - 8]);
    }

    lemma PoolTable(st: State)
      requires TableOk(st, cmp, ht, chains)
      ensures ht + TABLE <= |st.m| && DESC + 8 <= ht && ht - 8 in st.live && ht - 8 in st.role
      ensures TABLE + 8 <= st.live[ht - 8] && |chains| == BUCKETS
    {
    }

    lemma PreparedPreserved(m: Bytes, live: Live, m': Bytes, live': Live, role: map<nat, Role>, key: Bytes,
        value: Bytes)
      requires Prepared(m, live, role, key, value) && Preserves(m, live, m', live')
      ensures Prepared(m', live', role, key, value)
    {
      LogPreserved(m, live, m', live');
      HoldsPreserved(m, live, m', live', Word(m, LOG_P1), key);
      HoldsPreserved(m, live, m', live', Word(m, LOG_P2), value);
    }

    /** The four stores of a link. */
    method StoreLink(va: nat, k: nat) returns (ghost m1: Bytes, ghost m2: Bytes, ghost m3: Bytes)
      requires pool.Laid() && k < BUCKETS && 8 <= ht && ht + TABLE <= |pool.M| && 8 <= va && va + ENTRY <= |pool.M|
      requires ht - 8 in pool.live && TABLE + 8 <= pool.live[ht - 8]
      requires va - 8 in pool.live && ENTRY + 8 <= pool.live[va - 8]
      modifies pool`M, pool.mem
      ensures pool.Laid()
      ensures LinkStores(old(pool.M), m1, m2, m3, pool.M, ht, va, k,
        Word(old(pool.M), LOG_P2), (Word(old(pool.M), ht) + 1) % LIMIT)
    {
      hide Word, Put, Stores, Canonical, Separate;
      var size, vp, head := pool.Load(ht), pool.Load(LOG_P2), pool.Load(ht + 8 + 8 * k);
      pool.Poke(va - 8, va, head);
      m1 := pool.M;
      pool.Poke(ht - 8, ht + 8 + 8 * k, va);
      m2 := pool.M;
      pool.Poke(va - 8, va + 16, vp);
      m3 := pool.M;
      pool.Poke(ht - 8, ht, (size + 1) % LIMIT);
    }

    /** Linking the entry at `va`, whose key is in place, at the head of its bucket. */
    method Link(va: nat, ghost key: Bytes, ghost value: Bytes, k: nat)
      requires Standing() && Building(St(), va, key, value) && Absent(key) && k == cmp.bucket(key)
      requires Word(pool.M, va + 8) == Word(pool.M, LOG_P1)
      modifies this`chains, this`role, this`view, pool`M, pool.mem
      ensures Standing() && view == old(view)[key := Some(value)] && key !in old(view)
      ensures SameDescriptor(old(pool.M), pool.M) && k < |old(chains)| && va >= 8
      ensures var n := Node(va, Word(old(pool.M), LOG_P1), Word(old(pool.M), LOG_P2), key, Some(value));
        chains == old(chains)[k := [n] + old(chains)[k]]
    {
      hide Word, Put, TableOk, Sound, Stores, Canonical, Separate, Counts, Prepared, Absent, Holds, LinkStores,
        SameDescriptor;
      ghost var st := St();
      PoolTable(st);
      SameSym(cmp, key, key);
      PreparedReads(st, key, value);
      ghost var n := Node(va, Word(st.m, LOG_P1), Word(st.m, LOG_P2), key, Some(value));
      ghost var m1, m2, m3 := StoreLink(va, k);
      ghost var st' := NewState(st, n, pool.M);
      LinkEnd(st, st', m1, m2, m3, pool.fs, n, k);
      CountsMore(Word(st.m, ht), |view| + stray);
      chains, role, view := chains[k := [n] + chains[k]], st'.role, st'.view;
    }

    ghost function NewState(st: State, n: Node, m: Bytes): State
      requires n.va >= 8 && n.kp >= 8 && n.vp >= 8
    {
      State(m, st.live,
        st.role[n.va - 8 := EntryBlock(n.key)][n.kp - 8 := KeyBlock(n.key)][n.vp - 8 := ValueBlock(n.key)],
        st.view[n.key := n.value])
    }

    lemma PreparedReads(st: State, key: Bytes, value: Bytes)
      requires Prepared(st.m, st.live, st.role, key, value)
      ensures DESC <= |st.m|
      ensures var kp, vp := Word(st.m, LOG_P1), Word(st.m, LOG_P2);
        && kp >= DESC + 8 && vp >= DESC + 8 && kp != vp && kp - 8 !in st.role && vp - 8 !in st.role
        && kp - 8 in st.live && vp - 8 in st.live
        && Holds(st.m, st.live, kp, key) && Holds(st.m, st.live, vp, value)
    {
    }

    lemma CountsMore(size: nat, n: nat)
      requires Counts(size, n)
      ensures Counts((size + 1) % LIMIT, n + 1)
    {
    }

    /** Node `n` has just been stored by the four stores. */
    ghost predicate JustLinked(st: State, st': State, m1: Bytes, m2: Bytes, m3: Bytes, fs: Chunks, n: Node, k: nat) {
      && DESC <= |st.m| && 8 <= ht && ht + TABLE <= |st.m| && n.va + ENTRY <= |st.m|
      && k < BUCKETS && k == cmp.bucket(n.key)
      && n.va >= 8 && n.kp >= 8 && n.vp >= 8 && n.value.Some? && st' == NewState(st, n, st'.m)
      && Building(st, n.va, n.key, n.value.value) && Separate(st.live, fs, |st.m|)
      && n.kp == Word(st.m, LOG_P1) && n.vp == Word(st.m, LOG_P2) && Word(st.m, n.va + 8) == n.kp
      && LinkStores(st.m, m1, m2, m3, st'.m, ht, n.va, k, n.vp, (Word(st.m, ht) + 1) % LIMIT)
    }

    /** What the four stores have made of the table. */
    lemma LinkEnd(st: State, st': State, m1: Bytes, m2: Bytes, m3: Bytes, fs: Chunks, n: Node, k: nat)
      requires |chains| == BUCKETS && TableOk(st, cmp, ht, chains) && Sound(cmp) && st.view == view && Absent(n.key)
      requires JustLinked(st, st', m1, m2, m3, fs, n, k)
      ensures n.key !in st.view && |st'.m| == |st.m| && Word(st'.m, ht) == (Word(st.m, ht) + 1) % LIMIT
      ensures TableOk(st', cmp, ht, chains[k := [n] + chains[k]]) && SameDescriptor(st.m, st'.m)
    {
      hide Word, Put, TableOk, Sound, Separate, Holds, NoMatch, LinkStores, Prepared;
      PoolTable(st);
      PreparedReads(st, n.key, n.value.value);
      LinkStoresBounds(st.m, m1, m2, m3, st'.m, ht, n.va, k, n.vp, (Word(st.m, ht) + 1) % LIMIT);
      TableApart(st, fs, n.va);
      LinkWords(st.m, m1, m2, m3, st'.m, ht, n.va, k, n.vp, (Word(st.m, ht) + 1) % LIMIT);
      LinkKeeps(st.m, st'.m, st.live, fs, n.va);
      NoMatchInView(st, cmp, ht, chains, n.key);
      LinkTable(st, st', n, k);
    }

    lemma LinkStoresBounds(m0: Bytes, m1: Bytes, m2: Bytes, m3: Bytes, m4: Bytes, ht: nat, va: nat, k: nat, vp: nat,
        size: nat)
      requires LinkStores(m0, m1, m2, m3, m4, ht, va, k, vp, size)
      ensures |m4| == |m0| && k < BUCKETS
    {
    }

    lemma TableApart(st: State, fs: Chunks, va: nat)
      requires TableOk(st, cmp, ht, chains) && Separate(st.live, fs, |st.m|)
      requires va >= 8 && va - 8 in st.live && ENTRY + 8 <= st.live[va - 8] && va - 8 !in st.role
      ensures va != ht && (va + ENTRY <= ht || ht + TABLE <= va)
    {
      hide Word, ChainOk, Outside;
      assert Disjoint(va - 8, st.live[va - 8], ht - 8, st.live[ht - 8]);
    }

    /** A node with these pointers and a value now heads chain `k`. */
    ghost predicate NewHead(chains0: seq<seq<Node>>, chains: seq<seq<Node>>, k: nat, kp: nat, vp: nat, key: Bytes) {
      && k < |chains0| && |chains| == |chains0| && |chains[k]| > 0
      && chains == chains0[k := [chains[k][0]] + chains0[k]]
      && chains[k][0].value.Some? && chains[k][0].kp == kp && chains[k][0].vp == vp && chains[k][0].key == key
    }

    /** A node now heads chain `k`, and the blocks added are its own. */
    ghost predicate Inserted(live0: Live, live: Live, chains0: seq<seq<Node>>, chains: seq<seq<Node>>, key: Bytes)
      reads this
    {
      && cmp.bucket(key) < |chains0| && |chains| == |chains0| && |chains[cmp.bucket(key)]| > 0
      && var n := chains[cmp.bucket(key)][0];
         && chains == chains0[cmp.bucket(key) := [n] + chains0[cmp.bucket(key)]] && n.value.Some? && n.key == key
         && OnlyMore(live0, live, {n.va - 8, n.kp - 8, n.vp - 8})
    }

    lemma InsertedIs(live0: Live, live1: Live, live: Live, chains0: seq<seq<Node>>, chains: seq<seq<Node>>,
        key: Bytes, kp: nat, vp: nat)
      requires NewHead(chains0, chains, cmp.bucket(key), kp, vp, key)
      requires OnlyMore(live0, live1, {kp - 8, vp - 8}) && OnlyMore(live1, live, {chains[cmp.bucket(key)][0].va - 8})
      ensures Inserted(live0, live, chains0, chains, key)
    {
    }

    lemma NewHeadIs(chains0: seq<seq<Node>>, chains: seq<seq<Node>>, k: nat, n: Node)
      requires k < |chains0| && chains == chains0[k := [n] + chains0[k]] && n.value.Some?
      ensures NewHead(chains0, chains, k, n.kp, n.vp, n.key) && chains[k][0] == n
    {
    }

    /** Filling the new entry and linking it; it may crash before the link. */
    method LinkEntry(va: nat, ghost key: Bytes, ghost value: Bytes, k: nat, te: bool) returns (crashed: bool)
      requires Standing() && Building(St(), va, key, value) && Absent(key) && k == cmp.bucket(key)
      modifies this`chains, this`role, this`view, pool`M, pool.mem
      ensures Standing() && (crashed ==> te) && SameDescriptor(old(pool.M), pool.M)
      ensures !crashed ==> view == old(view)[key := Some(value)] && key !in old(view)
      ensures !crashed ==>
        && NewHead(old(chains), chains, k, Word(old(pool.M), LOG_P1), Word(old(pool.M), LOG_P2), key)
        && chains[k][0].va == va
      ensures crashed ==> view == old(view) && chains == old(chains) && role == old(role)
      ensures crashed ==> Prepared(pool.M, pool.live, role, key, value)
    {
      hide Word, Put, TableOk, Sound, Stores, Canonical, Separate, Counts, Absent, Prepared, SameDescriptor, NewHead;
      ghost var m0 := pool.M;
      SameSelf(m0);
      crashed := TestCrash(te);
      if crashed { return; }
      PokeEntry(va, va + 8, pool.Load(LOG_P1), key, value);
      ghost var m1, chains0 := pool.M, chains;
      crashed := TestCrash(te);
      if crashed { return; }
      Link(va, key, value, k);
      NewHeadIs(chains0, chains, k, Node(va, Word(m1, LOG_P1), Word(m1, LOG_P2), key, Some(value)));
      SameTransitive(m0, m1, pool.M);
    }

    /** The rest of an insert once both strings are logged. */
    method InsertEntry(ghost key: Bytes, ghost value: Bytes, k: nat, te: bool) returns (ok: bool, crashed: bool)
      requires Usable() && Prepared(pool.M, pool.live, role, key, value) && Absent(key) && k == cmp.bucket(key)
      modifies this`chains, this`role, this`view, pool`M, pool`fs, pool`live, pool.mem
      ensures NoTouch(old(pool.fs)) ==> NoTouch(pool.fs)
      ensures Usable() && (crashed ==> te && !ok)
      ensures AtMostOneMore(old(pool.live), pool.live)
      ensures ok ==> view == old(view)[key := Some(value)] && key !in old(view)
      ensures !ok ==> view == old(view) && chains == old(chains) && role == old(role)
      ensures !ok ==> Prepared(pool.M, pool.live, role, key, value)
      ensures !ok && !crashed ==> pool.live == old(pool.live)
      ensures ok ==> NewHead(old(chains), chains, k, Word(old(pool.M), LOG_P1), Word(old(pool.M), LOG_P2), key)
      ensures ok ==> OnlyMore(old(pool.live), pool.live, {chains[k][0].va - 8})
      ensures !crashed ==> (ok <==> Serves(old(pool.fs), Need(old(pool.M), ENTRY)))
      ensures pool.fs == Taken(old(pool.fs), Need(old(pool.M), ENTRY))
      ensures crashed ==> Serves(old(pool.fs), Need(old(pool.M), ENTRY))
      ensures SameDescriptor(old(pool.M), pool.M)
      ensures old(pool.Full()) ==> pool.Full()
    {
      hide Word, Standing, Apart, NoTouch, Tiled, AtMostOneMore, Prepared, Serves, Building, NewHead, OnlyMore, Need,
        Absent, Taken;
      ok := false;
      ghost var m0, live0 := pool.M, pool.live;
      assert DESC <= |m0| by { StandingOk(); }
      var va: nat;
      va, crashed := AllocEntry(key, value, te);
      if crashed || va == 0 { return; }
      ghost var m1 := pool.M;
      crashed := LinkEntry(va, key, value, k, te);
      SameTransitive(m0, m1, pool.M);
      ok := !crashed;
    }

    /** The block of the entry, beside the two logged copies. */
    method AllocEntry(ghost key: Bytes, ghost value: Bytes, te: bool) returns (va: nat, crashed: bool)
      requires Usable() && Prepared(pool.M, pool.live, role, key, value)
      modifies pool`M, pool`fs, pool`live, pool.mem
      ensures NoTouch(old(pool.fs)) ==> NoTouch(pool.fs)
      ensures Usable() && (crashed ==> te) && AtMostOneMore(old(pool.live), pool.live)
      ensures Prepared(pool.M, pool.live, role, key, value)
      ensures Word(pool.M, LOG_P1) == Word(old(pool.M), LOG_P1) && Word(pool.M, LOG_P2) == Word(old(pool.M), LOG_P2)
      ensures !crashed && va == 0 ==> pool.live == old(pool.live)
      ensures !crashed && va != 0 ==>
        Building(St(), va, key, value) && OnlyMore(old(pool.live), pool.live, {va - 8})
      ensures !crashed ==> Served(old(pool.M), old(pool.fs), ENTRY, pool.fs, va)
      ensures pool.fs == Taken(old(pool.fs), Need(old(pool.M), ENTRY))
      ensures crashed ==> Serves(old(pool.fs), Need(old(pool.M), ENTRY))
      ensures SameDescriptor(old(pool.M), pool.M)
      ensures old(pool.Full()) ==> pool.Full()
    {
      hide Word, TableOk, Sound, Apart, NoTouch, Stores, Separate, InPool, Pool.Full, Preserves, AtMostOneMore, Counts,
        Prepared, Served, SameDescriptor, Building, OnlyMore, Taken, Need, Serves;
      ghost var st0, fs0 := St(), pool.fs;
      va, crashed := Alloc(ENTRY, te);
      if !crashed { ServedIs(st0.m, fs0, ENTRY, pool.fs, va); }
      PreparedPreserved(st0.m, st0.live, pool.M, pool.live, role, key, value);
      LogUnmoved(st0.m, st0.live, pool.M, pool.live);
      if crashed || va == 0 { return; }
      NewBuilding(st0, St(), va, key, value);
      MoreOne(st0.live, pool.live, va - 8);
    }

    lemma LogUnmoved(m0: Bytes, live0: Live, m1: Bytes, live1: Live)
      requires Preserves(m0, live0, m1, live1)
      ensures DESC <= |m0| ==>
        |m1| == |m0| && Word(m1, LOG_P1) == Word(m0, LOG_P1) && Word(m1, LOG_P2) == Word(m0, LOG_P2)
    {
      hide Word;
      if DESC <= |m0| { LogPreserved(m0, live0, m1, live1); }
    }

    lemma NewBuilding(st0: State, st: State, va: nat, key: Bytes, value: Bytes)
      requires TableOk(st0, cmp, ht, chains) && st.role == st0.role && Prepared(st0.m, st0.live, st0.role, key, value)
      requires Preserves(st0.m, st0.live, st.m, st.live) && Prepared(st.m, st.live, st.role, key, value)
      requires NewBlock(st.m, st.live, st0.live, va, ENTRY)
      ensures Building(st, va, key, value)
    {
      hide Word, StrAt, Preserves, TableOk;
      RolesLive(st0);
      LogPreserved(st0.m, st0.live, st.m, st.live);
    }

    /** `ht_set` on a key that nothing matches. */
    method SetNew(key: Bytes, value: Bytes, te: bool) returns (ok: bool, crashed: bool)
      requires Usable() && |key| <= MAX_STRING && |value| <= MAX_STRING && Absent(key)
      modifies this`chains, this`role, this`view, pool`M, pool`fs, pool`live, pool.mem
      ensures NoTouch(old(pool.fs)) ==> NoTouch(pool.fs)
      ensures Usable() && (crashed ==> te && !ok)
      ensures ok ==> view == old(view)[key := Some(value)] && key !in old(view)
      ensures !ok ==> view == old(view) && chains == old(chains) && role == old(role)
      ensures !crashed ==> Quiet(pool.M)
      ensures crashed ==> Quiet(pool.M) || Pending(pool.M, pool.live, key, value)
      ensures crashed ==> DiedInserting(old(pool.M), old(pool.fs), key, value, pool.fs, Quiet(pool.M))
      ensures !ok && !crashed ==> AtMostTwoMore(old(pool.live), pool.live)
      ensures !crashed ==> (ok <==> Fits(old(pool.fs), InsertNeeds(old(pool.M), key, value)))
      ensures !crashed ==> pool.fs == Tried(old(pool.fs), InsertNeeds(old(pool.M), key, value))
      ensures ok ==> Inserted(old(pool.live), pool.live, old(chains), chains, key)
      ensures SameDescriptor(old(pool.M), pool.M)
      ensures old(pool.Full()) ==> pool.Full()
    {
      hide Word, Put, TableOk, Sound, Stores, Canonical, Tiled, Separate, AtMostOneMore, AtMostTwoMore, Counts,
        Pending, Pool.Full, SameDescriptor, ServedTwo, Fits, OnlyMore, NewHead, Inserted, Agree, Serves, InsertNeeds,
        Taken, Tried, Need, DiedLogging, Prepared;
      ok := false;
      ghost var m0, fs0, live0, chains0 := pool.M, pool.fs, pool.live, chains;
      var logged;
      logged, crashed := LogStrings(key, value, te);
      if crashed { return; }
      ghost var m1, live1 := pool.M, pool.live;
      ServedThree(m0, fs0, m1, pool.fs, key, value, logged);
      if logged {
        ok, crashed := InsertEntry(key, value, cmp.bucket(key), te);
        SameTransitive(m0, m1, pool.M);
        if crashed {
          NotQuiet(pool.M, pool.live, role, key, value);
          return;
        }
        if ok { InsertedIs(live0, live1, pool.live, chains0, chains, key, Word(m1, LOG_P1), Word(m1, LOG_P2)); }
      }
      ghost var m2 := pool.M;
      LogOp(0);
      SameTransitive(m0, m2, pool.M);
    }

    lemma NotQuiet(m: Bytes, live: Live, role: map<nat, Role>, key: Bytes, value: Bytes)
      requires Prepared(m, live, role, key, value)
      ensures Pending(m, live, key, value) && !Quiet(m)
    {
      hide Word;
    }

    /** The regions `gaps` were given back to the list `fs0`. */
    ghost predicate Given(fs0: Chunks, gaps: Chunks)
      reads pool
    {
      pool.fs == ReleaseAll(fs0, gaps) && Shape(fs0, pool.fs, gaps, |pool.M|)
    }

    lemma GivenNone()
      requires InPool(pool.fs, |pool.M|)
      ensures Given(pool.fs, []) && NoDoubles(pool.fs, [])
    {
      hide InPool;
      ShapeNone(pool.fs, |pool.M|);
    }

    /** The region of the block with payload `va`, or none. */
    ghost function Region(live: Live, va: nat): Chunks {
      if va >= 8 && va - 8 in live then [Chunk(va - 8, live[va - 8])] else []
    }

    /** `lmc_free` of a live block that is no part of the table, or of nothing, after `gaps`. */
    method Release(va: nat, te: bool, ghost whole: bool, ghost fs0: Chunks, ghost gaps: Chunks) returns (crashed: bool)
      requires Standing() && (whole ==> pool.Full()) && Given(fs0, gaps)
      requires va != 0 ==> Stamped(pool.M, pool.live, va) && va - 8 !in role
      modifies pool`M, pool`fs, pool`live, pool.mem
      ensures Standing() && (crashed ==> te) && (!crashed && whole ==> pool.Full()) && |pool.M| == |old(pool.M)|
      ensures pool.live == if va == 0 then old(pool.live) else old(pool.live) - {va - 8}
      ensures Preserves(old(pool.M), pool.live, pool.M, pool.live) && SameLog(old(pool.M), pool.M)
      ensures !crashed ==> Given(fs0, gaps + Region(old(pool.live), va))
      ensures crashed && Safely(fs0, gaps, |pool.M|) ==> Torn(pool.M, pool.live, pool.fs, whole)
    {
      hide Word, TableOk, Sound, Stores, InPool, Apart, Separate, Tiled, Counts, Kept, Preserves, Outside, ReleaseCrash,
        FreeList.Release, Torn, Stamped, ReleaseAll, NoDoubles, Doubles, Twice, Crisp, NoTouch, Shape, Safely;
      ghost var st, fs1 := St(), pool.fs;
      PreservesSelf(st.m, st.live);
      assert gaps + [] == gaps;
      if va != 0 {
        StampedLive(st, fs1, va);
        FreedShape(fs0, fs1, gaps, st.live, va - 8, |st.m|);
      }
      crashed := pool.Free(va, te);
      if va != 0 {
        AfterFree(st, St(), fs1, va - 8);
        if crashed && Safely(fs0, gaps, |st.m|) {
          SafeApart(fs0, fs1, gaps, |st.m|);
          TearIs(st.m, st.live, fs1, va - 8, pool.M, pool.fs, whole);
        }
      }
      PreservesLog(st.m, pool.live, pool.M, pool.live);
    }

    /** Giving `gaps` back to `fs0` does not count a chunk twice. */
    ghost predicate Safely(fs0: Chunks, gaps: Chunks, n: nat) {
      Canonical(fs0, n) || (Apart(fs0) && NoDoubles(fs0, gaps))
    }

    lemma SafeApart(fs0: Chunks, fs: Chunks, gaps: Chunks, n: nat)
      requires Shape(fs0, fs, gaps, n) && Safely(fs0, gaps, n)
      ensures Apart(fs)
    {
      hide Apart, NoDoubles, InPool, NoTouch, Twice, Crisp;
    }

    lemma SafeLess(fs0: Chunks, gaps: Chunks, live: Live, va: nat, n: nat)
      requires Safely(fs0, gaps + Region(live, va), n)
      ensures Safely(fs0, gaps, n)
    {
      hide Apart, InPool, NoTouch, Doubles;
      var r := gaps + Region(live, va);
      if |r| > |gaps| { assert r[..|r| - 1] == gaps; } else { assert r == gaps; }
    }

    lemma FreedShape(fs0: Chunks, fs: Chunks, gaps: Chunks, live: Live, a: nat, n: nat)
      requires Shape(fs0, fs, gaps, n) && fs == ReleaseAll(fs0, gaps) && Separate(live, fs, n) && a in live
      ensures FreeList.Release(fs, a, live[a]) == ReleaseAll(fs0, gaps + [Chunk(a, live[a])])
      ensures Shape(fs0, FreeList.Release(fs, a, live[a]), gaps + [Chunk(a, live[a])], n)
    {
      hide Shape, Separate, Outside, FreeList.Release;
      LiveBounds(live, fs, n, a);
      ShapeMore(fs0, fs, gaps, n, Chunk(a, live[a]));
      var r := gaps + [Chunk(a, live[a])];
      assert r[..|r| - 1] == gaps;
    }

    lemma StampedLive(st: State, fs: Chunks, va: nat)
      requires Stamped(st.m, st.live, va)
      ensures DESC + 8 <= va <= |st.m| && va - 8 in st.live && Word(st.m, va - 8) == st.live[va - 8]
    {
    }

    /** The table after `lmc_free` of a region outside it. */
    lemma AfterFree(st: State, st': State, fs0: Chunks, a: nat)
      requires TableOk(st, cmp, ht, chains) && a in st.live && a !in st.role
      requires InPool(fs0, |st.m|) && Separate(st.live, fs0, |st.m|)
      requires st'.live == st.live - {a} && st'.role == st.role && st'.view == st.view
      requires Kept(st.m, st'.m, fs0, a, st.live[a])
      ensures TableOk(st', cmp, ht, chains) && |st'.m| == |st.m| && Word(st'.m, ht) == Word(st.m, ht)
      ensures Preserves(st.m, st'.live, st'.m, st'.live)
    {
      hide Word, TableOk, InPool, Separate, Kept, Preserves;
      FreedKeeps(st.m, st'.m, fs0, st.live, a);
      assert |st'.m| == |st.m| by { PreservesLength(st.m, st'.live, st'.m, st'.live); }
      ReleasedTable(st, st', a);
    }

    lemma PreservesLength(m: Bytes, live: Live, m': Bytes, live': Live)
      requires Preserves(m, live, m', live')
      ensures |m'| == |m|
    {
    }

    lemma PreservesSelf(m: Bytes, live: Live)
      ensures Preserves(m, live, m, live)
    {
    }

    lemma TearIs(m0: Bytes, live0: Live, fs0: Chunks, a: nat, m: Bytes, fs: Chunks, whole: bool)
      requires |m| == |m0| && Stores(m, fs) && a in live0 && (whole ==> Tiled(live0, fs0, |m0|))
      requires ReleaseCrash(fs0, a, live0[a], fs)
      requires InPool(fs0, |m0|) && Apart(fs0) && Separate(live0, fs0, |m0|)
      ensures Torn(m, live0 - {a}, fs, whole)
    {
      hide Stores, ReleaseCrash, InPool, Apart, Tiled;
      LiveBounds(live0, fs0, |m0|, a);
      assert TornAt(m, live0 - {a}, fs, fs0, a, live0[a]);
      assert (live0 - {a})[a := live0[a]] == live0;
      assert whole ==> WasWhole(live0 - {a}, fs0, a, live0[a], |m|);
    }

    lemma ReleasedTable(st: State, st': State, a: nat)
      requires TableOk(st, cmp, ht, chains) && a in st.live && a !in st.role
      requires st'.live == st.live - {a} && Preserves(st.m, st'.live, st'.m, st'.live)
      requires st'.role == st.role && st'.view == st.view
      ensures TableOk(st', cmp, ht, chains) && Word(st'.m, ht) == Word(st.m, ht)
    {
      hide Word, TableOk;
      TableFrame(st, st', cmp, ht, chains);
    }

    /** State `st'` is `st` after the entry of node `n` was pointed at value `vp`. */
    ghost predicate Repointed(st: State, st': State, n: Node, n': Node) {
      && n' == n.(vp := n'.vp, value := n'.value) && n.va + ENTRY <= |st.m| && n'.vp < LIMIT && |st.m| < LIMIT
      && st'.m == Put(st.m, n.va + 16, n'.vp) && st'.live == st.live && st'.view == st.view[n.key := n'.value]
      && st'.role == NewRoles(st.role, n, n')
      && (match n'.value
          case None => n'.vp == 0
          case Some(v) => Holds(st.m, st.live, n'.vp, v) && n'.vp - 8 !in st.role)
    }

    ghost function NewRoles(role: map<nat, Role>, n: Node, n': Node): map<nat, Role> {
      var r := if n.value.Some? && n.vp >= 8 then role - {n.vp - 8} else role;
      if n'.value.Some? && n'.vp >= 8 then r[n'.vp - 8 := ValueBlock(n.key)] else r
    }

    lemma RepointTable(st: State, st': State, fs: Chunks, k: nat, i: nat, n': Node)
      requires TableOk(st, cmp, ht, chains) && Sound(cmp) && |chains| == BUCKETS && k < BUCKETS && i < |chains[k]|
      requires Separate(st.live, fs, |st.m|) && Repointed(st, st', chains[k][i], n')
      ensures TableOk(st', cmp, ht, chains[k := chains[k][i := n']]) && Word(st'.m, ht) == Word(st.m, ht)
    {
      hide Word, Put, StrAt, TableOk, Sound, Agree, ChainOk, Repointed, Separate, Owns;
      var n := chains[k][i];
      TableBounds(st, cmp, ht, chains);
      TableRoles(st);
      TableAt(st, cmp, ht, chains, k);
      ChainNode(st, cmp, k, Head(st.m, ht, k), chains[k], i);
      RepointFacts(st, st', fs, k, n, n');
      RepointNode(st, st', k, n, n');
      RepointRoles(st, st', k, n, n');
      UpdateChain(st, st', cmp, ht, chains, k, i, n');
    }

    lemma RepointFacts(st: State, st': State, fs: Chunks, k: nat, n: Node, n': Node)
      requires NodeOk(st, cmp, k, n) && Repointed(st, st', n, n') && Separate(st.live, fs, |st.m|)
      requires Owns(st, ht, TableBlock, TABLE)
      ensures |st'.m| == |st.m| && n.va - 8 in st.live
      ensures n'.va == n.va && n'.key == n.key && st'.view == st.view[n.key := n'.value]
      ensures forall a :: a in st.live && a != n.va - 8 ==> Agree(st.m, st'.m, a, st.live[a])
      ensures n.va >= 8 && Word(st'.m, n.va - 8) == Word(st.m, n.va - 8)
      ensures Word(st'.m, n.va) == Word(st.m, n.va) && Word(st'.m, n.va + 8) == n.kp && Word(st'.m, n.va + 16) == n'.vp
      ensures ht + 8 <= |st.m| && Word(st'.m, ht) == Word(st.m, ht)
    {
      hide Word, Put, StrAt, Outside;
      PokedElsewhere(st.m, st'.m, fs, st.live, n.va - 8);
      AgreeWord(st.m, st'.m, ht);
    }

    lemma RepointNode(st: State, st': State, k: nat, n: Node, n': Node)
      requires NodeOk(st, cmp, k, n) && Repointed(st, st', n, n') && |st'.m| == |st.m|
      requires forall a :: a in st.live && a != n.va - 8 ==> Agree(st.m, st'.m, a, st.live[a])
      requires Word(st'.m, n.va - 8) == Word(st.m, n.va - 8)
      requires Word(st'.m, n.va) == Word(st.m, n.va) && Word(st'.m, n.va + 8) == n.kp && Word(st'.m, n.va + 16) == n'.vp
      ensures NodeOk(st', cmp, k, n')
    {
      hide Word, Put, Agree;
      StrKept(st.m, st'.m, n.kp, n.key, n.kp - 8, st.live[n.kp - 8]);
      AgreeHead(st.m, st'.m, n.kp - 8, st.live[n.kp - 8]);
      if n'.value.Some? {
        StrKept(st.m, st'.m, n'.vp, n'.value.value, n'.vp - 8, st.live[n'.vp - 8]);
        AgreeHead(st.m, st'.m, n'.vp - 8, st.live[n'.vp - 8]);
      }
    }

    lemma RepointRoles(st: State, st': State, k: nat, n: Node, n': Node)
      requires NodeOk(st, cmp, k, n) && Repointed(st, st', n, n') && |st'.m| == |st.m| && RolesShown(st)
      requires forall a :: a in st.live && a != n.va - 8 ==> Agree(st.m, st'.m, a, st.live[a])
      ensures RolesShown(st')
      ensures forall a :: a in st.role && RoleKey(st.role[a]) != Some(n.key) ==> RegionKept(st, st', a + 8)
    {
      hide Word, Put, Agree, StrAt;
    }

    /** Node `i` of chain `k` has a new value in the one added block; its old value's block is gone. */
    ghost predicate Updated(live0: Live, live: Live, chains0: seq<seq<Node>>, chains: seq<seq<Node>>, k: nat, i: nat) {
      && k < |chains0| && i < |chains0[k]| && |chains| == |chains0| && |chains[k]| == |chains0[k]|
      && var n, n' := chains0[k][i], chains[k][i];
         && chains == chains0[k := chains0[k][i := n']] && n' == n.(vp := n'.vp, value := n'.value) && n'.value.Some?
         && OnlyMore(live0, live, {n'.vp - 8}) && (n.value.Some? && n.vp != n'.vp ==> n.vp - 8 !in live)
    }

    lemma UpdatedIs(live0: Live, live1: Live, live: Live, chains0: seq<seq<Node>>, chains: seq<seq<Node>>, k: nat,
        i: nat, n': Node, va: nat)
      requires k < |chains0| && i < |chains0[k]| && chains == chains0[k := chains0[k][i := n']]
      requires n' == chains0[k][i].(vp := n'.vp, value := n'.value) && n'.value.Some?
      requires live1.Keys <= live0.Keys + {n'.vp - 8} && va == chains0[k][i].vp
      requires (chains0[k][i].value.Some? ==> va != 0)
      requires live == if va == 0 then live1 else live1 - {va - 8}
      ensures Updated(live0, live, chains0, chains, k, i)
    {
    }

    /** `ht_set` on a key that node `i` of its bucket matches.  A failed allocation
        has already stored a null value pointer. */
    method Update(hr: nat, value: Bytes, te: bool, ghost k: nat, ghost i: nat) returns (ok: bool, crashed: bool)
      requires Usable() && |value| <= MAX_STRING
      requires k < BUCKETS == |chains| && i < |chains[k]| && hr == chains[k][i].va
      modifies this`chains, this`role, this`view, pool`M, pool`fs, pool`live, pool.mem
      ensures Standing() && (crashed ==> te && CrashState(old(pool.Full())))
      ensures !ok && !crashed ==> Usable() && pool.fs == old(pool.fs)
      ensures ok ==>
        Given(Taken(old(pool.fs), Need(old(pool.M), |value| + 9)), Region(old(pool.live), old(chains)[k][i].vp))
      ensures ok && NoTouch(old(pool.fs)) ==> Canonical(pool.fs, |pool.M|)
      ensures ok ==> (Usable() <==>
        NoDoubles(Taken(old(pool.fs), Need(old(pool.M), |value| + 9)), Region(old(pool.live), old(chains)[k][i].vp)))
      ensures ok ==> view == old(view)[old(chains)[k][i].key := Some(value)]
      ensures !ok && !crashed ==> view == old(view)[old(chains)[k][i].key := None]
      ensures crashed ==> view == old(view) || view == old(view)[old(chains)[k][i].key := Some(value)]
      ensures crashed ==> !ok
      ensures ok ==> Updated(old(pool.live), pool.live, old(chains), chains, k, i)
      ensures SameKeys(old(chains), chains)
      ensures !crashed ==> (ok <==> Serves(old(pool.fs), Need(old(pool.M), |value| + 9)))
      ensures SameLog(old(pool.M), pool.M)
      ensures !crashed && old(pool.Full()) ==> pool.Full()
    {
      hide Word, Put, TableOk, Sound, Stores, Canonical, Separate, Tiled, Counts, Preserves, Holds, AtMostOneMore,
        Torn, Repointed, Serves, Pool.Full, SameLog, Updated, OnlyMore, UpdateSite, Stamped, SameKeys, Apart,
        NoTouch, InPool, Given, Taken, Need, NoDoubles, ReleaseAll, Region, Served;
      ok := false;
      LogSelf(pool.M);
      KeysSelf(chains);
      ghost var fs0, live0, chains0, whole := pool.fs, pool.live, chains, pool.Full();
      crashed := TestCrash(te);
      if crashed { return; }
      ghost var n := chains[k][i];
      ghost var st0 := St();
      OldValue(st0, k, i);
      SiteBounds(st0, n);
      ValueOr0(st0, n);
      var va := pool.Load(hr + 16);
      var vp: nat;
      vp, crashed := Strdup(value, te);
      PreservesLog(st0.m, st0.live, pool.M, pool.live);
      if crashed { return; }
      ghost var st := St();
      ServedIs(st0.m, fs0, |value| + 9, pool.fs, vp);
      OldValue(st, k, i);
      RoleFresh(st0, vp);
      ghost var m1 := pool.M;
      ghost var n' := n.(vp := vp, value := if vp == 0 then None else Some(value));
      Repoint(hr, vp, k, i, n', value);
      KeysReplaced(chains0, k, i, n');
      ghost var m2 := pool.M;
      LogTrans(st0.m, m1, m2);
      if vp == 0 { return; }
      OldValueLoose(st, St(), n, n', pool.fs);
      ghost var live1, fs1 := pool.live, pool.fs;
      UpdateShape(st0, st, n);
      GivenNone();
      crashed := Release(va, te, whole, fs1, []);
      LogTrans(st0.m, m2, pool.M);
      if !crashed {
        GivenCanonical(fs1, [] + Region(live1, n.vp));
        GivenUsable(fs1, [] + Region(live1, n.vp));
      }
      UpdatedIs(live0, live1, pool.live, chains0, chains, k, i, n', va);
      ok := !crashed;
    }

    /** Storing the new value pointer. */
    method Repoint(hr: nat, vp: nat, ghost k: nat, ghost i: nat, ghost n': Node, ghost value: Bytes)
      requires Standing() && k < BUCKETS == |chains| && i < |chains[k]| && hr == chains[k][i].va && vp < LIMIT
      requires n' == chains[k][i].(vp := vp, value := if vp == 0 then None else Some(value))
      requires vp != 0 ==> Holds(pool.M, pool.live, vp, value) && vp - 8 !in role
      modifies this`chains, this`role, this`view, pool`M, pool.mem
      ensures Standing() && view == old(view)[n'.key := n'.value] && chains == old(chains)[k := old(chains)[k][i := n']]
      ensures Repointed(old(St()), St(), old(chains)[k][i], n') && SameLog(old(pool.M), pool.M)
      ensures old(pool.Full()) ==> pool.Full()
    {
      hide Word, Put, TableOk, Sound, Stores, Canonical, Separate, Tiled, Counts, Holds, Repointed, UpdateSite;
      ghost var st, n := St(), chains[k][i];
      OldValue(st, k, i);
      SiteBounds(st, n);
      pool.Poke(hr - 8, hr + 16, vp);
      PutLog(st.m, hr + 16, vp);
      role, view := NewRoles(role, n, n'), view[n.key := n'.value];
      RepointIs(st, St(), n, n', st.live, value);
      RepointTable(st, St(), pool.fs, k, i, n');
      ViewSame(st.view, n.key, n'.value);
      chains := chains[k := chains[k][i := n']];
    }

    /** The old value's region is still the same after the new value got its block. */
    lemma UpdateShape(st0: State, st: State, n: Node)
      requires UpdateSite(st0, n) && Preserves(st0.m, st0.live, st.m, st.live)
      ensures [] + Region(st.live, n.vp) == Region(st0.live, n.vp)
    {
      hide Word, StrAt;
    }

    lemma ServedIs(m: Bytes, fs: Chunks, size: nat, fs': Chunks, va: nat)
      requires DESC <= |m| && Served(m, fs, size, fs', va)
      ensures (va != 0 <==> Serves(fs, Need(m, size))) && fs' == Taken(fs, Need(m, size))
      ensures va == 0 ==> fs' == fs
    {
      hide Need;
      TakenNone(fs, Need(m, size));
    }

    lemma ValueOr0(st: State, n: Node)
      requires UpdateSite(st, n)
      ensures n.value.Some? <==> n.vp != 0
    {
    }

    lemma SiteBounds(st: State, n: Node)
      requires UpdateSite(st, n)
      ensures n.va + ENTRY <= |st.m| && n.va >= DESC + 8 && n.va - 8 in st.live && ENTRY + 8 <= st.live[n.va - 8]
      ensures n.key in st.view && Word(st.m, n.va + 16) == n.vp
    {
    }

    lemma RoleFresh(st: State, vp: nat)
      requires TableOk(st, cmp, ht, chains)
      ensures vp >= 8 && vp - 8 !in st.live ==> vp - 8 !in st.role
    {
    }

    /** The entry and the value pointer an update finds. */
    lemma OldValue(st: State, k: nat, i: nat)
      requires k < BUCKETS == |chains| && i < |chains[k]| && TableOk(st, cmp, ht, chains)
      ensures UpdateSite(st, chains[k][i])
    {
      hide Word, StrAt, LinkedNodes;
      TableAt(st, cmp, ht, chains, k);
      assert NodeOk(st, cmp, k, chains[k][i]);
    }

    lemma RepointIs(st: State, st': State, n: Node, n': Node, live0: Live, value: Bytes)
      requires n.va + ENTRY <= |st.m| < LIMIT && n'.vp < LIMIT
      requires n' == n.(vp := n'.vp, value := if n'.vp == 0 then None else Some(value))
      requires st'.m == Put(st.m, n.va + 16, n'.vp) && st'.live == st.live && st'.view == st.view[n.key := n'.value]
      requires st'.role == NewRoles(st.role, n, n')
      requires n'.vp != 0 ==> Holds(st.m, st.live, n'.vp, value) && n'.vp - 8 !in st.role
      ensures Repointed(st, st', n, n')
    {
    }

    lemma ViewSame(view: View, key: Bytes, v: Option<Bytes>)
      requires key in view
      ensures |view[key := v]| == |view|
    {
      assert view[key := v].Keys == view.Keys;
    }

    lemma OldValueLoose(st: State, st': State, n: Node, n': Node, fs: Chunks)
      requires UpdateSite(st, n) && Repointed(st, st', n, n') && n'.vp != 0 && Separate(st.live, fs, |st.m|)
      ensures n.vp != 0 ==> Stamped(st'.m, st'.live, n.vp) && n.vp - 8 !in st'.role
    {
      hide Word, Put, StrAt, Outside;
      if n.vp != 0 {
        assert Disjoint(n.va - 8, st.live[n.va - 8], n.vp - 8, st.live[n.vp - 8]);
      }
    }

    /** `ht_set`. */
    method Set(key: Bytes, value: Bytes, te: bool) returns (ok: bool, crashed: bool)
      requires Usable() && |key| <= MAX_STRING && |value| <= MAX_STRING
      modifies this`chains, this`role, this`view, pool`M, pool`fs, pool`live, pool.mem
      ensures Standing() && (crashed ==> te && !ok) && (!crashed && old(Valid()) ==> Valid())
      // insert
      ensures old(Absent(key)) ==> Usable() && (old(Valid()) ==> Valid()) && (!crashed ==> Quiet(pool.M))
      ensures old(Absent(key)) && ok ==> view == old(view)[key := Some(value)]
      ensures old(Absent(key)) && ok ==> Inserted(old(pool.live), pool.live, old(chains), chains, key)
      ensures old(Absent(key)) && !ok ==> view == old(view) && chains == old(chains) && role == old(role)
      ensures old(Absent(key)) && !ok && !crashed ==> AtMostTwoMore(old(pool.live), pool.live)
      ensures old(Absent(key)) && !crashed ==> (ok <==> Fits(old(pool.fs), InsertNeeds(old(pool.M), key, value)))
      ensures old(Absent(key)) && !crashed ==> pool.fs == Tried(old(pool.fs), InsertNeeds(old(pool.M), key, value))
      ensures old(Absent(key)) && crashed ==> Quiet(pool.M) || Pending(pool.M, pool.live, key, value)
      ensures old(Absent(key)) && crashed ==>
        DiedInserting(old(pool.M), old(pool.fs), key, value, pool.fs, Quiet(pool.M))
      ensures old(Absent(key)) && old(pool.Full()) ==> pool.Full()
      // update
      ensures !old(Absent(key)) ==> SameLog(old(pool.M), pool.M)
      ensures !old(Absent(key)) ==> SameKeys(old(chains), chains)
      ensures !old(Absent(key)) && !ok && !crashed ==> Usable() && pool.fs == old(pool.fs)
      ensures !old(Absent(key)) && ok ==>
        exists i: nat ::
          && Updated(old(pool.live), pool.live, old(chains), chains, cmp.bucket(key), i)
          && var fs1, gaps := Taken(old(pool.fs), Need(old(pool.M), |value| + 9)),
               Region(old(pool.live), old(chains)[cmp.bucket(key)][i].vp);
             Given(fs1, gaps) && (Usable() <==> NoDoubles(fs1, gaps))
      ensures forall k0 :: k0 in old(view) && cmp.same(k0, key) ==>
        && (!crashed ==> (ok <==> Serves(old(pool.fs), Need(old(pool.M), |value| + 9))))
        && (ok ==> view == old(view)[k0 := Some(value)])
        && (!ok && !crashed ==> view == old(view)[k0 := None])
        && (crashed ==> view == old(view) || view == old(view)[k0 := Some(value)])
      ensures crashed ==> CrashState(old(pool.Full()))
      ensures SameDescriptor(old(pool.M), pool.M)
      ensures !crashed && old(pool.Full()) ==> pool.Full()
    {
      hide Word, TableOk, Sound, Stores, Canonical, Separate, Tiled, Counts, Torn, AtMostTwoMore, NoMatch, Pending,
        Quiet, Fits, InsertNeeds, Serves, Inserted, Updated, SameLog, SameDescriptor, Given, Taken, Need, InPool,
        Apart, NoTouch, SameKeys;
      ghost var st := St();
      ValidIs();
      var hr, i := Lookup(key);
      NoMatchInView(st, cmp, ht, chains, key);
      if hr == 0 {
        ok, crashed := SetNew(key, value, te);
      } else {
        FoundKey(st, key, i);
        ok, crashed := Update(hr, value, te, cmp.bucket(key), i);
        LogDescriptor(st.m, pool.M);
      }
      ValidIs();
    }

    /** A lookup that found node `i` found the one key that matches. */
    lemma FoundKey(st: State, key: Bytes, i: nat)
      requires TableOk(st, cmp, ht, chains) && Sound(cmp) && st.view == view && cmp.bucket(key) < |chains|
      requires i < |chains[cmp.bucket(key)]| && cmp.same(chains[cmp.bucket(key)][i].key, key)
      ensures chains[cmp.bucket(key)][i].key in view && !Absent(key)
      ensures forall k :: k in view && cmp.same(k, key) ==> k == chains[cmp.bucket(key)][i].key
    {
      hide Word, StrAt, TableOk, Sound;
      FoundFacts(st, key, i);
    }

    /* ---- Delete ---- */

    /** The search loop of `ht_delete`: the matching entry and its chain predecessor, 0 for none. */
    method FindEntry(key: Bytes) returns (hr: nat, prev: nat, ghost i: nat)
      requires Stored()
      ensures cmp.bucket(key) < BUCKETS == |chains|
      ensures hr == 0 ==> NoMatch(cmp, chains[cmp.bucket(key)], key)
      ensures hr != 0 ==> var c := chains[cmp.bucket(key)];
        i < |c| && c[i].va == hr && cmp.same(c[i].key, key) && prev == (if i == 0 then 0 else c[i - 1].va)
    {
      hide Word, StrAt, ChainOk, Sound;
      SameSym(cmp, key, key);
      var k := cmp.bucket(key);
      ghost var st, c := St(), chains[k];
      TableAt(st, cmp, ht, chains, k);
      hr, prev, i := pool.Load(ht + 8 + 8 * k), 0, 0;
      HeadIs(st, cmp, k, hr, c);
      while hr != 0
        invariant i <= |c| && hr == (if i < |c| then c[i].va else 0) && (hr == 0 ==> i == |c|)
        invariant prev == (if i == 0 then 0 else c[i - 1].va)
        invariant forall j :: 0 <= j < i ==> !cmp.same(c[j].key, key)
        decreases |c| - i
      {
        NodeReads(st, cmp, k, Head(st.m, ht, k), c, i);
        var stored := ReadString(pool.Load(hr + 8), c[i].key);
        if cmp.same(stored, key) { return; }
        prev := hr;
        hr := pool.Load(hr);
        i := i + 1;
        if i < |c| { NodeReads(st, cmp, k, Head(st.m, ht, k), c, i); }
      }
    }

    /** Taking node `i` out of its chain, as written: deleting the head clears the bucket. */
    method DropEntry(hr: nat, prev: nat, k: nat, ghost i: nat)
      requires Standing() && k < BUCKETS == |chains| && i < |chains[k]| && hr == chains[k][i].va
      requires prev == (if i == 0 then 0 else chains[k][i - 1].va)
      modifies this`chains, this`role, this`view, this`stray, pool`M, pool.mem
      ensures Standing() && view == CutView(old(view), cmp, k, Dropped(old(chains)[k], i))
      ensures |view| < |old(view)| && stray == old(stray) + |old(view)| - |view|
      ensures Loose(St(), old(chains)[k][i]) && pool.live == old(pool.live) && pool.fs == old(pool.fs)
      ensures chains == old(chains)[k := Dropped(old(chains)[k], i)] && SameLog(old(pool.M), pool.M)
    {
      hide Word, Put, TableOk, Sound, Stores, Canonical, Separate, Tiled, Counts, CutView, CutRoles, Dropped, Loose;
      ghost var st, c := St(), chains[k];
      DropSite(st, k, i);
      if prev != 0 {
        pool.Poke(prev - 8, prev, pool.Load(hr));
        PutLog(st.m, prev, Word(st.m, hr));
      } else {
        pool.Poke(ht - 8, ht + 8 + 8 * k, 0);
        PutLog(st.m, ht + 8 + 8 * k, 0);
      }
      view := CutView(view, cmp, k, Dropped(c, i));
      role := CutRoles(role, view);
      DropFacts(st, St(), pool.fs, k, i);
      chains := chains[k := Dropped(c, i)];
      stray := stray + |st.view| - |view|;
    }

    /** What the unlinking store is about to overwrite. */
    lemma DropSite(st: State, k: nat, i: nat)
      requires k < BUCKETS == |chains| && i < |chains[k]| && TableOk(st, cmp, ht, chains)
      ensures ht + TABLE <= |st.m| && DESC + 8 <= ht && ht - 8 in st.live && TABLE + 8 <= st.live[ht - 8]
      ensures chains[k][i].va + ENTRY <= |st.m|
      ensures i > 0 ==> var p := chains[k][i - 1].va;
        p >= DESC + 8 && p + ENTRY <= |st.m| && p - 8 in st.live && ENTRY + 8 <= st.live[p - 8]
    {
      hide Word, StrAt, TableOk, UpdateSite, Owns;
      OldValue(st, k, i);
      SiteBounds(st, chains[k][i]);
      PoolTable(st);
      if i > 0 {
        OldValue(st, k, i - 1);
        SiteBounds(st, chains[k][i - 1]);
      }
    }

    /** The bytes after the unlinking store. */
    ghost function Unlinking(m: Bytes, c: seq<Node>, k: nat, i: nat): Bytes
      requires i < |c| && k < BUCKETS && ht + TABLE <= |m| < LIMIT && c[i].va + 8 <= |m|
      requires i > 0 ==> c[i - 1].va + 8 <= |m|
    {
      if i > 0 then Put(m, c[i - 1].va, Word(m, c[i].va)) else Put(m, ht + 8 + 8 * k, 0)
    }

    /** State `st'` is `st` after node `i` of chain `k` was unlinked. */
    ghost predicate DropStep(st: State, st': State, k: nat, i: nat)
      reads this
    {
      && k < BUCKETS == |chains| && i < |chains[k]| && ht + TABLE <= |st.m| < LIMIT && chains[k][i].va + 8 <= |st.m|
      && (i > 0 ==> chains[k][i - 1].va + 8 <= |st.m|)
      && st'.m == Unlinking(st.m, chains[k], k, i) && st'.live == st.live
      && st'.view == CutView(st.view, cmp, k, Dropped(chains[k], i)) && st'.role == CutRoles(st.role, st'.view)
    }

    lemma DropFacts(st: State, st': State, fs: Chunks, k: nat, i: nat)
      requires k < BUCKETS == |chains| && i < |chains[k]| && ht + TABLE <= |st.m| && |st'.m| == |st.m|
      requires TableOk(st, cmp, ht, chains) && Sound(cmp) && Separate(st.live, fs, |st.m|) && DropStep(st, st', k, i)
      ensures TableOk(st', cmp, ht, chains[k := Dropped(chains[k], i)]) && Word(st'.m, ht) == Word(st.m, ht)
      ensures |st'.view| < |st.view| && Loose(st', chains[k][i])
    {
      hide Word, TableOk, Sound, Separate, CutView, CutRoles, Dropped, Loose, DropStep;
      DropStepIs(st, st', k, i);
      DropIs(st, st', fs, k, i);
      DeleteChain(st, st', cmp, ht, chains, k, i);
      DroppedFewer(st, k, i);
      DroppedLoose(st, st', fs, k, i);
    }

    /** The block the unlinking store writes to. */
    ghost function WrittenBlock(c: seq<Node>, i: nat): int
      requires i < |c|
    {
      if i > 0 then c[i - 1].va - 8 else ht - 8
    }

    lemma DropIs(st: State, st': State, fs: Chunks, k: nat, i: nat)
      requires k < BUCKETS == |chains| && i < |chains[k]| && ht + TABLE <= |st.m| && |st'.m| == |st.m|
      requires TableOk(st, cmp, ht, chains) && Sound(cmp) && Separate(st.live, fs, |st.m|) && DropStep(st, st', k, i)
      ensures CutFrom(st, st', cmp, ht, k, chains[k], i) && Word(st'.m, ht) == Word(st.m, ht)
      ensures Elsewhere(st, st', WrittenBlock(chains[k], i))
    {
      hide Word, Put, TableOk, Sound, Separate, CutView, CutRoles, Dropped, Agree, RegionKept, NodeOk, Owns;
      DropSite(st, k, i);
      TableBounds(st, cmp, ht, chains);
      TableRoles(st);
      DropWrites(st, st', fs, k, i);
      if i > 0 { DropPrev(st, st', k, i); }
      DropRegions(st, st', k, i);
    }

    lemma DropWrites(st: State, st': State, fs: Chunks, k: nat, i: nat)
      requires k < BUCKETS == |chains| && i < |chains[k]| && ht + TABLE <= |st.m| && |st'.m| == |st.m|
      requires TableOk(st, cmp, ht, chains) && Separate(st.live, fs, |st.m|) && DropStep(st, st', k, i)
      ensures |st'.m| == |st.m|
      ensures Elsewhere(st, st', WrittenBlock(chains[k], i))
      ensures Word(st'.m, ht) == Word(st.m, ht)
      ensures forall j :: 0 <= j < BUCKETS && j != k ==> Head(st'.m, ht, j) == Head(st.m, ht, j)
      ensures Head(st'.m, ht, k) == if i == 0 then 0 else Head(st.m, ht, k)
      ensures i > 0 ==> var p := chains[k][i - 1].va;
        && p + ENTRY <= |st.m| && Word(st'.m, p) == Word(st.m, chains[k][i].va)
        && Word(st'.m, p + 8) == Word(st.m, p + 8) && Word(st'.m, p + 16) == Word(st.m, p + 16)
    {
      hide Word, Put, TableOk, Outside, CutView, CutRoles, Dropped;
      DropSite(st, k, i);
      var x := if i > 0 then chains[k][i - 1].va - 8 else ht - 8;
      PokedElsewhere(st.m, st'.m, fs, st.live, x);
      forall b | b in st.live && b + 8 <= |st.m|
        ensures Word(st'.m, b) == Word(st.m, b)
      {
        if b != x { assert Disjoint(b, st.live[b], x, st.live[x]); }
      }
      if i > 0 {
        assert Disjoint(ht - 8, st.live[ht - 8], x, st.live[x]) by { PrevNotTable(st, k, i); }
      }
    }

    lemma PrevNotTable(st: State, k: nat, i: nat)
      requires TableOk(st, cmp, ht, chains) && k < BUCKETS == |chains| && 0 < i < |chains[k]|
      ensures chains[k][i - 1].va != ht
    {
      hide Word, StrAt, LinkedNodes;
      TableAt(st, cmp, ht, chains, k);
      assert NodeOk(st, cmp, k, chains[k][i - 1]);
    }

    lemma DropPrev(st: State, st': State, k: nat, i: nat)
      requires k < BUCKETS == |chains| && i < |chains[k]| && ht + TABLE <= |st.m| && |st'.m| == |st.m|
      requires TableOk(st, cmp, ht, chains) && Sound(cmp) && DropStep(st, st', k, i) && i > 0 && |st'.m| == |st.m|
      requires Elsewhere(st, st', WrittenBlock(chains[k], i))
      requires var p := chains[k][i - 1].va;
        p + ENTRY <= |st.m| && Word(st'.m, p + 8) == Word(st.m, p + 8) && Word(st'.m, p + 16) == Word(st.m, p + 16)
      ensures NodeOk(st', cmp, k, chains[k][i - 1])
    {
      hide Word, StrAt, Put, Sound, Agree, Dropped, HasKey, LinkedNodes, TableOk, DropStep;
      var c := chains[k];
      var n := c[i - 1];
      DropStepIs(st, st', k, i);
      TableAt(st, cmp, ht, chains, k);
      assert NodeOk(st, cmp, k, n);
      DroppedHas(c, i, i - 1);
      StrKept(st.m, st'.m, n.kp, n.key, n.kp - 8, st.live[n.kp - 8]);
      if n.value.Some? { StrKept(st.m, st'.m, n.vp, n.value.value, n.vp - 8, st.live[n.vp - 8]); }
    }

    lemma DropStepIs(st: State, st': State, k: nat, i: nat)
      requires DropStep(st, st', k, i)
      ensures k < BUCKETS == |chains| && i < |chains[k]| && st'.live == st.live
      ensures st'.view == CutView(st.view, cmp, k, Dropped(chains[k], i)) && st'.role == CutRoles(st.role, st'.view)
    {
    }

    lemma DropRegions(st: State, st': State, k: nat, i: nat)
      requires k < BUCKETS == |chains| && i < |chains[k]| && ht + TABLE <= |st.m| && |st'.m| == |st.m|
      requires RolesShown(st) && DropStep(st, st', k, i) && |st'.m| == |st.m| && Owns(st, ht, TableBlock, TABLE)
      requires Elsewhere(st, st', WrittenBlock(chains[k], i))
      ensures Owns(st', ht, TableBlock, TABLE)
      ensures forall a :: a in st'.role && RoleKey(st'.role[a]).Some? && (i > 0 ==> a != chains[k][i - 1].va - 8) ==>
        RegionKept(st, st', a + 8)
    {
      hide Word, Put, Agree, Dropped, HasKey, DropStep;
      DropStepIs(st, st', k, i);
    }

    lemma DroppedFewer(st: State, k: nat, i: nat)
      requires TableOk(st, cmp, ht, chains) && Sound(cmp) && k < BUCKETS == |chains| && i < |chains[k]|
      ensures |CutView(st.view, cmp, k, Dropped(chains[k], i))| < |st.view|
    {
      hide TableOk, Sound, Dropped, HasKey;
      DeleteExact(st, cmp, ht, chains, k, i);
      var cut := CutView(st.view, cmp, k, Dropped(chains[k], i));
      FewerKeys(cut, st.view, chains[k][i].key);
    }

    lemma FewerKeys(a: View, b: View, key: Bytes)
      requires (forall x :: x in a ==> x in b) && key in b && key !in a
      ensures |a| < |b|
    {
      assert a.Keys <= b.Keys - {key};
      SubsetSize(a.Keys, b.Keys - {key});
      assert |a| == |a.Keys| && |b| == |b.Keys|;
    }

    lemma {:induction false} SubsetSize(x: set<Bytes>, y: set<Bytes>)
      requires x <= y
      ensures |x| <= |y|
    {
      if x != {} {
        var e :| e in x;
        SubsetSize(x - {e}, y - {e});
      }
    }

    lemma DroppedLoose(st: State, st': State, fs: Chunks, k: nat, i: nat)
      requires k < BUCKETS == |chains| && i < |chains[k]| && ht + TABLE <= |st.m| && |st'.m| == |st.m|
      requires TableOk(st, cmp, ht, chains) && Sound(cmp) && Separate(st.live, fs, |st.m|) && DropStep(st, st', k, i)
      ensures Loose(st', chains[k][i])
    {
      hide Word, StrAt, Put, Sound, Agree, Dropped, HasKey, LinkedNodes, TableOk, DropStep, Separate, CutFrom;
      DropStepIs(st, st', k, i);
      DropIs(st, st', fs, k, i);
      DeleteExact(st, cmp, ht, chains, k, i);
      TableAt(st, cmp, ht, chains, k);
      var n := chains[k][i];
      assert NodeOk(st, cmp, k, n);
      assert n.va - 8 != (if i > 0 then chains[k][i - 1].va - 8 else ht - 8) by { NotPrev(st, k, i); }
      AgreeWord2(st.m, st'.m, n.va - 8, st.live[n.va - 8], n.va);
    }

    lemma NotPrev(st: State, k: nat, i: nat)
      requires TableOk(st, cmp, ht, chains) && Sound(cmp) && k < BUCKETS == |chains| && i < |chains[k]|
      ensures chains[k][i].va != (if i > 0 then chains[k][i - 1].va else ht)
    {
      hide Word, StrAt, LinkedNodes, Sound;
      TableAt(st, cmp, ht, chains, k);
      var c := chains[k];
      assert NodeOk(st, cmp, k, c[i]);
      if i > 0 {
        assert NodeOk(st, cmp, k, c[i - 1]);
        SameSym(cmp, c[i].key, c[i].key);
        SamePosition(st, cmp, k, Head(st.m, ht, k), c, i - 1, i);
      }
    }

    lemma AgreeWord2(m: Bytes, m': Bytes, a: nat, n: nat, va: nat)
      requires Agree(m, m', a, n) && va == a + 8 && ENTRY + 8 <= n && va + ENTRY <= |m|
      ensures |m'| == |m| && Word(m', va + 8) == Word(m, va + 8) && Word(m', va + 16) == Word(m, va + 16)
    {
      hide Word;
      AgreeWord(m, m', va + 8);
      AgreeWord(m, m', va + 16);
    }

    /** The matching entry heads its chain. */
    ghost predicate Heads(key: Bytes)
      reads this
    {
      && cmp.bucket(key) < |chains| && |chains[cmp.bucket(key)]| > 0
      && cmp.same(chains[cmp.bucket(key)][0].key, key)
    }

    /** Node `i` of the bucket matches the key, and `gaps` are its regions. */
    ghost predicate Frees(live: Live, chains: seq<seq<Node>>, key: Bytes, i: nat, gaps: Chunks)
      reads this
    {
      && cmp.bucket(key) < |chains| && i < |chains[cmp.bucket(key)]| && cmp.same(chains[cmp.bucket(key)][i].key, key)
      && gaps == NodeRegions(live, chains[cmp.bucket(key)][i])
    }

    /** `ht_delete`.  `head` tells whether the deleted entry headed its chain, in which
        case as written every other entry of the bucket goes with it; `gaps` are the
        regions it frees, in order. */
    method Delete(key: Bytes, te: bool) returns (r: bool, crashed: bool, ghost head: bool, ghost gaps: Chunks)
      requires Standing()
      modifies this`chains, this`role, this`view, this`stray, pool`M, pool`fs, pool`live, pool.mem
      ensures Standing() && (crashed ==> te && !r) && (!crashed && old(Valid()) ==> Valid())
      ensures crashed && (old(Valid()) || Safely(old(pool.fs), gaps, |pool.M|)) ==> CrashState(old(pool.Full()))
      ensures old(Absent(key)) ==> !r && !crashed && view == old(view) && stray == old(stray) && pool.M == old(pool.M)
      ensures old(Absent(key)) ==> chains == old(chains) && pool.live == old(pool.live) && pool.fs == old(pool.fs)
      ensures !old(Absent(key)) && !crashed ==> r
      ensures head == old(Heads(key)) && SameLog(old(pool.M), pool.M)
      ensures forall k0 :: k0 in old(view) && cmp.same(k0, key) ==>
        view == if head then WithoutBucket(old(view), cmp, cmp.bucket(key)) else old(view) - {k0}
      ensures !crashed ==> stray + |view| + (if r then 1 else 0) == old(stray) + |old(view)|
      ensures r ==> exists i: nat ::
        Removed(old(pool.live), pool.live, old(chains), chains, cmp.bucket(key), i) && (head <==> i == 0)
      ensures !old(Absent(key)) ==> exists i: nat :: Frees(old(pool.live), old(chains), key, i, gaps)
      ensures r ==> Given(old(pool.fs), gaps)
      ensures r && old(Usable()) ==> (Usable() <==> NoDoubles(old(pool.fs), gaps))
      ensures !crashed && old(pool.Full()) ==> pool.Full()
    {
      hide Word, TableOk, Sound, Stores, Canonical, Separate, Tiled, Counts, Torn, NoMatch, CutView, WithoutBucket,
        Dropped, WithoutNode, SameLog, Given, NodeRegions, InPool, Apart, NoTouch, Pool.Full, NoDoubles, Pool.Laid;
      r, crashed, gaps := false, false, [];
      LogSelf(pool.M);
      ghost var st, fs0, chains0 := St(), pool.fs, chains;
      ValidIs();
      var hr, prev, i := FindEntry(key);
      NoMatchInView(st, cmp, ht, chains, key);
      DeleteKeys(st, key, i, hr);
      head := hr != 0 && i == 0;
      if hr == 0 { return; }
      crashed, gaps := DeleteAt(hr, prev, te, cmp.bucket(key), i);
      LogDescriptor(st.m, pool.M);
      ValidIs();
      r := !crashed;
      assert Frees(st.live, chains0, key, i, gaps);
      assert r ==> Removed(st.live, pool.live, chains0, chains, cmp.bucket(key), i);
    }

    /** Unlinking the found entry and freeing its blocks. */
    method DeleteAt(hr: nat, prev: nat, te: bool, k: nat, ghost i: nat) returns (crashed: bool, ghost gaps: Chunks)
      requires Standing() && k < BUCKETS == |chains| && i < |chains[k]| && hr == chains[k][i].va
      requires prev == (if i == 0 then 0 else chains[k][i - 1].va)
      modifies this`chains, this`role, this`view, this`stray, pool`M, pool`fs, pool`live, pool.mem
      ensures Standing() && (crashed ==> te) && SameLog(old(pool.M), pool.M)
      ensures gaps == NodeRegions(old(pool.live), old(chains)[k][i])
      ensures view == CutView(old(view), cmp, k, Dropped(old(chains)[k], i))
      ensures chains == old(chains)[k := Dropped(old(chains)[k], i)]
      ensures !crashed ==> Given(old(pool.fs), gaps) && WithoutNode(old(pool.live), pool.live, old(chains)[k][i])
      ensures !crashed ==> stray + |view| + 1 == old(stray) + |old(view)|
      ensures !crashed && Canonical(old(pool.fs), |pool.M|) ==> Canonical(pool.fs, |pool.M|)
      ensures !crashed && Apart(old(pool.fs)) ==> (Usable() <==> NoDoubles(old(pool.fs), gaps))
      ensures crashed && Safely(old(pool.fs), gaps, |pool.M|) ==>
        Torn(pool.M, pool.live, pool.fs, old(pool.Full()))
      ensures !crashed && old(pool.Full()) ==> pool.Full()
    {
      hide Word, TableOk, Sound, Stores, Canonical, Separate, Tiled, Counts, Torn, Loose, CutView, Dropped, WithoutNode,
        SameLog, Shape, ReleaseAll, NodeRegions, InPool, Apart, NoTouch, Pool.Laid, Standing, Stored, Safely, NoDoubles;
      StandingOk();
      ghost var m0, fs0, n, whole := pool.M, pool.fs, chains[k][i], pool.Full();
      gaps := NodeRegions(pool.live, n);
      DropEntry(hr, prev, k, i);
      ghost var m1 := pool.M;
      LogDescriptor(m0, m1);
      StandingOk();
      GivenNone();
      assert [] + gaps == gaps;
      crashed := FreeNode(hr, te, n, whole, fs0, []);
      LogTrans(m0, m1, pool.M);
      LogDescriptor(m0, pool.M);
      if crashed { return; }
      GivenCanonical(fs0, gaps);
      ghost var m2 := pool.M;
      CountDown();
      LogDescriptor(m2, pool.M);
      LogTrans(m0, m2, pool.M);
      if Apart(fs0) { GivenUsable(fs0, gaps); }
    }

    /** Node `i` of chain `k` is gone, as written, and so are its blocks. */
    ghost predicate Removed(live0: Live, live: Live, chains0: seq<seq<Node>>, chains: seq<seq<Node>>, k: nat, i: nat) {
      && k < |chains0| && i < |chains0[k]| && chains == chains0[k := Dropped(chains0[k], i)]
      && WithoutNode(live0, live, chains0[k][i])
    }

    /** What deleting the found node does to the map. */
    lemma DeleteKeys(st: State, key: Bytes, i: nat, hr: nat)
      requires TableOk(st, cmp, ht, chains) && Sound(cmp) && st.view == view && cmp.bucket(key) < BUCKETS == |chains|
      requires hr == 0 ==> NoMatch(cmp, chains[cmp.bucket(key)], key)
      requires hr != 0 ==> i < |chains[cmp.bucket(key)]| && cmp.same(chains[cmp.bucket(key)][i].key, key)
      ensures hr == 0 ==> Absent(key) && !Heads(key)
      ensures hr != 0 ==> !Absent(key) && (Heads(key) <==> i == 0)
      ensures hr != 0 ==> var c := chains[cmp.bucket(key)];
        && (forall k0 :: k0 in view && cmp.same(k0, key) ==> k0 == c[i].key)
        && CutView(view, cmp, cmp.bucket(key), Dropped(c, i)) ==
             (if i == 0 then WithoutBucket(view, cmp, cmp.bucket(key)) else view - {c[i].key})
    {
      hide Word, StrAt, TableOk, Sound, CutView, WithoutBucket, Dropped, ChainOk;
      NoMatchInView(st, cmp, ht, chains, key);
      if hr != 0 {
        var k := cmp.bucket(key);
        var c := chains[k];
        FoundKey(st, key, i);
        DeleteExact(st, cmp, ht, chains, k, i);
        if Heads(key) {
          TableAt(st, cmp, ht, chains, k);
          TableBounds(st, cmp, ht, chains);
          SameSym(cmp, c[i].key, key);
          SameTrans(cmp, c[0].key, key, c[i].key);
          SameSym(cmp, c[0].key, c[i].key);
          SamePosition(st, cmp, k, Head(st.m, ht, k), c, 0, i);
        }
      }
    }

    /** The regions of a node's blocks, in the order in which they are freed. */
    ghost function NodeRegions(live: Live, n: Node): Chunks {
      Region(live, n.kp) + Region(live, n.vp) + Region(live, n.va)
    }

    lemma GivenCanonical(fs0: Chunks, gaps: Chunks)
      requires Given(fs0, gaps)
      ensures Canonical(fs0, |pool.M|) ==> Canonical(pool.fs, |pool.M|)
      ensures InPool(fs0, |pool.M|) && Apart(fs0) && NoTouch(fs0) ==> Canonical(pool.fs, |pool.M|)
    {
      hide InPool, Apart, NoTouch, Twice, Crisp, ReleaseAll, NoDoubles;
    }

    /** The table stays usable exactly if no free counts a chunk twice. */
    lemma GivenUsable(fs0: Chunks, gaps: Chunks)
      requires Standing() && Given(fs0, gaps) && Apart(fs0)
      ensures Usable() <==> NoDoubles(fs0, gaps)
    {
      hide Standing, InPool, Apart, NoTouch, Twice, Crisp, ReleaseAll, NoDoubles;
    }

    /** The three frees of a deleted entry, after `gaps`. */
    method FreeNode(hr: nat, te: bool, ghost n: Node, ghost whole: bool, ghost fs0: Chunks, ghost gaps: Chunks)
      returns (crashed: bool)
      requires Standing() && (whole ==> pool.Full()) && Loose(St(), n) && hr == n.va && Given(fs0, gaps)
      modifies pool`M, pool`fs, pool`live, pool.mem
      ensures Standing() && (crashed ==> te) && (!crashed && whole ==> pool.Full()) && SameLog(old(pool.M), pool.M)
      ensures !crashed ==> WithoutNode(old(pool.live), pool.live, n)
      ensures !crashed ==> Given(fs0, gaps + NodeRegions(old(pool.live), n))
      ensures crashed && Safely(fs0, gaps + NodeRegions(old(pool.live), n), |pool.M|) ==>
        Torn(pool.M, pool.live, pool.fs, whole)
    {
      hide Word, TableOk, Sound, Stores, Canonical, Separate, Tiled, Counts, Torn, Loose, Preserves, Stamped, Pool.Full,
        Stored, SameLog, Given, Safely, Pool.Laid;
      StandingOk();
      ghost var st0 := St();
      LooseReads(st0, n);
      LooseRegions(st0, n);
      ghost var k, v, e := Region(st0.live, n.kp), Region(st0.live, n.vp), Region(st0.live, n.va);
      SafeNode(fs0, gaps, st0.live, n, |st0.m|);
      var kp := pool.Load(hr + 8);
      crashed := Release(kp, te, whole, fs0, gaps);
      if crashed { return; }
      LooseValue(st0, St(), n);
      ghost var live1 := pool.live;
      ghost var m1 := pool.M;
      crashed := FreeValue(hr, te, n, whole, fs0, gaps + k);
      LogTrans(st0.m, m1, pool.M);
      assert gaps + k + v + e == gaps + NodeRegions(st0.live, n);
      if !crashed { FreedThree(st0.live, live1, pool.live, n); }
    }

    /** The blocks' regions are the same after the key's is freed. */
    lemma LooseRegions(st: State, n: Node)
      requires Loose(st, n)
      ensures n.kp >= 8 && var live := st.live - {n.kp - 8};
        Region(live, n.vp) == Region(st.live, n.vp) && Region(live, n.va) == Region(st.live, n.va)
    {
    }

    lemma SafeNode(fs0: Chunks, gaps: Chunks, live: Live, n: Node, m: nat)
      ensures Safely(fs0, gaps + NodeRegions(live, n), m) ==>
        && Safely(fs0, gaps + Region(live, n.kp) + Region(live, n.vp) + Region(live, n.va), m)
        && Safely(fs0, gaps, m)
    {
      hide Safely, Region;
      var k, v, e := Region(live, n.kp), Region(live, n.vp), Region(live, n.va);
      assert gaps + NodeRegions(live, n) == gaps + k + v + e;
      if Safely(fs0, gaps + k + v + e, m) {
        SafeLess(fs0, gaps + k + v, live, n.va, m);
        SafeLess(fs0, gaps + k, live, n.vp, m);
        SafeLess(fs0, gaps, live, n.kp, m);
      }
    }

    /** Nothing of node `n` is in use any more. */
    ghost predicate WithoutNode(live0: Live, live: Live, n: Node) {
      forall a :: a in live ==> a in live0 && a != n.va - 8 && a != n.kp - 8 && (n.vp != 0 ==> a != n.vp - 8)
    }

    ghost predicate WithoutRest(live0: Live, live: Live, n: Node) {
      forall a :: a in live ==> a in live0 && a != n.va - 8 && (n.vp != 0 ==> a != n.vp - 8)
    }

    lemma FreedTwo(live0: Live, live1: Live, live: Live, n: Node)
      requires n.va >= 8 && live1 == (if n.vp == 0 then live0 else live0 - {n.vp - 8}) && live == live1 - {n.va - 8}
      ensures WithoutRest(live0, live, n)
    {
    }

    lemma FreedThree(live0: Live, live1: Live, live: Live, n: Node)
      requires n.kp >= 8 && live1 == live0 - {n.kp - 8}
      requires WithoutRest(live1, live, n)
      ensures WithoutNode(live0, live, n)
    {
    }

    /** An entry whose key has been freed. */
    ghost predicate HalfLoose(st: State, n: Node) {
      && n.va + ENTRY <= |st.m| && Word(st.m, n.va + 16) == n.vp && Stamped(st.m, st.live, n.va) && n.va - 8 !in st.role
      && (n.vp != 0 ==> Stamped(st.m, st.live, n.vp) && n.vp - 8 !in st.role && n.vp != n.va)
    }

    /** Freeing the value and then the entry, after `gaps`. */
    method FreeValue(hr: nat, te: bool, ghost n: Node, ghost whole: bool, ghost fs0: Chunks, ghost gaps: Chunks)
      returns (crashed: bool)
      requires Standing() && (whole ==> pool.Full()) && HalfLoose(St(), n) && hr == n.va && Given(fs0, gaps)
      modifies pool`M, pool`fs, pool`live, pool.mem
      ensures Standing() && (crashed ==> te) && (!crashed && whole ==> pool.Full()) && SameLog(old(pool.M), pool.M)
      ensures !crashed ==> WithoutRest(old(pool.live), pool.live, n)
      ensures var gaps' := gaps + Region(old(pool.live), n.vp) + Region(old(pool.live), n.va);
        && (!crashed ==> Given(fs0, gaps'))
        && (crashed && Safely(fs0, gaps', |pool.M|) ==> Torn(pool.M, pool.live, pool.fs, whole))
    {
      hide Word, TableOk, Sound, Stores, Canonical, Separate, Tiled, Counts, Torn, Preserves, Stamped, Pool.Full,
        WithoutRest, SameLog, Given, Safely, Pool.Laid, Standing;
      StandingOk();
      ghost var st1 := St();
      HalfRegions(st1, n);
      ghost var v, e := Region(st1.live, n.vp), Region(st1.live, n.va);
      if Safely(fs0, gaps + v + e, |st1.m|) {
        SafeLess(fs0, gaps + v, st1.live, n.va, |st1.m|);
        SafeLess(fs0, gaps, st1.live, n.vp, |st1.m|);
      }
      var vp := pool.Load(hr + 16);
      crashed := Release(vp, te, whole, fs0, gaps);
      if crashed { return; }
      LooseEntry(st1, St(), n);
      ghost var live1 := pool.live;
      ghost var m2 := pool.M;
      crashed := Release(hr, te, whole, fs0, gaps + v);
      LogTrans(st1.m, m2, pool.M);
      FreedTwo(st1.live, live1, pool.live, n);
    }

    /** The entry's region is the same after the value's is freed. */
    lemma HalfRegions(st: State, n: Node)
      requires HalfLoose(st, n)
      ensures n.va + ENTRY <= |st.m| && Word(st.m, n.va + 16) == n.vp
      ensures n.vp != 0 ==> Stamped(st.m, st.live, n.vp) && n.vp - 8 !in st.role && n.vp >= 8
      ensures var live := if n.vp == 0 then st.live else st.live - {n.vp - 8};
        Region(live, n.va) == Region(st.live, n.va)
    {
    }

    lemma LooseReads(st: State, n: Node)
      requires Loose(st, n)
      ensures n.va + ENTRY <= |st.m| && Word(st.m, n.va + 8) == n.kp && Stamped(st.m, st.live, n.kp)
      ensures n.kp - 8 !in st.role
      ensures n.kp != 0 && n.kp >= 8
    {
    }

    lemma LooseValue(st: State, st': State, n: Node)
      requires Loose(st, n) && n.kp >= 8 && st'.live == st.live - {n.kp - 8} && st'.role == st.role
      requires Preserves(st.m, st'.live, st'.m, st'.live)
      ensures HalfLoose(st', n)
    {
      hide Word;
      assert n.va - 8 in st'.live && (n.vp != 0 ==> n.vp - 8 in st'.live);
      AgreeWord2(st.m, st'.m, n.va - 8, st.live[n.va - 8], n.va);
      AgreeWord(st.m, st'.m, n.va - 8);
      if n.vp != 0 { AgreeWord(st.m, st'.m, n.vp - 8); }
    }

    lemma LooseEntry(st: State, st': State, n: Node)
      requires HalfLoose(st, n) && st'.role == st.role
      requires st'.live == if n.vp == 0 then st.live else st.live - {n.vp - 8}
      requires Preserves(st.m, st'.live, st'.m, st'.live)
      ensures n.va >= 8 && Stamped(st'.m, st'.live, n.va) && n.va - 8 !in st'.role
    {
      hide Word;
      assert n.va - 8 in st'.live;
      StampedWord(st.m, st'.m, st'.live, n.va);
    }

    lemma StampedWord(m: Bytes, m': Bytes, live: Live, p: nat)
      requires DESC + 8 <= p <= |m| && p - 8 in live && Preserves(m, live, m', live) && Word(m, p - 8) == live[p - 8]
      requires live[p - 8] >= 8
      ensures |m'| == |m| && Word(m', p - 8) == live[p - 8]
    {
      hide Word;
      AgreeWord(m, m', p - 8);
    }

    /** `ht->size -= 1`. */
    method CountDown()
      requires Standing() && stray > 0
      modifies this`stray, pool`M, pool.mem
      ensures Standing() && stray == old(stray) - 1 && SameLog(old(pool.M), pool.M)
    {
      hide Word, Put, TableOk, Sound, Stores, Canonical, Separate, Counts;
      ghost var st := St();
      PoolTable(st);
      var size := pool.Load(ht);
      pool.Poke(ht - 8, ht, (size + LIMIT - 1) % LIMIT);
      PutLog(st.m, ht, (size + LIMIT - 1) % LIMIT);
      CountsLess(size, |view| + stray);
      CountedDown(st, St(), pool.fs, (size + LIMIT - 1) % LIMIT);
      stray := stray - 1;
    }

    lemma CountsLess(size: nat, n: nat)
      requires Counts(size, n) && n > 0
      ensures Counts((size + LIMIT - 1) % LIMIT, n - 1)
    {
    }

    lemma CountedDown(st: State, st': State, fs: Chunks, v: nat)
      requires TableOk(st, cmp, ht, chains) && Separate(st.live, fs, |st.m|) && ht + TABLE <= |st.m| < LIMIT
      requires v < LIMIT
      requires st' == st.(m := Put(st.m, ht, v))
      ensures TableOk(st', cmp, ht, chains) && Word(st'.m, ht) == v
    {
      hide Word, Put, ChainOk, Agree, Outside, Separate;
      PokedElsewhere(st.m, st'.m, fs, st.live, ht - 8);
      SizePoked(st, st', cmp, ht, chains);
    }
  }
}
