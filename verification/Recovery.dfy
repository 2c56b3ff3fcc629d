/** Repairing a pool: replaying the log, then checking the memory and giving
    back everything that the table cannot reach. */
module Recovery {
  import opened Memory
  import opened FreeList
  import opened Links
  import opened Regions
  import opened Allocation
  import opened Pools
  import opened UsageMaps
  import opened Acceptance
  import opened LeakScan
  import opened Marking
  import opened Tables
  import opened Health
  import opened Checking
  import opened Repair
  import opened TableSteps
  import opened HashTables
  import opened Sweeping

  /* ---- Tables the check can read ---- */

  /** No update of a value has failed. */
  ghost predicate Filled(view: View) {
    forall key :: key in view ==> view[key].Some?
  }

  lemma {:induction false} FlatNodesFrom(chains: seq<seq<Node>>, x: nat) returns (k: nat, i: nat)
    requires x < |FlatNodes(chains)|
    ensures k < |chains| && i < |chains[k]| && chains[k][i] == FlatNodes(chains)[x]
  {
    var init := chains[..|chains| - 1];
    if x < |FlatNodes(init)| {
      k, i := FlatNodesFrom(init, x);
    } else {
      k, i := |chains| - 1, x - |FlatNodes(init)|;
    }
  }

  lemma FilledFull(st: State, cmp: Matching, ht: nat, chains: seq<seq<Node>>)
    requires TableOk(st, cmp, ht, chains) && Filled(st.view)
    ensures Full(FlatNodes(chains))
  {
    hide Word, FlatNodes, TableOk, ChainOk;
    TableFits(st, cmp, ht, chains);
    forall x | 0 <= x < |FlatNodes(chains)|
      ensures FlatNodes(chains)[x].value.Some?
    {
      var k, i := FlatNodesFrom(chains, x);
      TableAt(st, cmp, ht, chains, k);
      ChainNode(st, cmp, k, Head(st.m, ht, k), chains[k], i);
    }
  }

  /** The check can read all the table leads to exactly if no value was lost: an entry
      whose value is lost has a null pointer, which it follows out of the pool. */
  lemma FilledReadable(st: State, fs: Chunks, cmp: Matching, ht: nat, chains: seq<seq<Node>>)
    requires Sound(cmp) && TableOk(st, cmp, ht, chains) && Separate(st.live, fs, |st.m|) && DESC <= |st.m| < LIMIT
    ensures Filled(st.view) <==> EntriesOk(st.m, Flat(Vas(chains)))
  {
    hide Word, FlatNodes, TableOk, Sound, Separate, EntriesOk, Flat, Full;
    if Filled(st.view) {
      FilledFull(st, cmp, ht, chains);
      TableChains(st, fs, cmp, ht, chains);
    } else {
      var key :| key in st.view && st.view[key] == None;
      var k, i := KeyNode(st, cmp, ht, chains, key);
      EntryLost(st, cmp, ht, chains, k, i);
    }
  }

  lemma KeyNode(st: State, cmp: Matching, ht: nat, chains: seq<seq<Node>>, key: Bytes) returns (k: nat, i: nat)
    requires TableOk(st, cmp, ht, chains) && key in st.view
    ensures k < BUCKETS == |chains| && i < |chains[k]| && chains[k][i].key == key && ht + TABLE <= |st.m|
    ensures NodeOk(st, cmp, k, chains[k][i])
  {
    hide Word, NodeOk, LinkedNodes, Owns;
    k := cmp.bucket(key);
    i :| 0 <= i < |chains[k]| && chains[k][i].key == key;
    assert ChainOk(st, cmp, k, Head(st.m, ht, k), chains[k]);
  }

  lemma EntryLost(st: State, cmp: Matching, ht: nat, chains: seq<seq<Node>>, k: nat, i: nat)
    requires k < |chains| && i < |chains[k]| && NodeOk(st, cmp, k, chains[k][i]) && st.view[chains[k][i].key] == None
    ensures !EntriesOk(st.m, Flat(Vas(chains)))
  {
    hide Word, Flat, Owns, StrAt;
    var ch := Vas(chains);
    assert ch[k][i] == chains[k][i].va;
    FlatHas(ch, k, i);
    var x :| 0 <= x < |Flat(ch)| && Flat(ch)[x] == ch[k][i];
    assert !EntryOk(st.m, Flat(ch)[x]);
  }

  ghost function StartsOf(t: HashTable): set<int>
    reads t
  {
    Starts(t.ht, FlatNodes(t.chains))
  }

  /** An intact table beside a stored list of chunks that lie off all used regions
      and are apart or share a whole header. */
  ghost predicate Intact(t: HashTable)
    reads t, t.pool, t.pool.mem
  {
    t.Stored() && t.pool.Chained() && Crisp(t.pool.fs) && Separate(t.pool.live, t.pool.fs, |t.pool.M|) && Filled(t.view)
  }

  /** The chunks are apart, and what is neither free nor reached is roomy: the check succeeds. */
  ghost predicate Mendable(t: HashTable)
    reads t, t.pool, t.pool.mem
  {
    Intact(t) && Apart(t.pool.fs) && Spacious(t.pool.live, t.pool.fs, StartsOf(t), |t.pool.M|)
  }

  /** A chunk is counted twice: the check rejects the pool. */
  ghost predicate Doubled(t: HashTable)
    reads t, t.pool, t.pool.mem
  {
    Intact(t) && Twice(t.pool.fs)
  }

  /** What operations start from: a valid table without lost values, and a pool in
      which every byte is accounted for but crumbs. */
  ghost predicate Checkable(t: HashTable)
    reads t, t.pool, t.pool.mem
  {
    t.Valid() && Filled(t.view) && Crumbled(t.pool.live, t.pool.fs, |t.pool.M|)
  }

  lemma CheckableMendable(t: HashTable)
    requires Checkable(t)
    ensures Mendable(t)
  {
    hide HashTable.Usable, HashTable.Valid, Crumbled, Filled, Mendable;
    t.ValidIs();
    CrumbledMendable(t);
  }

  lemma CrumbledMendable(t: HashTable)
    requires t.Usable() && Filled(t.view) && Crumbled(t.pool.live, t.pool.fs, |t.pool.M|)
    ensures Mendable(t)
  {
    hide Word, TableOk, Sound, Stores, Separate, Counts, Crumbled, Filled, Starts, FlatNodes, Apart, NoTouch, InPool,
      Spacious, Crisp;
    CrumbledSpacious(t.pool.live, t.pool.fs, StartsOf(t), |t.pool.M|);
    CrispEither(t.pool.fs);
  }

  lemma MendableCheckable(t: HashTable)
    requires Intact(t) && Canonical(t.pool.fs, |t.pool.M|) && Crumbled(t.pool.live, t.pool.fs, |t.pool.M|)
    ensures Checkable(t)
  {
    hide Word, TableOk, Sound, Stores, Separate, Counts, Crumbled, Filled, Apart, NoTouch, InPool, Crisp;
  }

  lemma IntactParts(t: HashTable)
    requires Intact(t)
    ensures t.pool.Sync() && Sound(t.cmp) && TableOk(t.St(), t.cmp, t.ht, t.chains) && Filled(t.view)
    ensures Stores(t.pool.M, t.pool.fs) && InPool(t.pool.fs, |t.pool.M|) && DESC <= |t.pool.M| < LIMIT
    ensures Word(t.pool.M, TOTAL_SIZE) + DESC == |t.pool.M| && Separate(t.pool.live, t.pool.fs, |t.pool.M|)
    ensures t.ht + TABLE <= |t.pool.M| && Counts(Word(t.pool.M, t.ht), |t.view| + t.stray) && Full(FlatNodes(t.chains))
    ensures Crisp(t.pool.fs) && (Doubled(t) <==> !Apart(t.pool.fs))
  {
    hide Word, ChainOk, Stores, Separate, Sound, FlatNodes, Full, Filled, InPool, Owns, HasKey, Crisp, Apart, Twice;
    FilledFull(t.St(), t.cmp, t.ht, t.chains);
    CrispEither(t.pool.fs);
  }

  lemma IntactIs(t: HashTable)
    requires t.pool.Sync() && Sound(t.cmp) && TableOk(t.St(), t.cmp, t.ht, t.chains) && Filled(t.view)
    requires Stores(t.pool.M, t.pool.fs) && InPool(t.pool.fs, |t.pool.M|)
    requires Word(t.pool.M, TOTAL_SIZE) + DESC == |t.pool.M| && Separate(t.pool.live, t.pool.fs, |t.pool.M|)
    requires t.ht + TABLE <= |t.pool.M| && Counts(Word(t.pool.M, t.ht), |t.view| + t.stray) && Crisp(t.pool.fs)
    ensures Intact(t)
  {
  }

  lemma CheckableCanonical(t: HashTable)
    requires Checkable(t)
    ensures Canonical(t.pool.fs, |t.pool.M|)
  {
  }

  lemma ApartOk(t: HashTable)
    requires Intact(t) && Apart(t.pool.fs)
    ensures PoolOk(t.St(), t.pool.fs, t.cmp, t.ht, t.chains) && !Doubled(t)
  {
    hide Word, TableOk, Stores, Separate, Sound, FlatNodes, Full, Filled, InPool, Counts, Apart, Twice, Starts;
    IntactParts(t);
  }

  /** The ghost inputs the checker needs. */
  lemma CheckInputs(st: State, fs: Chunks, cmp: Matching, ht: nat, chains: seq<seq<Node>>)
    requires Sound(cmp) && TableOk(st, cmp, ht, chains) && Full(FlatNodes(chains)) && Separate(st.live, fs, |st.m|)
    requires Stores(st.m, fs) && InPool(fs, |st.m|) && Word(st.m, TOTAL_SIZE) + DESC == |st.m|
    ensures FreeReadable(st.m, FreeOffs(fs)) && Linked(st.m, fs) && Word(st.m, 8) == 0
    ensures TableClosed(st.m, ht, EntryOffs(Flat(Vas(chains)))) && EntriesClosed(st.m, EntryOffs(Flat(Vas(chains))))
    ensures DESC <= |st.m| < LIMIT && Ends(st.m, ht)
  {
    hide Word, FlatNodes, Flat, FreeOffs, EntryOffs, Chain, EntriesOk, TableOk, Linked, FreeReadable, TableClosed,
      EntriesClosed, PointerOk, Full, InPool, Sound, Separate, Chains, Heads, Ends, Idle;
    StoresOffs(st.m, fs);
    StoresLinked(st.m, fs);
    FreeOffsClosed(st.m, fs);
    TableChains(st, fs, cmp, ht, chains);
    EntryOffsClosed(st.m, ht, Vas(chains));
    EntriesBusy(st, fs, cmp, ht, chains);
    BusyEnds(st.m, FreeOffs(fs), ht, EntryOffs(Flat(Vas(chains))));
  }

  /** The blocks of the entries are marked. */
  lemma EntriesBusy(st: State, fs: Chunks, cmp: Matching, ht: nat, chains: seq<seq<Node>>)
    requires Sound(cmp) && TableOk(st, cmp, ht, chains) && Separate(st.live, fs, |st.m|) && |st.m| < LIMIT
    ensures forall e :: e in EntryOffs(Flat(Vas(chains))) && 8 <= e <= |st.m| ==> !Idle(Block(st.m, e))
  {
    hide Word, TableOk, Sound, FlatNodes, Outside, Flat, NodesOk, Idle;
    TableNodes(st, cmp, ht, chains, BUCKETS);
    assert |chains| == BUCKETS && chains[..BUCKETS] == chains by { TableFits(st, cmp, ht, chains); }
    FlatVas(chains);
    forall e | e in EntryOffs(Flat(Vas(chains))) && 8 <= e <= |st.m|
      ensures !Idle(Block(st.m, e))
    {
      var x :| 0 <= x < |Flat(Vas(chains))| && Flat(Vas(chains))[x] == e;
      EntryBusy(st, fs, FlatNodes(chains), x);
    }
  }

  lemma EntryBusy(st: State, fs: Chunks, ns: seq<Node>, x: nat)
    requires NodesOk(st, ns) && x < |ns| && Separate(st.live, fs, |st.m|) && |st.m| < LIMIT
    ensures 8 <= ns[x].va <= |st.m| && !Idle(Block(st.m, ns[x].va))
  {
    hide Word, Outside, StrAt;
    assert NodeBlocks(st, ns[x]);
  }

  /** On separate chunks the marking finds what is there, and where a chunk is
      counted twice it finds nothing. */
  lemma CheckFinds(t: HashTable)
    requires Intact(t)
    ensures Scannable(t.pool.M, t.ht)
    ensures !Doubled(t) ==> Healthy(t.pool.M, t.ht, t.pool.fs, Vas(t.chains))
    ensures Doubled(t) ==> forall fs, ch, marks :: !Found(t.pool.M, t.ht, fs, ch, marks)
  {
    hide Word, TableOk, Stores, Separate, Sound, FlatNodes, Full, Filled, InPool, Counts, Apart, Twice, Crisp,
      Healthy, Found, Linked, PoolOk, Intact;
    IntactParts(t);
    StoresLinked(t.pool.M, t.pool.fs);
    if Doubled(t) {
      forall fs, ch, marks ensures !Found(t.pool.M, t.ht, fs, ch, marks) {
        TwiceRejected(t.pool.M, t.ht, t.pool.fs, fs, ch, marks);
      }
    } else {
      ApartOk(t);
      PoolHealthy(t.St(), t.pool.fs, t.cmp, t.ht, t.chains);
      forall fs: Chunks, ch, marks | Found(t.pool.M, t.ht, fs, ch, marks)
        ensures InPool(fs, |t.pool.M|)
      {
        FoundIs(t.St(), t.pool.fs, t.cmp, t.ht, t.chains, fs, ch, marks);
      }
    }
  }

  /** The table after a check that swept all or some of the leaked regions. */
  lemma SweptStored(t: HashTable, st0: State, fs0: Chunks, fs: Chunks, marks: set<int>, gaps: Chunks, starts: set<int>)
    requires TableOk(st0, t.cmp, t.ht, t.chains) && Sound(t.cmp) && starts == StartsOf(t) && DESC <= |st0.m|
    requires Swept(st0.m, t.pool.M, st0.live, fs0, fs, gaps, marks, starts) && t.pool.Sync() && InPool(fs0, |st0.m|)
    requires Counts(Word(st0.m, t.ht), |st0.view| + t.stray)
    requires t.St() == State(t.pool.M, Reached(st0.live, starts), ReachedRoles(st0.role, starts), st0.view)
    ensures t.Stored() && |t.pool.M| == |st0.m| && SameLog(st0.m, t.pool.M)
    ensures Separate(t.pool.live, fs, |t.pool.M|)
  {
    hide Word, TableOk, Sound, Starts, FlatNodes, Reached, ReachedRoles, Separate, Counts, Covers, Swept, InPool, Agree;
    SweptTable(st0, t.pool.M, t.cmp, t.ht, t.chains, fs0, fs, gaps, marks);
    SweptKeeps(st0.m, t.pool.M, st0.live, fs0, fs, gaps, marks, starts);
    SweptDescriptor(st0.m, t.pool.M, st0.live, fs0, fs, gaps, marks, starts);
  }

  lemma TotalKept(m: Bytes, m': Bytes)
    requires SameLog(m, m') && DESC <= |m| && Word(m, TOTAL_SIZE) + DESC == |m|
    ensures |m'| == |m| && Word(m', TOTAL_SIZE) + DESC == |m'|
  {
    hide Word;
    AgreeWord(m, m', TOTAL_SIZE);
  }

  /** The table after a check that ended. */
  lemma CheckEnded(t: HashTable, st0: State, fs0: Chunks, marks: set<int>, gaps: Chunks, starts: set<int>)
    requires TableOk(st0, t.cmp, t.ht, t.chains) && Sound(t.cmp) && starts == StartsOf(t) && DESC <= |st0.m|
    requires Done(t.pool, st0.m, fs0, marks, gaps) && Scanned(marks, |st0.m|, |st0.m| + 1, gaps)
    requires Exact(marks, st0.live, fs0, starts) && Separate(st0.live, fs0, |st0.m|)
    requires InPool(fs0, |st0.m|) && Apart(fs0) && Crisp(fs0)
    requires Counts(Word(st0.m, t.ht), |st0.view| + t.stray) && Filled(st0.view)
    requires t.St() == State(t.pool.M, Reached(st0.live, starts), ReachedRoles(st0.role, starts), st0.view)
    ensures Intact(t) && t.pool.fs == ReleaseAll(fs0, gaps) && |t.pool.M| == |st0.m| && SameLog(st0.m, t.pool.M)
    ensures Doubled(t) <==> !NoDoubles(fs0, gaps)
    ensures Spacious(st0.live, fs0, starts, |st0.m|) ==>
      && Crumbled(t.pool.live, t.pool.fs, |t.pool.M|) && (NoDoubles(fs0, gaps) ==> Mendable(t))
      && (Canonical(fs0, |st0.m|) ==> Checkable(t))
    ensures Canonical(fs0, |st0.m|) ==> NoDoubles(fs0, gaps)
    ensures forall b ::
      DESC <= b < |t.pool.M| ==> (Covers(t.pool.fs, b) || Used(t.pool.live, b) <==> !Late(marks, |t.pool.M|, b))
  {
    hide Word, TableOk, Sound, Starts, FlatNodes, Reached, ReachedRoles, Separate, Counts, Covers, Swept, InPool,
      Done, Scanned, Exact, Spacious, Stores, Crumbled, Filled, Used, Late, Apart, Twice, NoDoubles, SameLog,
      ReleaseAll, NoTouch, Crisp;
    SweptDone(t.pool, st0.m, st0.live, fs0, marks, gaps, starts);
    SweptStored(t, st0, fs0, t.pool.fs, marks, gaps, starts);
    assert t.pool.Chained() && GaveBack(fs0, t.pool.fs, gaps) by { DoneGave(t.pool, st0.m, fs0, marks, gaps); }
    SweptTiles(st0.live, fs0, t.pool.fs, gaps, marks, starts, |st0.m|);
    CrispEither(t.pool.fs);
    assert Intact(t);
    if Canonical(fs0, |st0.m|) && Crumbled(t.pool.live, t.pool.fs, |t.pool.M|) { MendableCheckable(t); }
  }

  lemma BrokenShape(p: Pool, m0: Bytes, fs0: Chunks, marks: set<int>, gaps: Chunks, at: Chunk)
    requires Broken(p, m0, fs0, marks, gaps, at)
    ensures Canonical(fs0, |m0|) ==> NoDoubles(fs0, gaps)
  {
    hide Stores, KeptMarked, IsRun, GaveBack, AllRuns, Outside, ReleaseCrash, NoDoubles, ReleaseAll, InPool, NoTouch,
      Apart;
    assert Shape(fs0, ReleaseAll(fs0, gaps), gaps, |m0|);
  }

  lemma DoneGave(p: Pool, m0: Bytes, fs0: Chunks, marks: set<int>, gaps: Chunks)
    requires Done(p, m0, fs0, marks, gaps)
    ensures p.Chained() && GaveBack(fs0, p.fs, gaps)
  {
  }

  /** The table after a check that crashed. */
  lemma CheckCrashed(t: HashTable, st0: State, fs0: Chunks, marks: set<int>, gaps: Chunks, at: Chunk, starts: set<int>)
    requires TableOk(st0, t.cmp, t.ht, t.chains) && Sound(t.cmp) && starts == StartsOf(t) && DESC <= |st0.m|
    requires Broken(t.pool, st0.m, fs0, marks, gaps, at) && Word(st0.m, TOTAL_SIZE) + DESC == |st0.m|
    requires Exact(marks, st0.live, fs0, starts) && Separate(st0.live, fs0, |st0.m|)
    requires InPool(fs0, |st0.m|) && Apart(fs0) && Crisp(fs0)
    requires Counts(Word(st0.m, t.ht), |st0.view| + t.stray) && Filled(st0.view)
    requires t.St() == State(t.pool.M, Reached(st0.live, starts), ReachedRoles(st0.role, starts), st0.view)
    ensures Intact(t) && |t.pool.M| == |st0.m| && SameLog(st0.m, t.pool.M)
    ensures Interrupted(marks, |st0.m|, fs0, gaps, at, t.pool.fs)
    ensures Spacious(st0.live, fs0, starts, |st0.m|) ==>
      if !NoDoubles(fs0, gaps) || CountedTwice(ReleaseAll(fs0, gaps), at.off, at.size, t.pool.fs) then Doubled(t)
      else Mendable(t)
    ensures Canonical(fs0, |st0.m|) ==> NoDoubles(fs0, gaps)
  {
    hide Word, TableOk, Sound, Starts, FlatNodes, Reached, ReachedRoles, Separate, Counts, Swept, InPool, Canonical,
      Broken, Exact, Spacious, Stores, Filled, Apart, Twice, NoDoubles, SameLog, ReleaseAll, CountedTwice, Crisp,
      Interrupted;
    BrokenInterrupted(t.pool, st0.m, fs0, marks, gaps, at);
    SweptBroken(t.pool, st0.m, st0.live, fs0, marks, gaps, at, starts);
    SweptStored(t, st0, fs0, ReleaseAll(fs0, gaps), marks, gaps, starts);
    BrokenCrisp(t.pool, st0.m, st0.live, fs0, marks, gaps, at, starts);
    TotalKept(st0.m, t.pool.M);
    BrokenShape(t.pool, st0.m, fs0, marks, gaps, at);
    if Spacious(st0.live, fs0, starts, |st0.m|) {
      BrokenList(t.pool, st0.m, st0.live, fs0, marks, gaps, at, starts);
    }
  }

  lemma ExactIs(marks: set<int>, live: Live, fs: Chunks, starts: set<int>)
    requires forall b :: b in marks <==> Marked(live, fs, starts, b)
    ensures Exact(marks, live, fs, starts)
  {
  }

  /** Nothing leaked, nothing given back. */
  lemma NothingGiven(p: Pool, st0: State, fs0: Chunks, marks: set<int>, gaps: Chunks, at: Chunk, starts: set<int>,
      crashed: bool)
    requires Exact(marks, st0.live, fs0, starts)
    requires if crashed then Broken(p, st0.m, fs0, marks, gaps, at)
      else Done(p, st0.m, fs0, marks, gaps) && Scanned(marks, |st0.m|, |st0.m| + 1, gaps)
    ensures NoLeaks(st0.live, starts) && Tiled(st0.live, fs0, |st0.m|) ==> !crashed && p.M == st0.m && p.fs == fs0
  {
    hide Word, Stores, Canonical, Scanned, Exact, Covers, KeptMarked, IsRun, AllMarked, Tiled, NoLeaks, ReleaseCrash,
      Outside, Shape, AllRuns, AllRoom;
    if NoLeaks(st0.live, starts) && Tiled(st0.live, fs0, |st0.m|) {
      AllReached(marks, st0.live, fs0, starts, |st0.m|);
      if !crashed { FullNoGaps(marks, |st0.m|, gaps); }
    }
  }

  /** `ht_check_memory` on an intact table.  It rejects the pool, untouched, if a chunk
      is counted twice.  Otherwise it ends `short` if some unmarked run has no room
      for a chunk header, where the model stops, and else succeeds: afterwards
      exactly the blocks that the table reaches are in use and every byte is free or
      reached but those the scan stepped over; the chunks are still apart unless a
      give-back doubled the list head.  A process that dies in the scan leaves the
      table intact, and the list such that all this holds for the next check. */
  method CheckTable(t: HashTable, te: bool)
    returns (r: bool, crashed: bool, short: bool, ghost marks: set<int>, ghost gaps: Chunks, ghost at: Chunk)
    requires Intact(t)
    modifies t`role, t.pool`M, t.pool`fs, t.pool`live, t.pool.mem
    ensures (crashed ==> te && !r && !short) && (r ==> !short)
    ensures !short ==> |t.pool.M| == |old(t.pool.M)| && SameLog(old(t.pool.M), t.pool.M) && Intact(t)
    // a chunk is counted twice
    ensures old(Doubled(t)) ==>
      !r && !crashed && !short && Doubled(t) && t.pool.M == old(t.pool.M) && t.pool.fs == old(t.pool.fs)
    ensures old(Doubled(t)) ==> t.pool.live == old(t.pool.live) && t.role == old(t.role)
    // the chunks are apart
    ensures !old(Doubled(t)) ==> (r || crashed || short) && Exact(marks, old(t.pool.live), old(t.pool.fs), StartsOf(t))
    ensures !old(Doubled(t)) && !crashed ==> (short <==> !Roomy(marks, |old(t.pool.M)|, old(t.pool.fs)))
    ensures !old(Doubled(t)) && !short ==> t.pool.live == Reached(old(t.pool.live), StartsOf(t))
    ensures short ==> t.pool.live == old(t.pool.live)
    ensures crashed ==> Interrupted(marks, |t.pool.M|, old(t.pool.fs), gaps, at, t.pool.fs)
    ensures r ==> t.pool.fs == ReleaseAll(old(t.pool.fs), gaps) && Scanned(marks, |t.pool.M|, |t.pool.M| + 1, gaps)
    ensures r ==> (Doubled(t) <==> !NoDoubles(old(t.pool.fs), gaps))
    ensures r ==> forall b :: DESC <= b < |t.pool.M| ==>
      (Covers(t.pool.fs, b) || Used(t.pool.live, b) <==> !Late(marks, |t.pool.M|, b))
    // and what is neither free nor reached is roomy
    ensures old(Mendable(t)) ==> !short
    ensures r && old(Mendable(t)) ==> Crumbled(t.pool.live, t.pool.fs, |t.pool.M|) && (Mendable(t) || Doubled(t))
    ensures crashed && old(Mendable(t)) ==>
      if !NoDoubles(old(t.pool.fs), gaps) ||
        CountedTwice(ReleaseAll(old(t.pool.fs), gaps), at.off, at.size, t.pool.fs)
      then Doubled(t) else Mendable(t)
    ensures old(Checkable(t)) ==> (r ==> Checkable(t)) && NoDoubles(old(t.pool.fs), gaps)
    ensures old(Mendable(t)) && NoLeaks(old(t.pool.live), StartsOf(t)) && old(t.pool.Full()) ==>
      r && t.pool.M == old(t.pool.M) && t.pool.fs == old(t.pool.fs)
  {
    hide Word, TableOk, Stores, Canonical, Scanned, Exact, Sound, Starts, FlatNodes, Reached, ReachedRoles, Separate,
      Crumbled, Counts, Covers, Late, Filled, Used, Checkable, Found, FreeReadable, TableClosed, EntriesClosed,
      Scannable, Ends, Healthy, Done, Broken, Choked, PoolOk, FreeOffs, EntryOffs, Flat, Vas, IsRun, AllMarked, Tiled,
      NoLeaks, Agree, ReleaseAll, Intact, Spacious, Apart, Twice, InPool, NoDoubles, CountedTwice, SameLog, Linked,
      Roomy, Full, HashTable.Stored, Crisp, Interrupted;
    ghost var st0, fs0, starts := t.St(), t.pool.fs, StartsOf(t);
    IntactParts(t);
    LogSelf(t.pool.M);
    CheckInputs(st0, fs0, t.cmp, t.ht, t.chains);
    CheckFinds(t);
    ghost var doubled, mendable, checkable := Doubled(t), Mendable(t), Checkable(t);
    if checkable { CheckableCanonical(t); CheckableMendable(t); }
    if !doubled { ApartOk(t); }
    ghost var fs1, ch;
    r, crashed, short, fs1, ch, marks, gaps, at :=
      CheckMemory(t.pool, t.ht, te, FreeOffs(fs0), EntryOffs(Flat(Vas(t.chains))), fs0, Vas(t.chains));
    if !doubled {
      FoundIs(st0, fs0, t.cmp, t.ht, t.chains, fs1, ch, marks);
      ExactIs(marks, st0.live, fs0, starts);
      if mendable { SpaciousRoomy(marks, st0.live, fs0, starts, |st0.m|); }
    }
    if short { return; }
    if doubled {
      IntactIs(t);
    } else {
      NothingGiven(t.pool, st0, fs0, marks, gaps, at, starts, crashed);
      t.pool.live, t.role := Reached(st0.live, starts), ReachedRoles(st0.role, starts);
      if crashed {
        CheckCrashed(t, st0, fs0, marks, gaps, at, starts);
      } else {
        CheckEnded(t, st0, fs0, marks, gaps, starts);
      }
    }
  }

  /** Two checks in a row: the second also gives back what the first stepped over. */
  method CheckTwice(t: HashTable)
    requires Checkable(t)
    modifies t`role, t.pool`M, t.pool`fs, t.pool`live, t.pool.mem
    ensures Checkable(t) && t.pool.Full()
    ensures t.pool.live == Reached(old(t.pool.live), StartsOf(t)) && NoLeaks(t.pool.live, StartsOf(t))
  {
    hide Word, Checkable, Starts, FlatNodes, Tiled, Covers, Used, Exact, Late, Mendable, Doubled, Intact, Crumbled,
      Scanned, ReleaseAll, NoDoubles, CountedTwice, SameLog, Roomy;
    CheckableMendable(t);
    MendableOnly(t);
    ghost var live0 := t.pool.live;
    var r, crashed, short;
    ghost var marks, gaps, at;
    r, crashed, short, marks, gaps, at := CheckTable(t, false);
    ghost var live1, fs1 := t.pool.live, t.pool.fs;
    CheckableMendable(t);
    MendableOnly(t);
    assert Crumbled(live1, fs1, |t.pool.M|);
    r, crashed, short, marks, gaps, at := CheckTable(t, false);
    forall b | DESC <= b < |t.pool.M| ensures !Late(marks, |t.pool.M|, b) {
      NothingLate(live1, fs1, marks, StartsOf(t), |t.pool.M|, b);
    }
    assert t.pool.Full() by { TiledIs(t.pool.live, t.pool.fs, |t.pool.M|); }
  }

  lemma CheckableIntact(t: HashTable)
    requires Checkable(t)
    ensures Intact(t) && t.Valid() && t.pool.Sync()
  {
    hide HashTable.Stored, Crisp, Canonical, Separate, Filled, Crumbled, Spacious, Apart;
    CheckableMendable(t);
  }

  lemma MendableOnly(t: HashTable)
    requires Mendable(t)
    ensures Intact(t) && !Doubled(t)
  {
    hide Intact, Spacious, Apart, Twice;
    IntactParts(t);
  }

  lemma TiledIs(live: Live, fs: Chunks, n: nat)
    requires forall b :: DESC <= b < n ==> Covers(fs, b) || Used(live, b)
    ensures Tiled(live, fs, n)
  {
  }

  /* ---- Replaying the log ---- */

  /** `ht_redo`: it does nothing unless a complete pair is logged, and that pair it sets again. */
  method Redo(t: HashTable, te: bool, ghost key: Bytes, ghost value: Bytes) returns (r: bool, crashed: bool)
    requires t.Stored() && |t.pool.M| <= MAX_STRING
    requires Quiet(t.pool.M) || (t.Usable() && Pending(t.pool.M, t.pool.live, key, value))
    modifies t`chains, t`role, t`view, t.pool`M, t.pool`fs, t.pool`live, t.pool.mem
    ensures t.Stored() && (crashed ==> te)
    ensures !crashed ==> (r <==> Word(old(t.pool.M), OP_ID) == OP_HT_SET)
    ensures Quiet(old(t.pool.M)) ==> (
      && !crashed && t.pool.M == old(t.pool.M) && t.pool.fs == old(t.pool.fs) && t.pool.live == old(t.pool.live)
      && t.view == old(t.view) && t.chains == old(t.chains) && t.role == old(t.role))
    ensures !Quiet(old(t.pool.M)) ==> t.Standing() && SameDescriptor(old(t.pool.M), t.pool.M)
    ensures old(t.Valid()) && !crashed ==> t.Valid()
    // the key is not in the table
    ensures !Quiet(old(t.pool.M)) && old(t.Absent(key)) ==> t.Usable() && (!crashed ==> Quiet(t.pool.M))
    ensures !Quiet(old(t.pool.M)) && old(t.Absent(key)) && old(t.Valid()) ==> t.Valid()
    ensures !Quiet(old(t.pool.M)) && old(t.Absent(key)) && !crashed ==>
      var room := Fits(old(t.pool.fs), InsertNeeds(old(t.pool.M), key, value));
      t.view == if room then old(t.view)[key := Some(value)] else old(t.view)
    ensures !Quiet(old(t.pool.M)) && old(t.Absent(key)) && crashed ==>
      t.view == old(t.view) && t.Absent(key) && (Quiet(t.pool.M) || Pending(t.pool.M, t.pool.live, key, value))
    ensures !Quiet(old(t.pool.M)) && old(t.Absent(key)) && old(t.pool.Full()) ==> t.pool.Full()
    // the key is in the table: the log stays, to be replayed again
    ensures !Quiet(old(t.pool.M)) && !old(t.Absent(key)) ==> SameLog(old(t.pool.M), t.pool.M)
    ensures !Quiet(old(t.pool.M)) ==> forall k0 :: k0 in old(t.view) && t.cmp.same(k0, key) ==>
      && (!crashed ==> t.view == old(t.view)[k0 :=
            if Serves(old(t.pool.fs), Need(old(t.pool.M), |value| + 9)) then Some(value) else None])
      && (crashed ==> t.view == old(t.view) || t.view == old(t.view)[k0 := Some(value)])
    ensures !Quiet(old(t.pool.M)) && crashed ==> t.CrashState(old(t.pool.Full()))
    ensures !crashed && old(t.pool.Full()) ==> t.pool.Full()
  {
    hide Word, TableOk, Sound, Stores, Canonical, Separate, Tiled, Counts, Holds, AtMostTwoMore, Fits, InsertNeeds,
      Serves, Torn, SameDescriptor, SameLog, HashTable.Inserted, HashTable.Updated, HashTable.CrashState, Need;
    crashed := false;
    assert t.pool.Sync();
    QuietBounds(t.pool.M, t.pool.live, key, value);
    if t.pool.Load(OP_ID) != OP_HT_SET { return false, false; }
    var kp, vp := t.pool.Load(LOG_P1), t.pool.Load(LOG_P2);
    if kp == 0 || vp == 0 { return true, false; }
    HoldsFits(t.pool.M, t.pool.live, kp, key);
    HoldsFits(t.pool.M, t.pool.live, vp, value);
    var k := t.ReadString(kp, key);
    var v := t.ReadString(vp, value);
    var ok;
    ok, crashed := t.Set(k, v, te);
    r := true;
  }

  lemma QuietBounds(m: Bytes, live: Live, key: Bytes, value: Bytes)
    requires Quiet(m) || Pending(m, live, key, value)
    ensures DESC <= |m|
    ensures Pending(m, live, key, value) ==> !Quiet(m)
  {
    hide Word;
  }

  lemma HoldsFits(m: Bytes, live: Live, p: nat, s: Bytes)
    requires Holds(m, live, p, s)
    ensures StrAt(m, p, s) && |s| <= |m| && p != 0
  {
  }

  /* ---- Repairing ---- */

  /** Writing a descriptor word that is not the free list's. */
  method PokeWord(t: HashTable, w: nat, v: nat)
    requires Intact(t) && v < LIMIT && MAGIC <= w && w + 8 <= DESC
    modifies t.pool`M, t.pool.mem
    ensures Intact(t) && t.pool.M == Put(old(t.pool.M), w, v) && |t.pool.M| == |old(t.pool.M)|
    ensures old(t.pool.Full()) ==> t.pool.Full()
    ensures (old(Mendable(t)) ==> Mendable(t)) && (old(Doubled(t)) <==> Doubled(t))
    ensures (old(Checkable(t)) ==> Checkable(t))
  {
    hide Word, Put, TableOk, Sound, Stores, InPool, Separate, Counts, Filled, Spacious, Crumbled, Apart, NoTouch,
      Twice, Crisp, Tiled;
    ghost var st := t.St();
    IntactParts(t);
    t.pool.PokeDescriptor(w, v);
    DescriptorRegions(st.m, t.pool.M, t.pool.fs, t.pool.live);
    t.RegionsTable(st, t.St());
  }

  /** What a crashed or finished insert of `key` leaves: nothing to replay, or the whole pair. */
  ghost predicate Awaits(t: HashTable, key: Bytes, value: Bytes)
    reads t, t.pool
  {
    Quiet(t.pool.M) || (Pending(t.pool.M, t.pool.live, key, value) && t.Absent(key))
  }

  /** What a repair may find: a log to replay on a valid pool in which every byte is
      accounted for, or no log, and an intact table. */
  ghost predicate Repairable(t: HashTable, key: Bytes, value: Bytes)
    reads t, t.pool, t.pool.mem
  {
    || (Quiet(t.pool.M) && Intact(t))
    || (Checkable(t) && t.pool.Full() && Awaits(t, key, value))
  }

  /** The view an insert of `key` aims at. */
  ghost predicate OldOrNew(view0: View, view: View, key: Bytes, value: Bytes) {
    view == view0 || view == view0[key := Some(value)]
  }

  /** Every byte is free or used, but for crumbs. */
  ghost predicate NearlyFull(t: HashTable)
    reads t, t.pool
  {
    Crumbled(t.pool.live, t.pool.fs, |t.pool.M|)
  }

  /** One check gave `gaps` back to the list `fs0`: the maximal runs of what was neither
      free nor reached, less the late bytes.  A chunk is counted twice exactly if one
      of them doubled the head. */
  ghost predicate SweptOnce(t: HashTable, fs0: Chunks, gaps: Chunks)
    reads t, t.pool, t.pool.mem
  {
    && t.pool.fs == ReleaseAll(fs0, gaps) && (Doubled(t) <==> !NoDoubles(fs0, gaps))
    && exists marks :: SweptRuns(marks, t.pool.live, StartsOf(t), fs0, gaps, |t.pool.M|)
  }

  ghost predicate SweptRuns(marks: set<int>, live: Live, starts: set<int>, fs0: Chunks, gaps: Chunks, n: nat) {
    Exact(marks, live, fs0, starts) && Scanned(marks, n, n + 1, gaps)
  }

  /** A process that scanned the list `fs` died and left `fs'`. */
  ghost predicate DiedScanning(live: Live, starts: set<int>, n: nat, fs: Chunks, fs': Chunks) {
    exists marks, gaps, at :: Exact(marks, live, fs, starts) && Interrupted(marks, n, fs, gaps, at, fs')
  }

  lemma DiedIs(live: Live, live': Live, starts: set<int>, n: nat, fs: Chunks, fs': Chunks, marks: set<int>,
      gaps: Chunks, at: Chunk)
    requires Exact(marks, live, fs, starts) && Interrupted(marks, n, fs, gaps, at, fs')
    requires SameReach(live, live', starts)
    ensures DiedScanning(live', starts, n, fs, fs')
  {
    hide Interrupted, Exact;
    ExactSame(marks, live, live', fs, starts);
  }

  lemma DiedSame(live: Live, live': Live, starts: set<int>, n: nat, fs: Chunks, fs': Chunks)
    requires DiedScanning(live, starts, n, fs, fs') && SameReach(live, live', starts)
    ensures DiedScanning(live', starts, n, fs, fs')
  {
    hide Interrupted, Exact;
    var marks, gaps, at :| Exact(marks, live, fs, starts) && Interrupted(marks, n, fs, gaps, at, fs');
    DiedIs(live, live', starts, n, fs, fs', marks, gaps, at);
  }

  /** The namespace after a repair that succeeded. */
  ghost predicate Repaired(t: HashTable)
    reads t, t.pool, t.pool.mem
  {
    && Intact(t) && NoLeaks(t.pool.live, StartsOf(t)) && Quiet(t.pool.M) && Word(t.pool.M, LOCKED) == 0
  }

  /** The repair of a namespace whose lock timed out: if the lock flag is set the log
      is replayed, the memory checked and the flag cleared.  It fails only on a
      list that counts a chunk twice, which it leaves as it is, or where the scan
      ends short.  If it dies the next one finds a repairable pool again. */
  method Recover(t: HashTable, te: bool, ghost key: Bytes, ghost value: Bytes)
    returns (r: bool, crashed: bool, short: bool, ghost scanning: bool, ghost list: Chunks, ghost gaps: Chunks)
    requires Repairable(t, key, value) && |t.pool.M| <= MAX_STRING
    modifies t`chains, t`role, t`view, t.pool`M, t.pool`fs, t.pool`live, t.pool.mem
    ensures (crashed ==> te && !r && !short) && (r ==> !short) && OldOrNew(old(t.view), t.view, key, value)
    ensures !short ==> |t.pool.M| == |old(t.pool.M)|
    ensures Word(old(t.pool.M), LOCKED) == 0 ==>
      r && t.pool.M == old(t.pool.M) && t.view == old(t.view) && t.pool.live == old(t.pool.live)
    ensures r && Word(old(t.pool.M), LOCKED) != 0 ==> Repaired(t)
    ensures Quiet(old(t.pool.M)) ==> t.view == old(t.view)
    ensures Word(old(t.pool.M), LOCKED) != 0 && !crashed ==> scanning
    // the scan, of the list it finds
    ensures scanning ==> if Quiet(old(t.pool.M)) then list == old(t.pool.fs) else Apart(list)
    ensures scanning && !crashed && !short ==> (r <==> Apart(list))
    ensures scanning && r ==> SweptOnce(t, list, gaps)
    ensures scanning && !r && !crashed && !short ==> t.pool.fs == list
    ensures scanning && crashed ==> DiedScanning(t.pool.live, StartsOf(t), |t.pool.M|, list, t.pool.fs)
    ensures Quiet(old(t.pool.M)) ==>
      t.chains == old(t.chains) && SameReach(old(t.pool.live), t.pool.live, StartsOf(t))
    ensures var room := Fits(old(t.pool.fs), InsertNeeds(old(t.pool.M), key, value));
      scanning && !Quiet(old(t.pool.M)) ==>
        t.view == if room then old(t.view)[key := Some(value)] else old(t.view)
    ensures !r && !crashed && !short ==>
      old(Doubled(t)) && Doubled(t) && Quiet(t.pool.M) && t.pool.M == old(t.pool.M) && t.pool.fs == old(t.pool.fs)
    ensures Word(old(t.pool.M), LOCKED) != 0 && old(Doubled(t)) ==> !r && !crashed && !short
    ensures old(Mendable(t)) ==> !short
    ensures old(Mendable(t)) && r && Word(old(t.pool.M), LOCKED) != 0 ==> (Mendable(t) || Doubled(t)) && NearlyFull(t)
    ensures old(Mendable(t)) && crashed ==> Mendable(t) || Doubled(t)
    ensures old(Checkable(t)) && r ==> Checkable(t)
    ensures crashed ==> Repairable(t, key, value) && Word(t.pool.M, LOCKED) == Word(old(t.pool.M), LOCKED)
    ensures crashed && !scanning ==> t.view == old(t.view) && Checkable(t) && t.pool.Full() && Awaits(t, key, value)
    ensures crashed && (scanning || Quiet(old(t.pool.M))) ==> scanning && Quiet(t.pool.M)
  {
    hide Word, Put, TableOk, Sound, Stores, Canonical, Separate, Tiled, Counts, Holds, Fits, InsertNeeds, Torn,
      Filled, Starts, FlatNodes, Crumbled, Pending, NoLeaks, Late, Exact, Reached, Agree, Checkable, Pool.Full,
      Mendable, Doubled, Quiet, SameLog, SameDescriptor, Scanned, NoDoubles, CountedTwice, ReleaseAll,
      HashTable.CrashState, Covers, Used, Serves, HashTable.Stored, HashTable.Valid, Intact, Pool.Sync, Roomy, Twice,
      Facts, SameReach, Interrupted, DiedScanning, SweptRuns, Apart;
    r, crashed, short, scanning, list, gaps := true, false, false, false, [], [];
    ReachSelf(t.pool.live, StartsOf(t));
    RepairStart(t, key, value);
    if t.pool.Load(LOCKED) == 0 { return; }
    ghost var m0, view0 := t.pool.M, t.view;
    t.ValidIs();
    if t.pool.Load(OP_ID) != 0 {
      ghost var mend, check, quiet := Mendable(t), Checkable(t), Quiet(m0);
      r, crashed := Redo(t, te, key, value);
      if quiet { FactsHold(t, mend, check); } else { StillCheckable(t, view0, key, value); }
      LockKept(m0, t.pool.M);
      if crashed { return false, true, false, false, [], []; }
      if !r { return; }
    }
    ghost var m1, live1, starts := t.pool.M, t.pool.live, StartsOf(t);
    ghost var marks, at;
    scanning, list := true, t.pool.fs;
    DoubledApart(t);
    r, crashed, short, marks, gaps, at := CheckTable(t, te);
    if short { return; }
    ReachedSame(live1, starts);
    if crashed { DiedIs(live1, t.pool.live, starts, |t.pool.M|, list, t.pool.fs, marks, gaps, at); }
    if r { SweptIs(marks, live1, t.pool.live, starts, list, gaps, |t.pool.M|); }
    QuietSame(m1, t.pool.M);
    LogDescriptor(m1, t.pool.M);
    LockKept(m1, t.pool.M);
    if !r { return; }
    ReachedLeaks(t, live1);
    ghost var m2 := t.pool.M;
    PokeWord(t, LOCKED, 0);
    QuietPoked(m2, t.pool.M);
  }

  lemma ReachSelf(live: Live, starts: set<int>)
    ensures SameReach(live, live, starts)
  {
  }

  lemma DoubledApart(t: HashTable)
    requires Intact(t)
    ensures Doubled(t) <==> !Apart(t.pool.fs)
  {
    hide Intact, Apart, Twice;
    IntactParts(t);
  }

  lemma SweptIs(marks: set<int>, live: Live, live': Live, starts: set<int>, fs0: Chunks, gaps: Chunks, n: nat)
    requires Exact(marks, live, fs0, starts) && Scanned(marks, n, n + 1, gaps) && SameReach(live, live', starts)
    ensures SweptRuns(marks, live', starts, fs0, gaps, n)
  {
    hide Exact, Scanned;
    ExactSame(marks, live, live', fs0, starts);
  }

  /** What the repair reads first. */
  lemma RepairStart(t: HashTable, key: Bytes, value: Bytes)
    requires Repairable(t, key, value)
    ensures t.Stored() && t.pool.Sync() && DESC <= |t.pool.M| && Word(t.pool.M, OP_ID) in {0, OP_HT_SET}
    ensures Quiet(t.pool.M) || (t.Valid() && Pending(t.pool.M, t.pool.live, key, value) && t.Absent(key))
    ensures Intact(t) && Facts(t, Mendable(t), Checkable(t)) && (Doubled(t) <==> Twice(t.pool.fs))
    ensures !Quiet(t.pool.M) ==> t.pool.Full() && Filled(t.view) && Checkable(t)
    ensures Word(t.pool.M, OP_ID) == 0 ==> Quiet(t.pool.M)
    ensures (Checkable(t) ==> Mendable(t)) && (Mendable(t) ==> !Doubled(t))
  {
    hide Word, TableOk, Sound, Stores, Canonical, Separate, Counts, Crumbled, Filled, Twice, Apart, Spacious, Pool.Full,
      Starts, FlatNodes, Holds, InPool, Crisp;
    if Checkable(t) { CheckableMendable(t); CheckableCanonical(t); }
    IntactParts(t);
  }

  /** An intact table, without its heap. */
  ghost predicate Facts(t: HashTable, mend: bool, check: bool)
    reads t, t.pool
  {
    && DESC <= |t.pool.M| < LIMIT && Sound(t.cmp) && TableOk(t.St(), t.cmp, t.ht, t.chains) && Filled(t.view)
    && Stores(t.pool.M, t.pool.fs) && InPool(t.pool.fs, |t.pool.M|) && Crisp(t.pool.fs)
    && Word(t.pool.M, TOTAL_SIZE) + DESC == |t.pool.M| && Separate(t.pool.live, t.pool.fs, |t.pool.M|)
    && t.ht + TABLE <= |t.pool.M| && Counts(Word(t.pool.M, t.ht), |t.view| + t.stray)
    && (mend ==> Apart(t.pool.fs) && Spacious(t.pool.live, t.pool.fs, StartsOf(t), |t.pool.M|))
    && (check ==> Canonical(t.pool.fs, |t.pool.M|) && Crumbled(t.pool.live, t.pool.fs, |t.pool.M|))
  }

  lemma FactsHold(t: HashTable, mend: bool, check: bool)
    requires t.Stored() && Facts(t, mend, check)
    ensures Intact(t) && (mend ==> Mendable(t)) && (check ==> Checkable(t)) && (Doubled(t) <==> Twice(t.pool.fs))
  {
    hide Canonical, Crumbled, Word, TableOk, Sound, Stores, Separate, Counts, Filled, Twice, Apart, Spacious, Starts,
      FlatNodes, InPool, Crisp;
    if check { MendableCheckable(t); }
  }

  lemma StillCheckable(t: HashTable, view0: View, key: Bytes, value: Bytes)
    requires t.Valid() && Filled(view0) && OldOrNew(view0, t.view, key, value) && t.pool.Full()
    ensures Checkable(t) && Mendable(t) && Intact(t) && !Doubled(t)
  {
    hide Word, TableOk, Sound, Stores, Canonical, Separate, Counts, Covers, Used, Crumbled, Tiled, Mendable, Intact,
      Doubled;
    TiledCrumbled(t.pool.live, t.pool.fs, |t.pool.M|);
    CheckableMendable(t);
    MendableOnly(t);
  }

  lemma LockKept(m: Bytes, m': Bytes)
    requires (m' == m || SameDescriptor(m, m')) && DESC <= |m|
    ensures |m'| == |m| && Word(m', LOCKED) == Word(m, LOCKED)
  {
    hide Word;
    if m' != m { SameWord(m, m', LOCKED); }
  }

  lemma QuietPoked(m: Bytes, m': Bytes)
    requires DESC <= |m| && Quiet(m) && m' == Put(m, LOCKED, 0)
    ensures Quiet(m') && Word(m', LOCKED) == 0
  {
    hide Word, Put;
  }

  lemma ReachedLeaks(t: HashTable, live0: Live)
    requires t.pool.live == Reached(live0, StartsOf(t))
    ensures NoLeaks(t.pool.live, StartsOf(t))
  {
  }
}
