/** Crash atomicity over whole runs: a process dies inside an operation, repairers
    die in their turn, and what the pool and the map are in the end. */
module CrashRuns {
  import opened Memory
  import opened FreeList
  import opened Links
  import opened Regions
  import opened Allocation
  import opened Pools
  import opened LeakScan
  import opened Marking
  import opened Tables
  import opened Health
  import opened Repair
  import opened TableSteps
  import opened HashTables
  import opened Sweeping
  import opened Recovery

  /* ---- A crash inside a free ---- */

  /** Before the free every byte was accounted for, so around the block it all still is. */
  lemma WholeSpacious(live: Live, fs0: Chunks, starts: set<int>, hi: nat, a: nat, n: nat)
    requires WasWhole(live, fs0, a, n, hi) && Outside(fs0, a, n) && DESC <= a && a + n <= hi
    requires Separate(live, fs0, hi) && forall b :: b in live ==> Disjoint(a, n, b, live[b])
    ensures Spacious(live, fs0, starts, hi)
    ensures forall b :: InRegions(live, starts, b) ==> !Covers(fs0, b) && !(a <= b < a + n)
    ensures forall b ::
      DESC <= b < hi && !Marked(live, fs0, starts, b) && !(a <= b < a + n) ==> Beside(live, fs0, starts, hi, a, n, b)
  {
    hide Covers, Separate, Outside, Blank, Crumb, Beside, InBlank;
    forall b | InRegions(live, starts, b)
      ensures !Covers(fs0, b) && !(a <= b < a + n)
    {
      ReachedOff(live, fs0, starts, hi, b);
      var x :| x in starts && x in live && x <= b < x + live[x];
      assert Disjoint(a, n, x, live[x]);
    }
    assert forall x :: a <= x < a + n ==> !Covers(fs0, x) by { OutsideUncovered(fs0, a, n); }
    assert Blank(live, fs0, starts, a, n) by { BlankIs(live, fs0, starts, a, n); }
    forall b | DESC <= b < hi && !Marked(live, fs0, starts, b)
      ensures Crumb(fs0, b) || InBlank(live, fs0, starts, hi, b)
      ensures !(a <= b < a + n) ==> Beside(live, fs0, starts, hi, a, n, b)
    {
      if a <= b < a + n {
        BlankHas(live, fs0, starts, hi, b, a, n);
      } else {
        UsedAdd(live, a, n);
        var x := UsedUnreached(live, starts, b);
        LeakedBlank(live, fs0, starts, hi, x);
        BlankHas(live, fs0, starts, hi, b, x, live[x]);
        BesideBlank(live, fs0, starts, hi, a, n, b, x, live[x]);
      }
    }
  }

  lemma BlankIs(live: Live, fs: Chunks, starts: set<int>, x: int, k: int)
    requires HEADER < k && DESC <= x && forall b :: x <= b < x + k ==> !Covers(fs, b) && !InRegions(live, starts, b)
    ensures Blank(live, fs, starts, x, k)
  {
  }

  lemma ReachedOff(live: Live, fs: Chunks, starts: set<int>, n: nat, b: int)
    requires Separate(live, fs, n) && InRegions(live, starts, b)
    ensures !Covers(fs, b)
  {
    hide Covers, Outside;
    var a :| a in starts && a in live && a <= b < a + live[a];
    OutsideUncovered(fs, a, live[a]);
  }

  /** A pool torn by a crash inside a free can be mended, or counts a chunk twice. */
  lemma TornMendable(t: HashTable)
    requires t.Stored() && Torn(t.pool.M, t.pool.live, t.pool.fs, true) && Filled(t.view)
    requires Word(t.pool.M, TOTAL_SIZE) + DESC == |t.pool.M|
    ensures Intact(t) && if Apart(t.pool.fs) then Mendable(t) else Doubled(t)
  {
    hide Word, TableOk, Sound, Counts, Stores, InPool, Apart, Outside, ReleaseCrash, Separate, Covers, Spacious, Filled,
      Twice, WasWhole, Starts, FlatNodes, CountedTwice, Marked, Beside, InRegions, Crisp;
    var m, live, fs, starts := t.pool.M, t.pool.live, t.pool.fs, StartsOf(t);
    var fs0, a, n :| TornAt(m, live, fs, fs0, a, n) && WasWhole(live, fs0, a, n, |m|);
    CrispEither(fs0);
    CrashKeeps(fs0, a, n, fs, |m|);
    CrispEither(fs);
    TornSeparate(m, live, fs, fs0, a, n);
    WholeSpacious(live, fs0, starts, |m|, a, n);
    if Apart(fs) { CrashSpacious(live, fs0, starts, |m|, a, n, fs); }
  }

  /** So is whatever a crash of an operation leaves beside a quiet log. */
  lemma CrashRepairable(t: HashTable, m0: Bytes, key: Bytes, value: Bytes)
    requires t.Stored() && t.CrashState(true) && Filled(t.view) && Quiet(m0) && SameLog(m0, t.pool.M)
    requires Word(m0, TOTAL_SIZE) + DESC == |m0|
    ensures Repairable(t, key, value) && Quiet(t.pool.M) && if Apart(t.pool.fs) then Mendable(t) else Doubled(t)
  {
    hide Word, TableOk, Sound, Counts, Stores, InPool, Apart, NoTouch, Separate, Covers, Spacious, Filled, Torn,
      Quiet, SameLog,
      Starts, FlatNodes, Twice, Tiled, Crumbled, Crisp;
    QuietSame(m0, t.pool.M);
    assert DESC <= |m0| by { QuietLong(m0); }
    TotalKept(m0, t.pool.M);
    if t.pool.Placed() && t.pool.Full() {
      TiledCrumbled(t.pool.live, t.pool.fs, |t.pool.M|);
      CrumbledMendable(t);
    } else {
      TornMendable(t);
    }
  }

  lemma QuietLong(m: Bytes)
    requires Quiet(m)
    ensures DESC <= |m|
  {
  }

  /* ---- Repairs until one survives ---- */

  /** What repairers that died scanning and one that lived made of the pool: each scanned
      the list its predecessor left, the last one repairs exactly if the chunks it finds
      are apart, and then it gives back every unreached run of that list; otherwise it
      leaves the list as it is. */
  ghost predicate Rounds(t: HashTable, lists: seq<Chunks>, gaps: Chunks, repaired: bool)
    reads t, t.pool, t.pool.mem
  {
    && |lists| > 0 && DiedInTurn(t.pool.live, StartsOf(t), |t.pool.M|, lists)
    && (repaired <==> Apart(lists[|lists| - 1]))
    && if repaired then SweptOnce(t, lists[|lists| - 1], gaps) else t.pool.fs == lists[|lists| - 1]
  }

  ghost predicate DiedInTurn(live: Live, starts: set<int>, n: nat, lists: seq<Chunks>) {
    forall i, j :: 0 <= i < j < |lists| && j == i + 1 ==> DiedScanning(live, starts, n, lists[i], lists[j])
  }

  lemma FirstDied(live: Live, live': Live, starts: set<int>, n: nat, list: Chunks, lists: seq<Chunks>)
    requires |lists| > 0 && DiedInTurn(live', starts, n, lists) && DiedScanning(live, starts, n, list, lists[0])
    requires SameReach(live, live', starts)
    ensures DiedInTurn(live', starts, n, [list] + lists)
  {
    hide DiedScanning, SameReach;
    DiedSame(live, live', starts, n, list, lists[0]);
    var ls := [list] + lists;
    forall i, j | 0 <= i < j < |ls| && j == i + 1
      ensures DiedScanning(live', starts, n, ls[i], ls[j])
    {
      if i > 0 { assert ls[i] == lists[i - 1] && ls[j] == lists[j - 1]; }
    }
  }

  /** Up to `deaths` repairers may die, wherever a process can die while it replays the
      log or frees what it found leaked; the next one finds the lock flag still set.
      The last one lives.  `scans` counts those that died in the scan, `lists` are the
      lists that were scanned, and `replays` counts those that died replaying; if none
      did the pair is in the map exactly if it was logged and there was room.  From a
      pool that can be mended no scan comes to a run that is too short, and a repair
      leaves nothing lost but crumbs, however many die. */
  method RepairRounds(t: HashTable, deaths: nat, ghost key: Bytes, ghost value: Bytes)
    returns (repaired: bool, short: bool, ghost scans: nat, ghost replays: nat, ghost lists: seq<Chunks>,
      ghost gaps: Chunks)
    requires Repairable(t, key, value) && |t.pool.M| <= MAX_STRING && DESC <= |t.pool.M| && Word(t.pool.M, LOCKED) != 0
    modifies t`chains, t`role, t`view, t.pool`M, t.pool`fs, t.pool`live, t.pool.mem
    ensures OldOrNew(old(t.view), t.view, key, value) && (Quiet(old(t.pool.M)) ==> t.view == old(t.view))
    ensures repaired ==> Repaired(t) && !short
    ensures !repaired && !short ==> Doubled(t) && Quiet(t.pool.M)
    ensures old(Doubled(t)) ==> !repaired && !short && t.pool.M == old(t.pool.M) && t.pool.fs == old(t.pool.fs)
    ensures !short ==> |t.pool.M| == |old(t.pool.M)| && Rounds(t, lists, gaps, repaired)
    ensures |lists| == scans + 1 && if Quiet(old(t.pool.M)) then lists[0] == old(t.pool.fs) else Apart(lists[0])
    ensures Quiet(old(t.pool.M)) ==>
      t.chains == old(t.chains) && SameReach(old(t.pool.live), t.pool.live, StartsOf(t))
    ensures old(Mendable(t)) || old(Doubled(t)) ==> !short
    ensures old(Mendable(t)) && repaired ==> NearlyFull(t)
    ensures scans == 0 && old(Mendable(t)) ==> repaired
    ensures var room := Fits(old(t.pool.fs), InsertNeeds(old(t.pool.M), key, value));
      replays == 0 && !Quiet(old(t.pool.M)) ==>
        t.view == if room then old(t.view)[key := Some(value)] else old(t.view)
    ensures scans == 0 && old(Checkable(t)) ==> Checkable(t)
    ensures scans + replays <= deaths
    decreases deaths
  {
    hide Word, Repairable, Repaired, Checkable, Doubled, Mendable, Quiet, Stores, OldOrNew, Awaits, HashTable.Stored,
      HashTable.Absent, Pool.Full, Intact, Fits, InsertNeeds, NearlyFull, SweptOnce, Apart, SameReach, DiedScanning,
      DiedInTurn;
    ghost var view0, live0 := t.view, t.pool.live;
    StartExclusive(t, key, value);
    var dies;
    ghost var scanning, list;
    repaired, dies, short, scanning, list, gaps := Recover(t, deaths > 0, key, value);
    scans, replays, lists := 0, 0, [list];
    if dies {
      ghost var view1, live1, starts := t.view, t.pool.live, StartsOf(t);
      StartExclusive(t, key, value);
      repaired, short, scans, replays, lists, gaps := RepairRounds(t, deaths - 1, key, value);
      if scanning {
        if !short { FirstDied(live1, t.pool.live, starts, |t.pool.M|, list, lists); }
        scans, lists := scans + 1, [list] + lists;
      } else {
        replays := replays + 1;
      }
      ReachTwice(live0, live1, t.pool.live, starts);
      ViewStep(view0, view1, t.view, key, value);
    } else {
      OneRound(t.pool.live, StartsOf(t), |t.pool.M|, list);
    }
  }

  lemma OneRound(live: Live, starts: set<int>, n: nat, list: Chunks)
    ensures DiedInTurn(live, starts, n, [list])
  {
  }

  lemma ReachTwice(live0: Live, live1: Live, live2: Live, starts: set<int>)
    ensures SameReach(live0, live1, starts) && SameReach(live1, live2, starts) ==> SameReach(live0, live2, starts)
  {
    hide InRegions;
  }

  lemma StartExclusive(t: HashTable, key: Bytes, value: Bytes)
    requires Repairable(t, key, value)
    ensures (Checkable(t) ==> Mendable(t)) && (Mendable(t) ==> !Doubled(t)) && DESC <= |t.pool.M|
    ensures Doubled(t) <==> !Apart(t.pool.fs)
  {
    hide Word, Mendable, Checkable, Doubled, Pending, Pool.Full, HashTable.Absent, Repairable, Facts, Apart;
    RepairStart(t, key, value);
    DoubledApart(t);
  }

  lemma ViewStep(view0: View, view1: View, view2: View, key: Bytes, value: Bytes)
    requires OldOrNew(view0, view1, key, value) && OldOrNew(view1, view2, key, value)
    ensures OldOrNew(view0, view2, key, value)
  {
  }

  /* ---- Operations that crash ---- */

  lemma CheckableIs(t: HashTable)
    requires Checkable(t)
    ensures t.Valid() && t.pool.Sync() && Filled(t.view) && DESC <= |t.pool.M|
    ensures Word(t.pool.M, TOTAL_SIZE) + DESC == |t.pool.M|
  {
    hide Word, TableOk, Sound, Stores, Canonical, Separate, Counts, Crumbled, Filled;
  }

  lemma LogLock(m: Bytes, m': Bytes)
    requires SameDescriptor(m, m') && DESC <= |m|
    ensures |m'| == |m| && Word(m', LOCKED) == Word(m, LOCKED)
  {
    LockKept(m, m');
  }

  /** A process inserts `key` or dies doing so, then up to `deaths` repairers die in their
      turn, while they replay the log or while they scan, and one repairs.  If it
      lives, it succeeds exactly if there is room.  If it dies, the map is the old one
      or the new one, the new one exactly if the pair was `logged` and there was
      `room` for it, unless a repairer dies replaying.  The pool ends intact, unlocked
      and without leaks, every byte free or in use but crumbs; only if a repairer died
      in the scan may the last one find a chunk counted twice instead, and refuse. */
  method InsertAndRepair(t: HashTable, key: Bytes, value: Bytes, deaths: nat)
    returns (ok: bool, died: bool, repaired: bool, ghost logged: bool, ghost room: bool, ghost scans: nat,
      ghost replays: nat, ghost lists: seq<Chunks>, ghost gaps: Chunks)
    requires Checkable(t) && t.pool.Full() && |t.pool.M| <= MAX_STRING && t.Absent(key)
    requires |key| <= MAX_STRING && |value| <= MAX_STRING && Word(t.pool.M, LOCKED) != 0
    modifies t`chains, t`role, t`view, t.pool`M, t.pool`fs, t.pool`live, t.pool.mem
    ensures OldOrNew(old(t.view), t.view, key, value)
    ensures !died ==> Checkable(t) && t.view == if ok then old(t.view)[key := Some(value)] else old(t.view)
    ensures !died ==> (ok <==> Fits(old(t.pool.fs), InsertNeeds(old(t.pool.M), key, value)))
    ensures died && replays == 0 ==> t.view == if logged && room then old(t.view)[key := Some(value)] else old(t.view)
    ensures died && logged ==> Fits(old(t.pool.fs), InsertNeeds(old(t.pool.M), key, value))
    ensures died ==> |lists| == scans + 1 && Apart(lists[0]) && Rounds(t, lists, gaps, repaired)
    ensures died && !logged ==> DiedLogging(old(t.pool.M), old(t.pool.fs), key, value, lists[0])
    ensures died && repaired ==> Repaired(t) && NearlyFull(t)
    ensures died && !repaired ==> Doubled(t) && Quiet(t.pool.M)
    ensures died && scans == 0 ==> repaired && Checkable(t)
  {
    hide Word, TableOk, Sound, Stores, Canonical, Separate, Tiled, Counts, Fits, InsertNeeds, Torn, Filled, Crumbled,
      Pending, Quiet, Checkable, Mendable, Doubled, Intact, Repaired, Pool.Full, SameDescriptor, AtMostTwoMore, Serves,
      HashTable.Valid, HashTable.Stored, HashTable.Inserted, HashTable.Updated, SameLog, Awaits, NearlyFull, Rounds,
      Tried, SameReach, Apart, DiedLogging;
    ghost var m0, view0 := t.pool.M, t.view;
    CheckableIs(t);
    repaired, scans, replays, logged, room, lists, gaps := false, 0, 0, false, false, [], [];
    t.ValidIs();
    ok, died := t.Set(key, value, true);
    LogLock(m0, t.pool.M);
    StillCheckable(t, view0, key, value);
    if !died { return; }
    AwaitsIs(t, view0, key, value);
    StartExclusive(t, key, value);
    logged, room := !Quiet(t.pool.M), Fits(t.pool.fs, InsertNeeds(t.pool.M, key, value));
    var short;
    repaired, short, scans, replays, lists, gaps := RepairRounds(t, deaths, key, value);
  }

  lemma AwaitsIs(t: HashTable, view0: View, key: Bytes, value: Bytes)
    requires Checkable(t) && t.pool.Full() && t.view == view0 && forall k :: k in view0 ==> !t.cmp.same(k, key)
    requires Quiet(t.pool.M) || Pending(t.pool.M, t.pool.live, key, value)
    ensures Repairable(t, key, value)
  {
    hide Checkable, Pool.Full, Quiet, Pending;
  }

  /** A process dies while replacing the value of a key in the map, then repairers as
      before.  The pair has the old value or the new one.  A repair succeeds exactly if
      the last list found is one of separate chunks, so that if the dead process left
      a chunk counted twice, every repair is refused. */
  method UpdateAndRepair(t: HashTable, key: Bytes, value: Bytes, deaths: nat, ghost k0: Bytes)
    returns (ok: bool, died: bool, repaired: bool, ghost scans: nat, ghost lists: seq<Chunks>, ghost gaps: Chunks)
    requires Checkable(t) && t.pool.Full() && Quiet(t.pool.M) && |t.pool.M| <= MAX_STRING
    requires k0 in t.view && t.cmp.same(k0, key)
    requires |key| <= MAX_STRING && |value| <= MAX_STRING && Word(t.pool.M, LOCKED) != 0
    modifies t`chains, t`role, t`view, t.pool`M, t.pool`fs, t.pool`live, t.pool.mem
    ensures died ==> OldOrNew(old(t.view), t.view, k0, value)
    ensures !died ==> t.Valid() && t.view == old(t.view)[k0 := if ok then Some(value) else None]
    ensures !died ==> (ok <==> Serves(old(t.pool.fs), Need(old(t.pool.M), |value| + 9)))
    ensures died ==> |lists| == scans + 1 && Rounds(t, lists, gaps, repaired)
    ensures died && repaired ==> Repaired(t) && NearlyFull(t)
    ensures died && !repaired ==> Doubled(t) && Quiet(t.pool.M)
    ensures died && !Apart(lists[0]) ==> !repaired && t.pool.fs == lists[0]
  {
    hide Word, TableOk, Sound, Stores, Canonical, Separate, Tiled, Counts, Fits, InsertNeeds, Torn, Filled, Crumbled,
      Pending, Quiet, Checkable, Mendable, Doubled, Intact, Repaired, Pool.Full, SameDescriptor, AtMostTwoMore, Serves,
      HashTable.Valid, HashTable.Stored, HashTable.Inserted, HashTable.Updated, SameLog, Awaits, Repairable,
      HashTable.CrashState, Apart, Twice, OldOrNew, NearlyFull, Rounds, Tried, SameReach, Need;
    ghost var m0, view0 := t.pool.M, t.view;
    CheckableIs(t);
    repaired, scans, lists, gaps := false, 0, [], [];
    t.ValidIs();
    ok, died := t.Set(key, value, true);
    LogLock(m0, t.pool.M);
    if !died { return; }
    StillFilled(view0, t.view, k0, value);
    CrashRepairable(t, m0, k0, value);
    StartExclusive(t, k0, value);
    var short;
    ghost var replays;
    repaired, short, scans, replays, lists, gaps := RepairRounds(t, deaths, k0, value);
  }

  lemma StillFilled(view0: View, view: View, key: Bytes, value: Bytes)
    requires Filled(view0) && (view == view0 || view == view0[key := Some(value)])
    ensures Filled(view) && OldOrNew(view0, view, key, value)
  {
  }

  /** A process dies while deleting a key, then repairers as before.  The map is what
      the delete makes of it, whether the process dies or not. */
  method DeleteAndRepair(t: HashTable, key: Bytes, deaths: nat, ghost k0: Bytes)
    returns (r: bool, died: bool, repaired: bool, ghost head: bool, ghost scans: nat, ghost lists: seq<Chunks>,
      ghost gaps: Chunks)
    requires Checkable(t) && t.pool.Full() && Quiet(t.pool.M) && |t.pool.M| <= MAX_STRING
    requires k0 in t.view && t.cmp.same(k0, key) && Word(t.pool.M, LOCKED) != 0
    modifies t`chains, t`role, t`view, t`stray, t.pool`M, t.pool`fs, t.pool`live, t.pool.mem
    ensures head == old(t.Heads(key))
    ensures t.view == if head then WithoutBucket(old(t.view), t.cmp, t.cmp.bucket(key)) else old(t.view) - {k0}
    ensures !died ==> r && t.Valid()
    ensures died ==> |lists| == scans + 1 && Rounds(t, lists, gaps, repaired)
    ensures died && repaired ==> Repaired(t) && NearlyFull(t)
    ensures died && !repaired ==> Doubled(t) && Quiet(t.pool.M)
    ensures died && !Apart(lists[0]) ==> !repaired && t.pool.fs == lists[0]
  {
    hide Word, TableOk, Sound, Stores, Canonical, Separate, Tiled, Counts, Fits, InsertNeeds, Torn, Filled, Crumbled,
      Pending, Quiet, Checkable, Mendable, Doubled, Intact, Repaired, Pool.Full, SameDescriptor, WithoutBucket,
      HashTable.Valid, HashTable.Stored, HashTable.Removed, SameLog, Awaits, Repairable, HashTable.CrashState, Apart,
      Twice, OldOrNew, NearlyFull, Rounds, SameReach;
    ghost var m0, view0 := t.pool.M, t.view;
    CheckableIs(t);
    repaired, scans, lists, gaps := false, 0, [], [];
    t.ValidIs();
    ghost var freed;
    r, died, head, freed := t.Delete(key, true);
    LogDescriptor(m0, t.pool.M);
    LogLock(m0, t.pool.M);
    if !died { return; }
    FewerFilled(view0, t.view, t.cmp, t.cmp.bucket(key), k0);
    CrashRepairable(t, m0, [], []);
    StartExclusive(t, [], []);
    var short;
    ghost var replays;
    repaired, short, scans, replays, lists, gaps := RepairRounds(t, deaths, [], []);
  }

  lemma FewerFilled(view0: View, view: View, cmp: Matching, k: nat, key: Bytes)
    requires Filled(view0) && (view == WithoutBucket(view0, cmp, k) || view == view0 - {key})
    ensures Filled(view)
  {
  }

  /* ---- A failed insert ---- */

  lemma StartsLive(st: State, cmp: Matching, ht: nat, chains: seq<seq<Node>>)
    requires TableOk(st, cmp, ht, chains) && Sound(cmp)
    ensures forall a :: a in Starts(ht, FlatNodes(chains)) ==> a in st.live && a in st.role
  {
    hide Word, ChainOk, Owns, Sound, NodesOk, Starts, FlatNodes, HasKey;
    TableNodes(st, cmp, ht, chains, BUCKETS);
    assert chains[..BUCKETS] == chains;
    forall a | a in Starts(ht, FlatNodes(chains))
      ensures a in st.live && a in st.role
    {
      StartRoles(st, ht, FlatNodes(chains), a);
    }
  }

  /** Regions that were added and cannot be reached are exactly what a check gives back. */
  lemma ReachedOld(live0: Live, live: Live, starts: set<int>)
    requires AtMostTwoMore(live0, live) && NoLeaks(live0, starts) && forall a :: a in starts ==> a in live0
    ensures Reached(live, starts) == live0
  {
  }

  /** An insert that finds no room, and the check after it: the used regions are
      again exactly those from before. */
  method InsertOrReclaim(t: HashTable, key: Bytes, value: Bytes) returns (ok: bool)
    requires Checkable(t) && t.pool.Full() && NoLeaks(t.pool.live, StartsOf(t)) && t.Absent(key)
    requires |key| <= MAX_STRING && |value| <= MAX_STRING
    modifies t`chains, t`role, t`view, t.pool`M, t.pool`fs, t.pool`live, t.pool.mem
    ensures ok <==> Fits(old(t.pool.fs), InsertNeeds(old(t.pool.M), key, value))
    ensures Checkable(t) && Quiet(t.pool.M) && t.view == if ok then old(t.view)[key := Some(value)] else old(t.view)
    ensures !ok ==> t.pool.live == old(t.pool.live) && t.chains == old(t.chains)
  {
    hide Word, TableOk, Sound, Stores, Canonical, Separate, Tiled, Counts, Fits, InsertNeeds, Torn, Filled, Starts,
      FlatNodes, Crumbled, Pending, NoLeaks, Quiet, Checkable, Pool.Full, AtMostTwoMore, Reached, Late, Exact, Covers,
      Used, Agree, SameDescriptor, Serves;
    ghost var live0, view0 := t.pool.live, t.view;
    CheckableIs(t);
    StartsLive(t.St(), t.cmp, t.ht, t.chains);
    ghost var died;
    t.ValidIs();
    ok, died := t.Set(key, value, false);
    StillCheckable(t, view0, key, value);
    if !ok {
      ReachedOld(live0, t.pool.live, StartsOf(t));
      ghost var m1 := t.pool.M;
      MendableOnly(t);
      var r, crashed, short;
      ghost var marks, gaps, at;
      r, crashed, short, marks, gaps, at := CheckTable(t, false);
      QuietSame(m1, t.pool.M);
    }
  }
}
