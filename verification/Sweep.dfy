/** What the check makes of a pool whose table is intact: exactly the regions the
    table reaches stay in use, the rest becomes free. */
module Sweeping {
  import opened Memory
  import opened FreeList
  import opened Links
  import opened Regions
  import opened Allocation
  import opened Pools
  import opened UsageMaps
  import opened LeakScan
  import opened Marking
  import opened Tables
  import opened Health
  import opened Repair
  import opened TableSteps

  /* ---- What the table can reach ---- */

  ghost function Reached(live: Live, starts: set<int>): Live {
    map a | a in live && a in starts :: live[a]
  }

  ghost function ReachedRoles(role: map<nat, Role>, starts: set<int>): map<nat, Role> {
    map a | a in role && a in starts :: role[a]
  }

  /** Every used region can be reached: nothing has leaked. */
  ghost predicate NoLeaks(live: Live, starts: set<int>) {
    forall a :: a in live ==> a in starts
  }

  lemma {:induction false} StartsHas(ht: nat, ns: seq<Node>, i: nat)
    requires i < |ns|
    ensures forall a :: a in NodeStarts(ns[i]) ==> a in Starts(ht, ns)
  {
    if i < |ns| - 1 { StartsHas(ht, ns[..|ns| - 1], i); }
  }

  lemma {:induction false} TableStart(ht: nat, ns: seq<Node>)
    ensures ht - 8 in Starts(ht, ns)
  {
    if ns != [] { TableStart(ht, ns[..|ns| - 1]); }
  }

  lemma {:induction false} FlatNodesHas(chains: seq<seq<Node>>, k: nat, i: nat) returns (x: nat)
    requires k < |chains| && i < |chains[k]|
    ensures x < |FlatNodes(chains)| && FlatNodes(chains)[x] == chains[k][i]
  {
    var init := chains[..|chains| - 1];
    if k == |chains| - 1 {
      x := |FlatNodes(init)| + i;
    } else {
      x := FlatNodesHas(init, k, i);
    }
  }

  lemma ReachedOwns(st: State, starts: set<int>, p: nat, r: Role, size: nat)
    requires Owns(st, p, r, size) && p - 8 in starts
    ensures Owns(st.(role := ReachedRoles(st.role, starts)), p, r, size)
  {
    hide Word;
  }

  lemma ReachedNode(st: State, cmp: Matching, starts: set<int>, k: nat, n: Node)
    requires NodeOk(st, cmp, k, n) && forall a :: a in NodeStarts(n) ==> a in starts
    ensures NodeOk(st.(role := ReachedRoles(st.role, starts)), cmp, k, n)
  {
    hide NodeAt, Owns, ReachedRoles;
    ReachedOwns(st, starts, n.va, EntryBlock(n.key), ENTRY);
    ReachedOwns(st, starts, n.kp, KeyBlock(n.key), |n.key| + 9);
    if n.value.Some? { ReachedOwns(st, starts, n.vp, ValueBlock(n.key), |n.value.value| + 9); }
  }

  lemma ReachedChain(st: State, cmp: Matching, ht: nat, chains: seq<seq<Node>>, k: nat)
    requires TableOk(st, cmp, ht, chains) && k < BUCKETS
    ensures |chains| == BUCKETS && ht + TABLE <= |st.m|
    ensures ChainOk(st.(role := ReachedRoles(st.role, Starts(ht, FlatNodes(chains)))), cmp, k,
      Head(st.m, ht, k), chains[k])
  {
    hide Word, NodeOk, LinkedNodes, Starts, FlatNodes, ReachedRoles, NodeStarts, Owns;
    TableAt(st, cmp, ht, chains, k);
    forall i | 0 <= i < |chains[k]|
      ensures NodeOk(st.(role := ReachedRoles(st.role, Starts(ht, FlatNodes(chains)))), cmp, k, chains[k][i])
    {
      var x := FlatNodesHas(chains, k, i);
      StartsHas(ht, FlatNodes(chains), x);
      ReachedNode(st, cmp, Starts(ht, FlatNodes(chains)), k, chains[k][i]);
    }
  }

  /** The table needs no other blocks than those it reaches. */
  lemma ReachedTable(st: State, cmp: Matching, ht: nat, chains: seq<seq<Node>>)
    requires TableOk(st, cmp, ht, chains)
    ensures TableOk(st.(role := ReachedRoles(st.role, Starts(ht, FlatNodes(chains)))), cmp, ht, chains)
  {
    hide Word, ChainOk, Owns, HasKey, Starts, FlatNodes;
    var starts := Starts(ht, FlatNodes(chains));
    TableStart(ht, FlatNodes(chains));
    ReachedOwns(st, starts, ht, TableBlock, TABLE);
    forall k | 0 <= k < BUCKETS
      ensures ChainOk(st.(role := ReachedRoles(st.role, starts)), cmp, k, Head(st.m, ht, k), chains[k])
    {
      ReachedChain(st, cmp, ht, chains, k);
    }
  }

  /* ---- The pool after a check ---- */

  /** What the scan left: `fs` was `fs0` before `gaps` were given back. */
  ghost predicate Swept(m0: Bytes, m: Bytes, live: Live, fs0: Chunks, fs: Chunks, gaps: Chunks, marks: set<int>,
      starts: set<int>) {
    && KeptMarked(m0, m, fs0, marks) && GaveBack(fs0, fs, gaps)
    && Exact(marks, live, fs0, starts) && Separate(live, fs0, |m0|)
    && InPool(fs, |m0|) && forall b :: Covers(gaps, b) ==> b !in marks
  }

  lemma ReachedMarked(marks: set<int>, live: Live, fs: Chunks, starts: set<int>, n: nat, a: nat, b: int)
    requires Exact(marks, live, fs, starts) && Separate(live, fs, n) && a in live && a in starts && a <= b < a + live[a]
    ensures b in marks && !Covers(fs, b)
  {
    hide Covers, Outside;
    OutsideUncovered(fs, a, live[a]);
    assert Marked(live, fs, starts, b);
  }

  /** The regions that can be reached keep their bytes and stay apart from the longer list. */
  lemma SweptKeeps(m0: Bytes, m: Bytes, live: Live, fs0: Chunks, fs: Chunks, gaps: Chunks, marks: set<int>,
      starts: set<int>)
    requires Swept(m0, m, live, fs0, fs, gaps, marks, starts)
    ensures |m| == |m0| && Separate(Reached(live, starts), fs, |m|)
    ensures forall a :: a in live && a in starts ==> Agree(m0, m, a, live[a])
  {
    hide Covers, Outside, ReleaseAll, Exact;
    forall a | a in live && a in starts
      ensures Agree(m0, m, a, live[a]) && Outside(fs, a, live[a])
    {
      forall b | a <= b < a + live[a]
        ensures b in marks && !Covers(fs0, b) && !Covers(fs, b)
      {
        ReachedMarked(marks, live, fs0, starts, |m0|, a, b);
      }
      UncoveredOutside(fs, a, live[a], |m0|);
    }
  }

  lemma SweptTable(st: State, m: Bytes, cmp: Matching, ht: nat, chains: seq<seq<Node>>, fs0: Chunks, fs: Chunks,
      gaps: Chunks, marks: set<int>)
    requires TableOk(st, cmp, ht, chains)
    requires Swept(st.m, m, st.live, fs0, fs, gaps, marks, Starts(ht, FlatNodes(chains)))
    ensures |m| == |st.m| && ht + 8 <= |m| && Word(m, ht) == Word(st.m, ht)
    ensures var starts := Starts(ht, FlatNodes(chains));
      TableOk(State(m, Reached(st.live, starts), ReachedRoles(st.role, starts), st.view), cmp, ht, chains)
  {
    hide Word, TableOk, Starts, FlatNodes, Swept, Agree;
    var starts := Starts(ht, FlatNodes(chains));
    var st1 := st.(role := ReachedRoles(st.role, starts));
    var st2 := State(m, Reached(st.live, starts), st1.role, st.view);
    ReachedTable(st, cmp, ht, chains);
    SweptKeeps(st.m, m, st.live, fs0, fs, gaps, marks, starts);
    assert AllKept(st1, st2);
    TableFrame(st1, st2, cmp, ht, chains);
    assert ht + TABLE <= |st.m| by { TableFits(st, cmp, ht, chains); }
  }

  /** After the scan every byte is free or can be reached, unless the scan stepped over it. */
  lemma SweptTiles(live: Live, fs0: Chunks, fs: Chunks, gaps: Chunks, marks: set<int>, starts: set<int>, n: nat)
    requires Exact(marks, live, fs0, starts) && GaveBack(fs0, fs, gaps) && Scanned(marks, n, n + 1, gaps)
    ensures forall b :: DESC <= b < n ==> (Covers(fs, b) || Used(Reached(live, starts), b) <==> !Late(marks, n, b))
  {
    hide Covers, ReleaseAll, Late, IsRun;
    var r := Reached(live, starts);
    forall b | DESC <= b < n
      ensures Covers(fs, b) || Used(r, b) <==> !Late(marks, n, b)
    {
      LateAligned(marks, n, b);
      assert Used(r, b) <==> InRegions(live, starts, b) by { UsedReached(live, starts, b); }
      assert Marked(live, fs0, starts, b) <==> b in marks;
      assert Wanted(marks, n, b) <==> Covers(gaps, b);
    }
  }

  lemma UsedReached(live: Live, starts: set<int>, b: int)
    ensures Used(Reached(live, starts), b) <==> InRegions(live, starts, b)
  {
    var r := Reached(live, starts);
    if Used(r, b) { var a :| a in r && a <= b < a + r[a]; }
    if InRegions(live, starts, b) { var a :| a in starts && a in live && a <= b < a + live[a]; assert a in r; }
  }

  /** What it stepped over is a crumb. */
  lemma SweptCrumbs(live: Live, fs0: Chunks, fs: Chunks, gaps: Chunks, marks: set<int>, starts: set<int>, n: nat)
    requires Exact(marks, live, fs0, starts) && GaveBack(fs0, fs, gaps) && Scanned(marks, n, n + 1, gaps)
    requires Spacious(live, fs0, starts, n)
    ensures Crumbled(Reached(live, starts), fs, n)
  {
    hide Covers, ReleaseAll, Exact, Scanned, Reached, Spacious, Crumb, GaveBack;
    forall b | DESC <= b < n
      ensures Covers(fs, b) || Used(Reached(live, starts), b) || Crumb(fs, b)
    {
      UsedReached(live, starts, b);
      if !Covers(fs, b) && !InRegions(live, starts, b) { CrumbsLeft(marks, live, fs0, fs, gaps, starts, n, b); }
    }
  }

  lemma UsedMarked(live: Live, fs: Chunks, marks: set<int>, starts: set<int>, b: int)
    requires Exact(marks, live, fs, starts) && NoLeaks(live, starts)
    ensures Used(live, b) ==> b in marks
  {
    hide Covers;
    if Used(live, b) {
      var a :| a in live && a <= b < a + live[a];
      assert Marked(live, fs, starts, b);
    }
  }

  lemma CrumbledAt(live: Live, fs: Chunks, n: nat, b: int)
    requires Crumbled(live, fs, n)
    ensures DESC <= b < n ==> Covers(fs, b) || Used(live, b) || Crumb(fs, b)
  {
  }

  /** Where nothing has leaked but crumbs, the scan steps over nothing. */
  lemma NothingLate(live: Live, fs: Chunks, marks: set<int>, starts: set<int>, n: nat, b: int)
    requires Exact(marks, live, fs, starts) && Crumbled(live, fs, n) && NoLeaks(live, starts) && DESC <= b
    ensures !Late(marks, n, b)
  {
    hide Covers;
    forall e
      ensures !LateVia(marks, n, e, b)
    {
      assert Marked(live, fs, starts, e - 1) <==> e - 1 in marks;
      UsedMarked(live, fs, marks, starts, e - 1);
      CrumbledAt(live, fs, n, e - 1);
    }
  }

  /* ---- The list after a check ---- */

  lemma ReachedMarks(live: Live, fs: Chunks, starts: set<int>, b: int)
    ensures Marked(Reached(live, starts), fs, starts, b) <==> Marked(live, fs, starts, b)
  {
    var r := Reached(live, starts);
    if InRegions(live, starts, b) { var a :| a in starts && a in live && a <= b < a + live[a]; assert a in r; }
  }

  /** Whether a pool is spacious only depends on the regions that are reached. */
  lemma ReachedSpacious(live: Live, fs: Chunks, starts: set<int>, n: nat)
    requires Spacious(live, fs, starts, n)
    ensures Spacious(Reached(live, starts), fs, starts, n)
  {
    hide Crumb, Marked, Reached;
    var r := Reached(live, starts);
    forall b ensures Marked(r, fs, starts, b) <==> Marked(live, fs, starts, b) { ReachedMarks(live, fs, starts, b); }
    forall b | DESC <= b < n && !Marked(r, fs, starts, b)
      ensures Crumb(fs, b) || InBlank(r, fs, starts, n, b)
    {
      if !Crumb(fs, b) {
        var x, k := BlankAt(live, fs, starts, n, b);
        forall y | x <= y < x + k ensures !Marked(r, fs, starts, y) { assert !Marked(live, fs, starts, y); }
        BlankHas(r, fs, starts, n, b, x, k);
      }
    }
  }

  /** Everything a check that ended says about the pool. */
  lemma SweptDone(p: Pool, m0: Bytes, live: Live, fs0: Chunks, marks: set<int>, gaps: Chunks, starts: set<int>)
    requires Done(p, m0, fs0, marks, gaps) && Scanned(marks, |m0|, |m0| + 1, gaps)
    requires Exact(marks, live, fs0, starts) && Separate(live, fs0, |m0|)
    ensures Swept(m0, p.M, live, fs0, p.fs, gaps, marks, starts) && p.Chained() && |p.M| == |m0|
    ensures p.fs == ReleaseAll(fs0, gaps) && Shape(fs0, p.fs, gaps, |m0|)
    ensures Spacious(live, fs0, starts, |m0|) ==>
      Spacious(Reached(live, starts), p.fs, starts, |m0|) && Crumbled(Reached(live, starts), p.fs, |m0|)
  {
    hide Scanned, Stores, GaveBack, Exact, Separate, Reached, Spacious, Crumbled, AllRuns, Shape;
    ScannedRuns(marks, |m0|, |m0| + 1, gaps);
    forall b ensures Covers(gaps, b) ==> b !in marks { RunsUnmarked(marks, |m0|, gaps, b); }
    KeptMarkedLength(m0, p.M, fs0, marks);
    GaveIs(fs0, p.fs, gaps);
    if Spacious(live, fs0, starts, |m0|) {
      SpaciousAfter(marks, live, fs0, p.fs, gaps, starts, |m0|);
      ReachedSpacious(live, p.fs, starts, |m0|);
      SweptCrumbs(live, fs0, p.fs, gaps, marks, starts, |m0|);
    }
  }

  /** What a check that crashed says: the table is as after giving back `gaps`. */
  lemma SweptBroken(p: Pool, m0: Bytes, live: Live, fs0: Chunks, marks: set<int>, gaps: Chunks, at: Chunk,
      starts: set<int>)
    requires Broken(p, m0, fs0, marks, gaps, at) && Exact(marks, live, fs0, starts) && Separate(live, fs0, |m0|)
    ensures Swept(m0, p.M, live, fs0, ReleaseAll(fs0, gaps), gaps, marks, starts) && p.Sync() && |p.M| == |m0|
    ensures Stores(p.M, p.fs)
  {
    hide Stores, Exact, Separate, ReleaseCrash, ReleaseAll, Outside, GaveBack, Reached, KeptMarked, IsRun, AllRuns;
    forall b ensures Covers(gaps, b) ==> b !in marks { RunsUnmarked(marks, |m0|, gaps, b); }
    KeptMarkedLength(m0, p.M, fs0, marks);
  }

  /** Its list is crisp and off every region reached; */
  lemma BrokenCrisp(p: Pool, m0: Bytes, live: Live, fs0: Chunks, marks: set<int>, gaps: Chunks, at: Chunk,
      starts: set<int>)
    requires Broken(p, m0, fs0, marks, gaps, at) && Exact(marks, live, fs0, starts) && Separate(live, fs0, |m0|)
    requires Crisp(fs0)
    ensures InPool(p.fs, |m0|) && Crisp(p.fs) && Separate(Reached(live, starts), p.fs, |m0|)
  {
    hide Stores, Exact, Separate, ReleaseCrash, ReleaseAll, Outside, GaveBack, Reached, KeptMarked, IsRun, AllRuns,
      Covers, InPool, Apart, Twice, Crisp, NoTouch;
    var fsb, n := ReleaseAll(fs0, gaps), |m0|;
    RunClear(marks, live, fs0, starts, n, at);
    CrashKeeps(fsb, at.off, at.size, p.fs, n);
    SweptBroken(p, m0, live, fs0, marks, gaps, at, starts);
    SweptKeeps(m0, p.M, live, fs0, fsb, gaps, marks, starts);
    TornSeparate(p.M, Reached(live, starts), p.fs, fsb, at.off, at.size);
  }

  /** and it counts a chunk twice, if a give-back before it did or it died in the merge-up
      window, or else it is apart and spacious. */
  lemma BrokenList(p: Pool, m0: Bytes, live: Live, fs0: Chunks, marks: set<int>, gaps: Chunks, at: Chunk,
      starts: set<int>)
    requires Broken(p, m0, fs0, marks, gaps, at) && Exact(marks, live, fs0, starts) && Separate(live, fs0, |m0|)
    requires Spacious(live, fs0, starts, |m0|) && Apart(fs0)
    ensures if !NoDoubles(fs0, gaps) || CountedTwice(ReleaseAll(fs0, gaps), at.off, at.size, p.fs) then Twice(p.fs)
      else Apart(p.fs) && Spacious(Reached(live, starts), p.fs, starts, |m0|)
  {
    hide Stores, Exact, Separate, ReleaseCrash, ReleaseAll, Outside, GaveBack, Reached, KeptMarked, IsRun, AllRuns,
      Covers, InPool, Apart, Twice, Spacious, CountedTwice, Marked, InRegions, Beside, Crisp;
    if !NoDoubles(fs0, gaps) { return; }
    var fsb, n := ReleaseAll(fs0, gaps), |m0|;
    RunClear(marks, live, fs0, starts, n, at);
    CrashInsideFree(fsb, at.off, at.size, p.fs, n);
    if !CountedTwice(fsb, at.off, at.size, p.fs) {
      SpaciousAfter(marks, live, fs0, fsb, gaps, starts, n);
      forall b | InRegions(live, starts, b)
        ensures !Covers(fsb, b) && !(at.off <= b < at.End())
      {
        ReachedUnscanned(marks, live, fs0, fsb, gaps, starts, n, at, b);
      }
      forall b | DESC <= b < n && !Marked(live, fsb, starts, b) && !(at.off <= b < at.End())
        ensures Beside(live, fsb, starts, n, at.off, at.size, b)
      {
        RunBeside(marks, live, fs0, fsb, gaps, starts, n, at, b);
      }
      CrashSpacious(live, fsb, starts, n, at.off, at.size, p.fs);
      ReachedSpacious(live, p.fs, starts, n);
    }
  }

  /** A scan of the list `fs` that died while it gave `at` back, after `gaps`, left the list `fs'`. */
  ghost predicate Interrupted(marks: set<int>, n: nat, fs: Chunks, gaps: Chunks, at: Chunk, fs': Chunks) {
    && Scanned(marks, n, at.off, gaps) && IsRun(marks, n, at)
    && ReleaseCrash(ReleaseAll(fs, gaps), at.off, at.size, fs')
  }

  lemma BrokenInterrupted(p: Pool, m0: Bytes, fs0: Chunks, marks: set<int>, gaps: Chunks, at: Chunk)
    requires Broken(p, m0, fs0, marks, gaps, at)
    ensures Interrupted(marks, |m0|, fs0, gaps, at, p.fs)
  {
    hide Stores, KeptMarked, GaveBack, Shape, Scanned, IsRun, ReleaseCrash, ReleaseAll, Apart, NoDoubles, Twice;
  }

  /** The regions of `starts` are the same. */
  ghost predicate SameReach(live: Live, live': Live, starts: set<int>) {
    forall b :: InRegions(live, starts, b) <==> InRegions(live', starts, b)
  }

  lemma ReachedSame(live: Live, starts: set<int>)
    ensures SameReach(live, Reached(live, starts), starts)
  {
    hide InRegions, Reached;
    forall b ensures InRegions(live, starts, b) <==> InRegions(Reached(live, starts), starts, b) {
      ReachedRegion(live, starts, b);
    }
  }

  lemma ReachedRegion(live: Live, starts: set<int>, b: int)
    ensures InRegions(live, starts, b) <==> InRegions(Reached(live, starts), starts, b)
  {
    var r := Reached(live, starts);
    if InRegions(live, starts, b) { var a :| a in starts && a in live && a <= b < a + live[a]; assert a in r; }
  }

  /** A bitmap is exact for all used regions under which the same ones are reached. */
  lemma ExactSame(marks: set<int>, live: Live, live': Live, fs: Chunks, starts: set<int>)
    requires Exact(marks, live, fs, starts) && SameReach(live, live', starts)
    ensures Exact(marks, live', fs, starts)
  {
    hide InRegions, Covers;
  }

  lemma ReachedUnscanned(marks: set<int>, live: Live, fs0: Chunks, fs: Chunks, gaps: Chunks, starts: set<int>, n: nat,
      at: Chunk, b: int)
    requires Exact(marks, live, fs0, starts) && Separate(live, fs0, n) && GaveBack(fs0, fs, gaps)
    requires AllRuns(marks, n, gaps) && IsRun(marks, n, at) && InRegions(live, starts, b)
    ensures !Covers(fs, b) && !(at.off <= b < at.End())
  {
    hide Exact, Separate, IsRun, AllRuns, Covers, ReleaseAll;
    var a :| a in starts && a in live && a <= b < a + live[a];
    ReachedMarked(marks, live, fs0, starts, n, a, b);
    RunsUnmarked(marks, n, gaps, b);
    RunUnmarked(marks, n, at, b);
  }

  /** A run is off the descriptor and off every region that can be reached. */
  lemma RunClear(marks: set<int>, live: Live, fs: Chunks, starts: set<int>, n: nat, c: Chunk)
    requires Exact(marks, live, fs, starts) && Separate(live, fs, n) && IsRun(marks, n, c)
    ensures c.size > 0 && DESC <= c.off && c.End() <= n
    ensures forall a :: a in Reached(live, starts) ==> Disjoint(c.off, c.size, a, Reached(live, starts)[a])
  {
    hide Covers, Outside, Late;
    assert Wanted(marks, n, c.off) && Wanted(marks, n, c.End() - 1);
    assert Marked(live, fs, starts, c.off) <==> c.off in marks;
    forall a | a in live && a in starts
      ensures Disjoint(c.off, c.size, a, live[a])
    {
      var b := if a <= c.off then c.off else a;
      if c.off <= b < c.End() && a <= b < a + live[a] {
        RunUnmarked(marks, n, c, b);
        ReachedMarked(marks, live, fs, starts, n, a, b);
      }
    }
  }

  /** A full pool without leaks is marked as a whole. */
  lemma AllReached(marks: set<int>, live: Live, fs: Chunks, starts: set<int>, n: nat)
    requires Exact(marks, live, fs, starts) && Tiled(live, fs, n) && NoLeaks(live, starts)
    ensures AllMarked(marks, 0, n)
    ensures forall c :: !IsRun(marks, n, c)
  {
    hide Covers, Late;
    forall b | 0 <= b < n
      ensures b in marks
    {
      assert Marked(live, fs, starts, b) <==> b in marks;
      UsedMarked(live, fs, marks, starts, b);
    }
    forall c | IsRun(marks, n, c)
      ensures false
    {
      RunUnmarked(marks, n, c, c.off);
    }
  }

  lemma SweptDescriptor(m0: Bytes, m: Bytes, live: Live, fs0: Chunks, fs: Chunks, gaps: Chunks, marks: set<int>,
      starts: set<int>)
    requires Swept(m0, m, live, fs0, fs, gaps, marks, starts) && InPool(fs0, |m0|) && DESC <= |m0|
    ensures |m| == |m0| && Agree(m0, m, 8, DESC - 8)
  {
    hide Covers, ReleaseAll, GaveBack;
    forall k | 8 <= k < DESC
      ensures m[k] == m0[k]
    {
      assert Marked(live, fs0, starts, k);
      if Covers(fs0, k) { var i := CoverIndex(fs0, k); }
    }
  }

}
