/** What the checker does on a pool whose table and free list are intact, with
    any used regions leaked. */
module Repair {
  import opened Memory
  import opened FreeList
  import opened Links
  import opened Regions
  import opened Allocation
  import opened Pools
  import opened UsageMaps
  import opened Acceptance
  import opened LeakScan
  import opened Marking
  import opened Tables
  import opened Health
  import opened Checking

  ghost function FreeOffs(fs: Chunks): set<nat> {
    set i | 0 <= i < |fs| :: fs[i].off
  }

  ghost function EntryOffs(es: seq<nat>): set<nat> {
    set i | 0 <= i < |es| :: es[i]
  }

  lemma FreeOffsClosed(m: Bytes, fs: Chunks)
    requires Stores(m, fs) && InPool(fs, |m|) && Word(m, TOTAL_SIZE) + DESC == |m|
    ensures FreeClosed(m, FreeOffs(fs))
  {
    hide Word, Stores, FreeOffs;
    var S := FreeOffs(fs);
    StoresOffs(m, fs);
    NextWord(m, fs, -1);
    if |fs| > 0 { OffIn(fs, 0); }
    forall a | a in S
      ensures DESC <= a && a + HEADER <= |m| && 0 < Word(m, a + 8) <= |m| - a
      ensures Word(m, a) == 0 || Word(m, a) in S
    {
      var i := OffIndex(fs, a);
      SizeReads(m, fs, i);
      InPoolAt(fs, |m|, i);
      if i + 1 < |fs| { OffIn(fs, i + 1); }
    }
  }

  lemma OffIn(fs: Chunks, i: nat)
    requires i < |fs|
    ensures fs[i].off in FreeOffs(fs)
  {
  }

  lemma OffIndex(fs: Chunks, a: nat) returns (i: nat)
    requires a in FreeOffs(fs)
    ensures i < |fs| && fs[i].off == a
  {
    i :| 0 <= i < |fs| && fs[i].off == a;
  }

  lemma EntryOffsClosed(m: Bytes, ht: nat, ch: seq<seq<nat>>)
    requires Chains(m, ht, ch) && |ch| == BUCKETS && EntriesOk(m, Flat(ch)) && PointerOk(m, ht)
    ensures TableClosed(m, ht, EntryOffs(Flat(ch))) && EntriesClosed(m, EntryOffs(Flat(ch)))
  {
    hide Word, EntryOk, Flat, PointerOk;
    var E := EntryOffs(Flat(ch));
    forall k | 0 <= k < BUCKETS
      ensures Head(m, ht, k) == 0 || Head(m, ht, k) in E
    {
      if |ch[k]| > 0 { EntryIn(m, ch, k, 0); }
    }
    forall e | e in E
      ensures EntryOk(m, e) && e + ENTRY <= |m| && (Word(m, e) == 0 || Word(m, e) in E)
    {
      var x :| 0 <= x < |Flat(ch)| && Flat(ch)[x] == e;
      EntryFits(m, e);
      EntryNext(m, ht, ch, x);
    }
  }

  lemma EntryIn(m: Bytes, ch: seq<seq<nat>>, k: nat, i: nat)
    requires k < |ch| && i < |ch[k]|
    ensures ch[k][i] in EntryOffs(Flat(ch))
  {
    hide Flat;
    FlatHas(ch, k, i);
  }

  lemma {:induction false} FlatFrom(ch: seq<seq<nat>>, x: nat) returns (k: nat, i: nat)
    requires x < |Flat(ch)|
    ensures k < |ch| && i < |ch[k]| && ch[k][i] == Flat(ch)[x]
  {
    var init := ch[..|ch| - 1];
    if x < |Flat(init)| {
      k, i := FlatFrom(init, x);
    } else {
      k, i := |ch| - 1, x - |Flat(init)|;
    }
  }

  lemma EntryNext(m: Bytes, ht: nat, ch: seq<seq<nat>>, x: nat)
    requires Chains(m, ht, ch) && |ch| == BUCKETS && EntriesOk(m, Flat(ch)) && x < |Flat(ch)|
    ensures Flat(ch)[x] + ENTRY <= |m|
    ensures Word(m, Flat(ch)[x]) == 0 || Word(m, Flat(ch)[x]) in EntryOffs(Flat(ch))
  {
    hide Word, EntryOk, Flat;
    var k, i := FlatFrom(ch, x);
    EntryFits(m, Flat(ch)[x]);
    assert Chain(m, Head(m, ht, k), ch[k]);
    if i + 1 < |ch[k]| {
      EntryIn(m, ch, k, i + 1);
      assert Word(m, ch[k][i]) == ch[k][i + 1];
    }
  }

  /* ---- The checker finds what is there ---- */

  lemma {:induction false} ChainUnique(m: Bytes, head: nat, a: seq<nat>, b: seq<nat>)
    requires Chain(m, head, a) && Chain(m, head, b)
    ensures a == b
  {
    hide Word, Chain, ChainPrefix, NextEntry;
    var k := 0;
    while k < |a|
      invariant k <= |a| && IsPrefixOf(a[..k], b)
    {
      ChainCut(m, head, a, k);
      ChainGoesOn(m, head, a[..k], b, NextEntry(m, head, a[..k]));
      k := k + 1;
    }
    ChainCut(m, head, a, |a|);
    assert a[..|a|] == a;
    ChainGoesOn(m, head, a, b, NextEntry(m, head, a));
  }

  lemma ChainCut(m: Bytes, head: nat, c: seq<nat>, k: nat)
    requires Chain(m, head, c) && k <= |c|
    ensures ChainPrefix(m, head, c[..k]) && (k > 0 ==> c[..k][k - 1] + ENTRY <= |m|) && |c[..k]| == k
    ensures k < |c| ==> NextEntry(m, head, c[..k]) != 0 && c[..k + 1] == c[..k] + [NextEntry(m, head, c[..k])]
    ensures k == |c| ==> c[..k] == c && NextEntry(m, head, c) == 0
  {
    hide Word, PointerOk;
    assert forall i :: 0 <= i < k ==> c[..k][i] == c[i];
    if k < |c| { EntryFits(m, c[k]); }
    if k > 0 { EntryFits(m, c[k - 1]); }
    if k == |c| { assert c[..k] == c; }
  }

  lemma FoundIs(st: State, fs: Chunks, cmp: Matching, ht: nat, chains: seq<seq<Node>>, fs': Chunks, ch: seq<seq<nat>>,
      marks: set<int>)
    requires PoolOk(st, fs, cmp, ht, chains) && Found(st.m, ht, fs', ch, marks)
    ensures fs' == fs && ch == Vas(chains)
    ensures forall b :: b in marks <==> Marked(st.live, fs, Starts(ht, FlatNodes(chains)), b)
  {
    hide Word, EntryOk, EntriesOk, Chain, Regs, Flat, Linked, Starts, NodesOk, Marked, Covers, WellPlaced,
      AcceptsAll, MarkedAll, Solid, NoneIdle, TableOk, Sound, InPool, Apart, Separate;
    PoolHealthy(st, fs, cmp, ht, chains);
    PoolPlaced(st, fs, cmp, ht, chains);
    LinkedUnique(st.m, fs, fs');
    forall k | 0 <= k < BUCKETS
      ensures ch[k] == Vas(chains)[k]
    {
      ChainUnique(st.m, Head(st.m, ht, k), ch[k], Vas(chains)[k]);
    }
    assert ch == Vas(chains);
    var regs := Regs(st.m, fs, ht, Flat(ch));
    PlacedAccepted(regs, |st.m|);
    MarksCover(marks, regs, |st.m|);
  }

  /* ---- Every gap is large enough ---- */

  /** Exact bitmap of a pool with these used regions. */
  ghost predicate Exact(marks: set<int>, live: Live, fs: Chunks, starts: set<int>) {
    forall b :: b in marks <==> Marked(live, fs, starts, b)
  }

  /** A single byte that a scan stepped over, right below a free chunk. */
  ghost predicate Crumb(fs: Chunks, b: int) {
    b % 8 == 0 && Covers(fs, b + 1)
  }

  /** Every byte after the descriptor is free or used, but for such crumbs. */
  ghost predicate Crumbled(live: Live, fs: Chunks, n: nat) {
    forall b :: DESC <= b < n ==> Covers(fs, b) || Used(live, b) || Crumb(fs, b)
  }

  lemma TiledCrumbled(live: Live, fs: Chunks, n: nat)
    requires Tiled(live, fs, n)
    ensures Crumbled(live, fs, n)
  {
  }

  /** [x, x + k) is longer than a chunk header, and neither free nor reached. */
  ghost predicate Blank(live: Live, fs: Chunks, starts: set<int>, x: int, k: int) {
    HEADER < k && DESC <= x && forall b :: x <= b < x + k ==> !Marked(live, fs, starts, b)
  }

  ghost predicate InBlank(live: Live, fs: Chunks, starts: set<int>, n: nat, b: int) {
    exists x, k :: x <= b < x + k <= n && Blank(live, fs, starts, x, k)
  }

  /** Every byte that is neither free nor reached is a crumb or lies in a blank. */
  ghost predicate Spacious(live: Live, fs: Chunks, starts: set<int>, n: nat) {
    forall b :: DESC <= b < n && !Marked(live, fs, starts, b) ==> Crumb(fs, b) || InBlank(live, fs, starts, n, b)
  }

  lemma BlankAt(live: Live, fs: Chunks, starts: set<int>, n: nat, b: int) returns (x: int, k: int)
    requires InBlank(live, fs, starts, n, b)
    ensures x <= b < x + k <= n && Blank(live, fs, starts, x, k)
  {
    x, k :| x <= b < x + k <= n && Blank(live, fs, starts, x, k);
  }

  lemma BlankHas(live: Live, fs: Chunks, starts: set<int>, n: nat, b: int, x: int, k: int)
    requires x <= b < x + k <= n && Blank(live, fs, starts, x, k)
    ensures InBlank(live, fs, starts, n, b)
  {
  }

  lemma SpaciousAt(live: Live, fs: Chunks, starts: set<int>, n: nat, b: int)
    requires Spacious(live, fs, starts, n) && DESC <= b < n && !Marked(live, fs, starts, b)
    ensures Crumb(fs, b) || InBlank(live, fs, starts, n, b)
  {
  }

  /** A used region that is not reached is blank. */
  lemma LeakedBlank(live: Live, fs: Chunks, starts: set<int>, n: nat, a: nat)
    requires Separate(live, fs, n) && a in live && a !in starts
    ensures Blank(live, fs, starts, a, live[a]) && a + live[a] <= n
  {
    hide Covers, Outside;
    OutsideUncovered(fs, a, live[a]);
    forall b | a <= b < a + live[a]
      ensures !InRegions(live, starts, b)
    {
      forall x | x in starts && x in live
        ensures !(x <= b < x + live[x])
      {
        assert Disjoint(a, live[a], x, live[x]);
      }
    }
  }

  lemma UsedUnreached(live: Live, starts: set<int>, b: int) returns (a: nat)
    requires Used(live, b) && !InRegions(live, starts, b)
    ensures a in live && a !in starts && a <= b < a + live[a]
  {
    a :| a in live && a <= b < a + live[a];
  }

  /** Where everything is accounted for but crumbs, the leaked regions are the blanks. */
  lemma CrumbledSpacious(live: Live, fs: Chunks, starts: set<int>, n: nat)
    requires Separate(live, fs, n) && Crumbled(live, fs, n)
    ensures Spacious(live, fs, starts, n)
  {
    hide Covers, Separate, Blank;
    forall b | DESC <= b < n && !Marked(live, fs, starts, b)
      ensures Crumb(fs, b) || InBlank(live, fs, starts, n, b)
    {
      if !Crumb(fs, b) {
        var a := UsedUnreached(live, starts, b);
        LeakedBlank(live, fs, starts, n, a);
        BlankHas(live, fs, starts, n, b, a, live[a]);
      }
    }
  }

  /** Only the first byte of a blank can be late. */
  lemma OnlyFirstLate(marks: set<int>, n: nat, x: int, k: int, b: int)
    requires (forall y :: x <= y < x + k ==> y !in marks) && x < b < x + k
    ensures !Late(marks, n, b)
  {
    forall e
      ensures !LateVia(marks, n, e, b)
    {
      assert 0 < e < b && AllMarked(marks, e, b - e) ==> b - 1 in marks;
    }
  }

  /** In terms of the bitmap: all of the blank is unmarked and all but its first byte wanted. */
  lemma BlankWanted(marks: set<int>, live: Live, fs: Chunks, starts: set<int>, n: nat, x: int, k: int)
    requires Exact(marks, live, fs, starts) && Blank(live, fs, starts, x, k) && x + k <= n
    ensures forall b :: x <= b < x + k ==> b !in marks
    ensures forall b :: x < b < x + k ==> Wanted(marks, n, b)
  {
    hide Late, Marked;
    forall b | x < b < x + k
      ensures Wanted(marks, n, b)
    {
      OnlyFirstLate(marks, n, x, k, b);
    }
  }

  /** A run that meets a blank holds all of it, or all but a first byte that is late. */
  lemma RunSwallows(marks: set<int>, n: nat, x: int, k: int, c: Chunk, y: int)
    requires (forall b :: x <= b < x + k ==> b !in marks) && (forall b :: x < b < x + k ==> Wanted(marks, n, b))
    requires 0 <= x && x + k <= n && IsRun(marks, n, c) && c.off <= y < c.End() && x <= y < x + k
    ensures c.off <= x + 1 && x + k <= c.End()
    ensures c.off == x + 1 ==> x % 8 == 0
  {
    hide Late;
    assert c.off > x + 1 ==> Wanted(marks, n, c.off - 1);
    assert c.End() < x + k ==> Wanted(marks, n, c.End());
    if c.off == x + 1 {
      assert !Wanted(marks, n, x);
      LateAligned(marks, n, x);
    }
  }

  /** A run the scan frees contains a blank but perhaps its first byte, so a chunk
      header fits, or it is a crumb below a free chunk. */
  lemma RunHasRoom(marks: set<int>, live: Live, fs: Chunks, starts: set<int>, n: nat, c: Chunk)
    requires Exact(marks, live, fs, starts) && Spacious(live, fs, starts, n) && IsRun(marks, n, c)
    ensures RoomFor(fs, c)
  {
    hide Covers, Late, Spacious, Exact, Marked, IsRun;
    RunByte(marks, n, c);
    MarkedIs(marks, live, fs, starts, c.off);
    SpaciousAt(live, fs, starts, n, c.off);
    if Crumb(fs, c.off) {
      MarkedIs(marks, live, fs, starts, c.off + 1);
      assert Marked(live, fs, starts, c.off + 1) by { FreeMarked(live, fs, starts, c.off + 1); }
      RunUnmarked(marks, n, c, c.off + 1);
    } else {
      var x, k := BlankAt(live, fs, starts, n, c.off);
      BlankWanted(marks, live, fs, starts, n, x, k);
      RunSwallows(marks, n, x, k, c, c.off);
    }
  }

  lemma RunByte(marks: set<int>, n: nat, c: Chunk)
    requires IsRun(marks, n, c)
    ensures c.size > 0 && 0 <= c.off < n && c.off !in marks
  {
    assert Wanted(marks, n, c.off);
  }

  lemma RunUnmarked(marks: set<int>, n: nat, c: Chunk, b: int)
    requires IsRun(marks, n, c)
    ensures c.off <= b < c.End() ==> 0 <= b < n && b !in marks
  {
    hide Late;
    assert c.off <= b < c.End() ==> Wanted(marks, n, b);
  }

  lemma MarkedIs(marks: set<int>, live: Live, fs: Chunks, starts: set<int>, b: int)
    requires Exact(marks, live, fs, starts)
    ensures b in marks <==> Marked(live, fs, starts, b)
    ensures b !in marks && b >= 0 ==> DESC <= b
  {
  }

  lemma FreeMarked(live: Live, fs: Chunks, starts: set<int>, b: int)
    requires Covers(fs, b)
    ensures Marked(live, fs, starts, b)
  {
  }

  lemma SpaciousRoomy(marks: set<int>, live: Live, fs: Chunks, starts: set<int>, n: nat)
    requires Exact(marks, live, fs, starts) && Spacious(live, fs, starts, n)
    ensures Roomy(marks, n, fs)
  {
    hide Exact, Spacious, IsRun, RoomFor;
    forall c | IsRun(marks, n, c)
      ensures RoomFor(fs, c)
    {
      RunHasRoom(marks, live, fs, starts, n, c);
    }
  }

  /* ---- The byte that is stepped over ---- */

  /** Two leaked blocks around a used one of 64 bytes, the pool full: the scan steps
      over the first byte of the second.  Then it gives back [88, 120) and [185, 224);
      a block of 32 bytes takes all of [185, 224); and the next scan comes to the run
      [184, 185), which is short. */
  lemma LateExample()
    ensures var live: Live, fs, starts, n := map[88 := 32, 120 := 64, 184 := 40], [], {120}, 224;
      && Canonical(fs, n) && Separate(live, fs, n) && Tiled(live, fs, n)
      && forall marks :: Exact(marks, live, fs, starts) ==> Late(marks, n, 184)
    ensures ReleaseAll([], [Chunk(88, 32), Chunk(185, 39)]) == [Chunk(185, 39), Chunk(88, 32)]
    ensures Carve([Chunk(185, 39), Chunk(88, 32)], 0, Share(39, 32)) == [Chunk(88, 32)]
    ensures !Roomy(Bits(0, 184) + Bits(185, 39), 224, [Chunk(88, 32)])
  {
    var live: Live, fs, starts, n := map[88 := 32, 120 := 64, 184 := 40], [], {120}, 224;
    assert Tiled(live, fs, n) by { TiledExample(); }
    forall marks | Exact(marks, live, fs, starts)
      ensures Late(marks, n, 184)
    {
      forall b | 119 <= b <= 184 ensures b in marks <==> 120 <= b < 184 {
        MarkedIs(marks, live, fs, starts, b);
        ExampleMarked(b);
      }
      assert LateVia(marks, n, 120, 184);
    }
    ExampleReleases();
    ShortExample();
  }

  lemma ExampleMarked(b: int)
    ensures Marked(map[88 := 32, 120 := 64, 184 := 40], [], {120}, b) <==> 0 <= b < DESC || 120 <= b < 184
  {
    var live: Live := map[88 := 32, 120 := 64, 184 := 40];
    assert !Covers([], b) by { if Covers([], b) { var i := CoverIndex([], b); } }
    if InRegions(live, {120}, b) { var a :| a in {120} && a in live && a <= b < a + live[a]; }
    assert 120 in {120} && 120 in live;
  }

  lemma TiledExample()
    ensures Tiled(map[88 := 32, 120 := 64, 184 := 40], [], 224)
  {
    var live: Live := map[88 := 32, 120 := 64, 184 := 40];
    assert 88 in live && 120 in live && 184 in live;
    forall b | DESC <= b < 224
      ensures Used(live, b)
    {
      var a := if b < 120 then 88 else if b < 184 then 120 else 184;
      assert a in live && a <= b < a + live[a];
    }
  }

  lemma ExampleReleases()
    ensures ReleaseAll([], [Chunk(88, 32), Chunk(185, 39)]) == [Chunk(185, 39), Chunk(88, 32)]
  {
    var gaps := [Chunk(88, 32), Chunk(185, 39)];
    assert gaps[..1] == [Chunk(88, 32)] && gaps[..1][..0] == [];
    assert ReleaseAll([], gaps[..1][..0]) == [];
    assert Release([], 88, 32) == [Chunk(88, 32)] by { MeetingIs([], 88, 32, 0); }
    assert ReleaseAll([], gaps[..1]) == [Chunk(88, 32)];
    MeetingIs([Chunk(88, 32)], 185, 39, 1);
    assert Release([Chunk(88, 32)], 185, 39) == [Chunk(185, 39), Chunk(88, 32)];
  }

  /* ---- What give-backs do to the blanks ---- */

  /** `b` is a crumb, lies in a blank apart from [a, a + n), or is the byte below it. */
  ghost predicate Beside(live: Live, fs: Chunks, starts: set<int>, hi: nat, a: int, n: int, b: int) {
    || Crumb(fs, b) || (b == a - 1 && b % 8 == 0)
    || exists x, k :: x <= b < x + k <= hi && Blank(live, fs, starts, x, k) && (x + k <= a || a + n <= x)
  }

  lemma BesideBlank(live: Live, fs: Chunks, starts: set<int>, hi: nat, a: int, n: int, b: int, x: int, k: int)
    requires x <= b < x + k <= hi && Blank(live, fs, starts, x, k) && (x + k <= a || a + n <= x)
    ensures Beside(live, fs, starts, hi, a, n, b)
  {
  }

  lemma BesideAt(live: Live, fs: Chunks, starts: set<int>, hi: nat, a: int, n: int, b: int) returns (x: int, k: int)
    requires Beside(live, fs, starts, hi, a, n, b) && !Crumb(fs, b) && !(b == a - 1 && b % 8 == 0)
    ensures x <= b < x + k <= hi && Blank(live, fs, starts, x, k) && (x + k <= a || a + n <= x)
  {
    x, k :| x <= b < x + k <= hi && Blank(live, fs, starts, x, k) && (x + k <= a || a + n <= x);
  }

  /** A blank that no gap meets is still blank. */
  lemma BlankStays(live: Live, fs0: Chunks, fs: Chunks, gaps: Chunks, starts: set<int>, x: int, k: int)
    requires Blank(live, fs0, starts, x, k) && GaveBack(fs0, fs, gaps)
    requires forall b :: x <= b < x + k ==> !Covers(gaps, b)
    ensures Blank(live, fs, starts, x, k)
  {
    hide Covers, ReleaseAll, InRegions;
    forall b | x <= b < x + k ensures !Marked(live, fs, starts, b) { assert !Marked(live, fs0, starts, b); }
  }

  /** After some runs were given back, an unmarked byte is a crumb or lies in a blank as before. */
  lemma ByteAfter(marks: set<int>, live: Live, fs0: Chunks, fs: Chunks, gaps: Chunks, starts: set<int>, n: nat, b: int)
    requires Exact(marks, live, fs0, starts) && Spacious(live, fs0, starts, n)
    requires GaveBack(fs0, fs, gaps) && AllRuns(marks, n, gaps)
    requires DESC <= b < n && !Marked(live, fs, starts, b)
    ensures Crumb(fs, b) ||
      exists x, k :: x <= b < x + k <= n && Blank(live, fs0, starts, x, k) && Blank(live, fs, starts, x, k)
  {
    hide Covers, Late, Spacious, Exact, InRegions, Blank, IsRun, ReleaseAll;
    assert !Marked(live, fs0, starts, b);
    SpaciousAt(live, fs0, starts, n, b);
    if !Crumb(fs0, b) {
      var x, k := BlankAt(live, fs0, starts, n, b);
      assert DESC <= x by { BlankLow(live, fs0, starts, x, k); }
      if y :| x <= y < x + k && Covers(gaps, y) {
        BlankWanted(marks, live, fs0, starts, n, x, k);
        var i := CoverIndex(gaps, y);
        RunSwallows(marks, n, x, k, gaps[i], y);
        assert HEADER < k by { BlankLow(live, fs0, starts, x, k); }
        CoversAt(gaps, i, x + 1);
        if gaps[i].off <= b { CoversAt(gaps, i, b); }
        assert Crumb(fs, b);
      } else {
        BlankStays(live, fs0, fs, gaps, starts, x, k);
      }
    }
  }

  lemma BlankLow(live: Live, fs: Chunks, starts: set<int>, x: int, k: int)
    requires Blank(live, fs, starts, x, k)
    ensures DESC <= x && HEADER < k
  {
  }

  /** So the pool stays spacious, */
  lemma SpaciousAfter(marks: set<int>, live: Live, fs0: Chunks, fs: Chunks, gaps: Chunks, starts: set<int>, n: nat)
    requires Exact(marks, live, fs0, starts) && Spacious(live, fs0, starts, n)
    requires GaveBack(fs0, fs, gaps) && AllRuns(marks, n, gaps)
    ensures Spacious(live, fs, starts, n)
  {
    hide Exact, Blank, GaveBack, AllRuns, Marked, Crumb;
    forall b | DESC <= b < n && !Marked(live, fs, starts, b)
      ensures Crumb(fs, b) || InBlank(live, fs, starts, n, b)
    {
      assert Spacious(live, fs0, starts, n);
      ByteAfter(marks, live, fs0, fs, gaps, starts, n, b);
    }
  }

  /** and around the next run, */
  lemma RunBeside(marks: set<int>, live: Live, fs0: Chunks, fs: Chunks, gaps: Chunks, starts: set<int>, n: nat,
      c: Chunk, b: int)
    requires Exact(marks, live, fs0, starts) && Spacious(live, fs0, starts, n)
    requires GaveBack(fs0, fs, gaps) && AllRuns(marks, n, gaps) && IsRun(marks, n, c)
    requires DESC <= b < n && !Marked(live, fs, starts, b) && !(c.off <= b < c.End())
    ensures Beside(live, fs, starts, n, c.off, c.size, b)
  {
    hide Exact, Spacious, Blank, GaveBack, AllRuns, Marked, Crumb, IsRun;
    ByteAfter(marks, live, fs0, fs, gaps, starts, n, b);
    if !Crumb(fs, b) {
      var x, k :| x <= b < x + k <= n && Blank(live, fs0, starts, x, k) && Blank(live, fs, starts, x, k);
      BlankLow(live, fs, starts, x, k);
      if x + k <= c.off || c.End() <= x {
        BesideBlank(live, fs, starts, n, c.off, c.size, b, x, k);
      } else {
        BlankWanted(marks, live, fs0, starts, n, x, k);
        RunByte(marks, n, c);
        RunSwallows(marks, n, x, k, c, if c.off <= x then x else c.off);
      }
    }
  }

  /** and in the end only crumbs are left. */
  lemma CrumbsLeft(marks: set<int>, live: Live, fs0: Chunks, fs: Chunks, gaps: Chunks, starts: set<int>, n: nat, b: int)
    requires Exact(marks, live, fs0, starts) && Spacious(live, fs0, starts, n)
    requires GaveBack(fs0, fs, gaps) && Scanned(marks, n, n + 1, gaps)
    requires DESC <= b < n && !Marked(live, fs, starts, b)
    ensures Crumb(fs, b)
  {
    hide Exact, Spacious, Blank, GaveBack, Marked, Crumb, IsRun, Covers, AllRuns, Wanted, Scanned;
    ScannedRuns(marks, n, n + 1, gaps);
    ByteAfter(marks, live, fs0, fs, gaps, starts, n, b);
    if !Crumb(fs, b) {
      var x, k :| x <= b < x + k <= n && Blank(live, fs0, starts, x, k) && Blank(live, fs, starts, x, k);
      BlankLow(live, fs, starts, x, k);
      BlankWanted(marks, live, fs0, starts, n, x, k);
      WantedGiven(marks, n, fs0, fs, gaps, x + 1);
      FreeMarked(live, fs, starts, x + 1);
      BlankByte(live, fs, starts, x, k, x + 1);
    }
  }

  lemma WantedGiven(marks: set<int>, n: nat, fs0: Chunks, fs: Chunks, gaps: Chunks, b: int)
    requires GaveBack(fs0, fs, gaps) && Scanned(marks, n, n + 1, gaps) && Wanted(marks, n, b)
    ensures Covers(fs, b)
  {
    hide Covers, IsRun, ReleaseAll, Late;
  }

  lemma BlankByte(live: Live, fs: Chunks, starts: set<int>, x: int, k: int, b: int)
    requires Blank(live, fs, starts, x, k)
    ensures x <= b < x + k ==> !Marked(live, fs, starts, b)
  {
  }

  /* ---- Blanks after a crash ---- */

  /** What the list covers after a crash inside freeing [a, a + n): all it did, or the
      block too, or both without one chunk `g` that holds the block. */
  ghost predicate Lacks(fs0: Chunks, a: nat, n: nat, r: Chunks, g: Chunk, hi: nat) {
    && DESC <= g.off && g.off <= a && a + n <= g.End() <= hi && HEADER < g.size
    && (forall b :: g.off <= b < g.End() ==> Covers(fs0, b) || a <= b < a + n)
    && forall b :: Covers(r, b) <==> (Covers(fs0, b) || a <= b < a + n) && !(g.off <= b < g.End())
  }

  lemma CrashCovers(fs0: Chunks, a: nat, n: nat, r: Chunks, hi: nat)
    requires InPool(fs0, hi) && Apart(fs0) && Outside(fs0, a, n) && DESC <= a && a + n <= hi && n > 0
    requires ReleaseCrash(fs0, a, n, r)
    ensures
      || r == fs0
      || (forall b :: Covers(r, b) <==> Covers(fs0, b) || a <= b < a + n)
      || (exists g :: Lacks(fs0, a, n, r, g, hi))
  {
    hide FirstMeeting, Partner, Covers, Apart, InPool, Outside, Compacted, Absorb, Meets, RemoveAt, Grown;
    var i := FirstMeeting(fs0, a, n);
    assert i < |fs0| && Meets(fs0[i], a, n);
    var gs := Absorb(fs0, i, a, n);
    AbsorbKeeps(fs0, i, a, n, hi);
    AbsorbLength(fs0, i, a, n);
    InPoolAt(gs, hi, i);
    var j := Partner(gs, i, 0);
    if j < |gs| && gs[j].End() != gs[i].off {
      MeetsDef(gs[j], gs[i].off, gs[i].size);
      GrownCovers(gs, i, j);
    }
    CompactedCovers(gs, i, hi);
    RemovedCovers(gs, i);
    AbsorbedChunk(fs0, i, a, n, hi);
    forall b | gs[i].off <= b < gs[i].End() ensures Covers(fs0, b) || a <= b < a + n { CoversAt(gs, i, b); }
    if r == RemoveAt(gs, i) { assert Lacks(fs0, a, n, r, gs[i], hi); }
  }

  lemma AbsorbedChunk(fs: Chunks, i: nat, a: nat, n: nat, hi: nat)
    requires i < |fs| && Meets(fs[i], a, n) && InPool(fs, hi) && n > 0
    ensures |Absorb(fs, i, a, n)| == |fs|
    ensures var c := Absorb(fs, i, a, n)[i]; c.off <= a && a + n <= c.End() && HEADER < c.size
  {
  }

  /** A crash inside a free leaves a spacious pool spacious. */
  lemma CrashSpacious(live: Live, fs0: Chunks, starts: set<int>, hi: nat, a: nat, n: nat, r: Chunks)
    requires InPool(fs0, hi) && Apart(fs0) && Outside(fs0, a, n) && DESC <= a && a + n <= hi && n > 0
    requires ReleaseCrash(fs0, a, n, r) && Spacious(live, fs0, starts, hi)
    requires forall b :: InRegions(live, starts, b) ==> !Covers(fs0, b) && !(a <= b < a + n)
    requires forall b ::
      DESC <= b < hi && !Marked(live, fs0, starts, b) && !(a <= b < a + n) ==> Beside(live, fs0, starts, hi, a, n, b)
    ensures Spacious(live, r, starts, hi)
  {
    hide ReleaseCrash, Outside, Apart, InPool, Beside, Spacious, Crumb, InBlank, Lacks, Marked;
    CrashCovers(fs0, a, n, r, hi);
    if r != fs0 {
      if forall b :: Covers(r, b) <==> Covers(fs0, b) || a <= b < a + n {
        forall b | DESC <= b < hi && !Marked(live, r, starts, b)
          ensures Crumb(r, b) || InBlank(live, r, starts, hi, b)
        {
          ByteGrown(live, fs0, starts, hi, a, n, r, b);
        }
      } else {
        var g :| Lacks(fs0, a, n, r, g, hi);
        forall b | DESC <= b < hi && !Marked(live, r, starts, b)
          ensures Crumb(r, b) || InBlank(live, r, starts, hi, b)
        {
          ByteLacking(live, fs0, starts, hi, a, n, r, g, b);
        }
      }
      SpaciousIs(live, r, starts, hi);
    }
  }

  lemma SpaciousIs(live: Live, fs: Chunks, starts: set<int>, n: nat)
    requires forall b ::
      DESC <= b < n && !Marked(live, fs, starts, b) ==> Crumb(fs, b) || InBlank(live, fs, starts, n, b)
    ensures Spacious(live, fs, starts, n)
  {
  }

  lemma ByteGrown(live: Live, fs0: Chunks, starts: set<int>, hi: nat, a: nat, n: nat, r: Chunks, b: int)
    requires n > 0 && forall x :: Covers(r, x) <==> Covers(fs0, x) || a <= x < a + n
    requires forall x ::
      DESC <= x < hi && !Marked(live, fs0, starts, x) && !(a <= x < a + n) ==> Beside(live, fs0, starts, hi, a, n, x)
    requires DESC <= b < hi && !Marked(live, r, starts, b)
    ensures Crumb(r, b) || InBlank(live, r, starts, hi, b)
  {
    hide Covers, InRegions, Beside, InBlank;
    assert !Marked(live, fs0, starts, b) && Beside(live, fs0, starts, hi, a, n, b);
    if !Crumb(fs0, b) && !(b == a - 1 && b % 8 == 0) {
      var x, k := BesideAt(live, fs0, starts, hi, a, n, b);
      forall y | x <= y < x + k ensures !Marked(live, r, starts, y) { assert !Marked(live, fs0, starts, y); }
      BlankHas(live, r, starts, hi, b, x, k);
    }
  }

  lemma ByteLacking(live: Live, fs0: Chunks, starts: set<int>, hi: nat, a: nat, n: nat, r: Chunks, g: Chunk, b: int)
    requires n > 0 && Lacks(fs0, a, n, r, g, hi)
    requires forall x :: InRegions(live, starts, x) ==> !Covers(fs0, x) && !(a <= x < a + n)
    requires forall x ::
      DESC <= x < hi && !Marked(live, fs0, starts, x) && !(a <= x < a + n) ==> Beside(live, fs0, starts, hi, a, n, x)
    requires DESC <= b < hi && !Marked(live, r, starts, b)
    ensures Crumb(r, b) || InBlank(live, r, starts, hi, b)
  {
    hide Covers, InRegions, Beside, InBlank;
    if g.off <= b < g.End() {
      assert Blank(live, r, starts, g.off, g.size);
      BlankHas(live, r, starts, hi, b, g.off, g.size);
    } else {
      assert !Marked(live, fs0, starts, b) && Beside(live, fs0, starts, hi, a, n, b);
      if b + 1 == g.off {
        assert Blank(live, r, starts, b, g.size + 1);
        BlankHas(live, r, starts, hi, b, b, g.size + 1);
      } else if !Crumb(fs0, b) {
        var x, k := BesideAt(live, fs0, starts, hi, a, n, b);
        forall y | x <= y < x + k ensures !Marked(live, r, starts, y) { assert !Marked(live, fs0, starts, y); }
        BlankHas(live, r, starts, hi, b, x, k);
      }
    }
  }
}
