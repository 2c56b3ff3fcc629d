/** What the allocator promises over the bytes of the pool: conservation, the
    canonical form of the free list, undoing, and the states a crash leaves. */
module Allocation {
  import opened FreeList
  import opened Regions

  /* ---- Counting bytes ---- */

  lemma {:induction false} BitsSize(a: int, n: nat)
    ensures |Bits(a, n)| == n
    decreases n
  {
    if n > 0 {
      BitsSize(a + 1, n - 1);
      assert Bits(a, n) == {a} + Bits(a + 1, n - 1);
    }
  }

  /** Adding a range to a set that misses it. */
  lemma SplitSize(whole: set<int>, part: set<int>, lo: int, hi: int)
    requires lo <= hi
    requires forall b :: b in whole <==> b in part || lo <= b < hi
    requires forall b :: b in part ==> !(lo <= b < hi)
    ensures |whole| == |part| + (hi - lo)
  {
    BitsSize(lo, hi - lo);
    assert whole == part + Bits(lo, hi - lo);
    assert part !! Bits(lo, hi - lo);
  }

  ghost function FreeBytes(fs: Chunks, n: nat): set<int> {
    set b | 0 <= b < n && Covers(fs, b)
  }

  /** The free total is the number of free bytes. */
  lemma {:induction false} TotalCounts(fs: Chunks, n: nat)
    requires InPool(fs, n) && Apart(fs)
    ensures |FreeBytes(fs, n)| == Total(fs)
  {
    hide Covers, InPool, Apart;
    if fs == [] {
      forall b ensures !Covers(fs, b) { if Covers(fs, b) { var i := CoverIndex(fs, b); } }
      assert FreeBytes(fs, n) == {};
    } else {
      hide FreeBytes;
      RestBytes(fs, n);
      TotalCounts(fs[1..], n);
      SplitSize(FreeBytes(fs, n), FreeBytes(fs[1..], n), fs[0].off, fs[0].End());
    }
  }

  lemma RestBytes(fs: Chunks, n: nat)
    requires InPool(fs, n) && Apart(fs) && fs != []
    ensures InPool(fs[1..], n) && Apart(fs[1..])
    ensures forall b :: b in FreeBytes(fs, n) <==> b in FreeBytes(fs[1..], n) || fs[0].off <= b < fs[0].End()
    ensures forall b :: b in FreeBytes(fs[1..], n) ==> !(fs[0].off <= b < fs[0].End())
  {
    hide FreeBytes, Covers, InPool, Apart, RemoveAt;
    var rest, c := RemoveAt(fs, 0), fs[0];
    assert rest == fs[1..] by { RemoveFirst(fs); }
    RemovedCanonical(fs, 0, n);
    RemovedCovers(fs, 0);
    InPoolAt(fs, n, 0);
    forall b
      ensures b in FreeBytes(fs, n) <==> b in FreeBytes(rest, n) || c.off <= b < c.End()
      ensures b in FreeBytes(rest, n) ==> !(c.off <= b < c.End())
    {
      InFree(fs, n, b);
      InFree(rest, n, b);
      if c.off <= b < c.End() { CoversAt(fs, 0, b); }
    }
  }

  lemma RemoveFirst(fs: Chunks)
    requires fs != []
    ensures RemoveAt(fs, 0) == fs[1..]
  {
  }

  lemma InFree(fs: Chunks, n: nat, b: int)
    ensures b in FreeBytes(fs, n) <==> 0 <= b < n && Covers(fs, b)
  {
  }

  /** A free raises the free total by exactly the block's size. */
  lemma ReleaseTotal(fs: Chunks, a: nat, n: nat, hi: nat)
    requires Canonical(fs, hi) && Outside(fs, a, n) && DESC <= a && a + n <= hi && n > 0
    requires n >= HEADER || FirstMeeting(fs, a, n) < |fs|
    ensures Total(Release(fs, a, n)) == Total(fs) + n
  {
    hide Release, FirstMeeting, Total, NoTouch, Apart, InPool, Covers, Outside;
    var gs := Release(fs, a, n);
    ReleaseKeeps(fs, a, n, hi);
    TotalCounts(fs, hi);
    TotalCounts(gs, hi);
    OutsideUncovered(fs, a, n);
    SplitSize(FreeBytes(gs, hi), FreeBytes(fs, hi), a, a + n);
  }

  /** An allocation lowers it by exactly the block's size. */
  lemma CarveTotal(fs: Chunks, i: nat, s: nat, hi: nat)
    requires Canonical(fs, hi) && i < |fs| && 0 < s <= fs[i].size
    ensures Total(Carve(fs, i, Share(fs[i].size, s))) + Share(fs[i].size, s) == Total(fs)
  {
    hide Carve, Total, NoTouch, Apart, InPool, Covers, Outside;
    var t := Share(fs[i].size, s);
    var a := fs[i].End() - t;
    var gs := Carve(fs, i, t);
    CarveKeeps(fs, i, s, hi);
    InPoolAt(fs, hi, i);
    TotalCounts(fs, hi);
    TotalCounts(gs, hi);
    forall b | a <= b < a + t ensures Covers(fs, b) { CoversAt(fs, i, b); }
    SplitSize(FreeBytes(fs, hi), FreeBytes(gs, hi), a, a + t);
  }

  /** Sum of the sizes of the used regions. */
  ghost function LiveTotal(live: Live): nat {
    if live == map[] then 0
    else
      var a :| a in live;
      live[a] + LiveTotal(live - {a})
  }

  ghost function UsedBytes(live: Live, n: nat): set<int> {
    set b | 0 <= b < n && Used(live, b)
  }

  ghost predicate Scattered(live: Live, n: nat) {
    && (forall a :: a in live ==> a + live[a] <= n)
    && (forall a, b :: a in live && b in live && a != b ==> Disjoint(a, live[a], b, live[b]))
  }

  lemma {:induction false} LiveCounts(live: Live, n: nat)
    requires Scattered(live, n)
    ensures |UsedBytes(live, n)| == LiveTotal(live)
  {
    if live == map[] {
      assert UsedBytes(live, n) == {};
    } else {
      hide Used, Scattered;
      var a :| a in live && LiveTotal(live) == live[a] + LiveTotal(live - {a});
      LiveCounts(live - {a}, n);
      UsedWithout(live, a, n);
      SplitSize(UsedBytes(live, n), UsedBytes(live - {a}, n), a, a + live[a]);
    }
  }

  lemma UsedWithout(live: Live, a: nat, n: nat)
    requires Scattered(live, n) && a in live
    ensures Scattered(live - {a}, n)
    ensures forall b :: b in UsedBytes(live, n) <==> b in UsedBytes(live - {a}, n) || a <= b < a + live[a]
    ensures forall b :: b in UsedBytes(live - {a}, n) ==> !(a <= b < a + live[a])
  {
    var rest := live - {a};
    forall b
      ensures Used(live, b) <==> Used(rest, b) || a <= b < a + live[a]
      ensures Used(rest, b) ==> !(a <= b < a + live[a])
    {
      if Used(live, b) && !(a <= b < a + live[a]) {
        var x :| x in live && x <= b < x + live[x];
        assert x in rest && rest[x] == live[x];
      }
      if Used(rest, b) {
        var x :| x in rest && x <= b < x + rest[x];
        assert x in live && live[x] == rest[x] && Disjoint(a, live[a], x, live[x]);
      }
    }
  }

  lemma UsedNotFree(live: Live, fs: Chunks, n: nat, b: int)
    requires Separate(live, fs, n)
    ensures Used(live, b) ==> !Covers(fs, b) && DESC <= b < n
  {
    if Used(live, b) {
      var a :| a in live && a <= b < a + live[a];
      OutsideUncovered(fs, a, live[a]);
    }
  }

  /** Exact tiling in numbers: free and used bytes add up to the managed size. */
  lemma TilingAddsUp(live: Live, fs: Chunks, n: nat)
    requires Canonical(fs, n) && Separate(live, fs, n) && Tiled(live, fs, n) && DESC <= n
    ensures Total(fs) + LiveTotal(live) == n - DESC
  {
    hide LiveTotal, Total, NoTouch, Apart, InPool, FreeBytes, UsedBytes, Covers, Used, Separate, Tiled, Bits;
    assert InPool(fs, n) && Apart(fs) && Scattered(live, n) by { TilingParts(live, fs, n); }
    TotalCounts(fs, n);
    LiveCounts(live, n);
    BitsSize(DESC, n - DESC);
    forall b
      ensures b in FreeBytes(fs, n) || b in UsedBytes(live, n) <==> b in Bits(DESC, n - DESC)
      ensures !(b in FreeBytes(fs, n) && b in UsedBytes(live, n))
    {
      ByteIsOne(live, fs, n, b);
    }
    assert FreeBytes(fs, n) + UsedBytes(live, n) == Bits(DESC, n - DESC);
    assert FreeBytes(fs, n) !! UsedBytes(live, n);
  }

  lemma TilingParts(live: Live, fs: Chunks, n: nat)
    requires Canonical(fs, n) && Separate(live, fs, n)
    ensures InPool(fs, n) && Apart(fs) && Scattered(live, n)
  {
    hide Outside, Apart, NoTouch;
  }

  lemma ByteIsOne(live: Live, fs: Chunks, n: nat, b: int)
    requires InPool(fs, n) && Separate(live, fs, n) && Tiled(live, fs, n) && DESC <= n
    ensures b in FreeBytes(fs, n) || b in UsedBytes(live, n) <==> b in Bits(DESC, n - DESC)
    ensures !(b in FreeBytes(fs, n) && b in UsedBytes(live, n))
  {
    hide Covers, Separate;
    UsedNotFree(live, fs, n, b);
    if Covers(fs, b) { var i := CoverIndex(fs, b); }
    assert Within(b, DESC, n - DESC) <==> DESC <= b < n;
  }

  /* ---- Allocating several blocks ---- */

  ghost predicate Serves(fs: Chunks, s: nat) {
    FirstFit(fs, s) < |fs|
  }

  /** The list after a first-fit allocation of `s` bytes. */
  ghost function Taken(fs: Chunks, s: nat): Chunks {
    var i := FirstFit(fs, s);
    if i == |fs| then fs else Carve(fs, i, Share(fs[i].size, s))
  }

  /** Blocks of these sizes can be allocated one after the other. */
  ghost predicate Fits(fs: Chunks, ss: seq<nat>)
    decreases |ss|
  {
    ss == [] || (Serves(fs, ss[0]) && Fits(Taken(fs, ss[0]), ss[1..]))
  }

  ghost function Sum(ss: seq<nat>): nat {
    if ss == [] then 0 else ss[0] + Sum(ss[1..])
  }

  /** One chunk as large as all of them is room enough, whatever first fit picks. */
  lemma {:induction false} RoomSuffices(fs: Chunks, i: nat, ss: seq<nat>)
    requires i < |fs| && Sum(ss) <= fs[i].size && forall j :: 0 <= j < |ss| ==> HEADER <= ss[j]
    ensures Fits(fs, ss)
    decreases |ss|
  {
    if ss != [] {
      var f := FirstFit(fs, ss[0]);
      assert f <= i;
      if |ss| == 1 {
        assert ss[1..] == [];
      } else {
        assert Sum(ss[1..]) >= ss[1] >= HEADER by { assert ss[1..][0] == ss[1]; }
        var t := Share(fs[f].size, ss[0]);
        var gs := Taken(fs, ss[0]);
        if f == i {
          assert gs[i].size == fs[i].size - ss[0];
          RoomSuffices(gs, i, ss[1..]);
        } else {
          var k := if t == fs[f].size then i - 1 else i;
          assert gs[k] == fs[i];
          RoomSuffices(gs, k, ss[1..]);
        }
      }
    }
  }

  /** The list after allocating blocks of these sizes in turn, up to the first that does not fit. */
  ghost function Tried(fs: Chunks, ss: seq<nat>): Chunks
    decreases |ss|
  {
    if ss == [] || !Serves(fs, ss[0]) then fs else Tried(Taken(fs, ss[0]), ss[1..])
  }

  /** There is a chunk of `r` bytes, or none is asked for. */
  ghost predicate Spare(fs: Chunks, r: nat) {
    r == 0 || Serves(fs, r)
  }

  lemma SpareLess(fs: Chunks, r: nat, q: nat)
    requires Spare(fs, r) && q <= r
    ensures Spare(fs, q)
  {
    if q > 0 { ServesIs(fs, FirstFit(fs, r), q); }
  }

  lemma TakenCanonical(fs: Chunks, s: nat, n: nat)
    requires Canonical(fs, n) && HEADER <= s
    ensures Canonical(Taken(fs, s), n)
  {
    hide Canonical, Carve;
    var i := FirstFit(fs, s);
    if i < |fs| { CarveKeeps(fs, i, s, n); }
  }

  lemma ServesIs(fs: Chunks, i: nat, s: nat)
    requires i < |fs| && s <= fs[i].size
    ensures Serves(fs, s)
  {
  }

  /** Where a chunk is `r` bytes larger than a request, `r` bytes are spared, whatever first fit picks. */
  lemma TakenSpares(fs: Chunks, s: nat, r: nat)
    requires Serves(fs, s + r) && (r == 0 || HEADER <= r)
    ensures Serves(fs, s) && Spare(Taken(fs, s), r)
  {
    hide Carve;
    var i, f := FirstFit(fs, s + r), FirstFit(fs, s);
    assert f <= i;
    if r > 0 {
      var t := Share(fs[f].size, s);
      CarveAt(fs, f, t, i);
      ServesIs(Taken(fs, s), if f < i && t == fs[f].size then i - 1 else i, r);
    }
  }

  lemma CarveAt(fs: Chunks, f: nat, t: nat, i: nat)
    requires f <= i < |fs| && t <= fs[f].size
    ensures var gs := Carve(fs, f, t);
      if t == fs[f].size then f < i ==> |gs| > i - 1 && gs[i - 1] == fs[i]
      else |gs| > i && (if f < i then gs[i] == fs[i] else gs[i].size == fs[i].size - t)
  {
    if t == fs[f].size {
      var gs := RemoveAt(fs, f);
      assert f < i ==> gs[i - 1] == fs[i];
    }
  }

  /** The same for several requests. */
  lemma {:induction false} TriedSpares(fs: Chunks, ss: seq<nat>, r: nat)
    requires Spare(fs, Sum(ss) + r) && (r == 0 || HEADER <= r) && forall j :: 0 <= j < |ss| ==> HEADER <= ss[j]
    ensures Fits(fs, ss) && Spare(Tried(fs, ss), r)
    decreases |ss|
  {
    hide Serves, Taken;
    if ss != [] {
      assert HEADER <= ss[0];
      SumAtLeast(ss[1..]);
      TakenSpares(fs, ss[0], Sum(ss[1..]) + r);
      TriedSpares(Taken(fs, ss[0]), ss[1..], r);
    }
  }

  lemma SumAtLeast(ss: seq<nat>)
    requires forall j :: 0 <= j < |ss| ==> HEADER <= ss[j]
    ensures Sum(ss) == 0 || Sum(ss) >= HEADER
  {
  }

  /** Giving bytes back spares what was spared. */
  lemma GrownSpares(fs: Chunks, gs: Chunks, n: nat, r: nat)
    requires Canonical(fs, n) && Canonical(gs, n) && forall b :: Covers(fs, b) ==> Covers(gs, b)
    requires Spare(fs, r)
    ensures Spare(gs, r)
  {
    hide Covers, Apart, NoTouch;
    if r > 0 {
      var i := FirstFit(fs, r);
      var c := fs[i];
      InPoolAt(fs, n, i);
      ChunkIsMaximalRun(fs, i, n);
      assert Covers(gs, c.off);
      var j := CoverIndex(gs, c.off);
      ChunkIsMaximalRun(gs, j, n);
      var end := gs[j].End();
      assert c.off <= end < c.End() ==> Covers(fs, end);
      ServesIs(gs, j, r);
    }
  }

  /* ---- The canonical form ---- */

  /** A chunk of a canonical list is a maximal run of free bytes. */
  lemma ChunkIsMaximalRun(fs: Chunks, i: nat, n: nat)
    requires Canonical(fs, n) && i < |fs|
    ensures forall b :: fs[i].off <= b < fs[i].End() ==> Covers(fs, b)
    ensures !Covers(fs, fs[i].off - 1) && !Covers(fs, fs[i].End())
  {
    hide Covers, Apart, NoTouch;
    forall b | fs[i].off <= b < fs[i].End() ensures Covers(fs, b) { CoversAt(fs, i, b); }
    if Covers(fs, fs[i].off - 1) {
      var k := CoverIndex(fs, fs[i].off - 1);
      ApartAt(fs, i, k);
      NoTouchAt(fs, k, i);
    }
    if Covers(fs, fs[i].End()) {
      var k := CoverIndex(fs, fs[i].End());
      ApartAt(fs, i, k);
      NoTouchAt(fs, i, k);
    }
  }

  /** The free bytes determine the chunks: only the list order is history. */
  lemma CanonicalUnique(fs: Chunks, gs: Chunks, n: nat)
    requires Canonical(fs, n) && Canonical(gs, n)
    requires forall b :: Covers(fs, b) <==> Covers(gs, b)
    ensures forall c :: c in fs <==> c in gs
  {
    forall c | c in fs ensures c in gs { SameChunk(fs, gs, c, n); }
    forall c | c in gs ensures c in fs { SameChunk(gs, fs, c, n); }
  }

  lemma SameChunk(fs: Chunks, gs: Chunks, c: Chunk, n: nat)
    requires Canonical(fs, n) && Canonical(gs, n) && c in fs
    requires forall b :: Covers(fs, b) <==> Covers(gs, b)
    ensures c in gs
  {
    hide Covers, Apart, NoTouch;
    var i :| 0 <= i < |fs| && fs[i] == c;
    ChunkIsMaximalRun(fs, i, n);
    InPoolAt(fs, n, i);
    assert Covers(gs, c.off);
    var j := CoverIndex(gs, c.off);
    ChunkIsMaximalRun(gs, j, n);
    assert gs[j].off < c.off ==> Covers(gs, c.off - 1);
    assert gs[j].off == c.off;
    var end := gs[j].End();
    assert c.off <= end < c.End() ==> Covers(fs, end);
    assert c.End() < gs[j].End() ==> Covers(gs, c.End());
  }

  /** Freeing a block just allocated gives the same chunks back, in some order. */
  lemma ReleaseUndoesCarve(fs: Chunks, i: nat, s: nat, n: nat)
    requires Canonical(fs, n) && i < |fs| && HEADER <= s <= fs[i].size
    ensures var t := Share(fs[i].size, s);
      var gs := Release(Carve(fs, i, t), fs[i].End() - t, t);
      Canonical(gs, n) && forall c :: c in gs <==> c in fs
  {
    hide Release, Carve, Canonical, FirstMeeting;
    var t := Share(fs[i].size, s);
    var a := fs[i].End() - t;
    CarveKeeps(fs, i, s, n);
    assert InPool(fs, n) by { CanonicalDef(fs, n); }
    InPoolAt(fs, n, i);
    ReleaseKeeps(Carve(fs, i, t), a, t, n);
    forall b | a <= b < a + t ensures Covers(fs, b) { CoversAt(fs, i, b); }
    CanonicalUnique(Release(Carve(fs, i, t), a, t), fs, n);
  }

  lemma CanonicalDef(fs: Chunks, n: nat)
    ensures Canonical(fs, n) <==> InPool(fs, n) && Apart(fs) && NoTouch(fs)
  {
  }

  /* ---- Crashes inside a free ---- */

  /** The merge-up window: a chunk already counted in its lower neighbour is still listed. */
  ghost predicate CountedTwice(fs: Chunks, a: nat, n: nat, r: Chunks) {
    var i := FirstMeeting(fs, a, n);
    && i < |fs|
    && var gs := Absorb(fs, i, a, n);
       var j := Partner(gs, i, 0);
       j < |gs| && gs[j].End() != gs[i].off && r == Grown(gs, i, j)
  }

  /** At every crash site of a free from separate chunks the list stays in the
      pool; outside the merge-up window its chunks are apart and only bytes that
      were free or in the freed block are listed, and inside the window, which
      merging with the list head never leaves, a chunk is counted twice. */
  lemma CrashInsideFree(fs: Chunks, a: nat, n: nat, r: Chunks, hi: nat)
    requires InPool(fs, hi) && Apart(fs) && Outside(fs, a, n) && DESC <= a && a + n <= hi && n > 0
    requires ReleaseCrash(fs, a, n, r)
    ensures InPool(r, hi)
    ensures Apart(r) <==> !CountedTwice(fs, a, n, r)
    ensures !Apart(r) ==> Twice(r)
    ensures Apart(r) ==> forall b :: Covers(r, b) ==> Covers(fs, b) || a <= b < a + n
    ensures !Apart(r) ==> forall b :: Covers(r, b) <==> Covers(fs, b) || a <= b < a + n
  {
    hide FirstMeeting, Partner, Covers, Apart, InPool, Outside, Compacted, Absorb, Twice, Meets, RemoveAt, Grown;
    var i := FirstMeeting(fs, a, n);
    assert i < |fs| && Meets(fs[i], a, n);
    var gs := Absorb(fs, i, a, n);
    AbsorbKeeps(fs, i, a, n, hi);
    AbsorbLength(fs, i, a, n);
    var j := Partner(gs, i, 0);
    if j < |gs| && gs[j].End() != gs[i].off {
      MeetsDef(gs[j], gs[i].off, gs[i].size);
      InPoolAt(gs, hi, j);
      GrownTwice(gs, i, j);
      TwiceNotApart(Grown(gs, i, j));
      GrownCovers(gs, i, j);
      GrownInPool(gs, i, j, hi);
    }
    CompactedCovers(gs, i, hi);
    CompactedTwo(gs, i, hi);
    RemovedCovers(gs, i);
    RemovedCanonical(gs, i, hi);
  }

  /** Compaction leaves separate chunks, or the list of the merge-up window. */
  lemma CompactedTwo(gs: Chunks, i: nat, hi: nat)
    requires i < |gs| && InPool(gs, hi) && Apart(gs)
    ensures var j := Partner(gs, i, 0);
      Apart(Compacted(gs, i)) || (j < |gs| && gs[j].End() != gs[i].off && Compacted(gs, i) == Grown(gs, i, j))
  {
    hide Apart, InPool, Partner;
    var j := Partner(gs, i, 0);
    CompactedApart(gs, i, hi);
    if i >= 2 && gs[i].End() == gs[0].off { DoubledHead(gs, i, hi); HeadPartner(gs, i, hi); }
  }

  lemma HeadPartner(gs: Chunks, i: nat, hi: nat)
    requires 2 <= i < |gs| && InPool(gs, hi) && gs[i].End() == gs[0].off
    ensures Partner(gs, i, 0) == 0 && gs[0].End() != gs[i].off
  {
    hide Meets;
    InPoolAt(gs, hi, 0);
    InPoolAt(gs, hi, i);
    MeetsDef(gs[0], gs[i].off, gs[i].size);
  }

  /** A crash can leave two chunks that touch: the region was absorbed, not yet compacted. */
  lemma TouchingAfterCrash()
    ensures var fs := [Chunk(200, 100), Chunk(400, 100), Chunk(120, 48)];
      var gs := [Chunk(168, 132), Chunk(400, 100), Chunk(120, 48)];
      && Canonical(fs, 512) && Outside(fs, 168, 32) && ReleaseCrash(fs, 168, 32, gs)
      && InPool(gs, 512) && Apart(gs) && gs[2].End() == gs[0].off
  {
    var fs := [Chunk(200, 100), Chunk(400, 100), Chunk(120, 48)];
    assert FirstMeeting(fs, 168, 32) == 0 by { MeetingIs(fs, 168, 32, 0); }
    hide FirstMeeting, Partner, Compacted, Canonical, InPool, Apart, Outside;
    ExampleShape();
    assert Absorb(fs, 0, 168, 32) == [Chunk(168, 132), Chunk(400, 100), Chunk(120, 48)];
  }

  lemma ExampleShape()
    ensures var fs := [Chunk(200, 100), Chunk(400, 100), Chunk(120, 48)];
      var gs := [Chunk(168, 132), Chunk(400, 100), Chunk(120, 48)];
      Canonical(fs, 512) && Outside(fs, 168, 32) && InPool(gs, 512) && Apart(gs)
  {
    ThreeApart(Chunk(200, 100), Chunk(400, 100), Chunk(120, 48));
    ThreeApart(Chunk(168, 132), Chunk(400, 100), Chunk(120, 48));
  }

  lemma ThreeApart(c: Chunk, d: Chunk, e: Chunk)
    requires Clear(c, d) && Clear(c, e) && Clear(d, e)
    ensures Apart([c, d, e])
  {
    var fs := [c, d, e];
    forall i, j | 0 <= i < j < |fs|
      ensures Clear(fs[i], fs[j])
    {
      if i == 0 && j == 1 {} else if i == 0 && j == 2 {}
    }
  }

  /** From there a later give-back counts the list head twice. */
  lemma DoubledByGiveBack()
    ensures var gs := [Chunk(168, 132), Chunk(400, 100), Chunk(120, 48)];
      && Outside(gs, 88, 32) && Doubles(gs, 88, 32) && Twice(Release(gs, 88, 32)) && !Apart(Release(gs, 88, 32))
  {
    var gs := [Chunk(168, 132), Chunk(400, 100), Chunk(120, 48)];
    assert InPool(gs, 512) && Apart(gs);
    MeetingIs(gs, 88, 32, 2);
    hide FirstMeeting, Release;
    ReleaseApart(gs, 88, 32, 512);
  }

  lemma AbsorbLength(fs: Chunks, i: nat, a: nat, n: nat)
    requires i < |fs|
    ensures |Absorb(fs, i, a, n)| == |fs|
  {
  }
}
