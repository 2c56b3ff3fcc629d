/** `lmc_um_find_leaks` as written: it gives every unmarked run back to the
    allocator, but its 64-bit skips may start one byte after a run of used bytes
    began, and then step over the first byte of the gap that ends the run. */
module LeakScan {
  import opened Memory
  import opened FreeList
  import opened Links
  import opened Regions
  import opened Pools
  import opened UsageMaps

  /* ---- What the scan finds ---- */

  /** The gap at `g` ends a used run that began at `e`, right after a gap, and
      is a whole number of 64-bit words long. */
  ghost predicate LateVia(marks: set<int>, n: nat, e: int, g: int) {
    && 0 < e < g < n - 1 && e % 8 == 0 && (g - e) % 64 == 0
    && e - 1 !in marks && g !in marks && AllMarked(marks, e, g - e)
  }

  /** The scan steps over `g`, the first byte of a gap. */
  ghost predicate Late(marks: set<int>, n: nat, g: int) {
    exists e :: LateVia(marks, n, e, g)
  }

  /** The bytes the scan gives back. */
  ghost predicate Wanted(marks: set<int>, n: nat, b: int) {
    0 <= b < n && b !in marks && !Late(marks, n, b)
  }

  /** A maximal run of wanted bytes. */
  ghost predicate IsRun(marks: set<int>, n: nat, c: Chunk) {
    && c.size > 0 && (forall b :: c.off <= b < c.End() ==> Wanted(marks, n, b))
    && !Wanted(marks, n, c.off - 1) && !Wanted(marks, n, c.End())
  }

  /** `gaps` are, in order, the maximal wanted runs that end before `upto`, and all of the wanted bytes there. */
  ghost predicate Scanned(marks: set<int>, n: nat, upto: int, gaps: Chunks) {
    && (forall i :: 0 <= i < |gaps| ==> IsRun(marks, n, gaps[i]) && gaps[i].End() < upto)
    && (forall i, j :: 0 <= i < j < |gaps| ==> gaps[i].End() < gaps[j].off)
    && (forall b :: 0 <= b < upto ==> (Wanted(marks, n, b) <==> Covers(gaps, b)))
  }

  /** The scan gives back exactly the unmarked bytes if and only if no gap starts late. */
  lemma ExactUnlessLate(marks: set<int>, n: nat, gaps: Chunks)
    requires Scanned(marks, n, n + 1, gaps)
    ensures (forall b :: 0 <= b < n ==> (Covers(gaps, b) <==> b !in marks)) <==> forall g :: !Late(marks, n, g)
  {
    hide Covers, IsRun;
    forall b | 0 <= b < n
      ensures Covers(gaps, b) <==> b !in marks && !Late(marks, n, b)
    {
      assert Wanted(marks, n, b) <==> Covers(gaps, b);
    }
    forall g ensures Late(marks, n, g) ==> 0 <= g < n && g !in marks {}
  }

  /* ---- The scan, step by step ---- */

  /** No 64-bit skip over used words can start at bit `i`. */
  ghost predicate NoSkip(marks: set<int>, n: nat, i: nat) {
    i >= n - 64 || !AllMarked(marks, Floor8(i), 64)
  }

  /** The scan closed a gap at the byte-aligned bit before `i`. */
  ghost predicate JustClosed(marks: set<int>, i: int) {
    i >= 2 && (i - 1) % 8 == 0 && i - 1 in marks && i - 2 !in marks
  }

  /** The loop head outside a gap: where the scan may be, and which late gaps lie ahead. */
  ghost predicate Open(marks: set<int>, n: nat, i: nat) {
    && (i % 8 == 0 || JustClosed(marks, i) || NoSkip(marks, n, i))
    && (i > 0 ==> !Wanted(marks, n, i - 1))
    && forall e, g :: LateVia(marks, n, e, g) && e < i <= g ==> JustClosed(marks, i) && e == i - 1
  }

  /** After the skips, no late gap that began before `i` lies ahead. */
  ghost predicate Landed(marks: set<int>, n: nat, i: nat) {
    && NoSkip(marks, n, i)
    && (i > 0 ==> !Wanted(marks, n, i - 1))
    && forall e, g :: LateVia(marks, n, e, g) && e < i <= g ==> false
  }

  ghost predicate SkippedOnes(marks: set<int>, i0: nat, i: nat) {
    i0 <= i && (i - i0) % 64 == 0 && AllMarked(marks, Floor8(i0), i - i0)
  }

  lemma OpenStart(marks: set<int>, n: nat)
    ensures Open(marks, n, 0) && Scanned(marks, n, 0, [])
  {
  }

  lemma OnesStart(marks: set<int>, i: nat)
    ensures SkippedOnes(marks, i, i)
  {
  }

  lemma OnesStep(marks: set<int>, i0: nat, i: nat)
    requires SkippedOnes(marks, i0, i) && AllMarked(marks, Floor8(i), 64)
    ensures SkippedOnes(marks, i0, i + 64)
  {
    assert Floor8(i) == Floor8(i0) + (i - i0);
  }

  lemma NoSkipDef(marks: set<int>, n: nat, i: nat)
    ensures NoSkip(marks, n, i) <==> i >= n - 64 || !AllMarked(marks, Floor8(i), 64)
  {
  }

  /** A used run after a late byte never starts on a byte boundary. */
  lemma LateAligned(marks: set<int>, n: nat, g: int)
    ensures Late(marks, n, g) ==> g % 8 == 0 && g !in marks
  {
  }

  /** The skips pass over used bytes and at most one late byte. */
  lemma SkipPasses(marks: set<int>, n: nat, i0: nat, i: nat)
    requires Open(marks, n, i0) && SkippedOnes(marks, i0, i) && i < n
    requires i > i0 ==> !NoSkip(marks, n, i0)
    ensures forall b :: i0 <= b < i ==> !Wanted(marks, n, b)
  {
    if i > i0 && i0 % 8 != 0 {
      var e := i0 - 1;
      assert Floor8(i0) == e;
      forall b | i0 <= b < i
        ensures b in marks || Late(marks, n, b)
      {
        if b == i - 1 && b !in marks {
          assert LateVia(marks, n, e, b);
        }
      }
    }
  }

  lemma SkipLands(marks: set<int>, n: nat, i0: nat, i: nat)
    requires Open(marks, n, i0) && SkippedOnes(marks, i0, i) && i < n && NoSkip(marks, n, i)
    requires i > i0 ==> !NoSkip(marks, n, i0)
    ensures Landed(marks, n, i)
  {
    hide Open, SkippedOnes, NoSkip, AllMarked, Floor8, Wanted;
    SkipPasses(marks, n, i0, i);
    assert i > 0 ==> !Wanted(marks, n, i - 1) by { PassedBefore(marks, n, i0, i); }
    NoSkipDef(marks, n, i);
    forall e, g | LateVia(marks, n, e, g) && e < i <= g
      ensures false
    {
      if e < i0 {
        LateTooLong(marks, n, i0, i, e, g);
      } else {
        RunStartPassed(marks, n, i0, i, e);
      }
    }
  }

  lemma PassedBefore(marks: set<int>, n: nat, i0: nat, i: nat)
    requires Open(marks, n, i0) && SkippedOnes(marks, i0, i) && forall b :: i0 <= b < i ==> !Wanted(marks, n, b)
    ensures i > 0 ==> !Wanted(marks, n, i - 1)
  {
    hide Wanted;
  }

  /** A late gap that began before the skips is at least one more word away. */
  lemma LateTooLong(marks: set<int>, n: nat, i0: nat, i: nat, e: int, g: int)
    requires Open(marks, n, i0) && SkippedOnes(marks, i0, i) && i < n
    requires LateVia(marks, n, e, g) && e < i0 && i <= g
    ensures i < n - 64 && AllMarked(marks, Floor8(i), 64)
  {
    hide NoSkip, Wanted, AllMarked, LateVia;
    assert JustClosed(marks, i0) && e == i0 - 1;
    LateGap(marks, n, e, g);
    FloorOn(i0, i);
    WordBehind(marks, e, g, i0, i);
  }

  lemma LateGap(marks: set<int>, n: nat, e: int, g: int)
    requires LateVia(marks, n, e, g)
    ensures 0 < e < g < n - 1 && e % 8 == 0 && (g - e) % 64 == 0 && AllMarked(marks, e, g - e)
  {
  }

  lemma FloorOn(i0: nat, i: nat)
    requires i0 > 0 && (i0 - 1) % 8 == 0 && i0 <= i && (i - i0) % 64 == 0
    ensures Floor8(i) == i - 1
  {
  }

  /** The gap lies at least a word behind the bit before `i`, and the word is marked. */
  lemma WordBehind(marks: set<int>, e: int, g: int, i0: nat, i: nat)
    requires e == i0 - 1 && i0 <= i <= g && (i - i0) % 64 == 0 && (g - e) % 64 == 0 && AllMarked(marks, e, g - e)
    ensures g >= i - 1 + 64 && AllMarked(marks, i - 1, 64)
  {
  }

  lemma RunStartPassed(marks: set<int>, n: nat, i0: nat, i: nat, e: int)
    requires Open(marks, n, i0) && SkippedOnes(marks, i0, i) && i < n
    requires i > i0 ==> !NoSkip(marks, n, i0)
    requires i0 <= e < i && e > 0 && e % 8 == 0
    ensures e - 1 in marks
  {
    if e == i0 {
      LateAligned(marks, n, e - 1);
    } else if i0 % 8 != 0 {
      assert Floor8(i0) == i0 - 1;
    }
  }

  lemma LandedMarked(marks: set<int>, n: nat, i: nat, i0: nat, gaps: Chunks)
    requires Landed(marks, n, i) && i0 <= i < n && i in marks && Scanned(marks, n, i0, gaps)
    requires forall b :: i0 <= b < i ==> !Wanted(marks, n, b)
    ensures Open(marks, n, i + 1) && Scanned(marks, n, i + 1, gaps)
  {
    assert (i + 1) % 8 == 0 || Floor8(i + 1) == Floor8(i);
    if i > 0 && i % 8 == 0 { LateAfterLate(marks, n, i); }
    forall e, g | LateVia(marks, n, e, g) && e < i + 1 <= g
      ensures false
    {
    }
    ScannedMore(marks, n, i0, i + 1, gaps);
  }

  /** A byte before `i` that is not wanted is used, or late and then not on the last bit of a byte. */
  lemma LateAfterLate(marks: set<int>, n: nat, i: nat)
    requires i > 0 && !Wanted(marks, n, i - 1) && i < n && i % 8 == 0
    ensures i - 1 in marks
  {
    LateAligned(marks, n, i - 1);
  }

  /** Passing bytes that are not wanted. */
  lemma ScannedMore(marks: set<int>, n: nat, i0: nat, i: nat, gaps: Chunks)
    requires i0 <= i && Scanned(marks, n, i0, gaps)
    requires forall b :: i0 <= b < i ==> !Wanted(marks, n, b)
    ensures Scanned(marks, n, i, gaps)
  {
    forall b | i0 <= b < i
      ensures !Covers(gaps, b)
    {
      if Covers(gaps, b) { var k := CoverIndex(gaps, b); }
    }
  }

  /** Bytes [gs, i) of the gap the scan is in. */
  ghost predicate InGap(marks: set<int>, n: nat, gs: nat, i: nat, gaps: Chunks) {
    && gs < i <= n && Scanned(marks, n, gs, gaps) && !Wanted(marks, n, gs - 1) && i - 1 !in marks
    && forall b :: gs <= b < i ==> Wanted(marks, n, b)
  }

  lemma GapOpens(marks: set<int>, n: nat, i: nat, i0: nat, gaps: Chunks)
    requires Landed(marks, n, i) && i0 <= i < n && i !in marks && Scanned(marks, n, i0, gaps)
    requires forall b :: i0 <= b < i ==> !Wanted(marks, n, b)
    ensures InGap(marks, n, i, i + 1, gaps)
  {
    ScannedMore(marks, n, i0, i, gaps);
    forall e ensures !LateVia(marks, n, e, i) {}
  }

  lemma GapGrows(marks: set<int>, n: nat, gs: nat, i: nat, gaps: Chunks)
    requires InGap(marks, n, gs, i, gaps) && i < n && i !in marks
    ensures InGap(marks, n, gs, i + 1, gaps)
  {
    forall e
      ensures !LateVia(marks, n, e, i)
    {
      assert 0 < e < i && AllMarked(marks, e, i - e) ==> i - 1 in marks;
    }
  }

  /** The scan leaves the gap [gs, i) at a used byte or at the end of the pool. */
  lemma GapCloses(marks: set<int>, n: nat, gs: nat, i: nat, gaps: Chunks)
    requires InGap(marks, n, gs, i, gaps) && (i < n ==> i in marks)
    ensures Scanned(marks, n, gs, gaps)
    ensures IsRun(marks, n, Chunk(gs, i - gs))
    ensures Scanned(marks, n, i + 1, gaps + [Chunk(gs, i - gs)])
    ensures i < n ==> Open(marks, n, i + 1)
  {
    var c := Chunk(gs, i - gs);
    var r := gaps + [c];
    forall b | 0 <= b < i + 1
      ensures Wanted(marks, n, b) <==> Covers(r, b)
    {
      if b < gs && Covers(gaps, b) { var k := CoverIndex(gaps, b); CoversAt(r, k, b); }
      if Covers(r, b) {
        var k := CoverIndex(r, b);
        if k < |gaps| { CoversAt(gaps, k, b); }
      }
      if gs <= b < i { CoversAt(r, |gaps|, b); }
    }
    assert Wanted(marks, n, i - 1);
    if i < n { ClosedOpen(marks, n, i); }
  }

  lemma ClosedOpen(marks: set<int>, n: nat, i: nat)
    requires 0 < i < n && i in marks && i - 1 !in marks
    ensures Open(marks, n, i + 1)
  {
    if (i + 1) % 8 != 0 && i % 8 != 0 {
      assert Floor8(i + 1) <= i - 1 < Floor8(i + 1) + 64;
    }
    forall e, g | LateVia(marks, n, e, g) && e < i + 1 <= g
      ensures e == i
    {
      assert e < i ==> i - 1 in marks;
    }
  }

  /* ---- Giving the gaps back ---- */

  /** The bitmap covers the descriptor and the free list. */
  ghost predicate Freeable(marks: set<int>, fs: Chunks) {
    AllMarked(marks, 0, DESC) && forall b :: Covers(fs, b) ==> b in marks
  }

  /** The run can hold a chunk header or borders a chunk that was free already. */
  ghost predicate RoomFor(fs: Chunks, c: Chunk) {
    c.size >= HEADER || Covers(fs, c.off - 1) || Covers(fs, c.End())
  }

  /** So can all the runs the scan frees. */
  ghost predicate Roomy(marks: set<int>, n: nat, fs: Chunks) {
    forall c :: IsRun(marks, n, c) ==> RoomFor(fs, c)
  }

  ghost predicate AllRuns(marks: set<int>, n: nat, gaps: Chunks) {
    forall i :: 0 <= i < |gaps| ==> IsRun(marks, n, gaps[i])
  }

  ghost predicate AllRoom(fs: Chunks, gaps: Chunks) {
    forall i :: 0 <= i < |gaps| ==> RoomFor(fs, gaps[i])
  }

  /** Bytes that are marked but not free keep their value. */
  ghost predicate KeptMarked(m: Bytes, m': Bytes, fs: Chunks, marks: set<int>) {
    |m'| == |m| && forall k :: 8 <= k < |m| && k in marks && !Covers(fs, k) ==> m'[k] == m[k]
  }

  /** The free list `fs` after the gaps were given back to `fs0`. */
  ghost predicate GaveBack(fs0: Chunks, fs: Chunks, gaps: Chunks) {
    fs == ReleaseAll(fs0, gaps) && forall b :: Covers(fs, b) <==> Covers(fs0, b) || Covers(gaps, b)
  }

  lemma GaveNothing(fs: Chunks)
    ensures GaveBack(fs, fs, [])
  {
    hide Covers;
    forall b ensures !Covers([], b) { if Covers([], b) { var i := CoverIndex([], b); } }
  }

  lemma MeetsFirst(fs: Chunks, a: nat, n: nat, b: int)
    requires Covers(fs, b) && Outside(fs, a, n) && n > 0 && (b == a - 1 || b == a + n)
    ensures FirstMeeting(fs, a, n) < |fs|
  {
    hide Covers, FirstMeeting;
    var i := CoverIndex(fs, b);
    assert Clear(fs[i], Chunk(a, n));
    assert Meets(fs[i], a, n);
  }

  /** The next run has no free byte. */
  lemma RunNotFree(marks: set<int>, n: nat, fs0: Chunks, fs: Chunks, gaps: Chunks, c: Chunk)
    requires Freeable(marks, fs0) && GaveBack(fs0, fs, gaps)
    requires IsRun(marks, n, c) && Scanned(marks, n, c.off, gaps)
    ensures forall b :: c.off <= b < c.End() ==> !Covers(fs, b)
  {
    hide Covers, Late, ReleaseAll, AllMarked;
    forall b | c.off <= b < c.End()
      ensures !Covers(fs, b)
    {
      assert Wanted(marks, n, b);
      if Covers(gaps, b) { var k := CoverIndex(gaps, b); }
    }
  }

  lemma RunBounds(marks: set<int>, n: nat, fs0: Chunks, c: Chunk)
    requires Freeable(marks, fs0) && IsRun(marks, n, c)
    ensures DESC <= c.off && c.End() <= n && c.size > 0
  {
    hide Covers, Late;
    assert Wanted(marks, n, c.off) && Wanted(marks, n, c.End() - 1);
  }

  /** A gap more. */
  lemma GaveMore(fs0: Chunks, fs: Chunks, gaps: Chunks, c: Chunk, fs': Chunks)
    requires GaveBack(fs0, fs, gaps) && fs' == Release(fs, c.off, c.size)
    requires forall b {:trigger Covers(fs', b)} :: Covers(fs', b) <==> Covers(fs, b) || c.off <= b < c.End()
    ensures GaveBack(fs0, fs', gaps + [c])
  {
    hide Covers, Release;
    var r := gaps + [c];
    assert r[..|r| - 1] == gaps;
    forall b
      ensures Covers(r, b) <==> Covers(gaps, b) || c.off <= b < c.End()
    {
      GapCovers(gaps, c, b);
    }
  }

  lemma GapCovers(gaps: Chunks, c: Chunk, b: int)
    ensures Covers(gaps + [c], b) <==> Covers(gaps, b) || c.off <= b < c.End()
  {
    hide Covers;
    var r := gaps + [c];
    if Covers(r, b) {
      var k := CoverIndex(r, b);
      if k < |gaps| { CoversAt(gaps, k, b); }
    }
    if Covers(gaps, b) { var k := CoverIndex(gaps, b); CoversAt(r, k, b); }
    if c.off <= b < c.End() { CoversAt(r, |gaps|, b); }
  }

  /** A run the scan comes to borders a free chunk exactly if it did from the start. */
  lemma RunBorders(marks: set<int>, n: nat, fs0: Chunks, fs: Chunks, gaps: Chunks, c: Chunk)
    requires InPool(fs, n) && GaveBack(fs0, fs, gaps) && Outside(fs, c.off, c.size)
    requires IsRun(marks, n, c) && Scanned(marks, n, c.off, gaps)
    ensures HasRoom(fs, c.off, c.size) <==> RoomFor(fs0, c)
  {
    hide Covers, FirstMeeting, Outside, Wanted, ReleaseAll, InPool;
    GapsWanted(marks, n, gaps, c.off, c.off - 1);
    GapsWanted(marks, n, gaps, c.off, c.End());
    assert Covers(fs, c.off - 1) <==> Covers(fs0, c.off - 1);
    assert Covers(fs, c.End()) <==> Covers(fs0, c.End());
    if Covers(fs, c.off - 1) { MeetsFirst(fs, c.off, c.size, c.off - 1); }
    if Covers(fs, c.End()) { MeetsFirst(fs, c.off, c.size, c.End()); }
    var i := FirstMeeting(fs, c.off, c.size);
    if i < |fs| {
      InPoolAt(fs, n, i);
      if fs[i].End() == c.off { CoversAt(fs, i, c.off - 1); } else { CoversAt(fs, i, c.End()); }
    }
  }

  lemma GapsWanted(marks: set<int>, n: nat, gaps: Chunks, upto: int, b: int)
    requires Scanned(marks, n, upto, gaps)
    ensures Covers(gaps, b) ==> Wanted(marks, n, b)
  {
    hide Wanted;
    if Covers(gaps, b) { var k := CoverIndex(gaps, b); assert IsRun(marks, n, gaps[k]); }
  }

  /** The next run lies in the pool, apart from the list. */
  lemma RunFreeable(marks: set<int>, n: nat, fs0: Chunks, fs: Chunks, gaps: Chunks, c: Chunk)
    requires Freeable(marks, fs0) && GaveBack(fs0, fs, gaps) && InPool(fs, n)
    requires IsRun(marks, n, c) && Scanned(marks, n, c.off, gaps)
    ensures DESC <= c.off && c.End() <= n && c.size > 0 && Outside(fs, c.off, c.size)
    ensures HasRoom(fs, c.off, c.size) <==> RoomFor(fs0, c)
  {
    hide Covers, Outside, Freeable, GaveBack, IsRun, Scanned, HasRoom;
    RunBounds(marks, n, fs0, c);
    RunNotFree(marks, n, fs0, fs, gaps, c);
    UncoveredOutside(fs, c.off, c.size, n);
    RunBorders(marks, n, fs0, fs, gaps, c);
  }

  /** Having room, it is given back. */
  lemma RunGiven(fs0: Chunks, fs: Chunks, gaps: Chunks, n: nat, c: Chunk)
    requires GaveBack(fs0, fs, gaps) && Shape(fs0, fs, gaps, n) && AllRoom(fs0, gaps)
    requires DESC <= c.off && c.End() <= n && c.size > 0 && Outside(fs, c.off, c.size)
    requires HasRoom(fs, c.off, c.size) && RoomFor(fs0, c)
    ensures GaveBack(fs0, Release(fs, c.off, c.size), gaps + [c]) && AllRoom(fs0, gaps + [c])
    ensures Shape(fs0, Release(fs, c.off, c.size), gaps + [c], n)
  {
    hide Covers, FirstMeeting, Release, NoTouch, Apart, Outside, HasRoom, RoomFor;
    ShapeMore(fs0, fs, gaps, n, c);
    ReleaseCovers(fs, c.off, c.size, n);
    GaveMore(fs0, fs, gaps, c, Release(fs, c.off, c.size));
  }

  /** Two maximal runs that share a byte are the same. */
  lemma RunsEqual(marks: set<int>, n: nat, c: Chunk, d: Chunk, b: int)
    requires IsRun(marks, n, c) && IsRun(marks, n, d) && c.off <= b < c.End() && d.off <= b < d.End()
    ensures c == d
  {
    hide Wanted;
    assert c.off < d.off ==> Wanted(marks, n, d.off - 1);
    assert d.off < c.off ==> Wanted(marks, n, c.off - 1);
    assert c.End() < d.End() ==> Wanted(marks, n, c.End());
    assert d.End() < c.End() ==> Wanted(marks, n, d.End());
  }

  /** At the end every run has been one of the gaps. */
  lemma AllRunsRoomy(marks: set<int>, n: nat, fs0: Chunks, gaps: Chunks)
    requires Scanned(marks, n, n + 1, gaps) && AllRoom(fs0, gaps)
    ensures Roomy(marks, n, fs0)
  {
    hide Covers, RoomFor, Wanted;
    forall c | IsRun(marks, n, c)
      ensures RoomFor(fs0, c)
    {
      assert Wanted(marks, n, c.off);
      assert 0 <= c.off < n by { WantedIn(marks, n, c.off); }
      var k := CoverIndex(gaps, c.off);
      RunsEqual(marks, n, c, gaps[k], c.off);
    }
  }

  lemma WantedIn(marks: set<int>, n: nat, b: int)
    requires Wanted(marks, n, b)
    ensures 0 <= b < n && b !in marks
  {
  }

  lemma RunsUnmarked(marks: set<int>, n: nat, gaps: Chunks, k: int)
    requires AllRuns(marks, n, gaps)
    ensures Covers(gaps, k) ==> k !in marks
  {
    if Covers(gaps, k) {
      var j := CoverIndex(gaps, k);
      assert IsRun(marks, n, gaps[j]) && Wanted(marks, n, k);
    }
  }

  lemma KeptMarkedStep(m0: Bytes, m: Bytes, m': Bytes, fs0: Chunks, fs: Chunks, gaps: Chunks, marks: set<int>, n: nat,
      c: Chunk)
    requires KeptMarked(m0, m, fs0, marks) && Kept(m, m', fs, c.off, c.size)
    requires GaveBack(fs0, fs, gaps) && Scanned(marks, n, c.off, gaps) && IsRun(marks, n, c)
    ensures KeptMarked(m0, m', fs0, marks)
  {
    hide Covers, Late, ReleaseAll;
    ScannedRuns(marks, n, c.off, gaps);
    forall k | 8 <= k < |m| && k in marks && !Covers(fs0, k)
      ensures m'[k] == m0[k]
    {
      assert !Wanted(marks, n, k);
      RunsUnmarked(marks, n, gaps, k);
    }
  }

  /** What the scan has done to the pool `m0` with list `fs0`: freed `gaps`. */
  ghost predicate Done(p: Pool, m0: Bytes, fs0: Chunks, marks: set<int>, gaps: Chunks)
    reads p`M, p`fs, p.mem
  {
    && p.Chained() && KeptMarked(m0, p.M, fs0, marks) && GaveBack(fs0, p.fs, gaps) && Shape(fs0, p.fs, gaps, |m0|)
    && AllRoom(fs0, gaps) && (gaps == [] ==> p.M == m0) && Marred(fs0, gaps)
  }

  /** A crash while the run `c` was given back, after `gaps`. */
  ghost predicate Broken(p: Pool, m0: Bytes, fs0: Chunks, marks: set<int>, gaps: Chunks, c: Chunk)
    reads p`M, p`fs, p.mem
  {
    && p.Sync() && Stores(p.M, p.fs) && KeptMarked(m0, p.M, fs0, marks) && IsRun(marks, |m0|, c)
    && GaveBack(fs0, ReleaseAll(fs0, gaps), gaps) && AllRuns(marks, |m0|, gaps) && Scanned(marks, |m0|, c.off, gaps)
    && Shape(fs0, ReleaseAll(fs0, gaps), gaps, |m0|) && Outside(ReleaseAll(fs0, gaps), c.off, c.size)
    && DESC <= c.off && c.End() <= |m0|
    && ReleaseCrash(ReleaseAll(fs0, gaps), c.off, c.size, p.fs)
    && (Apart(fs0) && !NoDoubles(fs0, gaps) ==> Twice(p.fs))
  }

  /** After `gaps` the run `c` turned out too short: `m1` was the pool before. */
  ghost predicate Choked(p: Pool, m0: Bytes, fs0: Chunks, marks: set<int>, gaps: Chunks, c: Chunk, m1: Bytes)
    reads p`M, p`fs, p.mem
  {
    && p.Sync() && KeptMarked(m0, m1, fs0, marks) && Stores(m1, ReleaseAll(fs0, gaps)) && |m1| < LIMIT
    && IsRun(marks, |m0|, c) && DESC <= c.off && c.End() <= |m1|
    && !RoomFor(fs0, c) && p.M == if c.off + HEADER <= |m1| then Pushing(m1, c.off, c.size) else m1
  }

  /** Giving back the run [gs, gs + size). */
  method CloseGap(p: Pool, gs: nat, size: nat, te: bool, ghost marks: set<int>, ghost m0: Bytes, ghost fs0: Chunks,
      ghost gaps: Chunks)
    returns (crashed: bool, short: bool, ghost gaps': Chunks)
    requires Done(p, m0, fs0, marks, gaps) && Freeable(marks, fs0)
    requires IsRun(marks, |m0|, Chunk(gs, size)) && Scanned(marks, |m0|, gs, gaps)
    modifies p`M, p`fs, p.mem
    ensures short <==> !RoomFor(fs0, Chunk(gs, size))
    ensures !crashed && !short ==> gaps' == gaps + [Chunk(gs, size)] && Done(p, m0, fs0, marks, gaps')
    ensures crashed ==> te && !short && gaps' == gaps && Broken(p, m0, fs0, marks, gaps, Chunk(gs, size))
    ensures short ==> gaps' == gaps && Choked(p, m0, fs0, marks, gaps, Chunk(gs, size), old(p.M))
  {
    hide Scanned, IsRun, Freeable, Covers, Stores, InPool, Outside, Release, FirstMeeting, KeptMarked, Kept, Shape,
      GaveBack, ReleaseCrash, RoomFor, HasRoom, AllRoom, Pushing, ReleaseAll, Marred, Apart, NoDoubles, Twice;
    ghost var m1, fs1, c := p.M, p.fs, Chunk(gs, size);
    KeptMarkedLength(m0, m1, fs0, marks);
    GaveIs(fs0, fs1, gaps);
    RunFreeable(marks, |m0|, fs0, fs1, gaps, c);
    crashed, short := p.RawFree(gs, size, te);
    if short { return crashed, short, gaps; }
    ScannedBefore(marks, |m0|, gs, gaps);
    MarredMore(fs0, fs1, gaps, |m0|, c);
    RunGiven(fs0, fs1, gaps, |m0|, c);
    KeptMarkedStep(m0, m1, p.M, fs0, fs1, gaps, marks, |m0|, c);
    KeptMarkedLength(m0, p.M, fs0, marks);
    ScannedRuns(marks, |m0|, gs, gaps);
    gaps' := if crashed then gaps else gaps + [c];
  }

  lemma ScannedBefore(marks: set<int>, n: nat, upto: int, gaps: Chunks)
    requires Scanned(marks, n, upto, gaps)
    ensures |gaps| > 0 ==> gaps[|gaps| - 1].End() < upto
  {
    hide IsRun, Covers, Wanted;
  }

  lemma ScannedRuns(marks: set<int>, n: nat, upto: int, gaps: Chunks)
    requires Scanned(marks, n, upto, gaps)
    ensures AllRuns(marks, n, gaps)
  {
    hide IsRun, Covers, Wanted;
  }

  lemma GaveIs(fs0: Chunks, fs: Chunks, gaps: Chunks)
    requires GaveBack(fs0, fs, gaps)
    ensures fs == ReleaseAll(fs0, gaps)
  {
    hide Covers;
  }

  lemma KeptMarkedLength(m: Bytes, m': Bytes, fs: Chunks, marks: set<int>)
    requires KeptMarked(m, m', fs, marks)
    ensures |m'| == |m|
  {
  }

  /** The loop that skips the words of used bytes. */
  method SkipOnes(u: UsageMap, i0: nat) returns (i: nat)
    requires u.Valid() && i0 < u.n && Open(u.marks, u.n, i0)
    ensures i0 <= i < u.n && Landed(u.marks, u.n, i) && forall b :: i0 <= b < i ==> !Wanted(u.marks, u.n, b)
  {
    hide Wanted, Open, Landed, NoSkip, SkippedOnes, AllMarked, Unmarked;
    var ee := u.n - 64;
    i := i0;
    OnesStart(u.marks, i);
    while i < ee
      invariant i0 <= i < u.n && SkippedOnes(u.marks, i0, i)
      invariant i > i0 ==> i0 < ee && AllMarked(u.marks, Floor8(i0), 64)
      decreases ee - i
    {
      var ones := u.WordIs(i, true);
      if !ones { break; }
      OnesStep(u.marks, i0, i);
      i := i + 64;
    }
    NoSkipDef(u.marks, u.n, i);
    NoSkipDef(u.marks, u.n, i0);
    SkipPasses(u.marks, u.n, i0, i);
    SkipLands(u.marks, u.n, i0, i);
  }

  /** `lmc_um_find_leaks`, from any stored list.  The scan stops being modelled
      where it comes to a run that is too short. */
  method FindLeaks(p: Pool, u: UsageMap, te: bool)
    returns (crashed: bool, short: bool, ghost gaps: Chunks, ghost at: Chunk, ghost m1: Bytes)
    requires p.Chained() && u.Valid() && u.n == |p.M| && Freeable(u.marks, p.fs)
    modifies p`M, p`fs, p.mem
    ensures !crashed ==> (short <==> !Roomy(u.marks, u.n, old(p.fs)))
    ensures !crashed && !short ==> Done(p, old(p.M), old(p.fs), u.marks, gaps) && Scanned(u.marks, u.n, u.n + 1, gaps)
    ensures crashed ==> te && !short && Broken(p, old(p.M), old(p.fs), u.marks, gaps, at)
    ensures short ==> Choked(p, old(p.M), old(p.fs), u.marks, gaps, at, m1)
  {
    hide Scanned, IsRun, Freeable, Covers, Stores, InPool, Outside, KeptMarked, Wanted, Open, Landed, NoSkip,
      SkippedOnes, Done, Broken, Choked, AllMarked, Unmarked, Roomy, RoomFor;
    ghost var m0, fs0, marks, n := p.M, p.fs, u.marks, u.n;
    var tts := p.mem.Length;
    var i, gap, gs := 0, false, 0;
    crashed, short, gaps, at, m1 := false, false, [], Chunk(0, 0), [];
    OpenStart(marks, n);
    DoneStart(p, marks);
    while i < tts
      invariant !crashed && !short
      invariant 0 <= i <= tts && u.Valid() && u.marks == marks && Done(p, m0, fs0, marks, gaps)
      invariant !gap ==> Open(marks, n, i) && Scanned(marks, n, i, gaps)
      invariant gap ==> 0 <= gs && InGap(marks, n, gs, i, gaps)
    {
      ghost var i0 := i;
      if !gap {
        i := SkipOnes(u, i);
      }
      if !u.GetBit(i) {
        if !gap {
          gs, gap := i, true;
          GapOpens(marks, n, i, i0, gaps);
        } else {
          GapGrows(marks, n, gs, i, gaps);
        }
      } else if gap {
        gap := false;
        GapCloses(marks, n, gs, i, gaps);
        m1, at := p.M, Chunk(gs, i - gs);
        crashed, short, gaps := CloseGap(p, gs, i - gs, te, marks, m0, fs0, gaps);
        if crashed || short { NoRoom(marks, n, fs0, at); return; }
      } else {
        LandedMarked(marks, n, i, i0, gaps);
      }
      i := i + 1;
    }
    if gap {
      gap := false;
      GapCloses(marks, n, gs, i, gaps);
      m1, at := p.M, Chunk(gs, i - gs);
      crashed, short, gaps := CloseGap(p, gs, i - gs, te, marks, m0, fs0, gaps);
      if crashed || short { NoRoom(marks, n, fs0, at); return; }
    } else {
      ScanEnds(marks, n, gaps);
    }
    DoneRoom(p, m0, fs0, marks, gaps);
    AllRunsRoomy(marks, n, fs0, gaps);
  }

  lemma NoRoom(marks: set<int>, n: nat, fs: Chunks, c: Chunk)
    requires IsRun(marks, n, c)
    ensures !RoomFor(fs, c) ==> !Roomy(marks, n, fs)
  {
  }

  /** A run that is too short: the byte at 184, between blocks in use. */
  lemma ShortExample()
    ensures var marks, fs := Bits(0, 184) + Bits(185, 39), [Chunk(88, 32)];
      Freeable(marks, fs) && IsRun(marks, 224, Chunk(184, 1)) && !Roomy(marks, 224, fs)
  {
    var marks, fs := Bits(0, 184) + Bits(185, 39), [Chunk(88, 32)];
    forall b ensures b in marks <==> Within(b, 0, 184) || Within(b, 185, 39) {}
    forall e ensures !LateVia(marks, 224, e, 184) {}
    NoRoom(marks, 224, fs, Chunk(184, 1));
  }

  lemma DoneRoom(p: Pool, m0: Bytes, fs0: Chunks, marks: set<int>, gaps: Chunks)
    requires Done(p, m0, fs0, marks, gaps)
    ensures AllRoom(fs0, gaps)
  {
  }

  lemma ScanEnds(marks: set<int>, n: nat, gaps: Chunks)
    requires Scanned(marks, n, n, gaps)
    ensures Scanned(marks, n, n + 1, gaps)
  {
    ScannedMore(marks, n, n, n + 1, gaps);
  }

  lemma DoneStart(p: Pool, marks: set<int>)
    requires p.Chained()
    ensures Done(p, p.M, p.fs, marks, [])
  {
    hide Stores, InPool, Covers;
    GaveNothing(p.fs);
    ShapeNone(p.fs, |p.M|);
  }

  /** With every byte marked there is nothing to give back. */
  lemma FullNoGaps(marks: set<int>, n: nat, gaps: Chunks)
    requires AllMarked(marks, 0, n) && Scanned(marks, n, n + 1, gaps)
    ensures gaps == []
  {
    assert |gaps| > 0 ==> IsRun(marks, n, gaps[0]) && Wanted(marks, n, gaps[0].off);
  }
}
