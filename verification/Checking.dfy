/** `ht_check_memory`: marking everything free or reachable, then giving every
    unmarked run back to the allocator. */
module Checking {
  import opened Memory
  import opened FreeList
  import opened Links
  import opened Pools
  import opened UsageMaps
  import opened Acceptance
  import opened LeakScan
  import opened Marking

  /** The bitmap accepted this free list and these chains, and is now `marks`. */
  ghost predicate Found(m: Bytes, ht: nat, fs: Chunks, ch: seq<seq<nat>>, marks: set<int>) {
    Healthy(m, ht, fs, ch) && marks == MarkedAll({}, Regs(m, fs, ht, Flat(ch)))
  }

  /** Every chunk the marking accepts can hold its header. */
  ghost predicate Scannable(m: Bytes, ht: nat) {
    forall fs, ch, marks :: Found(m, ht, fs, ch, marks) ==> InPool(fs, |m|)
  }

  /** So it is if everything the list leads to is large enough. */
  lemma LargeScannable(m: Bytes, ht: nat, S: set<nat>)
    requires FreeReadable(m, S) && |m| < LIMIT
    requires forall a :: a in S && a + HEADER <= |m| ==> HEADER <= Word(m, a + 8) < LIMIT - a
    ensures Scannable(m, ht)
  {
    hide Word, Found, Linked, FreeReadable, Idle;
    forall fs: Chunks, ch, marks | Found(m, ht, fs, ch, marks)
      ensures InPool(fs, |m|)
    {
      assert Linked(m, fs) by { FoundLinked(m, ht, fs, ch, marks); }
      forall i | 0 <= i < |fs|
        ensures DESC <= fs[i].off && HEADER <= fs[i].size && fs[i].End() <= |m|
      {
        LinkedIn(m, S, fs, i);
        assert !Idle(fs[i]) by { Busy(fs[i]); }
        FoundPlaced(m, ht, fs, ch, marks, i);
      }
    }
  }

  lemma Busy(c: Chunk)
    requires 0 < c.size < LIMIT - c.off
    ensures !Idle(c)
  {
  }

  lemma {:induction false} LinkedIn(m: Bytes, S: set<nat>, fs: Chunks, i: nat)
    requires FreeReadable(m, S) && Linked(m, fs) && i < |fs|
    ensures fs[i].off in S && fs[i].off + HEADER <= |m| && Word(m, fs[i].off + 8) == fs[i].size
  {
    hide Word;
    if i > 0 { LinkedIn(m, S, fs, i - 1); }
  }

  lemma FoundFits(m: Bytes, ht: nat, fs: Chunks, ch: seq<seq<nat>>, marks: set<int>)
    requires Found(m, ht, fs, ch, marks)
    ensures 8 <= ht && ht + TABLE <= |m| && EntriesOk(m, Flat(ch)) && Marks(marks, Regs(m, fs, ht, Flat(ch)), |m|)
  {
    hide Word, Linked, EntryOk, Flat, Chain, AcceptsAll, MarkedAll;
  }

  lemma FoundLinked(m: Bytes, ht: nat, fs: Chunks, ch: seq<seq<nat>>, marks: set<int>)
    requires Found(m, ht, fs, ch, marks)
    ensures Linked(m, fs)
  {
    hide AcceptsAll, MarkedAll, Regs, EntriesOk, Chain, Flat;
  }

  lemma RegsStart(m: Bytes, fs: Chunks, ht: nat, es: seq<nat>)
    requires 8 <= ht <= |m| && EntriesOk(m, es)
    ensures var regs := Regs(m, fs, ht, es);
      |regs| > |fs| && regs[0] == DESCRIPTOR && forall i :: 0 <= i < |fs| ==> regs[i + 1] == fs[i]
  {
    hide Word, EntriesOk, Blocks;
  }

  /** An accepted chunk that is not idle lies behind the descriptor, in the pool. */
  lemma FoundPlaced(m: Bytes, ht: nat, fs: Chunks, ch: seq<seq<nat>>, marks: set<int>, i: nat)
    requires Found(m, ht, fs, ch, marks) && i < |fs| && !Idle(fs[i])
    ensures DESC <= fs[i].off && fs[i].End() <= |m|
  {
    hide Word, Found, Flat, EntriesOk, Regs, AcceptsAll, MarkedAll, Hidden;
    FoundFits(m, ht, fs, ch, marks);
    RegsStart(m, fs, ht, Flat(ch));
    var regs := Regs(m, fs, ht, Flat(ch));
    PassedAt(regs, |m|, i + 1);
    AcceptedPair(regs, |m|, 0, i + 1);
  }

  lemma FoundFreeable(m: Bytes, ht: nat, fs: Chunks, ch: seq<seq<nat>>, marks: set<int>)
    requires Found(m, ht, fs, ch, marks) && NoneIdle(fs)
    ensures Freeable(marks, fs)
  {
    hide Word, EntriesOk, Covers, Flat, Regs, Found, AcceptsAll, MarkedAll, Idle, Solid;
    FoundFits(m, ht, fs, ch, marks);
    RegsStart(m, fs, ht, Flat(ch));
    var regs := Regs(m, fs, ht, Flat(ch));
    MarksCover(marks, regs, |m|);
    assert !Idle(DESCRIPTOR) by { Busy(DESCRIPTOR); }
    forall b | 0 <= b < DESC ensures b in marks { SolidAt(regs, 0, b); }
    forall b | Covers(fs, b) ensures b in marks { var i := CoverIndex(fs, b); SolidAt(regs, i + 1, b); }
  }

  /** Accepted chunks that can hold a header are apart: only shorter ones can be hidden from a later check. */
  lemma FoundApart(m: Bytes, ht: nat, fs: Chunks, ch: seq<seq<nat>>, marks: set<int>)
    requires Found(m, ht, fs, ch, marks) && InPool(fs, |m|) && |m| < LIMIT
    ensures Apart(fs) && NoneIdle(fs)
  {
    hide Word, Found, Flat, EntriesOk, Regs, AcceptsAll, MarkedAll, Hidden, InPool, Idle;
    FoundFits(m, ht, fs, ch, marks);
    RegsStart(m, fs, ht, Flat(ch));
    var regs := Regs(m, fs, ht, Flat(ch));
    forall i | 0 <= i < |fs|
      ensures !Idle(fs[i])
    {
      InPoolAt(fs, |m|, i);
      Busy(fs[i]);
    }
    forall i, j | 0 <= i < j < |fs|
      ensures Clear(fs[i], fs[j])
    {
      InPoolAt(fs, |m|, i);
      assert !Idle(fs[i]) && !Idle(fs[j]) && regs[i + 1] == fs[i] && regs[j + 1] == fs[j];
      AcceptedPair(regs, |m|, i + 1, j + 1);
    }
  }

  /** A list in the pool that counts a chunk twice is never accepted: the two chunks
      share more bytes than the bitmap check can step over. */
  lemma TwiceRejected(m: Bytes, ht: nat, gs: Chunks, fs: Chunks, ch: seq<seq<nat>>, marks: set<int>)
    requires Linked(m, gs) && Twice(gs) && InPool(gs, |m|) && |m| < LIMIT
    ensures !Found(m, ht, fs, ch, marks)
  {
    hide Word, Linked, Found, Twice, InPool, Apart;
    if Found(m, ht, fs, ch, marks) {
      FoundLinked(m, ht, fs, ch, marks);
      LinkedUnique(m, fs, gs);
      FoundApart(m, ht, fs, ch, marks);
      TwiceNotApart(gs);
    }
  }

  lemma LinkedStores(m: Bytes, fs: Chunks)
    requires Linked(m, fs) && InPool(fs, |m|) && Apart(fs) && DESC <= |m| < LIMIT && Word(m, 8) == 0
    ensures Stores(m, fs)
  {
    ApartHeads(fs, |m|);
    hide Word, Apart, InPool;
  }

  /** `ht_check_memory`.  It is modelled up to the first run that is `short` of a
      chunk header and borders no free chunk; if there is none, and no crash, it
      gives back every run of the bitmap it accepted. */
  method CheckMemory(p: Pool, ht: nat, te: bool, ghost S: set<nat>, ghost E: set<nat>, ghost fs0: Chunks,
      ghost ch0: seq<seq<nat>>)
    returns (r: bool, crashed: bool, short: bool, ghost fs: Chunks, ghost ch: seq<seq<nat>>, ghost marks: set<int>,
      ghost gaps: Chunks, ghost at: Chunk)
    requires p.Sync() && FreeReadable(p.M, S) && TableClosed(p.M, ht, E) && EntriesClosed(p.M, E) && Ends(p.M, ht)
    requires Scannable(p.M, ht) && Word(p.M, 8) == 0
    modifies p`M, p`fs, p.mem
    ensures !r && !crashed && !short ==> p.Sync() && p.M == old(p.M) && p.fs == old(p.fs)
    ensures r || crashed || short ==> Found(old(p.M), ht, fs, ch, marks)
    ensures r || short ==> (short <==> !Roomy(marks, |old(p.M)|, fs))
    ensures r ==> !crashed && !short
    ensures r ==> Done(p, old(p.M), fs, marks, gaps) && Scanned(marks, |old(p.M)|, |old(p.M)| + 1, gaps)
    ensures crashed ==> te && !short && Broken(p, old(p.M), fs, marks, gaps, at)
    ensures short ==> exists m1 :: Choked(p, old(p.M), fs, marks, gaps, at, m1)
    ensures Healthy(old(p.M), ht, fs0, ch0) ==> (r || crashed || short) && fs == fs0 && ch == ch0
  {
    hide Word, PointerOk, EntriesClosed, Regs, FreeReadable, Linked, Flat, TableClosed, Healthy, Scannable, Scanned,
      Done, Broken, Choked, InPool, Apart, Freeable, Stores, Roomy, AcceptsAll, MarkedAll, Ends;
    r, crashed, short, gaps, at, marks := false, false, false, [], Chunk(0, 0), {};
    var u: UsageMap?;
    ClosedSize(p.M, S, ht, E);
    u, fs, ch := MarkReachable(p, ht, S, E, fs0, ch0);
    if u == null { return; }
    marks := u.marks;
    ScannableAt(p.M, ht, fs, ch, marks);
    p.fs := fs;
    ghost var m1;
    crashed, short, gaps, at, m1 := FindLeaks(p, u, te);
    r := !crashed && !short;
  }

  lemma ClosedSize(m: Bytes, S: set<nat>, ht: nat, E: set<nat>)
    requires FreeReadable(m, S) && TableClosed(m, ht, E)
    ensures DESC <= |m| && Word(m, TOTAL_SIZE) + DESC == |m| && 8 <= ht <= |m|
  {
  }

  lemma ScannableAt(m: Bytes, ht: nat, fs: Chunks, ch: seq<seq<nat>>, marks: set<int>)
    requires Scannable(m, ht) && Found(m, ht, fs, ch, marks) && Word(m, 8) == 0 && DESC <= |m| < LIMIT
    ensures InPool(fs, |m|) && Apart(fs) && Freeable(marks, fs) && Stores(m, fs)
  {
    hide Word, Found, Apart, InPool, Freeable, Stores, NoneIdle;
    assert InPool(fs, |m|);
    assert Linked(m, fs) by { FoundLinked(m, ht, fs, ch, marks); }
    FoundApart(m, ht, fs, ch, marks);
    LinkedStores(m, fs);
    FoundFreeable(m, ht, fs, ch, marks);
  }
}
