/** What acceptance by the checker means on arbitrary pool contents, and what
    it says about pools torn by a crash inside a free. */
module Verdicts {
  import opened Memory
  import opened FreeList
  import opened Links
  import opened Regions
  import opened Allocation
  import opened LeakScan
  import opened Acceptance
  import opened Marking
  import opened Tables
  import opened Health
  import opened Checking
  import opened TableSteps

  /** The blocks the table of an arbitrary pool reaches. */
  ghost function TableBlocks(m: Bytes, ht: nat, es: seq<nat>): Chunks
    requires 8 <= ht <= |m| && EntriesOk(m, es)
  {
    [Block(m, ht)] + Blocks(m, es)
  }

  lemma {:induction false} BlockOfEntry(m: Bytes, es: seq<nat>, i: nat)
    requires EntriesOk(m, es) && i < |es|
    ensures |Blocks(m, es)| == 3 * |es| && 8 <= es[i] <= |m| && Blocks(m, es)[3 * i] == Block(m, es[i])
  {
    hide Word, PointerOk;
    PointerOkDef(m, es[i]);
    var init := es[..|es| - 1];
    if i < |es| - 1 {
      BlockOfEntry(m, init, i);
    } else if |init| > 0 {
      BlockOfEntry(m, init, 0);
    }
  }

  /** In an accepted pool no entry whose block gets marked is reached twice. */
  lemma EntriesOnce(m: Bytes, ht: nat, fs: Chunks, ch: seq<seq<nat>>, marks: set<int>, i: nat, j: nat)
    requires Found(m, ht, fs, ch, marks) && i < j < |Flat(ch)|
    requires 8 <= Flat(ch)[i] <= |m| ==> !Idle(Block(m, Flat(ch)[i]))
    ensures Flat(ch)[i] != Flat(ch)[j]
  {
    hide Word, Marks, Linked, Chains, EntryOk, Flat, AcceptsAll, MarkedAll, Hidden;
    var es := Flat(ch);
    FoundFits(m, ht, fs, ch, marks);
    BlockOfEntry(m, es, i);
    BlockOfEntry(m, es, j);
    var regs := Regs(m, fs, ht, es);
    var base := |[DESCRIPTOR] + fs + [Block(m, ht)]|;
    assert regs[base + 3 * i] == Block(m, es[i]) && regs[base + 3 * j] == Block(m, es[j]);
    if es[i] == es[j] { AcceptedPair(regs, |m|, base + 3 * i, base + 3 * j); }
  }

  /** An accepted pool after its gaps were given back, as the check does: every byte is
      the descriptor's, free or reached, but those the scan stepped over, and none is
      two of these; the chunks are apart exactly if no give-back doubled the list
      head; and all regions were apart exactly if none was hidden from a later check,
      as none is that is eight bytes long. */
  lemma AcceptedTiles(m: Bytes, ht: nat, fs: Chunks, ch: seq<seq<nat>>, marks: set<int>, fs': Chunks, gaps: Chunks)
    requires Found(m, ht, fs, ch, marks) && Scannable(m, ht) && |m| < LIMIT
    requires GaveBack(fs, fs', gaps) && Shape(fs, fs', gaps, |m|) && Scanned(marks, |m|, |m| + 1, gaps)
    ensures 8 <= ht <= |m| && EntriesOk(m, Flat(ch)) && (Apart(fs') <==> NoDoubles(fs, gaps))
    ensures var table, regs := TableBlocks(m, ht, Flat(ch)), Regs(m, fs, ht, Flat(ch));
      && (forall b :: 0 <= b < |m| ==> (b < DESC || Solid(table, b) || Covers(fs', b) <==> !Late(marks, |m|, b)))
      && (forall b :: Solid(table, b) ==> b >= DESC && !Covers(fs', b))
      && (NoneIdle(table) ==> (Apart(regs) <==> forall i, j :: 0 <= i < j < |regs| ==> !Hidden(regs, i, j)))
      && (NoneIdle(table) && (forall i :: 0 <= i < |table| ==> table[i].size >= 8) ==> Apart(regs))
  {
    hide Word, Found, Flat, Covers, IsRun, Late, ReleaseAll, Apart, NoDoubles, Twice, InPool, NoTouch, Crisp, Solid,
      AcceptsAll, MarkedAll, Hidden, Idle, EntriesOk, Blocks, Regs, Scanned, Scannable;
    var es := Flat(ch);
    FoundFits(m, ht, fs, ch, marks);
    assert InPool(fs, |m|) by { ScannableIn(m, ht, fs, ch, marks); }
    FoundApart(m, ht, fs, ch, marks);
    var table, regs := TableBlocks(m, ht, es), Regs(m, fs, ht, es);
    assert regs == [DESCRIPTOR] + fs + table by { RegsAre(m, fs, ht, es); }
    forall b
      ensures b in marks <==> 0 <= b < DESC || Covers(fs, b) || Solid(table, b)
      ensures Solid(table, b) ==> b >= DESC && !Covers(fs, b)
    {
      MarkedParts(marks, fs, table, |m|, b);
    }
    ScannedRuns(marks, |m|, |m| + 1, gaps);
    forall b | 0 <= b < |m|
      ensures b < DESC || Solid(table, b) || Covers(fs', b) <==> !Late(marks, |m|, b)
    {
      LateAligned(marks, |m|, b);
      ScannedByte(marks, |m|, gaps, b);
    }
    forall b ensures Solid(table, b) ==> !Covers(gaps, b) { RunsUnmarked(marks, |m|, gaps, b); }
    if NoneIdle(table) {
      AllBusy(fs, table);
      AcceptedApart(regs, |m|);
      if forall i :: 0 <= i < |table| ==> table[i].size >= 8 { AllWide(fs, table, |m|); WideApart(regs, |m|); }
    }
  }

  lemma StoresSize(m: Bytes, fs: Chunks)
    requires Stores(m, fs)
    ensures DESC <= |m| < LIMIT
  {
  }

  lemma ScannableIn(m: Bytes, ht: nat, fs: Chunks, ch: seq<seq<nat>>, marks: set<int>)
    requires Scannable(m, ht) && Found(m, ht, fs, ch, marks)
    ensures InPool(fs, |m|)
  {
    hide Found, InPool;
  }

  lemma RegsAre(m: Bytes, fs: Chunks, ht: nat, es: seq<nat>)
    requires 8 <= ht <= |m| && EntriesOk(m, es)
    ensures Regs(m, fs, ht, es) == [DESCRIPTOR] + fs + TableBlocks(m, ht, es)
  {
    hide Word, EntriesOk;
  }

  lemma ScannedByte(marks: set<int>, n: nat, gaps: Chunks, b: int)
    requires Scanned(marks, n, n + 1, gaps) && 0 <= b < n
    ensures b !in marks && !Late(marks, n, b) <==> Covers(gaps, b)
  {
    hide Covers, IsRun, Late;
    assert Wanted(marks, n, b) <==> Covers(gaps, b);
  }

  lemma AllBusy(fs: Chunks, table: Chunks)
    requires NoneIdle(fs) && NoneIdle(table)
    ensures NoneIdle([DESCRIPTOR] + fs + table)
  {
    hide Idle;
    assert !Idle(DESCRIPTOR) by { Busy(DESCRIPTOR); }
  }

  lemma AllWide(fs: Chunks, table: Chunks, n: nat)
    requires InPool(fs, n) && forall i :: 0 <= i < |table| ==> table[i].size >= 8
    ensures var regs := [DESCRIPTOR] + fs + table; forall i :: 0 <= i < |regs| ==> regs[i].size >= 8
  {
  }

  lemma {:induction false} SolidJoin(a: Chunks, b: Chunks, x: int)
    ensures Solid(a + b, x) <==> Solid(a, x) || Solid(b, x)
  {
    hide Idle;
    var r := a + b;
    if Solid(a, x) {
      var i :| 0 <= i < |a| && !Idle(a[i]) && a[i].off <= x < a[i].End();
      assert r[i] == a[i];
    }
    if Solid(b, x) {
      var i :| 0 <= i < |b| && !Idle(b[i]) && b[i].off <= x < b[i].End();
      assert r[|a| + i] == b[i];
    }
  }

  /** A marked byte is the descriptor's, free or reached; a reached one is neither
      of the others, because descriptor and chunks are too long to be hidden. */
  lemma MarkedParts(marks: set<int>, fs: Chunks, table: Chunks, n: nat, b: int)
    requires Marks(marks, [DESCRIPTOR] + fs + table, n) && InPool(fs, n) && NoneIdle(fs)
    ensures b in marks <==> 0 <= b < DESC || Covers(fs, b) || Solid(table, b)
    ensures Solid(table, b) ==> b >= DESC && !Covers(fs, b)
  {
    hide AcceptsAll, MarkedAll, Idle, Hidden, InPool;
    var front := [DESCRIPTOR] + fs;
    var regs := front + table;
    MarksCover(marks, regs, n);
    SolidJoin(front, table, b);
    SolidJoin([DESCRIPTOR], fs, b);
    assert !Idle(DESCRIPTOR) by { Busy(DESCRIPTOR); }
    assert [DESCRIPTOR][0] == DESCRIPTOR;
    assert Solid(fs, b) <==> Covers(fs, b);
    if Solid(table, b) {
      var j :| 0 <= j < |table| && !Idle(table[j]) && table[j].off <= b < table[j].End();
      forall i | 0 <= i < |front|
        ensures !(front[i].off <= b < front[i].End())
      {
        if i > 0 { InPoolAt(fs, n, i - 1); }
        assert regs[i] == front[i] && regs[|front| + j] == table[j];
        AcceptedPair(regs, n, i, |front| + j);
      }
      assert front[0] == DESCRIPTOR && forall i :: 0 <= i < |fs| ==> front[i + 1] == fs[i];
    }
  }

  /* ---- Torn pools ---- */

  /** After a crash inside a free the checker's marking accepts the pool unless a
      chunk is counted twice, and then it never does. */
  lemma TornVerdict(st: State, cmp: Matching, ht: nat, chains: seq<seq<Node>>, fs: Chunks, fs0: Chunks, a: nat, n: nat)
    requires TornAt(st.m, st.live, fs, fs0, a, n) && TableOk(st, cmp, ht, chains) && Sound(cmp)
    requires Full(FlatNodes(chains))
    ensures !CountedTwice(fs0, a, n, fs) ==> Healthy(st.m, ht, fs, Vas(chains))
    ensures CountedTwice(fs0, a, n, fs) ==> forall fs', ch, marks :: !Found(st.m, ht, fs', ch, marks)
  {
    hide Word, TableOk, Sound, FlatNodes, Healthy, Found, ReleaseCrash, Stores, Separate, InPool, Apart, Outside,
      CountedTwice, Twice;
    CrashInsideFree(fs0, a, n, fs, |st.m|);
    TornLeaksOnly(st.m, st.live, fs, fs0, a, n);
    StoresLinked(st.m, fs);
    assert |st.m| < LIMIT by { StoresSize(st.m, fs); }
    if CountedTwice(fs0, a, n, fs) {
      forall fs', ch, marks ensures !Found(st.m, ht, fs', ch, marks) {
        TwiceRejected(st.m, ht, fs, fs', ch, marks);
      }
    } else {
      PoolHealthy(st, fs, cmp, ht, chains);
    }
  }
}
