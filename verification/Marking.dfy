/** Marking everything that is free or reachable: `lmc_um_new_mem_usage_bitmap`,
    `lmc_um_mark_allocated` and the marking loops of `ht_check_memory`, on
    arbitrary pool contents. */
module Marking {
  import opened Memory
  import opened FreeList
  import opened Links
  import opened Pools
  import opened UsageMaps
  import opened Acceptance
  import opened Endless

  const BUCKETS: nat := 20731  // LMC_HT_BUCKETS
  const ENTRY: nat := 24       // sizeof(ht_hash_entry_t)
  const TABLE: nat := 165856   // sizeof(ht_hash_t): the size word and the bucket heads

  /* ---- One region ---- */

  const DESCRIPTOR: Chunk := Chunk(0, DESC)

  /** Everything from the descriptor on that was marked so far. */
  ghost predicate Begun(marks: set<int>, regs: Chunks, n: nat) {
    |regs| > 0 && regs[0] == DESCRIPTOR && Marks(marks, regs, n) && DESC <= n < LIMIT
  }

  /** The check of a region at `va` reads only the bitmap: `lmc_um_mark` checks the range
      of a region behind the descriptor, one in the descriptor starts with a marked
      bit, and one right after it must end in the pool. */
  ghost predicate InBitmap(va: nat, size: nat, n: nat) {
    && (va < DESC ==> va / 8 + 8 <= n / 8)
    && (va == DESC && va + size < LIMIT ==> va + size <= n)
  }

  lemma BegunBits(marks: set<int>, regs: Chunks, n: nat)
    requires Begun(marks, regs, n)
    ensures forall b :: 0 <= b < DESC ==> b in marks
  {
    hide AcceptsAll, MarkedAll;
    MarksCover(marks, regs, n);
    forall b | 0 <= b < DESC ensures b in marks { SolidAt(regs, 0, b); }
  }

  /** Marking one more region. */
  method MarkRegion(u: UsageMap, va: nat, size: nat, ghost regs: Chunks) returns (r: bool)
    requires u.Valid() && Begun(u.marks, regs, u.n) && va < LIMIT && size < LIMIT && InBitmap(va, size, u.n)
    modifies u`marks, u.bytes
    ensures u.Valid() && (r <==> AcceptsAll({}, u.n, regs + [Chunk(va, size)]))
    ensures r ==> Begun(u.marks, regs + [Chunk(va, size)], u.n)
  {
    hide Marks, AcceptsAll, MarkedAll, Accepts, MarkedBy;
    ghost var before := u.marks;
    BegunBits(before, regs, u.n);
    MarksMore(before, regs, u.n, Chunk(va, size));
    r := u.Mark(va, size);
  }

  /* ---- The free list ---- */

  /** Offsets at which the free list may go on, closed under `next`, with headers in the pool. */
  ghost predicate FreeReadable(m: Bytes, S: set<nat>) {
    && DESC <= |m| && Word(m, TOTAL_SIZE) + DESC == |m|
    && (Word(m, 0) == 0 || Word(m, 0) in S)
    && forall a :: a in S ==>
         && 0 < a && a + HEADER <= |m| && InBitmap(a, Word(m, a + 8), |m|)
         && (Word(m, a) == 0 || Word(m, a) in S)
  }

  /** Moreover all sizes are positive and no end wraps around. */
  ghost predicate FreeClosed(m: Bytes, S: set<nat>) {
    FreeReadable(m, S) && forall a :: a in S && a + HEADER <= |m| ==> !Idle(Chunk(a, Word(m, a + 8)))
  }

  /** The loop over the free list. */
  ghost function FreeLoop(m: Bytes): Loop {
    Loop(|m|, (va: nat) => if va + HEADER <= |m| then [Chunk(va, Word(m, va + 8))] else [],
      (va: nat) => if va + HEADER <= |m| then Word(m, va) else 0)
  }

  ghost function FreeStart(m: Bytes): Turn
    requires DESC <= |m|
  {
    Turn(Bits(0, DESC), Word(m, 0))
  }

  /** The bitmap is built forever exactly if the list has a cycle of chunks of which none is marked. */
  lemma FreeListEndless(m: Bytes)
    requires DESC <= |m| < LIMIT
    ensures Forever(FreeLoop(m), FreeStart(m)) <==> exists i, j :: IdleCycle(FreeLoop(m), FreeStart(m), i, j)
  {
    hide Word, Forever, IdleCycle;
    DescriptorBits(|m|);
    ForeverIffIdleCycle(FreeLoop(m), FreeStart(m));
  }

  lemma DescriptorBits(n: nat)
    requires DESC <= n
    ensures Bits(0, DESC) <= Bits(0, n)
  {
    forall b | b in Bits(0, DESC) ensures b in Bits(0, n) { assert Within(b, 0, n); }
  }

  /** One such chunk: its size word is 2^64 - 1 and it is its own successor. */
  lemma EndlessExample(m: Bytes)
    requires 1016 <= |m| < LIMIT && Word(m, 0) == 1000 && Word(m, 1000) == 1000 && Word(m, 1008) == LIMIT - 1
    ensures Forever(FreeLoop(m), FreeStart(m))
  {
    hide Word, Bits;
    var l, t := FreeLoop(m), FreeStart(m);
    var c := Chunk(1000, LIMIT - 1);
    assert l.regs(1000) == [c] && [c][1..] == [];
    assert Idle(c) && AcceptsAll(t.marks, |m|, [c]);
    IdleKeeps(t.marks, [c]);
    assert Next(l, t) == t;
    assert After(l, t, 1) == Next(l, After(l, t, 0));
    assert IdleCycle(l, t, 0, 1);
    FreeListEndless(m);
  }

  /** Where every chunk is marked the loop ends. */
  lemma ClosedEnds(m: Bytes, S: set<nat>)
    requires FreeClosed(m, S) && |m| < LIMIT
    ensures !Forever(FreeLoop(m), FreeStart(m))
  {
    hide Word, Forever, Next, After;
    var l, t := FreeLoop(m), FreeStart(m);
    FreeListEndless(m);
    if i, j :| IdleCycle(l, t, i, j) {
      StillRunning(l, t, i, j);
      NodesInS(m, S, i);
      NotIdle(m, S, After(l, t, i).va);
    }
  }

  lemma NotIdle(m: Bytes, S: set<nat>, a: nat)
    requires FreeClosed(m, S) && a in S
    ensures !AllIdle(FreeLoop(m).regs(a))
  {
    hide Word;
    assert FreeLoop(m).regs(a) == [Chunk(a, Word(m, a + 8))];
    assert !Idle(FreeLoop(m).regs(a)[0]);
  }

  lemma {:induction false} NodesInS(m: Bytes, S: set<nat>, k: nat)
    requires FreeReadable(m, S) && After(FreeLoop(m), FreeStart(m), k).Turn?
    ensures After(FreeLoop(m), FreeStart(m), k).va == 0 || After(FreeLoop(m), FreeStart(m), k).va in S
  {
    hide Word, Bits;
    if k > 0 { NodesInS(m, S, k - 1); }
  }

  /** `lmc_um_new_mem_usage_bitmap`, on any list whose loop ends: it succeeds if and
      only if it accepts the descriptor and the chunks of the list one after the
      other, and then exactly those are marked. */
  method NewUsageMap(p: Pool, ghost S: set<nat>, ghost fs0: Chunks) returns (u: UsageMap?, ghost v: Chunks)
    requires p.Sync() && FreeReadable(p.M, S) && !Forever(FreeLoop(p.M), FreeStart(p.M))
    ensures u != null ==> fresh(u) && fresh(u.bytes) && u.Valid() && u.n == |p.M|
    ensures u != null ==> Linked(p.M, v) && Begun(u.marks, [DESCRIPTOR] + v, |p.M|)
    ensures Linked(p.M, fs0) && AcceptsAll({}, |p.M|, [DESCRIPTOR] + fs0) ==> u != null && v == fs0
  {
    hide Word, Begun, LinkedPrefix, Linked, FreeReadable, NextVa, Forever, AcceptsAll, MarkedAll, Accepts, MarkedBy,
      Passes, OnPath, Bits, After, Next, InBitmap;
    ghost var m, n := p.M, |p.M|;
    ghost var l, t := FreeLoop(m), FreeStart(m);
    ghost var wf := Linked(m, fs0) && AcceptsAll({}, n, [DESCRIPTOR] + fs0);
    ghost var last: nat := RunsOut(l, t);
    ghost var k := 0;
    v := [];
    ReadableStart(m, S);
    u := new UsageMap(p.Load(TOTAL_SIZE) + DESC);
    var va := p.Load(FIRST_FREE);
    var ok := u.Mark(0, DESC);
    DescriptorAccepted(n);
    assert [DESCRIPTOR] + v == [DESCRIPTOR];
    while va != 0
      invariant fresh(u) && fresh(u.bytes) && u.Valid() && u.n == n
      invariant OnPath(m, S, v, va) && Begun(u.marks, [DESCRIPTOR] + v, n)
      invariant After(l, t, k) == Turn(u.marks, va)
      invariant wf ==> IsPrefix(v, fs0)
      modifies u`marks, u.bytes
      decreases last - k
    {
      PathStep(m, S, k, u.marks, v, va);
      StillBefore(l, t, k, last);
      var size := p.Load(va + 8);
      ghost var c := Chunk(va, size);
      assert [DESCRIPTOR] + v + [c] == [DESCRIPTOR] + (v + [c]);
      if wf { PrefixGoesOn(m, v, fs0, va); PrefixAccepted([DESCRIPTOR], v + [c], fs0, n); }
      ok := MarkRegion(u, va, size, [DESCRIPTOR] + v);
      if !ok { return null, v; }
      MarkedIs(u.marks, [DESCRIPTOR] + (v + [c]), n);
      v := v + [c];
      va := p.Load(va);
      k := k + 1;
    }
    PathEnds(m, S, v);
    if wf { PrefixEnds(m, v, fs0); }
  }

  /** A list it accepts although its chunks overlap. */
  lemma OverlapExample(m: Bytes)
    requires 297 <= |m| < LIMIT && Word(m, 0) == 160 && Word(m, 160) == 97 && Word(m, 168) == 1
    requires Word(m, 97) == 0 && Word(m, 105) == 200
    ensures var fs := [Chunk(160, 1), Chunk(97, 200)];
      Linked(m, fs) && AcceptsAll({}, |m|, [DESCRIPTOR] + fs) && !Apart(fs)
  {
    hide Word, AcceptsAll;
    var fs := [Chunk(160, 1), Chunk(97, 200)];
    HiddenExample(|m|);
    assert [DESCRIPTOR] + fs == [Chunk(0, DESC), Chunk(160, 1), Chunk(97, 200)];
    assert !Clear(fs[0], fs[1]);
  }

  lemma MarkedIs(marks: set<int>, regs: Chunks, n: nat)
    requires Begun(marks, regs, n)
    ensures AcceptsAll({}, n, regs) && marks == MarkedAll({}, regs)
  {
    hide AcceptsAll, MarkedAll;
  }

  lemma RunsOut(l: Loop, t: Turn) returns (last: nat)
    requires !Forever(l, t)
    ensures After(l, t, last).Out?
  {
    last :| After(l, t, last).Out?;
  }

  lemma StillBefore(l: Loop, t: Turn, k: nat, last: nat)
    requires After(l, t, k).Turn? && After(l, t, last).Out?
    ensures k < last
  {
    hide After;
    if last <= k { StillRunning(l, t, last, k); }
  }

  lemma DescriptorAccepted(n: nat)
    requires DESC <= n < LIMIT
    ensures Accepts({}, n, 0, DESC) && MarkedBy({}, 0, DESC) == Bits(0, DESC)
    ensures Begun(Bits(0, DESC), [DESCRIPTOR], n)
  {
    hide Bits;
    MarksNone(n);
    MarksMore({}, [], n, DESCRIPTOR);
    assert Accepts({}, n, 0, DESC) by { UnmarkedPasses({}, 0, DESC); }
    assert {} + Bits(0, DESC) == Bits(0, DESC);
    assert [] + [DESCRIPTOR] == [DESCRIPTOR];
  }

  /** The loop has passed the chunks `v` and goes on at `va`. */
  ghost predicate OnPath(m: Bytes, S: set<nat>, v: Chunks, va: nat) {
    FreeReadable(m, S) && LinkedPrefix(m, v) && va == NextVa(m, v) && (va == 0 || va in S)
  }

  lemma ReadableStart(m: Bytes, S: set<nat>)
    requires FreeReadable(m, S)
    ensures DESC <= |m| && Word(m, TOTAL_SIZE) + DESC == |m| && OnPath(m, S, [], Word(m, 0))
    ensures After(FreeLoop(m), FreeStart(m), 0) == Turn(Bits(0, DESC), Word(m, 0))
  {
    hide Word, Bits;
  }

  lemma PathStep(m: Bytes, S: set<nat>, k: nat, marks: set<int>, v: Chunks, va: nat)
    requires OnPath(m, S, v, va) && va != 0 && Begun(marks, [DESCRIPTOR] + v, |m|)
    requires After(FreeLoop(m), FreeStart(m), k) == Turn(marks, va)
    ensures va + HEADER <= |m| && InBitmap(va, Word(m, va + 8), |m|) && LinkedPrefix(m, v) && va == NextVa(m, v)
    ensures var c := Chunk(va, Word(m, va + 8));
      && OnPath(m, S, v + [c], Word(m, va))
      && (AcceptsAll({}, |m|, [DESCRIPTOR] + (v + [c])) ==>
            After(FreeLoop(m), FreeStart(m), k + 1) == Turn(MarkedAll({}, [DESCRIPTOR] + (v + [c])), Word(m, va)))
  {
    hide Word, AcceptsAll, MarkedAll, Bits, InBitmap;
    var c := Chunk(va, Word(m, va + 8));
    PrefixStep(m, v);
    assert [DESCRIPTOR] + (v + [c]) == [DESCRIPTOR] + v + [c];
    Joined({}, |m|, [DESCRIPTOR] + v, [c]);
    assert FreeLoop(m).regs(va) == [c];
  }

  lemma PathEnds(m: Bytes, S: set<nat>, v: Chunks)
    requires OnPath(m, S, v, 0)
    ensures Linked(m, v)
  {
    hide Word;
  }

  ghost predicate IsPrefix(v: Chunks, fs: Chunks) {
    |v| <= |fs| && v == fs[..|v|]
  }

  lemma PrefixGoesOn(m: Bytes, v: Chunks, fs: Chunks, va: nat)
    requires LinkedPrefix(m, v) && Linked(m, fs) && IsPrefix(v, fs) && va != 0 && va == NextVa(m, v)
    ensures va + HEADER <= |m| && IsPrefix(v + [Chunk(va, Word(m, va + 8))], fs)
  {
    PrefixNext(m, v, fs);
  }

  lemma PrefixEnds(m: Bytes, v: Chunks, fs: Chunks)
    requires Linked(m, v) && Linked(m, fs) && IsPrefix(v, fs)
    ensures v == fs
  {
    PrefixNext(m, v, fs);
  }

  lemma PrefixAccepted(d: Chunks, v: Chunks, fs: Chunks, n: nat)
    requires AcceptsAll({}, n, d + fs) && IsPrefix(v, fs)
    ensures AcceptsAll({}, n, d + v)
  {
    hide AcceptsAll;
    assert d + fs == d + v + fs[|v|..];
    AcceptedPrefix(d + v, fs[|v|..], n);
  }

  /* ---- The hash table's blocks ---- */

  /** A pointer to a block whose size word is in the pool. */
  ghost predicate PointerOk(m: Bytes, p: nat) {
    8 <= p <= |m| && InBitmap(p - 8, Word(m, p - 8), |m|)
  }

  /** The region of the block with payload `p`. */
  function Block(m: Bytes, p: nat): Chunk
    requires 8 <= p <= |m|
  {
    Chunk(p - 8, Word(m, p - 8))
  }

  ghost predicate EntryOk(m: Bytes, e: nat) {
    PointerOk(m, e) && e + ENTRY <= |m| && PointerOk(m, Word(m, e + 8)) && PointerOk(m, Word(m, e + 16))
  }

  ghost predicate EntriesOk(m: Bytes, es: seq<nat>) {
    forall i :: 0 <= i < |es| ==> EntryOk(m, es[i])
  }

  /** An entry's own block, its key's and its value's. */
  ghost function EntryBlocks(m: Bytes, e: nat): Chunks
    requires EntryOk(m, e)
  {
    [Block(m, e), Block(m, Word(m, e + 8)), Block(m, Word(m, e + 16))]
  }

  ghost function Blocks(m: Bytes, es: seq<nat>): Chunks
    requires EntriesOk(m, es)
  {
    if es == [] then [] else Blocks(m, es[..|es| - 1]) + EntryBlocks(m, es[|es| - 1])
  }

  /** Following `va_next` from `head` passes exactly the entries `es`. */
  ghost predicate ChainPrefix(m: Bytes, head: nat, es: seq<nat>) {
    && EntriesOk(m, es)
    && (|es| > 0 ==> es[0] == head)
    && forall i, j :: 0 <= i < j < |es| && j == i + 1 ==> Word(m, es[i]) == es[j]
  }

  function NextEntry(m: Bytes, head: nat, es: seq<nat>): nat
    requires |es| > 0 ==> es[|es| - 1] + ENTRY <= |m|
  {
    if es == [] then head else Word(m, es[|es| - 1])
  }

  ghost predicate Chain(m: Bytes, head: nat, es: seq<nat>) {
    ChainPrefix(m, head, es) && NextEntry(m, head, es) == 0
  }

  /** Entries at which chains may start or go on, closed under `va_next`. */
  ghost predicate EntriesClosed(m: Bytes, E: set<nat>) {
    forall e :: e in E ==> EntryOk(m, e) && (Word(m, e) == 0 || Word(m, e) in E)
  }

  function Head(m: Bytes, ht: nat, k: nat): nat
    requires ht + TABLE <= |m| && k < BUCKETS
  {
    Word(m, ht + 8 + 8 * k)
  }

  ghost predicate TableClosed(m: Bytes, ht: nat, E: set<nat>) {
    && PointerOk(m, ht) && ht + TABLE <= |m|
    && forall k :: 0 <= k < BUCKETS ==> Head(m, ht, k) == 0 || Head(m, ht, k) in E
  }

  /** The chains of the first |ch| buckets. */
  ghost predicate Chains(m: Bytes, ht: nat, ch: seq<seq<nat>>) {
    ht + TABLE <= |m| && |ch| <= BUCKETS && forall k :: 0 <= k < |ch| ==> Chain(m, Head(m, ht, k), ch[k])
  }

  /** All entries, in bucket-then-chain order. */
  ghost function Flat(ch: seq<seq<nat>>): seq<nat> {
    if ch == [] then [] else Flat(ch[..|ch| - 1]) + ch[|ch| - 1]
  }

  /** Everything `ht_check_memory` marks, in its order. */
  ghost function Regs(m: Bytes, fs: Chunks, ht: nat, es: seq<nat>): Chunks
    requires 8 <= ht <= |m| && EntriesOk(m, es)
  {
    [DESCRIPTOR] + fs + [Block(m, ht)] + Blocks(m, es)
  }

  lemma EntriesOkAppend(m: Bytes, a: seq<nat>, b: seq<nat>)
    ensures EntriesOk(m, a + b) <==> EntriesOk(m, a) && EntriesOk(m, b)
  {
    hide EntryOk;
    if EntriesOk(m, a + b) {
      forall i | 0 <= i < |a| ensures EntryOk(m, a[i]) { assert (a + b)[i] == a[i]; }
      forall i | 0 <= i < |b| ensures EntryOk(m, b[i]) { assert (a + b)[|a| + i] == b[i]; }
    }
  }

  lemma {:induction false} BlocksAppend(m: Bytes, a: seq<nat>, b: seq<nat>)
    requires EntriesOk(m, a) && EntriesOk(m, b)
    ensures EntriesOk(m, a + b) && Blocks(m, a + b) == Blocks(m, a) + Blocks(m, b)
  {
    hide EntryOk, EntryBlocks, EntriesOk, Blocks;
    EntriesOkAppend(m, a, b);
    if b == [] {
      assert a + b == a;
      NoBlocks(m, []);
    } else {
      var c, e := b[..|b| - 1], b[|b| - 1];
      assert b == c + [e];
      assert a + b == a + c + [e];
      EntriesOkAppend(m, c, [e]);
      EntriesOkAppend(m, a, c);
      OneOk(m, e);
      BlocksAppend(m, a, c);
      BlocksOne(m, c, e);
      BlocksOne(m, a + c, e);
    }
  }

  lemma OneOk(m: Bytes, e: nat)
    ensures EntriesOk(m, [e]) <==> EntryOk(m, e)
  {
    if EntriesOk(m, [e]) { assert EntryOk(m, [e][0]); }
  }

  lemma BlocksOne(m: Bytes, a: seq<nat>, e: nat)
    requires EntriesOk(m, a) && EntryOk(m, e)
    ensures EntriesOk(m, a + [e]) && Blocks(m, a + [e]) == Blocks(m, a) + EntryBlocks(m, e)
  {
    assert (a + [e])[..|a|] == a;
  }

  /** `lmc_um_mark_allocated`. */
  method MarkAllocated(p: Pool, u: UsageMap, va: nat, ghost regs: Chunks) returns (r: bool)
    requires p.Sync() && PointerOk(p.M, va) && u.n == |p.M| && u.Valid() && Begun(u.marks, regs, u.n)
    modifies u`marks, u.bytes
    ensures u.Valid() && (r <==> AcceptsAll({}, u.n, regs + [Block(p.M, va)]))
    ensures r ==> Begun(u.marks, regs + [Block(p.M, va)], u.n)
  {
    hide Word, Begun, AcceptsAll, InBitmap;
    var realVa := va - 8;
    var s := p.Load(realVa);
    r := MarkRegion(u, realVa, s, regs);
  }

  /** The three marks of one entry. */
  method MarkEntry(p: Pool, u: UsageMap, e: nat, ghost regs: Chunks) returns (r: bool)
    requires p.Sync() && EntryOk(p.M, e) && u.n == |p.M| && u.Valid() && Begun(u.marks, regs, u.n)
    modifies u`marks, u.bytes
    ensures u.Valid() && (r <==> AcceptsAll({}, u.n, regs + EntryBlocks(p.M, e)))
    ensures r ==> Begun(u.marks, regs + EntryBlocks(p.M, e), u.n)
  {
    hide Word, Begun, PointerOk, AcceptsAll;
    ghost var m, n := p.M, u.n;
    PointerOkDef(m, e);
    PointerOkDef(m, Word(m, e + 8));
    PointerOkDef(m, Word(m, e + 16));
    ghost var a, k, v := Block(m, e), Block(m, Word(m, e + 8)), Block(m, Word(m, e + 16));
    ThreeAccepted(regs, a, k, v, n);
    assert EntryBlocks(m, e) == [a, k, v];
    r := MarkAllocated(p, u, e, regs);
    if !r { return; }
    r := MarkAllocated(p, u, p.Load(e + 8), regs + [a]);
    if !r { return; }
    r := MarkAllocated(p, u, p.Load(e + 16), regs + [a] + [k]);
  }

  lemma ThreeAccepted(regs: Chunks, a: Chunk, k: Chunk, v: Chunk, n: nat)
    ensures regs + [a, k, v] == regs + [a] + [k] + [v]
    ensures AcceptsAll({}, n, regs + [a, k, v]) ==> AcceptsAll({}, n, regs + [a]) && AcceptsAll({}, n, regs + [a] + [k])
  {
    hide AcceptsAll;
    assert regs + [a, k, v] == regs + [a] + [k] + [v];
    if AcceptsAll({}, n, regs + [a, k, v]) {
      AcceptedPrefix(regs + [a] + [k], [v], n);
      AcceptedPrefix(regs + [a], [k], n);
    }
  }

  lemma PointerOkDef(m: Bytes, p: nat)
    requires PointerOk(m, p)
    ensures 8 <= p <= |m|
  {
  }

  /** The walk along a chain has passed `c` and goes on at `va`. */
  ghost predicate OnChain(m: Bytes, E: set<nat>, head: nat, c: seq<nat>, va: nat) {
    EntriesClosed(m, E) && ChainPrefix(m, head, c) && va == NextEntry(m, head, c) && (va == 0 || va in E)
  }

  lemma ChainStart(m: Bytes, E: set<nat>, head: nat)
    requires EntriesClosed(m, E) && (head == 0 || head in E)
    ensures OnChain(m, E, head, [], head)
  {
  }

  lemma ChainStep(m: Bytes, E: set<nat>, head: nat, c: seq<nat>, va: nat)
    requires OnChain(m, E, head, c, va) && va != 0
    ensures EntryOk(m, va) && OnChain(m, E, head, c + [va], Word(m, va))
  {
    hide Word, EntryOk, ChainPrefix, EntriesOk;
    assert EntryOk(m, va);
    assert |c| > 0 ==> c[|c| - 1] + ENTRY <= |m| by { PrefixFits(m, head, c); }
    assert va + ENTRY <= |m| by { EntryFits(m, va); }
    ChainPush(m, head, c, va);
  }

  lemma PrefixFits(m: Bytes, head: nat, c: seq<nat>)
    requires ChainPrefix(m, head, c)
    ensures forall i :: 0 <= i < |c| ==> c[i] + ENTRY <= |m|
  {
    EntriesFit(m, c);
  }

  lemma EntryFits(m: Bytes, e: nat)
    requires EntryOk(m, e)
    ensures e + ENTRY <= |m| && e != 0
  {
  }

  lemma ChainPush(m: Bytes, head: nat, c: seq<nat>, va: nat)
    requires ChainPrefix(m, head, c) && EntryOk(m, va)
    requires |c| > 0 ==> c[|c| - 1] + ENTRY <= |m|
    requires va == NextEntry(m, head, c)
    ensures ChainPrefix(m, head, c + [va])
  {
    hide Word, EntryOk, EntriesOk;
    var r := c + [va];
    assert r[|c|] == va && forall i :: 0 <= i < |c| ==> r[i] == c[i];
    EntriesOkAppend(m, c, [va]);
    OneOk(m, va);
    forall i, j | 0 <= i < j < |r| && j == i + 1
      ensures r[i] + ENTRY <= |m| && Word(m, r[i]) == r[j]
    {
      EntriesFit(m, c);
      if j < |c| { assert r[i] == c[i] && r[j] == c[j]; }
    }
  }

  lemma EntriesFit(m: Bytes, es: seq<nat>)
    requires EntriesOk(m, es)
    ensures forall i :: 0 <= i < |es| ==> es[i] + ENTRY <= |m|
  {
    hide PointerOk;
  }

  lemma ChainEnds(m: Bytes, E: set<nat>, head: nat, c: seq<nat>)
    requires OnChain(m, E, head, c, 0)
    ensures Chain(m, head, c)
  {
  }

  ghost predicate IsPrefixOf(v: seq<nat>, es: seq<nat>) {
    |v| <= |es| && v == es[..|v|]
  }

  /** A walk along a chain sees a prefix of it. */
  lemma ChainGoesOn(m: Bytes, head: nat, v: seq<nat>, c: seq<nat>, va: nat)
    requires ChainPrefix(m, head, v) && va == NextEntry(m, head, v) && Chain(m, head, c) && IsPrefixOf(v, c)
    ensures va != 0 ==> IsPrefixOf(v + [va], c)
    ensures va == 0 ==> v == c
  {
    hide Word, PointerOk;
    assert forall i :: 0 <= i < |c| ==> c[i] != 0 by {
      forall i | 0 <= i < |c| ensures c[i] != 0 { assert EntryOk(m, c[i]); PointerOkDef(m, c[i]); }
    }
    if |v| > 0 { assert v[|v| - 1] == c[|v| - 1]; }
    if |v| < |c| {
      assert va == c[|v|];
    }
  }

  /** The loop over the chain of one bucket, wherever its pointers lead. */
  ghost function ChainLoop(m: Bytes): Loop {
    Loop(|m|, (e: nat) =>
        if e + ENTRY <= |m| && 8 <= e && 8 <= Word(m, e + 8) <= |m| && 8 <= Word(m, e + 16) <= |m| then
          [Block(m, e), Block(m, Word(m, e + 8)), Block(m, Word(m, e + 16))]
        else [],
      (e: nat) => if e + ENTRY <= |m| then Word(m, e) else 0)
  }

  /** It runs forever exactly if the chain has a cycle of entries of which no block is marked. */
  lemma ChainEndless(m: Bytes, head: nat, marks: set<int>)
    requires head < LIMIT && marks <= Bits(0, |m|)
    ensures var l, t := ChainLoop(m), Turn(marks, head);
      Forever(l, t) <==> exists i, j :: IdleCycle(l, t, i, j)
  {
    hide Word, Forever, IdleCycle, Bits, Block;
    ForeverIffIdleCycle(ChainLoop(m), Turn(marks, head));
  }

  /** Where no entry block is idle, as in `E`, the loop ends. */
  lemma ChainEnding(m: Bytes, E: set<nat>, head: nat, marks: set<int>)
    requires EntriesClosed(m, E) && (head == 0 || head in E) && marks <= Bits(0, |m|) && head < LIMIT
    requires forall e :: e in E && 8 <= e <= |m| ==> !Idle(Block(m, e))
    ensures !Forever(ChainLoop(m), Turn(marks, head))
  {
    hide Word, Forever, Next, After, Bits, EntryOk;
    var l, t := ChainLoop(m), Turn(marks, head);
    ChainEndless(m, head, marks);
    if i, j :| IdleCycle(l, t, i, j) {
      StillRunning(l, t, i, j);
      EntriesIn(m, E, head, marks, i);
      assert EntryOk(m, After(l, t, i).va);
      BusyEntry(m, After(l, t, i).va);
    }
  }

  lemma BusyEntry(m: Bytes, e: nat)
    requires EntryOk(m, e) && (8 <= e <= |m| ==> !Idle(Block(m, e)))
    ensures !AllIdle(ChainLoop(m).regs(e))
  {
    hide Word, InBitmap;
    assert ChainLoop(m).regs(e)[0] == Block(m, e);
  }

  lemma {:induction false} EntriesIn(m: Bytes, E: set<nat>, head: nat, marks: set<int>, k: nat)
    requires EntriesClosed(m, E) && (head == 0 || head in E) && After(ChainLoop(m), Turn(marks, head), k).Turn?
    ensures var e := After(ChainLoop(m), Turn(marks, head), k).va; e == 0 || e in E
  {
    hide Word, EntriesClosed, After;
    var l, t := ChainLoop(m), Turn(marks, head);
    AfterNone(l, t);
    if k > 0 {
      TurnBefore(l, t, k);
      EntriesIn(m, E, head, marks, k - 1);
      FollowEntry(m, E, After(l, t, k - 1).va);
    }
  }

  lemma TurnBefore(l: Loop, t: Turn, k: nat)
    requires k > 0 && After(l, t, k).Turn?
    ensures After(l, t, k - 1).Turn? && After(l, t, k - 1).va != 0
    ensures After(l, t, k).va == l.next(After(l, t, k - 1).va)
  {
  }

  lemma FollowEntry(m: Bytes, E: set<nat>, e: nat)
    requires EntriesClosed(m, E) && e in E
    ensures var next := ChainLoop(m).next(e); next == 0 || next in E
  {
    hide Word, PointerOk;
    assert EntryOk(m, e);
  }

  /** The blocks of a prefix are accepted if those of the whole are. */
  lemma BlocksAccepted(m: Bytes, base: Chunks, v: seq<nat>, es: seq<nat>, n: nat)
    requires EntriesOk(m, es) && IsPrefixOf(v, es) && AcceptsAll({}, n, base + Blocks(m, es))
    ensures EntriesOk(m, v) && AcceptsAll({}, n, base + Blocks(m, v))
  {
    hide AcceptsAll;
    var w := es[|v|..];
    assert es == v + w;
    EntriesOkAppend(m, v, w);
    BlocksAppend(m, v, w);
    PrefixAccepted(base, Blocks(m, v), Blocks(m, es), n);
  }

  /** The chain is `c`, and its blocks are accepted after `base` and those of `es`. */
  ghost predicate Expected(m: Bytes, head: nat, base: Chunks, es: seq<nat>, c: seq<nat>, n: nat) {
    Chain(m, head, c) && EntriesOk(m, es + c) && AcceptsAll({}, n, base + Blocks(m, es + c))
  }

  /** The loop over one bucket in `ht_check_memory`, if it ends: it succeeds if and
      only if the blocks along the chain are accepted one after the other. */
  method MarkChain(p: Pool, u: UsageMap, head: nat, ghost base: Chunks, ghost es: seq<nat>, ghost E: set<nat>,
      ghost c0: seq<nat>)
    returns (r: bool, ghost c: seq<nat>)
    requires p.Sync() && u.n == |p.M| && u.Valid() && head < LIMIT
    requires EntriesClosed(p.M, E) && (head == 0 || head in E) && !Forever(ChainLoop(p.M), Turn(u.marks, head))
    requires EntriesOk(p.M, es) && Begun(u.marks, base + Blocks(p.M, es), u.n)
    modifies u`marks, u.bytes
    ensures u.Valid()
    ensures r ==> Chain(p.M, head, c) && EntriesOk(p.M, es + c) && Begun(u.marks, base + Blocks(p.M, es + c), u.n)
    ensures Expected(p.M, head, base, es, c0, u.n) ==> r && c == c0
  {
    hide Word, Begun, PointerOk, EntriesClosed, ChainPrefix, EntriesOk, Blocks, OnChain, Chain, EntryOk, AcceptsAll,
      MarkedAll, Forever, After, Next;
    ghost var m, n := p.M, u.n;
    ghost var l, t := ChainLoop(m), Turn(u.marks, head);
    ghost var wf := Expected(m, head, base, es, c0, n);
    ghost var last: nat := RunsOut(l, t);
    ghost var k := 0;
    c := [];
    var va := head;
    ChainStart(m, E, head);
    AfterNone(l, t);
    assert es + c == es;
    while va != 0
      invariant u.Valid() && OnChain(m, E, head, c, va)
      invariant EntriesOk(m, es + c) && Begun(u.marks, base + Blocks(m, es + c), n)
      invariant After(l, t, k) == Turn(u.marks, va)
      invariant wf ==> IsPrefixOf(c, c0)
      modifies u`marks, u.bytes
      decreases last - k
    {
      ChainStep(m, E, head, c, va);
      StillBefore(l, t, k, last);
      BlocksOne(m, es + c, va);
      assert es + c + [va] == es + (c + [va]);
      ghost var regs := base + Blocks(m, es + c);
      assert regs + EntryBlocks(m, va) == base + Blocks(m, es + (c + [va]));
      TurnTaken(m, u.marks, regs, n, va, head, t.marks, k);
      if wf { ExpectedNext(m, E, head, base, es, c, c0, n, va); }
      var ok := MarkEntry(p, u, va, regs);
      if !ok { return false, c; }
      MarkedIs(u.marks, regs + EntryBlocks(m, va), n);
      c := c + [va];
      va := LoadNext(p, va);
      k := k + 1;
    }
    ChainEnds(m, E, head, c);
    if wf { ExpectedEnd(m, E, head, base, es, c, c0, n); }
    return true, c;
  }

  /** One turn of the loop marks the blocks of one entry. */
  lemma TurnTaken(m: Bytes, marks: set<int>, regs: Chunks, n: nat, e: nat, head: nat, marks0: set<int>, k: nat)
    requires EntryOk(m, e) && e != 0 && Begun(marks, regs, n) && n == |m|
    requires After(ChainLoop(m), Turn(marks0, head), k) == Turn(marks, e)
    ensures e + ENTRY <= |m|
    ensures AcceptsAll({}, n, regs + EntryBlocks(m, e)) ==>
      After(ChainLoop(m), Turn(marks0, head), k + 1) == Turn(MarkedAll({}, regs + EntryBlocks(m, e)), Word(m, e))
  {
    hide Word, AcceptsAll, MarkedAll, InBitmap;
    Joined({}, n, regs, EntryBlocks(m, e));
    assert ChainLoop(m).regs(e) == EntryBlocks(m, e);
  }

  method LoadNext(p: Pool, va: nat) returns (next: nat)
    requires p.Sync() && EntryOk(p.M, va)
    ensures next == Word(p.M, va)
  {
    next := p.Load(va);
  }

  lemma ExpectedNext(m: Bytes, E: set<nat>, head: nat, base: Chunks, es: seq<nat>, c: seq<nat>, c0: seq<nat>, n: nat,
      va: nat)
    requires Expected(m, head, base, es, c0, n) && IsPrefixOf(c, c0) && OnChain(m, E, head, c, va) && va != 0
    ensures IsPrefixOf(c + [va], c0)
    ensures EntriesOk(m, es + (c + [va])) && AcceptsAll({}, n, base + Blocks(m, es + (c + [va])))
  {
    hide Word, Blocks, PointerOk, AcceptsAll;
    ChainGoesOn(m, head, c, c0, va);
    var v := es + (c + [va]);
    assert v == (es + c0)[..|v|];
    BlocksAccepted(m, base, v, es + c0, n);
  }

  lemma ExpectedEnd(m: Bytes, E: set<nat>, head: nat, base: Chunks, es: seq<nat>, c: seq<nat>, c0: seq<nat>, n: nat)
    requires Expected(m, head, base, es, c0, n) && IsPrefixOf(c, c0) && OnChain(m, E, head, c, 0)
    ensures c == c0
  {
    ChainGoesOn(m, head, c, c0, 0);
  }

  /* ---- The whole marking phase ---- */

  lemma FlatMore(ch: seq<seq<nat>>, c: seq<nat>)
    ensures Flat(ch + [c]) == Flat(ch) + c
  {
    assert (ch + [c])[..|ch|] == ch;
  }

  lemma {:induction false} FlatPrefix(ch: seq<seq<nat>>, k: nat)
    requires k <= |ch|
    ensures IsPrefixOf(Flat(ch[..k]), Flat(ch))
  {
    if k == |ch| {
      assert ch[..k] == ch;
    } else {
      var init := ch[..|ch| - 1];
      FlatPrefix(init, k);
      assert init[..k] == ch[..k];
    }
  }

  /** The pool links these free chunks and chains, and the bitmap accepts the
      descriptor, the chunks, the table and the blocks of all entries in turn. */
  ghost predicate Healthy(m: Bytes, ht: nat, fs: Chunks, ch: seq<seq<nat>>) {
    && 8 <= ht <= |m| && Linked(m, fs) && Chains(m, ht, ch) && |ch| == BUCKETS && EntriesOk(m, Flat(ch))
    && AcceptsAll({}, |m|, Regs(m, fs, ht, Flat(ch)))
  }

  /** What is marked when the loop over bucket |ch| begins. */
  ghost predicate Midway(m: Bytes, ht: nat, fs: Chunks, ch: seq<seq<nat>>, marks: set<int>) {
    && 8 <= ht <= |m| && Linked(m, fs) && Chains(m, ht, ch) && |ch| < BUCKETS && EntriesOk(m, Flat(ch))
    && Marks(marks, Regs(m, fs, ht, Flat(ch)), |m|)
  }

  /** None of the marking loops runs forever. */
  ghost predicate Ends(m: Bytes, ht: nat)
    requires DESC <= |m|
  {
    && !Forever(FreeLoop(m), FreeStart(m))
    && forall fs, ch, marks :: Midway(m, ht, fs, ch, marks) ==> !Forever(ChainLoop(m), Turn(marks, Head(m, ht, |ch|)))
  }

  /** So it is where no chunk and no entry block is idle. */
  lemma BusyEnds(m: Bytes, S: set<nat>, ht: nat, E: set<nat>)
    requires FreeClosed(m, S) && |m| < LIMIT && TableClosed(m, ht, E) && EntriesClosed(m, E)
    requires forall e :: e in E && 8 <= e <= |m| ==> !Idle(Block(m, e))
    ensures DESC <= |m| && Ends(m, ht)
  {
    hide Word, Forever, Idle, EntriesClosed, PointerOk, Linked, AcceptsAll, MarkedAll, Chain, EntriesOk, Flat, Regs;
    ClosedEnds(m, S);
    forall fs, ch, marks | Midway(m, ht, fs, ch, marks)
      ensures !Forever(ChainLoop(m), Turn(marks, Head(m, ht, |ch|)))
    {
      MarksIn(marks, Regs(m, fs, ht, Flat(ch)), |m|);
      ChainEnding(m, E, Head(m, ht, |ch|), marks);
    }
  }

  lemma MarksIn(marks: set<int>, regs: Chunks, n: nat)
    requires Marks(marks, regs, n)
    ensures marks <= Bits(0, n)
  {
    hide AcceptsAll, MarkedAll, Bits;
    MarkedAllGrows({}, n, regs);
  }

  /** The marking phase of `ht_check_memory` up to the leak scan, if it ends: it succeeds
      if and only if the pool is healthy, and then exactly what it followed is marked. */
  method MarkReachable(p: Pool, ht: nat, ghost S: set<nat>, ghost E: set<nat>, ghost fs0: Chunks,
      ghost ch0: seq<seq<nat>>)
    returns (u: UsageMap?, ghost fs: Chunks, ghost ch: seq<seq<nat>>)
    requires p.Sync() && FreeReadable(p.M, S) && TableClosed(p.M, ht, E) && EntriesClosed(p.M, E) && Ends(p.M, ht)
    ensures u != null ==> fresh(u) && fresh(u.bytes) && u.Valid() && u.n == |p.M|
    ensures u != null ==> Healthy(p.M, ht, fs, ch) && Marks(u.marks, Regs(p.M, fs, ht, Flat(ch)), |p.M|)
    ensures Healthy(p.M, ht, fs0, ch0) ==> u != null && fs == fs0 && ch == ch0
  {
    hide Word, Begun, PointerOk, EntriesClosed, EntriesOk, Blocks, Chain, FreeReadable, Linked, Flat, TableClosed,
      AcceptsAll, MarkedAll, Ends, Forever, Regs;
    ghost var m, n := p.M, |p.M|;
    ghost var wf := Healthy(m, ht, fs0, ch0);
    ch := [];
    if wf { HealthyFree(m, ht, fs0, ch0); }
    FreeEnds(m, ht);
    u, fs := NewUsageMap(p, S, fs0);
    if u == null { return; }
    TableClosedAt(m, ht, E);
    ghost var base := [DESCRIPTOR] + fs + [Block(m, ht)];
    if wf { HealthyTable(m, ht, fs0, ch0); }
    var ok := MarkAllocated(p, u, ht, [DESCRIPTOR] + fs);
    if !ok { return null, fs, ch; }
    NoBlocks(m, base);
    var k := 0;
    while k < BUCKETS
      invariant 0 <= k <= BUCKETS && |ch| == k && fresh(u) && fresh(u.bytes) && u.Valid() && u.n == n
      invariant Chains(m, ht, ch) && EntriesOk(m, Flat(ch))
      invariant Begun(u.marks, base + Blocks(m, Flat(ch)), n)
      invariant wf ==> fs == fs0 && ch == ch0[..k]
      modifies u`marks, u.bytes
    {
      BucketClosed(m, ht, E, k);
      if wf { HealthyBucket(m, ht, fs0, ch0, k); }
      var head := p.Load(ht + 8 + 8 * k);
      RegsIs(m, fs, ht, Flat(ch));
      BucketEnds(m, ht, fs, ch, u.marks);
      ghost var c;
      ok, c := MarkChain(p, u, head, base, Flat(ch), E, if wf then ch0[k] else []);
      if !ok { return null, fs, ch; }
      FlatMore(ch, c);
      ChainsMore(m, ht, ch, c);
      ch := ch + [c];
      k := k + 1;
    }
    RegsIs(m, fs, ht, Flat(ch));
    MarkedIs(u.marks, Regs(m, fs, ht, Flat(ch)), n);
  }

  lemma FreeEnds(m: Bytes, ht: nat)
    requires DESC <= |m| && Ends(m, ht)
    ensures !Forever(FreeLoop(m), FreeStart(m))
  {
    hide Word, Forever, Midway;
  }

  lemma BucketEnds(m: Bytes, ht: nat, fs: Chunks, ch: seq<seq<nat>>, marks: set<int>)
    requires DESC <= |m| && Ends(m, ht) && 8 <= ht <= |m| && Linked(m, fs) && Chains(m, ht, ch) && |ch| < BUCKETS
    requires EntriesOk(m, Flat(ch)) && Begun(marks, Regs(m, fs, ht, Flat(ch)), |m|)
    ensures !Forever(ChainLoop(m), Turn(marks, Head(m, ht, |ch|)))
  {
    hide Word, Forever, Linked, Chain, EntriesOk, Flat, Regs, AcceptsAll, MarkedAll;
    assert Midway(m, ht, fs, ch, marks);
  }

  lemma NoBlocks(m: Bytes, base: Chunks)
    ensures EntriesOk(m, []) && EntriesOk(m, Flat([])) && Flat([]) == [] && Blocks(m, []) == []
    ensures base + Blocks(m, Flat([])) == base
  {
  }

  lemma RegsIs(m: Bytes, fs: Chunks, ht: nat, es: seq<nat>)
    requires 8 <= ht <= |m| && EntriesOk(m, es)
    ensures Regs(m, fs, ht, es) == [DESCRIPTOR] + fs + [Block(m, ht)] + Blocks(m, es)
  {
  }

  lemma TableClosedAt(m: Bytes, ht: nat, E: set<nat>)
    requires TableClosed(m, ht, E)
    ensures PointerOk(m, ht) && ht + TABLE <= |m| && 8 <= ht
  {
  }

  lemma BucketClosed(m: Bytes, ht: nat, E: set<nat>, k: nat)
    requires TableClosed(m, ht, E) && k < BUCKETS
    ensures Head(m, ht, k) == 0 || Head(m, ht, k) in E
  {
  }

  lemma ChainsMore(m: Bytes, ht: nat, ch: seq<seq<nat>>, c: seq<nat>)
    requires Chains(m, ht, ch) && |ch| < BUCKETS && Chain(m, Head(m, ht, |ch|), c)
    ensures Chains(m, ht, ch + [c])
  {
    hide Chain;
  }

  lemma HealthyFree(m: Bytes, ht: nat, fs: Chunks, ch: seq<seq<nat>>)
    requires Healthy(m, ht, fs, ch)
    ensures Linked(m, fs) && AcceptsAll({}, |m|, [DESCRIPTOR] + fs)
  {
    hide AcceptsAll, Word, Linked, Chain, EntriesOk, Flat, Blocks;
    HealthyTable(m, ht, fs, ch);
    AcceptedPrefix([DESCRIPTOR] + fs, [Block(m, ht)], |m|);
  }

  lemma HealthyTable(m: Bytes, ht: nat, fs: Chunks, ch: seq<seq<nat>>)
    requires Healthy(m, ht, fs, ch)
    ensures AcceptsAll({}, |m|, [DESCRIPTOR] + fs + [Block(m, ht)])
  {
    hide AcceptsAll, Word, Linked, Chain, EntriesOk, Flat, Blocks;
    AcceptedPrefix([DESCRIPTOR] + fs + [Block(m, ht)], Blocks(m, Flat(ch)), |m|);
  }

  lemma HealthyBucket(m: Bytes, ht: nat, fs: Chunks, ch: seq<seq<nat>>, k: nat)
    requires Healthy(m, ht, fs, ch) && k < BUCKETS
    ensures Expected(m, Head(m, ht, k), [DESCRIPTOR] + fs + [Block(m, ht)], Flat(ch[..k]), ch[k], |m|)
    ensures ch[..k] + [ch[k]] == ch[..k + 1]
  {
    hide AcceptsAll, Word, Linked, Chain, EntriesOk, Flat, Blocks;
    FlatMore(ch[..k], ch[k]);
    assert ch[..k] + [ch[k]] == ch[..k + 1];
    FlatPrefix(ch, k + 1);
    BlocksAccepted(m, [DESCRIPTOR] + fs + [Block(m, ht)], Flat(ch[..k + 1]), Flat(ch), |m|);
  }
}
