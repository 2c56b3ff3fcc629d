/** Whole runs of the allocator: any sequence of allocations, frees of live
    blocks and writes into them, from a freshly initialised pool. */
module Runs {
  import opened Memory
  import opened Rounding
  import opened FreeList
  import opened Links
  import opened Regions
  import opened Allocation
  import opened Pools

  datatype Op = Take(size: nat) | Give(block: nat) | Fill(block: nat, at: nat, s: Bytes)

  /** Free list, used regions, and the bytes that were written into used regions. */
  datatype Heap = Heap(fs: Chunks, live: Live, data: map<nat, byte>)

  ghost function Step(h: Heap, min: nat, op: Op): Heap {
    match op
    case Take(size) =>
      var i := FirstFit(h.fs, NeedFor(min, size));
      if size == 0 || i == |h.fs| then h
      else
        var t := Share(h.fs[i].size, NeedFor(min, size));
        Heap(Carve(h.fs, i, t), h.live[h.fs[i].End() - t := t], h.data)
    case Give(b) =>
      if b !in h.live then h
      else Heap(Release(h.fs, b, h.live[b]), h.live - {b}, Without(h.data, b, h.live[b]))
    case Fill(b, at, s) =>
      h.(data := Written(h.data, b + at, s))
  }

  ghost function Without(data: map<nat, byte>, a: nat, n: nat): map<nat, byte> {
    map x | x in data && !(a <= x < a + n) :: data[x]
  }

  ghost predicate InSlice(x: nat, a: nat, n: nat) {
    a <= x < a + n
  }

  ghost function Written(data: map<nat, byte>, a: nat, s: Bytes): map<nat, byte> {
    map x | x in data.Keys + (set y: nat | a <= y < a + |s| && InSlice(y, a, |s|)) ::
      if a <= x < a + |s| then s[x - a] else data[x]
  }

  /** What a correct user does: frees only live blocks and writes only inside them. */
  ghost predicate Allowed(h: Heap, op: Op) {
    match op
    case Take(size) => size <= MAX_SIZE
    case Give(b) => b in h.live
    case Fill(b, at, s) => b in h.live && 8 <= at && at + |s| <= h.live[b]
  }

  ghost predicate Legal(h: Heap, min: nat, ops: seq<Op>)
    decreases |ops|
  {
    ops == [] || (Allowed(h, ops[0]) && Legal(Step(h, min, ops[0]), min, ops[1..]))
  }

  ghost function Run(h: Heap, min: nat, ops: seq<Op>): Heap
    decreases |ops|
  {
    if ops == [] then h else Run(Step(h, min, ops[0]), min, ops[1..])
  }

  ghost function Fresh(n: nat): Heap
    requires DESC <= n
  {
    Heap([Chunk(DESC, n - DESC)], map[], map[])
  }

  /* ---- What every state keeps ---- */

  ghost predicate Sane(h: Heap, n: nat) {
    Canonical(h.fs, n) && Separate(h.live, h.fs, n) && Tiled(h.live, h.fs, n)
  }

  lemma FreshSane(n: nat)
    requires DESC + HEADER <= n
    ensures Sane(Fresh(n), n)
  {
    hide Covers;
    forall b | DESC <= b < n ensures Covers(Fresh(n).fs, b) { CoversAt(Fresh(n).fs, 0, b); }
  }

  lemma StepSane(h: Heap, min: nat, op: Op, n: nat)
    requires Sane(h, n) && Allowed(h, op)
    ensures Sane(Step(h, min, op), n)
  {
    hide Separate, Tiled, Carve, Release, FirstFit, InPool, Apart, NoTouch, Without, Written;
    match op
    case Take(size) =>
      var s := NeedFor(min, size);
      var i := FirstFit(h.fs, s);
      if size != 0 && i < |h.fs| {
        CarveKeeps(h.fs, i, s, n);
        CarveRegions(h.live, h.fs, i, s, n);
      }
    case Give(b) =>
      ReleaseRegions(h.live, h.fs, b, n);
    case Fill(_, _, _) =>
  }

  /** Every state of every run: no chunk overlaps or borders another or a block,
      every byte is free or used, and the two totals add up to the managed size. */
  lemma {:induction false} RunSane(h: Heap, min: nat, ops: seq<Op>, n: nat)
    requires Sane(h, n) && Legal(h, min, ops) && DESC <= n
    ensures Sane(Run(h, min, ops), n)
    ensures Total(Run(h, min, ops).fs) + LiveTotal(Run(h, min, ops).live) == n - DESC
    decreases |ops|
  {
    hide Canonical, Separate, Tiled, Step, Allowed, Total, LiveTotal;
    if ops == [] {
      TilingAddsUp(h.live, h.fs, n);
    } else {
      StepSane(h, min, ops[0], n);
      RunSane(Step(h, min, ops[0]), min, ops[1..], n);
    }
  }

  /* ---- Runs on lists whose chunks may touch ---- */

  /** Separate chunks beside the used regions, as also crashes and repairs leave them. */
  ghost predicate Parted(h: Heap, n: nat) {
    InPool(h.fs, n) && Apart(h.fs) && Separate(h.live, h.fs, n)
  }

  /** The free lets a chunk grow up to a list head it touched all along. */
  ghost predicate DoublesNow(h: Heap, op: Op) {
    op.Give? && op.block in h.live && Doubles(h.fs, op.block, h.live[op.block])
  }

  ghost predicate NeverDoubles(h: Heap, min: nat, ops: seq<Op>)
    decreases |ops|
  {
    ops == [] || (!DoublesNow(h, ops[0]) && NeverDoubles(Step(h, min, ops[0]), min, ops[1..]))
  }

  lemma StepParted(h: Heap, min: nat, op: Op, n: nat)
    requires Parted(h, n) && Allowed(h, op)
    ensures Parted(Step(h, min, op), n) <==> !DoublesNow(h, op)
    ensures DoublesNow(h, op) ==> Twice(Step(h, min, op).fs)
    ensures Tiled(h.live, h.fs, n) ==> Tiled(Step(h, min, op).live, Step(h, min, op).fs, n)
  {
    hide Tiled, Carve, Release, FirstFit, InPool, Apart, Without, Written, Twice, Doubles, Outside;
    match op
    case Take(size) =>
      var s := NeedFor(min, size);
      var i := FirstFit(h.fs, s);
      if size != 0 && i < |h.fs| {
        CarveApart(h.fs, i, s, n);
        CarveRegions(h.live, h.fs, i, s, n);
      }
    case Give(b) =>
      ReleaseRegions(h.live, h.fs, b, n);
      ReleaseApart(h.fs, b, h.live[b], n);
    case Fill(_, _, _) =>
  }

  /** In every state of a run the chunks are separate and off the used blocks if and
      only if no free of the run lets a chunk grow up to a list head it touched. */
  lemma {:induction false} RunParted(h: Heap, min: nat, ops: seq<Op>, n: nat)
    requires Parted(h, n) && Legal(h, min, ops)
    ensures (forall k :: 0 <= k <= |ops| ==> Parted(Run(h, min, ops[..k]), n)) <==> NeverDoubles(h, min, ops)
    decreases |ops|
  {
    hide Step, Allowed, Parted, DoublesNow;
    assert ops[..0] == [] && Run(h, min, ops[..0]) == h;
    if ops != [] {
      var h1, rest := Step(h, min, ops[0]), ops[1..];
      StepParted(h, min, ops[0], n);
      forall k | 0 < k <= |ops|
        ensures Run(h, min, ops[..k]) == Run(h1, min, rest[..k - 1])
      {
        assert ops[..k][0] == ops[0] && ops[..k][1..] == rest[..k - 1];
      }
      assert rest[..0] == [] && Run(h1, min, rest[..0]) == h1;
      if Parted(h1, n) {
        RunParted(h1, min, rest, n);
        if NeverDoubles(h, min, ops) {
          forall k | 0 <= k <= |ops|
            ensures Parted(Run(h, min, ops[..k]), n)
          {
            if k > 0 { assert Parted(Run(h1, min, rest[..k - 1]), n); }
          }
        }
        if forall k :: 0 <= k <= |ops| ==> Parted(Run(h, min, ops[..k]), n) {
          forall j | 0 <= j <= |rest|
            ensures Parted(Run(h1, min, rest[..j]), n)
          {
            assert Parted(Run(h, min, ops[..j + 1]), n);
          }
        }
      } else {
        assert !Parted(Run(h, min, ops[..1]), n);
      }
    }
  }

  /** However a run got there, once every block is freed the pool is one chunk again. */
  lemma NothingFragments(h: Heap, n: nat)
    requires Sane(h, n) && h.live == map[] && DESC + HEADER <= n
    ensures h.fs == [Chunk(DESC, n - DESC)]
  {
    hide Covers, Separate;
    var gs := [Chunk(DESC, n - DESC)];
    forall b
      ensures Covers(h.fs, b) <==> Covers(gs, b)
    {
      if Covers(h.fs, b) { var i := CoverIndex(h.fs, b); CoversAt(gs, 0, b); }
      if Covers(gs, b) { var i := CoverIndex(gs, b); assert !Used(h.live, b); }
    }
    CanonicalUnique(h.fs, gs, n);
    assert gs[0] in gs;
    forall i | 0 <= i < |h.fs| ensures h.fs[i] == gs[0] { assert h.fs[i] in gs; }
    var k := |h.fs| - 1;
    assert k > 0 ==> Clear(h.fs[0], h.fs[k]);
  }

  /** An allocation undone by the next free leaves the same chunks. */
  lemma TakeGive(h: Heap, min: nat, size: nat, n: nat)
    requires Sane(h, n) && 0 < size <= MAX_SIZE && FirstFit(h.fs, NeedFor(min, size)) < |h.fs|
    ensures var h1 := Step(h, min, Take(size));
      var need := NeedFor(min, size);
      var c := h.fs[FirstFit(h.fs, need)];
      var b := c.End() - Share(c.size, need);
      var h2 := Step(h1, min, Give(b));
      h2.live == h.live && (forall c :: c in h2.fs <==> c in h.fs) && Total(h2.fs) == Total(h.fs)
  {
    hide Separate, Tiled, Carve, Release, FirstFit, Total, InPool, Apart, NoTouch, Without;
    var s := NeedFor(min, size);
    var i := FirstFit(h.fs, s);
    var t := Share(h.fs[i].size, s);
    var b := h.fs[i].End() - t;
    ReleaseUndoesCarve(h.fs, i, s, n);
    CarveRegions(h.live, h.fs, i, s, n);
    CarveKeeps(h.fs, i, s, n);
    CarveTotal(h.fs, i, s, n);
    CanonicalDef(h.fs, n);
    InPoolAt(h.fs, n, i);
    ReleaseTotal(Carve(h.fs, i, t), b, t, n);
  }

  /* ---- The pool along a run ---- */

  ghost predicate InPayload(live: Live, x: int) {
    exists a :: a in live && a + 8 <= x < a + live[a]
  }

  /** Every byte that was written is still there, inside a used region. */
  ghost predicate Remembers(m: Bytes, live: Live, data: map<nat, byte>) {
    forall x :: x in data ==> x < |m| && m[x] == data[x] && InPayload(live, x)
  }

  /** Every used region carries its size word. */
  ghost predicate Labelled(m: Bytes, live: Live) {
    forall a :: a in live ==> a + 8 <= |m| && Word(m, a) == live[a]
  }

  /** The pool is in the state `h` of a run. */
  ghost predicate At(p: Pool, h: Heap, min: nat)
    reads p, p.mem
  {
    && p.Ok() && p.Full() && p.fs == h.fs && p.live == h.live && MinAlloc(p.M) == min
    && Labelled(p.M, p.live) && Remembers(p.M, p.live, h.data)
  }

  /** Bytes that an operation on free memory and region [a, a + n) leaves alone. */
  lemma KeptData(m: Bytes, m': Bytes, fs: Chunks, live: Live, a: nat, n: nat, data: map<nat, byte>)
    requires Kept(m, m', fs, a, n) && Separate(live, fs, |m|) && InPool(fs, |m|) && DESC <= |m|
    requires n == 0 || (a in live && n == live[a])
    requires Labelled(m, live) && Remembers(m, live, data)
    ensures |m'| == |m| && Labelled(m', if n == 0 then live else live - {a})
    ensures Remembers(m', if n == 0 then live else live - {a}, if n == 0 then data else Without(data, a, n))
    ensures MinAlloc(m') == MinAlloc(m)
  {
    hide Word, Covers, Kept, Separate, Labelled, Remembers, MinAlloc;
    var live' := if n == 0 then live else live - {a};
    assert |m'| == |m| by { KeptSize(m, m', fs, a, n); }
    forall b | b in live'
      ensures Agree(m, m', b, live[b]) && 8 <= live[b]
    {
      KeptRegion(m, m', fs, live, a, n, b);
      RegionLow(live, fs, |m|, b);
    }
    LabelsKept(m, m', live, live');
    if n == 0 {
      DataKept(m, m', live, live', data, data);
    } else {
      DataKept(m, m', live, live', data, Without(data, a, n));
      assert DESC <= a by { RegionLow(live, fs, |m|, a); }
    }
    KeptDescriptor(m, m', fs, a, n, VERSION);
    KeptDescriptor(m, m', fs, a, n, MIN_ALLOC);
    assert MinAlloc(m') == MinAlloc(m) by { MinAllocWords(m, m'); }
  }

  lemma MinAllocWords(m: Bytes, m': Bytes)
    requires DESC <= |m| && DESC <= |m'| && Word(m', VERSION) == Word(m, VERSION)
    requires Word(m', MIN_ALLOC) == Word(m, MIN_ALLOC)
    ensures MinAlloc(m') == MinAlloc(m)
  {
    hide Word;
  }

  lemma KeptSize(m: Bytes, m': Bytes, fs: Chunks, a: nat, n: nat)
    requires Kept(m, m', fs, a, n)
    ensures |m'| == |m|
  {
  }

  lemma KeptRegion(m: Bytes, m': Bytes, fs: Chunks, live: Live, a: nat, n: nat, b: nat)
    requires Kept(m, m', fs, a, n) && Separate(live, fs, |m|) && b in live
    requires n == 0 || (a in live && n == live[a] && b != a)
    ensures Agree(m, m', b, live[b])
  {
    hide Covers, Outside;
    OutsideUncovered(fs, b, live[b]);
    if n != 0 { assert Disjoint(a, n, b, live[b]); }
  }

  ghost predicate StillLive(m: Bytes, m': Bytes, live: Live, live': Live) {
    && |m'| == |m|
    && forall b :: b in live' ==> b in live && live'[b] == live[b] && 8 <= live[b] && Agree(m, m', b, live[b])
  }

  lemma LabelsKept(m: Bytes, m': Bytes, live: Live, live': Live)
    requires StillLive(m, m', live, live') && Labelled(m, live)
    ensures Labelled(m', live')
  {
    hide Word;
    forall b | b in live'
      ensures b + 8 <= |m'| && Word(m', b) == live'[b]
    {
      AgreeWord(m, m', b);
    }
  }

  lemma DataKept(m: Bytes, m': Bytes, live: Live, live': Live, data: map<nat, byte>, data': map<nat, byte>)
    requires StillLive(m, m', live, live') && Remembers(m, live, data)
    requires forall x :: x in data' ==>
      x in data && data'[x] == data[x] && forall b :: b in live && b !in live' ==> !(b <= x < b + live[b])
    ensures Remembers(m', live', data')
  {
    forall x | x in data'
      ensures m'[x] == data'[x] && InPayload(live', x)
    {
      var b :| b in live && b + 8 <= x < b + live[b];
      assert b in live';
    }
  }

  lemma RegionLow(live: Live, fs: Chunks, n: nat, a: nat)
    requires Separate(live, fs, n) && a in live
    ensures DESC <= a && a + live[a] <= n && HEADER < live[a]
  {
  }

  lemma AtParts(p: Pool, h: Heap, min: nat)
    requires At(p, h, min)
    ensures p.Ok() && p.fs == h.fs && p.live == h.live && DESC <= |p.M| && InPool(p.fs, |p.M|)
    ensures Separate(p.live, p.fs, |p.M|)
    ensures Labelled(p.M, p.live) && Remembers(p.M, p.live, h.data) && p.Full() && MinAlloc(p.M) == min
  {
  }

  /** A new region with its size word in place. */
  lemma LabelMore(m: Bytes, live: Live, a: nat, t: nat, data: map<nat, byte>)
    requires Labelled(m, live) && Remembers(m, live, data) && a !in live && a + 8 <= |m| && Word(m, a) == t
    ensures Labelled(m, live[a := t]) && Remembers(m, live[a := t], data)
  {
    hide Word;
    var l2 := live[a := t];
    forall x | x in data
      ensures InPayload(l2, x)
    {
      var b :| b in live && b + 8 <= x < b + live[b];
      assert b in l2 && l2[b] == live[b];
    }
  }

  method DoTake(p: Pool, size: nat, ghost h: Heap, ghost min: nat) returns (va: nat)
    requires At(p, h, min) && size <= MAX_SIZE
    modifies p`M, p`fs, p`live, p.mem
    ensures At(p, Step(h, min, Take(size)), min) && |p.M| == |old(p.M)|
    ensures va == 0 <==> size == 0 || FirstFit(h.fs, NeedFor(min, size)) == |h.fs|
    ensures va != 0 ==> va >= 8 && va - 8 in p.live && va - 8 !in h.live && size + 8 <= p.live[va - 8]
  {
    hide Word, Stores, Canonical, Separate, Tiled, Kept, Labelled, Remembers, Carve, FirstFit, Covers, At, MinAlloc;
    AtParts(p, h, min);
    ghost var m0 := p.M;
    var crashed;
    p.OkPlaced();
    va, crashed := p.Valloc(size, false);
    p.OkPlaced();
    KeptData(m0, p.M, h.fs, h.live, 0, 0, h.data);
    if va != 0 {
      assert va - 8 + 8 <= |p.M| by { RegionLow(p.live, p.fs, |p.M|, va - 8); }
      LabelMore(p.M, h.live, va - 8, p.live[va - 8], h.data);
    }
    AtIs(p, Step(h, min, Take(size)), min);
  }

  lemma AtIs(p: Pool, h: Heap, min: nat)
    requires p.Ok() && p.Full() && p.fs == h.fs && p.live == h.live && MinAlloc(p.M) == min
    requires Labelled(p.M, p.live) && Remembers(p.M, p.live, h.data)
    ensures At(p, h, min)
  {
  }

  method DoGive(p: Pool, b: nat, ghost h: Heap, ghost min: nat)
    requires At(p, h, min) && b in h.live
    modifies p`M, p`fs, p`live, p.mem
    ensures At(p, Step(h, min, Give(b)), min) && |p.M| == |old(p.M)|
  {
    hide Word, Stores, Canonical, Separate, Tiled, Kept, Remembers, Release, Covers, At, MinAlloc;
    AtParts(p, h, min);
    ghost var m0 := p.M;
    RegionLow(p.live, p.fs, |p.M|, b);
    p.OkPlaced();
    var crashed := p.Free(b + 8, false);
    KeptData(m0, p.M, h.fs, h.live, b, h.live[b], h.data);
    AtIs(p, Step(h, min, Give(b)), min);
  }

  method DoFill(p: Pool, b: nat, at: nat, s: Bytes, ghost h: Heap, ghost min: nat)
    requires At(p, h, min) && b in h.live && 8 <= at && at + |s| <= h.live[b]
    modifies p`M, p.mem
    ensures At(p, Step(h, min, Fill(b, at, s)), min) && |p.M| == |old(p.M)|
  {
    hide Word, Stores, Canonical, Separate, Tiled, Labelled, Remembers, Covers, At, MinAlloc, Written;
    AtParts(p, h, min);
    ghost var m0 := p.M;
    RegionLow(p.live, p.fs, |p.M|, b);
    p.PokeBytes(b, b + at, s);
    FillData(m0, p.M, p.fs, p.live, b, b + at, s, h.data);
    AtIs(p, Step(h, min, Fill(b, at, s)), min);
  }

  lemma FillData(m: Bytes, m': Bytes, fs: Chunks, live: Live, b: nat, a: nat, s: Bytes, data: map<nat, byte>)
    requires Separate(live, fs, |m|) && b in live && b + 8 <= a && a + |s| <= b + live[b] <= |m| && DESC <= |m|
    requires m' == Overwrite(m, a, s) && Labelled(m, live) && Remembers(m, live, data)
    ensures Labelled(m', live) && Remembers(m', live, Written(data, a, s)) && MinAlloc(m') == MinAlloc(m)
  {
    hide Word, Outside, Overwrite;
    RegionLow(live, fs, |m|, b);
    forall c | c in live
      ensures Word(m', c) == Word(m, c)
    {
      if c != b { assert Disjoint(b, live[b], c, live[c]); }
      AgreeWord(m, m', c);
    }
    AgreeWord(m, m', VERSION);
    AgreeWord(m, m', MIN_ALLOC);
    forall x | a <= x < a + |s|
      ensures m'[x] == s[x - a] && InPayload(live, x)
    {
      assert m'[x] == m'[a..a + |s|][x - a];
    }
  }

  /** Any legal run, executed on a pool: it ends in the state the run predicts,
      with everything that was written and not freed still in place. */
  method Drive(p: Pool, ops: seq<Op>, ghost h: Heap, ghost min: nat)
    requires At(p, h, min) && Legal(h, min, ops)
    modifies p`M, p`fs, p`live, p.mem
    ensures At(p, Run(h, min, ops), min) && |p.M| == |old(p.M)|
  {
    hide At, Step, Allowed;
    ghost var cur := h;
    var i := 0;
    while i < |ops|
      invariant 0 <= i <= |ops| && At(p, cur, min) && |p.M| == |old(p.M)|
      invariant Legal(cur, min, ops[i..]) && Run(cur, min, ops[i..]) == Run(h, min, ops)
    {
      assert ops[i..][0] == ops[i] && ops[i..][1..] == ops[i + 1..];
      AllowedIs(cur, ops[i]);
      match ops[i] {
        case Take(size) => var va := DoTake(p, size, cur, min);
        case Give(b) => DoGive(p, b, cur, min);
        case Fill(b, at, s) => DoFill(p, b, at, s, cur, min);
      }
      cur := Step(cur, min, ops[i]);
      i := i + 1;
    }
    assert ops[i..] == [];
  }

  lemma AllowedIs(h: Heap, op: Op)
    requires Allowed(h, op)
    ensures op.Take? ==> op.size <= MAX_SIZE
    ensures op.Give? ==> op.block in h.live
    ensures op.Fill? ==> op.block in h.live && 8 <= op.at && op.at + |op.s| <= h.live[op.block]
  {
  }

  /** A run from initialisation: a legal run leaves a canonical list, exact tiling
      and a status report whose free total is what the used regions leave. */
  method RunFromInit(p: Pool, ops: seq<Op>) returns (freeTotal: nat)
    requires p.Sync() && |p.M| >= DESC + HEADER && Word(p.M, 8) == 0
    requires Legal(Fresh(|p.M|), Word(p.M, MIN_ALLOC), ops)
    modifies p`M, p`fs, p`live, p.mem
    ensures |p.M| == |old(p.M)| && At(p, Run(Fresh(|p.M|), Word(old(p.M), MIN_ALLOC), ops), Word(old(p.M), MIN_ALLOC))
    ensures p.Ok() && p.Full() && freeTotal == Total(p.fs) && freeTotal + LiveTotal(p.live) == |p.M| - DESC
  {
    hide Word, Stores, Canonical, Separate, Tiled, Labelled, Remembers, Covers, At, MinAlloc, Total, LiveTotal, Run,
      Legal, Fresh;
    ghost var n, min, m0 := |p.M|, Word(p.M, MIN_ALLOC), p.M;
    p.InitMemory();
    AgreeWord(m0, p.M, MIN_ALLOC);
    FreshAt(p, min);
    Drive(p, ops, Fresh(n), min);
    FreshSane(n);
    RunSane(Fresh(n), min, ops, n);
    AtParts(p, Run(Fresh(n), min, ops), min);
    var total, shm, mem, largest, chunks;
    total, shm, freeTotal, mem, largest, chunks := p.Status();
  }

  lemma FreshAt(p: Pool, min: nat)
    requires p.Ok() && p.Full() && p.fs == [Chunk(DESC, |p.M| - DESC)] && p.live == map[]
    requires Word(p.M, VERSION) == 2 && Word(p.M, MIN_ALLOC) == min
    ensures At(p, Fresh(|p.M|), min)
  {
    hide Word, Stores, Canonical, Tiled;
  }

  /* ---- Alignment ---- */

  ghost predicate Even8(fs: Chunks) {
    forall i :: 0 <= i < |fs| ==> fs[i].off % 8 == 0 && fs[i].size % 8 == 0
  }

  ghost predicate Aligned(h: Heap) {
    Even8(h.fs) && forall a :: a in h.live ==> a % 8 == 0 && h.live[a] % 8 == 0
  }

  /** Allocations for which the rounding is exact. */
  ghost predicate Below32Bits(ops: seq<Op>) {
    forall i :: 0 <= i < |ops| && ops[i].Take? ==> ops[i].size + 8 <= 0x1_0000_0000
  }

  lemma NeedAligned(min: nat, size: nat)
    requires min % 8 == 0 && size + 8 <= 0x1_0000_0000
    ensures NeedFor(min, size) % 8 == 0
  {
    hide Round;
    var v := Max(size + 8, HEADER + 8);
    RoundUpTo32Bits(v);
    var k :| Round(v) == Pow2(k);
    Pow2Eight(k);
  }

  lemma {:induction false} Pow2Eight(k: nat)
    ensures if k < 3 then Pow2(k) <= 4 else Pow2(k) % 8 == 0
  {
    if k > 3 { Pow2Eight(k - 1); } else { assert Pow2(1) == 2 && Pow2(2) == 4 && Pow2(3) == 8; }
  }

  lemma CarveEven(fs: Chunks, i: nat, s: nat)
    requires Even8(fs) && i < |fs| && s <= fs[i].size && s % 8 == 0
    ensures Even8(Carve(fs, i, Share(fs[i].size, s))) && Share(fs[i].size, s) % 8 == 0
    ensures (fs[i].End() - Share(fs[i].size, s)) % 8 == 0
  {
  }

  lemma ReleaseEven(fs: Chunks, a: nat, n: nat)
    requires Even8(fs) && a % 8 == 0 && n % 8 == 0
    ensures Even8(Release(fs, a, n))
  {
    hide FirstMeeting, Absorb, Compacted, Even8;
    var i := FirstMeeting(fs, a, n);
    if i < |fs| {
      AbsorbEven(fs, i, a, n);
      CompactedEven(Absorb(fs, i, a, n), i);
    } else {
      PushEven(fs, a, n);
    }
  }

  lemma AbsorbEven(fs: Chunks, i: nat, a: nat, n: nat)
    requires Even8(fs) && a % 8 == 0 && n % 8 == 0 && i < |fs|
    ensures |Absorb(fs, i, a, n)| == |fs| && Even8(Absorb(fs, i, a, n))
  {
    var c := Absorb(fs, i, a, n)[i];
    assert Absorb(fs, i, a, n) == fs[i := c] && c.off % 8 == 0 && c.size % 8 == 0;
  }

  lemma PushEven(fs: Chunks, a: nat, n: nat)
    requires Even8(fs) && a % 8 == 0 && n % 8 == 0
    ensures Even8([Chunk(a, n)] + fs)
  {
  }

  lemma CompactedEven(gs: Chunks, i: nat)
    requires Even8(gs) && i < |gs|
    ensures Even8(Compacted(gs, i))
  {
    hide Partner, Grown, RemoveAt, Even8;
    var j := Partner(gs, i, 0);
    if j < |gs| {
      GrownEven(gs, i, j);
      GrownEven(gs, j, i);
      RemovedEven(Grown(gs, i, j), j);
      RemovedEven(Grown(gs, j, i), i);
    }
  }

  lemma GrownEven(gs: Chunks, i: nat, j: nat)
    requires Even8(gs) && i < |gs| && j < |gs|
    ensures |Grown(gs, i, j)| == |gs| && Even8(Grown(gs, i, j))
  {
  }

  lemma RemovedEven(gs: Chunks, i: nat)
    requires Even8(gs) && i < |gs|
    ensures Even8(RemoveAt(gs, i))
  {
  }

  /** With a pool size and a minimum size that are multiples of 8, every chunk and
      every block of every such run starts and ends on a multiple of 8. */
  lemma {:induction false} RunAligned(h: Heap, min: nat, ops: seq<Op>)
    requires Aligned(h) && min % 8 == 0 && Below32Bits(ops)
    ensures Aligned(Run(h, min, ops))
    decreases |ops|
  {
    hide Carve, Release, FirstFit, Round, Without, Written;
    if ops != [] {
      match ops[0] {
        case Take(size) =>
          NeedAligned(min, size);
          var i := FirstFit(h.fs, NeedFor(min, size));
          if i < |h.fs| { CarveEven(h.fs, i, NeedFor(min, size)); }
        case Give(b) =>
          if b in h.live { ReleaseEven(h.fs, b, h.live[b]); }
        case Fill(_, _, _) =>
      }
      assert Aligned(Step(h, min, ops[0]));
      RunAligned(Step(h, min, ops[0]), min, ops[1..]);
    }
  }
}
