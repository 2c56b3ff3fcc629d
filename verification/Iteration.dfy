/** Resumable iteration and the random pair: `ht_hash_iterate`, `ht_random_pair`. */
module Iteration {
  import opened Memory
  import opened FreeList
  import opened Links
  import opened Regions
  import opened Pools
  import opened Marking
  import opened Tables
  import opened Health
  import opened TableSteps
  import opened HashTables
  import opened Sweeping
  import opened Recovery

  const SLICE: nat := 1000

  /** `ht_iter_status_t`. */
  class IterStatus {
    var ofs: nat
    var bucketOfs: nat

    constructor ()
      ensures ofs == 0 && bucketOfs == 0
    {
      ofs, bucketOfs := 0, 0;
    }
  }

  /** What the callback is given for a node: its key and value pointers. */
  datatype Visit = Visit(key: nat, value: nat)

  ghost function Visits(ns: seq<Node>): (r: seq<Visit>)
    ensures |r| == |ns| && forall i :: 0 <= i < |ns| ==> r[i] == Visit(ns[i].kp, ns[i].vp)
  {
    seq(|ns|, i requires 0 <= i < |ns| => Visit(ns[i].kp, ns[i].vp))
  }

  /** Entries before bucket `k`. */
  ghost function Before(chains: seq<seq<Node>>, k: nat): nat
    requires k <= |chains|
  {
    |FlatNodes(chains[..k])|
  }

  /** A resting point of the iteration: `ofs` entries of bucket `k` are done. */
  ghost predicate Resting(chains: seq<seq<Node>>, k: nat, ofs: nat) {
    k <= |chains| && (if k < |chains| then ofs <= |chains[k]| else ofs == 0)
  }

  ghost function Position(chains: seq<seq<Node>>, k: nat, ofs: nat): nat
    requires Resting(chains, k, ofs)
  {
    Before(chains, k) + ofs
  }

  /** The entries of bucket `k` follow those of the buckets before it. */
  lemma {:induction false} BucketSpan(chains: seq<seq<Node>>, k: nat)
    requires k < |chains|
    ensures Before(chains, k + 1) == Before(chains, k) + |chains[k]| <= |FlatNodes(chains)|
    ensures FlatNodes(chains)[Before(chains, k)..Before(chains, k + 1)] == chains[k]
  {
    assert chains[..k + 1][..k] == chains[..k];
    if k == |chains| - 1 {
      assert chains[..k + 1] == chains;
    } else {
      var init := chains[..|chains| - 1];
      BucketSpan(init, k);
      assert init[..k] == chains[..k] && init[..k + 1] == chains[..k + 1];
    }
  }

  lemma AllBefore(chains: seq<seq<Node>>)
    ensures Before(chains, |chains|) == |FlatNodes(chains)| && Before(chains, 0) == 0
  {
    assert chains[..|chains|] == chains && chains[..0] == [];
  }

  lemma PositionFits(chains: seq<seq<Node>>, k: nat, ofs: nat)
    requires Resting(chains, k, ofs)
    ensures Position(chains, k, ofs) <= |FlatNodes(chains)|
  {
    if k < |chains| { BucketSpan(chains, k); } else { AllBefore(chains); }
  }

  /** Entry `i` of bucket `k` in the order of the iteration. */
  lemma EntryAt(chains: seq<seq<Node>>, k: nat, i: nat)
    requires k < |chains| && i < |chains[k]|
    ensures Before(chains, k) + i < |FlatNodes(chains)| && FlatNodes(chains)[Before(chains, k) + i] == chains[k][i]
  {
    BucketSpan(chains, k);
    assert FlatNodes(chains)[Before(chains, k)..Before(chains, k + 1)][i] == chains[k][i];
  }

  /** One more entry visited. */
  lemma VisitMore(ns: seq<Node>, from: nat, to: nat)
    requires from <= to < |ns|
    ensures Visits(ns[from..to + 1]) == Visits(ns[from..to]) + [Visit(ns[to].kp, ns[to].vp)]
  {
    assert ns[from..to + 1] == ns[from..to] + [ns[to]];
  }

  /** A walk along the chain `c` has passed `i` nodes and goes on at `va`. */
  ghost predicate Walking(c: seq<Node>, i: nat, va: nat) {
    i <= |c| && (if i < |c| then va == c[i].va && va != 0 else va == 0)
  }

  lemma WalkFrom(st: State, cmp: Matching, ht: nat, chains: seq<seq<Node>>, k: nat)
    requires TableOk(st, cmp, ht, chains) && k < BUCKETS
    ensures |chains| == BUCKETS && ht + TABLE <= |st.m| && Walking(chains[k], 0, Head(st.m, ht, k))
  {
    hide Word, NodeOk, Owns, HasKey, RolesShown;
    assert ChainOk(st, cmp, k, Head(st.m, ht, k), chains[k]);
  }

  lemma WalkOn(st: State, cmp: Matching, ht: nat, chains: seq<seq<Node>>, k: nat, i: nat, va: nat)
    requires TableOk(st, cmp, ht, chains) && k < BUCKETS && Walking(chains[k], i, va) && va != 0
    ensures i < |chains[k]| && va + ENTRY <= |st.m|
    ensures Word(st.m, va + 8) == chains[k][i].kp && Word(st.m, va + 16) == chains[k][i].vp
    ensures Walking(chains[k], i + 1, Word(st.m, va))
  {
    hide Word, TableOk, ChainOk, StrAt;
    TableFits(st, cmp, ht, chains);
    var c := chains[k];
    TableAt(st, cmp, ht, chains, k);
    NodeReads(st, cmp, k, Head(st.m, ht, k), c, i);
    if i + 1 < |c| { NodeReads(st, cmp, k, Head(st.m, ht, k), c, i + 1); }
  }

  /** The loop over one bucket, from its first entry; entries up to `ofs` were visited by earlier calls. */
  method IterateBucket(t: HashTable, k: nat, ofs: nat, visited0: seq<Visit>, ghost from: nat)
    returns (visited: seq<Visit>, full: bool, itemC: nat)
    requires t.Stored() && k < BUCKETS == |t.chains| && ofs <= |t.chains[k]| && |visited0| < SLICE
    requires from <= Before(t.chains, k) + ofs <= |FlatNodes(t.chains)|
    requires visited0 == Visits(FlatNodes(t.chains)[from..Before(t.chains, k) + ofs])
    ensures itemC <= |t.chains[k]| && ofs <= itemC && Before(t.chains, k) + itemC <= |FlatNodes(t.chains)|
    ensures visited == Visits(FlatNodes(t.chains)[from..Before(t.chains, k) + itemC])
    ensures if full then |visited| == SLICE else itemC == |t.chains[k]| && |visited| < SLICE
  {
    hide Word, TableOk, Sound, Visits, FlatNodes, Counts, Walking, Before;
    ghost var st, c, ns := t.St(), t.chains[k], FlatNodes(t.chains);
    BucketSpan(t.chains, k);
    WalkFrom(st, t.cmp, t.ht, t.chains, k);
    var va := t.pool.Load(t.ht + 8 + 8 * k);
    visited, full, itemC := visited0, false, 0;
    ghost var base := Before(t.chains, k);
    while va != 0
      invariant itemC <= |c| && Walking(c, itemC, va)
      invariant visited == Visits(ns[from..base + (if itemC < ofs then ofs else itemC)])
      invariant |visited| < SLICE
      decreases |c| - itemC
    {
      WalkOn(st, t.cmp, t.ht, t.chains, k, itemC, va);
      EntryAt(t.chains, k, itemC);
      itemC := itemC + 1;
      if ofs < itemC {
        VisitMore(ns, from, base + itemC - 1);
        visited := visited + [Visit(t.pool.Load(va + 8), t.pool.Load(va + 16))];
        if |visited| > SLICE - 1 { return visited, true, itemC; }
      }
      va := t.pool.Load(va);
    }
    WalkEnds(c, itemC);
  }

  lemma WalkEnds(c: seq<Node>, i: nat)
    requires Walking(c, i, 0)
    ensures i == |c|
  {
  }

  /** `ht_hash_iterate`: one slice.  It visits the next 1000 entries and returns 2,
      or the fewer that are left and returns 1. */
  method Iterate(t: HashTable, s: IterStatus) returns (r: nat, visited: seq<Visit>)
    requires t.Stored() && Resting(t.chains, s.bucketOfs, s.ofs) && |t.chains| == BUCKETS
    modifies s
    ensures t.Stored() && t.chains == old(t.chains) && Resting(t.chains, s.bucketOfs, s.ofs)
    ensures var from, to := Position(t.chains, old(s.bucketOfs), old(s.ofs)), Position(t.chains, s.bucketOfs, s.ofs);
      from <= to <= |FlatNodes(t.chains)| && visited == Visits(FlatNodes(t.chains)[from..to])
    ensures r in {1, 2}
    ensures r == 2 ==> |visited| == SLICE
    ensures r == 1 ==> |visited| < SLICE && Position(t.chains, s.bucketOfs, s.ofs) == |FlatNodes(t.chains)|
  {
    hide Word, HashTable.Stored, Visits, FlatNodes, Before;
    ghost var from, ns := Position(t.chains, s.bucketOfs, s.ofs), FlatNodes(t.chains);
    PositionFits(t.chains, s.bucketOfs, s.ofs);
    visited := [];
    NoVisits(ns, from);
    var k := s.bucketOfs;
    while k < BUCKETS
      invariant k <= BUCKETS && s.bucketOfs == k && t.Stored() && Resting(t.chains, k, s.ofs)
      invariant from <= Position(t.chains, k, s.ofs) <= |ns|
      invariant visited == Visits(ns[from..Position(t.chains, k, s.ofs)])
      invariant |visited| < SLICE
    {
      var full, itemC;
      visited, full, itemC := IterateBucket(t, k, s.ofs, visited, from);
      if full {
        s.ofs := itemC;
        return 2, visited;
      }
      BucketSpan(t.chains, k);
      s.bucketOfs := s.bucketOfs + 1;
      s.ofs := 0;
      k := k + 1;
    }
    AllBefore(t.chains);
    r := 1;
  }

  lemma NoVisits(ns: seq<Node>, from: nat)
    requires from <= |ns|
    ensures Visits(ns[from..from]) == []
  {
  }

  /** A caller that goes on until it is told 1 visits every entry once, in
      bucket-then-chain order. */
  method IterateAll(t: HashTable) returns (visited: seq<Visit>)
    requires t.Stored()
    ensures t.Stored() && t.chains == old(t.chains) && visited == Visits(FlatNodes(t.chains))
  {
    hide Word, TableOk, Sound, Visits, FlatNodes, Counts, Before;
    var s := new IterStatus();
    TableFits(t.St(), t.cmp, t.ht, t.chains);
    AllBefore(t.chains);
    visited := [];
    ghost var ns := FlatNodes(t.chains);
    NoVisits(ns, 0);
    var r := 2;
    while r == 2
      invariant r in {1, 2} && t.Stored() && Resting(t.chains, s.bucketOfs, s.ofs)
      invariant Position(t.chains, s.bucketOfs, s.ofs) <= |ns|
      invariant visited == Visits(ns[..Position(t.chains, s.bucketOfs, s.ofs)])
      invariant r == 1 ==> Position(t.chains, s.bucketOfs, s.ofs) == |ns|
      modifies s
      decreases |ns| - Position(t.chains, s.bucketOfs, s.ofs), r
    {
      ghost var from := Position(t.chains, s.bucketOfs, s.ofs);
      var more;
      r, more := Iterate(t, s);
      VisitsJoin(ns, from, Position(t.chains, s.bucketOfs, s.ofs));
      visited := visited + more;
    }
    assert ns[..|ns|] == ns;
  }

  lemma VisitsJoin(ns: seq<Node>, from: nat, to: nat)
    requires from <= to <= |ns|
    ensures Visits(ns[..to]) == Visits(ns[..from]) + Visits(ns[from..to]) && |Visits(ns[from..to])| == to - from
  {
    assert ns[..to] == ns[..from] + ns[from..to];
  }

  /** The order of the iteration lists every key of the map exactly once, beside
      the pointers at which its strings are stored. */
  lemma NodesAreView(st: State, cmp: Matching, ht: nat, chains: seq<seq<Node>>)
    requires TableOk(st, cmp, ht, chains) && Sound(cmp)
    ensures var ns := FlatNodes(chains);
      && |ns| == |st.view|
      && (forall i, j :: 0 <= i < j < |ns| ==> ns[i].key != ns[j].key)
      && (forall key :: key in st.view <==> HasKey(ns, key))
      && (forall i :: 0 <= i < |ns| ==>
            ns[i].key in st.view && st.view[ns[i].key] == ns[i].value && StrAt(st.m, ns[i].kp, ns[i].key))
      && (forall i :: 0 <= i < |ns| && ns[i].value.Some? ==> StrAt(st.m, ns[i].vp, ns[i].value.value))
  {
    hide Word, ChainOk, Owns, Sound, FlatNodes, StrAt, TableOk;
    var ns := FlatNodes(chains);
    TableFits(st, cmp, ht, chains);
    TableNodes(st, cmp, ht, chains, BUCKETS);
    assert chains[..BUCKETS] == chains;
    forall i | 0 <= i < |ns|
      ensures ns[i].key in st.view && st.view[ns[i].key] == ns[i].value
    {
      var k, x := FlatNodesFrom(chains, i);
      TableAt(st, cmp, ht, chains, k);
      ChainNode(st, cmp, k, Head(st.m, ht, k), chains[k], x);
    }
    forall key | key in st.view
      ensures HasKey(ns, key)
    {
      KeyInChain(st, cmp, ht, chains, key);
      var x :| 0 <= x < |chains[cmp.bucket(key)]| && chains[cmp.bucket(key)][x].key == key;
      var i := FlatNodesHas(chains, cmp.bucket(key), x);
    }
    KeyCount(ns, st.view);
  }

  lemma {:induction false} KeyCount(ns: seq<Node>, view: View)
    requires forall i, j :: 0 <= i < j < |ns| ==> ns[i].key != ns[j].key
    requires forall key :: key in view <==> HasKey(ns, key)
    ensures |ns| == |view|
  {
    hide HasKey;
    if ns == [] {
      forall key ensures !HasKey(ns, key) { NoKeyInEmpty(key); }
      assert view == map[];
    } else {
      var init, n := ns[..|ns| - 1], ns[|ns| - 1];
      var rest := view - {n.key};
      forall key
        ensures key in rest <==> HasKey(init, key)
      {
        KeyOfLast(ns, key);
      }
      KeyCount(init, rest);
      KeyOfLast(ns, n.key);
      assert view.Keys == rest.Keys + {n.key};
    }
  }

  lemma KeyOfLast(ns: seq<Node>, key: Bytes)
    requires ns != [] && forall i, j :: 0 <= i < j < |ns| ==> ns[i].key != ns[j].key
    ensures HasKey(ns[..|ns| - 1], key) <==> HasKey(ns, key) && key != ns[|ns| - 1].key
    ensures HasKey(ns, ns[|ns| - 1].key)
  {
    var init := ns[..|ns| - 1];
    if HasKey(init, key) {
      var i :| 0 <= i < |init| && init[i].key == key;
      assert ns[i].key == key;
    }
    if HasKey(ns, key) && key != ns[|ns| - 1].key {
      var i :| 0 <= i < |ns| && ns[i].key == key;
      assert init[i].key == key;
    }
    assert ns[|ns| - 1].key == ns[|ns| - 1].key;
  }

  /* ---- A random pair ---- */

  /** How many of the buckets hold entries. */
  ghost function FilledCount(chains: seq<seq<Node>>): nat {
    if chains == [] then 0
    else FilledCount(chains[..|chains| - 1]) + (if chains[|chains| - 1] != [] then 1 else 0)
  }

  /** Bucket `k` is the filled bucket with `n` filled ones before it. */
  ghost predicate IsNth(chains: seq<seq<Node>>, n: nat, k: nat) {
    k < |chains| && chains[k] != [] && FilledCount(chains[..k]) == n
  }

  lemma FilledStep(chains: seq<seq<Node>>, k: nat)
    requires k < |chains|
    ensures FilledCount(chains[..k + 1]) == FilledCount(chains[..k]) + (if chains[k] != [] then 1 else 0)
  {
    assert chains[..k + 1][..k] == chains[..k];
  }

  lemma {:induction false} FilledMonotone(chains: seq<seq<Node>>, j: nat, k: nat)
    requires j <= k <= |chains|
    ensures FilledCount(chains[..j]) <= FilledCount(chains[..k])
    decreases k
  {
    if j < k {
      FilledStep(chains, k - 1);
      FilledMonotone(chains, j, k - 1);
    }
  }

  lemma FilledWhole(chains: seq<seq<Node>>)
    ensures FilledCount(chains[..|chains|]) == FilledCount(chains) && FilledCount(chains[..0]) == 0
  {
    assert chains[..|chains|] == chains;
  }

  /** The first bucket whose head is set after `n` others. */
  method PickBucket(t: HashTable, draw: nat) returns (filled: nat, rk: int)
    requires t.Stored()
    ensures |t.chains| == BUCKETS && filled == FilledCount(t.chains)
    ensures filled == 0 ==> rk == -1
    ensures filled > 0 ==> rk >= 0 && IsNth(t.chains, draw % filled, rk)
  {
    hide Word, TableOk, Sound, Counts, FilledCount, Walking;
    ghost var st := t.St();
    TableFits(st, t.cmp, t.ht, t.chains);
    FilledWhole(t.chains);
    filled, rk := 0, -1;
    var k := 0;
    while k < BUCKETS
      invariant k <= BUCKETS && filled == FilledCount(t.chains[..k])
    {
      HeadTells(st, t.cmp, t.ht, t.chains, k);
      FilledStep(t.chains, k);
      if t.pool.Load(t.ht + 8 + 8 * k) != 0 { filled := filled + 1; }
      k := k + 1;
    }
    if filled == 0 { return; }
    var bnr: int := draw % filled;
    k := 0;
    while k < BUCKETS
      invariant k <= BUCKETS && bnr == draw % filled - FilledCount(t.chains[..k]) && bnr >= 0 && rk == -1
    {
      HeadTells(st, t.cmp, t.ht, t.chains, k);
      FilledStep(t.chains, k);
      if t.pool.Load(t.ht + 8 + 8 * k) != 0 {
        if bnr < 1 {
          rk := k;
          break;
        }
        bnr := bnr - 1;
      }
      k := k + 1;
    }
    if rk == -1 {
      assert false;  // abort(): the draw is less than the number of filled buckets
    }
  }

  lemma HeadTells(st: State, cmp: Matching, ht: nat, chains: seq<seq<Node>>, k: nat)
    requires TableOk(st, cmp, ht, chains) && k < BUCKETS
    ensures |chains| == BUCKETS && ht + TABLE <= |st.m| && (Head(st.m, ht, k) != 0 <==> chains[k] != [])
  {
    hide Word, TableOk;
    WalkFrom(st, cmp, ht, chains, k);
  }

  /** What is read where a value was lost: the string at the null pointer, as long as
      the offset of the first free chunk and starting behind it, inside the descriptor. */
  ghost function ValueRead(m: Bytes, n: Node): Bytes
    requires DESC <= |m| && 8 + Word(m, 0) <= |m|
  {
    match n.value
    case Some(v) => v
    case None => m[8..8 + Word(m, 0)]
  }

  lemma HeadFits(m: Bytes, fs: Chunks)
    requires Stores(m, fs) && InPool(fs, |m|)
    ensures DESC <= |m| && 8 + Word(m, 0) <= |m|
  {
    hide Word;
    StoresOffs(m, fs);
    NextWord(m, fs, -1);
    if |fs| > 0 { InPoolAt(fs, |m|, 0); }
  }

  /** `ht_random_pair` for two draws of `rand()`: nothing on an empty table, and
      otherwise a key of the table with the value read for it, its own unless that
      was lost; neither abort is reached. */
  method RandomPair(t: HashTable, draw1: nat, draw2: nat) returns (r: bool, key: Bytes, value: Bytes, ghost k: nat)
    requires t.Valid()
    ensures DESC <= |t.pool.M| && 8 + Word(t.pool.M, 0) <= |t.pool.M|
    ensures |t.chains| == BUCKETS && (!r <==> t.view == map[]) && (!r <==> FilledCount(t.chains) == 0)
    ensures r ==> IsNth(t.chains, draw1 % FilledCount(t.chains), k)
    ensures r ==> var n := t.chains[k][draw2 % |t.chains[k]|];
      n.key == key && key in t.view && t.view[key] == n.value && value == ValueRead(t.pool.M, n)
  {
    hide Word, TableOk, Sound, Counts, FilledCount, Walking, StrAt, Stores, NoTouch, Apart, InPool, Separate, ValueRead;
    r, key, value, k := false, [], [], 0;
    HeadFits(t.pool.M, t.pool.fs);
    ghost var st := t.St();
    EmptyView(st, t.cmp, t.ht, t.chains);
    var filled, rk := PickBucket(t, draw1);
    if filled == 0 { return; }
    k := rk;
    ghost var c := t.chains[k];
    WalkFrom(st, t.cmp, t.ht, t.chains, k);
    var va := t.pool.Load(t.ht + 8 + 8 * rk);
    var pairs := 0;
    while va != 0
      invariant pairs <= |c| && Walking(c, pairs, va)
      decreases |c| - pairs
    {
      WalkOn(st, t.cmp, t.ht, t.chains, k, pairs, va);
      va := t.pool.Load(va);
      pairs := pairs + 1;
    }
    WalkEnds(c, pairs);
    var left: int := draw2 % pairs;
    ghost var i := 0;
    va := t.pool.Load(t.ht + 8 + 8 * rk);
    while va != 0
      invariant i <= |c| && Walking(c, i, va) && left == draw2 % pairs - i >= 0 && !r
      decreases |c| - i
    {
      WalkOn(st, t.cmp, t.ht, t.chains, k, i, va);
      if left < 1 {
        NodeStrings(st, t.cmp, t.ht, t.chains, k, i);
        key := t.ReadString(t.pool.Load(va + 8), c[i].key);
        value := t.ReadString(t.pool.Load(va + 16), ValueRead(t.pool.M, c[i]));
        r := true;
        return;
      }
      left := left - 1;
      va := t.pool.Load(va);
      i := i + 1;
    }
    WalkEnds(c, i);
    assert false;  // abort(): the draw is less than the number of entries
  }

  lemma EmptyView(st: State, cmp: Matching, ht: nat, chains: seq<seq<Node>>)
    requires TableOk(st, cmp, ht, chains)
    ensures FilledCount(chains) == 0 <==> st.view == map[]
  {
    hide Word, TableOk, ChainOk, FilledCount;
    TableFits(st, cmp, ht, chains);
    FilledAtMost(chains);
    if k :| 0 <= k < |chains| && chains[k] != [] {
      TableAt(st, cmp, ht, chains, k);
      ChainNode(st, cmp, k, Head(st.m, ht, k), chains[k], 0);
    } else {
      forall key ensures key !in st.view {
        if key in st.view { KeyInChain(st, cmp, ht, chains, key); }
      }
    }
  }

  lemma NodeStrings(st: State, cmp: Matching, ht: nat, chains: seq<seq<Node>>, k: nat, i: nat)
    requires TableOk(st, cmp, ht, chains) && k < BUCKETS == |chains| && i < |chains[k]|
    requires DESC <= |st.m| && 8 + Word(st.m, 0) <= |st.m|
    ensures var n := chains[k][i];
      && n.key in st.view && st.view[n.key] == n.value && StrAt(st.m, n.kp, n.key)
      && StrAt(st.m, n.vp, ValueRead(st.m, n))
  {
    hide Word, ChainOk;
    TableAt(st, cmp, ht, chains, k);
    ChainNode(st, cmp, k, Head(st.m, ht, k), chains[k], i);
    NodeReads(st, cmp, k, Head(st.m, ht, k), chains[k], i);
  }

  /** Every stored pair is drawn by some pair of draws, the first below the number
      of buckets, and draws pick no other bucket than that one. */
  lemma EveryPairDrawn(chains: seq<seq<Node>>, k: nat, i: nat)
    requires k < |chains| && i < |chains[k]|
    ensures FilledCount(chains[..k]) < FilledCount(chains) <= |chains|
    ensures IsNth(chains, FilledCount(chains[..k]) % FilledCount(chains), k) && i % |chains[k]| == i
    ensures forall j :: IsNth(chains, FilledCount(chains[..k]), j) ==> j == k
  {
    hide FilledCount;
    FilledWhole(chains);
    FilledStep(chains, k);
    FilledMonotone(chains, k + 1, |chains|);
    FilledAtMost(chains);
    SmallMod(FilledCount(chains[..k]), FilledCount(chains));
    SmallMod(i, |chains[k]|);
    forall j: nat | IsNth(chains, FilledCount(chains[..k]), j)
      ensures j == k
    {
      FilledStep(chains, j);
      if j < k { FilledMonotone(chains, j + 1, k); }
      if k < j { FilledMonotone(chains, k + 1, j); }
    }
  }

  lemma SmallMod(a: nat, n: nat)
    requires a < n
    ensures a % n == a
  {
  }

  lemma {:induction false} FilledAtMost(chains: seq<seq<Node>>)
    ensures FilledCount(chains) <= |chains|
    ensures FilledCount(chains) == 0 <==> forall k :: 0 <= k < |chains| ==> chains[k] == []
  {
    if chains != [] {
      FilledAtMost(chains[..|chains| - 1]);
    }
  }
}
