/** A well-formed pool is healthy: what the checker will mark is pairwise
    disjoint, and it is exactly the descriptor, the free list and the blocks the
    table can reach. */
module Health {
  import opened Memory
  import opened FreeList
  import opened Links
  import opened Regions
  import opened Acceptance
  import opened Marking
  import opened Tables

  ghost function VaSeq(c: seq<Node>): (r: seq<nat>)
    ensures |r| == |c| && forall i :: 0 <= i < |c| ==> r[i] == c[i].va
  {
    seq(|c|, i requires 0 <= i < |c| => c[i].va)
  }

  ghost function Vas(chains: seq<seq<Node>>): (r: seq<seq<nat>>)
    ensures |r| == |chains| && forall k :: 0 <= k < |chains| ==> r[k] == VaSeq(chains[k])
  {
    seq(|chains|, k requires 0 <= k < |chains| => VaSeq(chains[k]))
  }

  /** All nodes, in bucket-then-chain order. */
  ghost function FlatNodes(chains: seq<seq<Node>>): seq<Node> {
    if chains == [] then [] else FlatNodes(chains[..|chains| - 1]) + chains[|chains| - 1]
  }

  lemma {:induction false} FlatVas(chains: seq<seq<Node>>)
    ensures Flat(Vas(chains)) == VaSeq(FlatNodes(chains))
  {
    if chains != [] {
      var init, last := chains[..|chains| - 1], chains[|chains| - 1];
      FlatVas(init);
      assert Vas(chains)[..|chains| - 1] == Vas(init);
      assert VaSeq(FlatNodes(init) + last) == VaSeq(FlatNodes(init)) + VaSeq(last);
    }
  }

  /** Every value is there: no update has failed on any of these nodes. */
  ghost predicate Full(ns: seq<Node>) {
    forall i :: 0 <= i < |ns| ==> ns[i].value.Some?
  }

  /** Where a node's blocks start. */
  ghost function NodeStarts(n: Node): set<int> {
    {n.va - 8, n.kp - 8} + (if n.value.Some? then {n.vp - 8} else {})
  }

  /** Where the blocks start that the table can reach. */
  ghost function Starts(ht: nat, ns: seq<Node>): set<int> {
    if ns == [] then {ht - 8} else Starts(ht, ns[..|ns| - 1]) + NodeStarts(ns[|ns| - 1])
  }

  /** Nodes with distinct keys, each owning its blocks. */
  ghost predicate NodesOk(st: State, ns: seq<Node>) {
    && (forall i :: 0 <= i < |ns| ==> NodeAt(st.m, ns[i]) && NodeBlocks(st, ns[i]))
    && (forall i, j :: 0 <= i < j < |ns| ==> ns[i].key != ns[j].key)
  }

  ghost predicate NodeBlocks(st: State, n: Node) {
    && Owns(st, n.va, EntryBlock(n.key), ENTRY) && Owns(st, n.kp, KeyBlock(n.key), |n.key| + 9)
    && (n.value.Some? ==> Owns(st, n.vp, ValueBlock(n.key), |n.value.value| + 9))
  }

  ghost predicate InRegions(live: Live, starts: set<int>, b: int) {
    exists a :: a in starts && a in live && a <= b < a + live[a]
  }

  /** Descriptor bytes, free bytes and bytes of the regions in `starts`. */
  ghost predicate Marked(live: Live, fs: Chunks, starts: set<int>, b: int) {
    0 <= b < DESC || Covers(fs, b) || InRegions(live, starts, b)
  }

  ghost predicate WellPlaced(regs: Chunks, n: nat) {
    Apart(regs) && forall i :: 0 <= i < |regs| ==> regs[i].size > 0 && regs[i].End() <= n
  }

  lemma CoversMore(regs: Chunks, c: Chunk)
    ensures forall b {:trigger Covers(regs + [c], b)} ::
      Covers(regs + [c], b) <==> Covers(regs, b) || c.off <= b < c.End()
  {
    hide Covers;
    var r := regs + [c];
    forall b
      ensures Covers(r, b) <==> Covers(regs, b) || c.off <= b < c.End()
    {
      if Covers(r, b) {
        var k := CoverIndex(r, b);
        if k < |regs| { CoversAt(regs, k, b); }
      }
      if Covers(regs, b) { var k := CoverIndex(regs, b); CoversAt(r, k, b); }
      if c.off <= b < c.End() { CoversAt(r, |regs|, b); }
    }
  }

  lemma PlacedAccepted(regs: Chunks, n: nat)
    requires WellPlaced(regs, n) && n < LIMIT
    ensures AcceptsAll({}, n, regs) && NoneIdle(regs)
  {
    ApartAccepted(regs, n);
  }

  ghost predicate Placed(live: Live, fs: Chunks, starts: set<int>, regs: Chunks, n: nat) {
    WellPlaced(regs, n) && forall b :: Covers(regs, b) <==> Marked(live, fs, starts, b)
  }

  lemma PlacedMore(regs: Chunks, c: Chunk, n: nat)
    requires WellPlaced(regs, n) && c.size > 0 && c.End() <= n
    requires forall b :: c.off <= b < c.End() ==> !Covers(regs, b)
    ensures WellPlaced(regs + [c], n)
  {
    var r := regs + [c];
    hide Covers;
    forall i | 0 <= i < |regs|
      ensures Clear(regs[i], c)
    {
      var b := if regs[i].off <= c.off then c.off else regs[i].off;
      if regs[i].off <= b < regs[i].End() { CoversAt(regs, i, b); }
    }
  }

  /** One more live region among the marked ones. */
  lemma AddStart(live: Live, fs: Chunks, starts: set<int>, regs: Chunks, n: nat, a: nat)
    requires Placed(live, fs, starts, regs, n) && Separate(live, fs, n) && a in live && a !in starts
    ensures Placed(live, fs, starts + {a}, regs + [Chunk(a, live[a])], n)
  {
    hide Covers, Outside, WellPlaced;
    var c := Chunk(a, live[a]);
    OutsideUncovered(fs, a, live[a]);
    forall b | a <= b < a + live[a]
      ensures !InRegions(live, starts, b)
    {
      forall x | x in starts && x in live
        ensures !(x <= b < x + live[x])
      {
        assert Disjoint(a, live[a], x, live[x]);
      }
    }
    PlacedMore(regs, c, n);
    CoversMore(regs, c);
    forall b
      ensures InRegions(live, starts + {a}, b) <==> InRegions(live, starts, b) || a <= b < a + live[a]
    {
      if InRegions(live, starts, b) {
        var x :| x in starts && x in live && x <= b < x + live[x];
        assert x in starts + {a};
      }
      assert a in starts + {a};
    }
  }

  lemma PlacedStart(live: Live, fs: Chunks, n: nat)
    requires InPool(fs, n) && Apart(fs) && DESC <= n
    ensures Placed(live, fs, {}, [DESCRIPTOR] + fs, n)
  {
    hide Covers, Apart, InPool;
    var r := [DESCRIPTOR] + fs;
    forall b
      ensures Covers(r, b) <==> 0 <= b < DESC || Covers(fs, b)
    {
      if Covers(r, b) { var k := CoverIndex(r, b); if k > 0 { CoversAt(fs, k - 1, b); } }
      if Covers(fs, b) { var k := CoverIndex(fs, b); CoversAt(r, k + 1, b); }
      if 0 <= b < DESC { CoversAt(r, 0, b); }
    }
    DescriptorApart(fs, n);
  }

  lemma DescriptorApart(fs: Chunks, n: nat)
    requires InPool(fs, n) && Apart(fs) && DESC <= n
    ensures WellPlaced([DESCRIPTOR] + fs, n)
  {
    var r := [DESCRIPTOR] + fs;
    forall i, j | 0 <= i < j < |r|
      ensures Clear(r[i], r[j])
    {
      assert r[j] == fs[j - 1];
      if i > 0 { assert r[i] == fs[i - 1]; }
    }
    forall i | 0 <= i < |r| ensures r[i].size > 0 && r[i].End() <= n { if i > 0 { assert r[i] == fs[i - 1]; } }
  }

  /** The starts of nodes seen so far carry their keys' roles. */
  lemma {:induction false} StartRoles(st: State, ht: nat, ns: seq<Node>, a: int)
    requires NodesOk(st, ns) && Owns(st, ht, TableBlock, TABLE) && a in Starts(ht, ns)
    ensures a in st.role && a in st.live
    ensures RoleKey(st.role[a]).Some? ==> HasKey(ns, RoleKey(st.role[a]).value)
  {
    hide Word, NodeAt;
    if ns != [] {
      var init, n := ns[..|ns| - 1], ns[|ns| - 1];
      if a in NodeStarts(n) {
        assert NodeBlocks(st, n);
      } else {
        StartRoles(st, ht, init, a);
        if RoleKey(st.role[a]).Some? {
          var i :| 0 <= i < |init| && init[i].key == RoleKey(st.role[a]).value;
          assert ns[i] == init[i];
        }
      }
    }
  }

  /** The blocks of a node whose key is new are new. */
  lemma NodeStartsFresh(st: State, ht: nat, ns: seq<Node>, n: Node)
    requires NodesOk(st, ns) && Owns(st, ht, TableBlock, TABLE) && NodeBlocks(st, n) && !HasKey(ns, n.key)
    ensures forall a :: a in NodeStarts(n) ==> a !in Starts(ht, ns)
  {
    hide Word, NodesOk, HasKey;
    forall a | a in NodeStarts(n)
      ensures a !in Starts(ht, ns)
    {
      if a in Starts(ht, ns) { StartRoles(st, ht, ns, a); }
    }
  }

  lemma NodePlaced(st: State, fs: Chunks, ht: nat, ns: seq<Node>, n: Node, regs: Chunks)
    requires NodesOk(st, ns + [n]) && NodeAt(st.m, n) && NodeBlocks(st, n) && n.value.Some?
    requires Owns(st, ht, TableBlock, TABLE) && Separate(st.live, fs, |st.m|) && |st.m| < LIMIT
    requires Placed(st.live, fs, Starts(ht, ns), regs, |st.m|)
    ensures EntryOk(st.m, n.va)
    ensures Placed(st.live, fs, Starts(ht, ns + [n]), regs + EntryBlocks(st.m, n.va), |st.m|)
  {
    hide Word, Placed, Covers, StrAt, NodesOk, HasKey;
    NodesInit(st, ns, n);
    NodeStartsFresh(st, ht, ns, n);
    NodeEntry(st, fs, n);
    assert (ns + [n])[..|ns|] == ns;
    var s0 := Starts(ht, ns);
    var a, k, v := n.va - 8, n.kp - 8, n.vp - 8;
    var A, K, V := Chunk(a, st.live[a]), Chunk(k, st.live[k]), Chunk(v, st.live[v]);
    AddStart(st.live, fs, s0, regs, |st.m|, a);
    AddStart(st.live, fs, s0 + {a}, regs + [A], |st.m|, k);
    AddStart(st.live, fs, s0 + {a} + {k}, regs + [A] + [K], |st.m|, v);
    assert regs + [A] + [K] + [V] == regs + EntryBlocks(st.m, n.va);
    assert s0 + {a} + {k} + {v} == s0 + NodeStarts(n);
  }

  lemma NodesInit(st: State, ns: seq<Node>, n: Node)
    requires NodesOk(st, ns + [n])
    ensures NodesOk(st, ns) && !HasKey(ns, n.key)
  {
    var r := ns + [n];
    assert r[|ns|] == n && forall i :: 0 <= i < |ns| ==> r[i] == ns[i];
  }

  lemma NodeEntry(st: State, fs: Chunks, n: Node)
    requires NodeAt(st.m, n) && NodeBlocks(st, n) && n.value.Some? && Separate(st.live, fs, |st.m|) && |st.m| < LIMIT
    ensures EntryOk(st.m, n.va)
    ensures EntryBlocks(st.m, n.va) ==
      [Chunk(n.va - 8, st.live[n.va - 8]), Chunk(n.kp - 8, st.live[n.kp - 8]), Chunk(n.vp - 8, st.live[n.vp - 8])]
  {
    hide Word, StrAt, Outside;
  }

  lemma VaSeqSnoc(ns: seq<Node>, n: Node)
    ensures VaSeq(ns + [n]) == VaSeq(ns) + [n.va]
  {
  }

  lemma RegsSnoc(m: Bytes, fs: Chunks, ht: nat, es: seq<nat>, e: nat)
    requires 8 <= ht <= |m| && EntriesOk(m, es) && EntryOk(m, e)
    ensures EntriesOk(m, es + [e]) && Regs(m, fs, ht, es + [e]) == Regs(m, fs, ht, es) + EntryBlocks(m, e)
  {
    hide EntryOk, EntryBlocks;
    BlocksOne(m, es, e);
  }

  /** What the checker marks on a well-formed pool is well placed and exactly as expected. */
  lemma {:induction false} AllPlaced(st: State, fs: Chunks, ht: nat, ns: seq<Node>)
    requires NodesOk(st, ns) && Full(ns) && Owns(st, ht, TableBlock, TABLE)
    requires Separate(st.live, fs, |st.m|) && InPool(fs, |st.m|) && Apart(fs) && DESC <= |st.m| < LIMIT
    ensures EntriesOk(st.m, VaSeq(ns))
    ensures Placed(st.live, fs, Starts(ht, ns), Regs(st.m, fs, ht, VaSeq(ns)), |st.m|)
  {
    if ns == [] {
      NothingPlaced(st, fs, ht);
    } else {
      hide Word, Placed, NodeAt, NodeBlocks, Owns, Separate, InPool, Apart, Regs, EntryOk, EntriesOk;
      var init, n := ns[..|ns| - 1], ns[|ns| - 1];
      assert ns == init + [n];
      NodesInit(st, init, n);
      FullInit(ns);
      LastNode(st, init, n);
      AllPlaced(st, fs, ht, init);
      assert 8 <= ht <= |st.m| by { OwnsBounds(st, ht); }
      NodePlaced(st, fs, ht, init, n, Regs(st.m, fs, ht, VaSeq(init)));
      VaSeqSnoc(init, n);
      RegsSnoc(st.m, fs, ht, VaSeq(init), n.va);
    }
  }

  lemma OwnsBounds(st: State, ht: nat)
    requires Owns(st, ht, TableBlock, TABLE) && |st.m| < LIMIT
    ensures DESC + 8 <= ht && ht + TABLE <= |st.m| && ht - 8 in st.live && PointerOk(st.m, ht)
    ensures Block(st.m, ht) == Chunk(ht - 8, st.live[ht - 8])
  {
    hide Word;
  }

  lemma FullInit(ns: seq<Node>)
    requires Full(ns) && ns != []
    ensures Full(ns[..|ns| - 1]) && ns[|ns| - 1].value.Some?
  {
  }

  lemma LastNode(st: State, ns: seq<Node>, n: Node)
    requires NodesOk(st, ns + [n])
    ensures NodeAt(st.m, n) && NodeBlocks(st, n)
  {
    assert (ns + [n])[|ns|] == n;
  }

  lemma NothingPlaced(st: State, fs: Chunks, ht: nat)
    requires Owns(st, ht, TableBlock, TABLE)
    requires Separate(st.live, fs, |st.m|) && InPool(fs, |st.m|) && Apart(fs) && DESC <= |st.m| < LIMIT
    ensures EntriesOk(st.m, VaSeq([])) && 8 <= ht <= |st.m|
    ensures Placed(st.live, fs, Starts(ht, []), Regs(st.m, fs, ht, VaSeq([])), |st.m|)
  {
    hide Word, Placed, Separate, InPool, Apart;
    OwnsBounds(st, ht);
    PlacedStart(st.live, fs, |st.m|);
    AddStart(st.live, fs, {}, [DESCRIPTOR] + fs, |st.m|, ht - 8);
    assert VaSeq([]) == [];
    assert Regs(st.m, fs, ht, []) == [DESCRIPTOR] + fs + [Block(st.m, ht)];
    assert {} + {ht - 8} == Starts(ht, []);
  }

  /* ---- From the table to its nodes ---- */

  lemma NoNodesOk(st: State)
    ensures FlatNodes([]) == [] && NodesOk(st, [])
  {
  }

  lemma FlatNodesMore(chains: seq<seq<Node>>, k: nat)
    requires k < |chains|
    ensures FlatNodes(chains[..k + 1]) == FlatNodes(chains[..k]) + chains[k]
  {
    assert chains[..k + 1][..k] == chains[..k] && chains[..k + 1][k] == chains[k];
  }

  /** The nodes of the first |ch| buckets, all keys distinct. */
  lemma {:induction false} TableNodes(st: State, cmp: Matching, ht: nat, chains: seq<seq<Node>>, k: nat)
    requires TableOk(st, cmp, ht, chains) && Sound(cmp) && k <= BUCKETS
    ensures NodesOk(st, FlatNodes(chains[..k]))
    ensures forall i :: 0 <= i < |FlatNodes(chains[..k])| ==> cmp.bucket(FlatNodes(chains[..k])[i].key) < k
  {
    hide Word, Sound, ChainOk, TableOk, NodesOk, FlatNodes;
    TableFits(st, cmp, ht, chains);
    if k == 0 {
      assert chains[..0] == [];
      NoNodesOk(st);
    } else {
      TableNodes(st, cmp, ht, chains, k - 1);
      TableAt(st, cmp, ht, chains, k - 1);
      FlatNodesMore(chains, k - 1);
      NodesJoin(st, cmp, k - 1, Head(st.m, ht, k - 1), FlatNodes(chains[..k - 1]), chains[k - 1]);
    }
  }

  lemma NodesJoin(st: State, cmp: Matching, k: nat, head: nat, ns: seq<Node>, c: seq<Node>)
    requires NodesOk(st, ns) && Sound(cmp) && ChainOk(st, cmp, k, head, c)
    requires forall i :: 0 <= i < |ns| ==> cmp.bucket(ns[i].key) < k
    ensures NodesOk(st, ns + c) && forall i :: 0 <= i < |ns + c| ==> cmp.bucket((ns + c)[i].key) <= k
  {
    hide Word, NodeAt, Owns, Sound, LinkedNodes;
    var r := ns + c;
    forall i | 0 <= i < |r|
      ensures NodeAt(st.m, r[i]) && NodeBlocks(st, r[i]) && cmp.bucket(r[i].key) <= k
      ensures i >= |ns| ==> cmp.bucket(r[i].key) == k
    {
      if i >= |ns| { assert NodeOk(st, cmp, k, c[i - |ns|]); }
    }
    forall i, j | 0 <= i < j < |r|
      ensures r[i].key != r[j].key
    {
      if i >= |ns| {
        SameSym(cmp, r[i].key, r[i].key);
        assert !cmp.same(c[i - |ns|].key, c[j - |ns|].key);
      }
    }
  }

  /* ---- A well-formed pool is healthy ---- */

  lemma ChainVas(m: Bytes, head: nat, c: seq<Node>)
    requires LinkedNodes(m, head, c) && EntriesOk(m, VaSeq(c))
    ensures Chain(m, head, VaSeq(c))
  {
    hide Word, EntryOk;
  }

  lemma {:induction false} FlatHas(ch: seq<seq<nat>>, k: nat, i: nat)
    requires k < |ch| && i < |ch[k]|
    ensures exists x :: 0 <= x < |Flat(ch)| && Flat(ch)[x] == ch[k][i]
  {
    if k == |ch| - 1 {
      assert Flat(ch)[|Flat(ch[..|ch| - 1])| + i] == ch[k][i];
    } else {
      FlatHas(ch[..|ch| - 1], k, i);
      var x :| 0 <= x < |Flat(ch[..|ch| - 1])| && Flat(ch[..|ch| - 1])[x] == ch[k][i];
      assert Flat(ch)[x] == ch[k][i];
    }
  }

  lemma EntriesOfChain(m: Bytes, ch: seq<seq<nat>>, k: nat)
    requires EntriesOk(m, Flat(ch)) && k < |ch|
    ensures EntriesOk(m, ch[k])
  {
    hide EntryOk, Flat;
    forall i | 0 <= i < |ch[k]|
      ensures EntryOk(m, ch[k][i])
    {
      FlatHas(ch, k, i);
    }
  }

  /** What the table of a well-formed pool looks like to the marking, whatever the free list is. */
  lemma TableChains(st: State, fs: Chunks, cmp: Matching, ht: nat, chains: seq<seq<Node>>)
    requires Sound(cmp) && TableOk(st, cmp, ht, chains) && Full(FlatNodes(chains)) && Separate(st.live, fs, |st.m|)
    requires DESC <= |st.m| < LIMIT
    ensures DESC + 8 <= ht && PointerOk(st.m, ht) && Chains(st.m, ht, Vas(chains)) && |Vas(chains)| == BUCKETS
    ensures EntriesOk(st.m, Flat(Vas(chains)))
  {
    hide Word, Owns, NodesOk, Starts, Regs, EntriesOk, EntryOk, Sound, HasKey, NodeOk, Flat, Placed, Outside;
    var ns := FlatNodes(chains);
    TableNodes(st, cmp, ht, chains, BUCKETS);
    assert chains[..BUCKETS] == chains;
    OwnsBounds(st, ht);
    assert Separate(st.live, [], |st.m|) && InPool([], |st.m|) && Apart([]) by { FreeNone(st.live, fs, |st.m|); }
    AllPlaced(st, [], ht, ns);
    FlatVas(chains);
    var ch := Vas(chains);
    forall k | 0 <= k < BUCKETS
      ensures Chain(st.m, Head(st.m, ht, k), ch[k])
    {
      TableAt(st, cmp, ht, chains, k);
      EntriesOfChain(st.m, ch, k);
      ChainVas(st.m, Head(st.m, ht, k), chains[k]);
    }
  }

  lemma FreeNone(live: Live, fs: Chunks, n: nat)
    requires Separate(live, fs, n)
    ensures Separate(live, [], n) && InPool([], n) && Apart([])
  {
  }

  /** The hypotheses under which the checker runs on a crash-free or crashed-insert pool. */
  ghost predicate PoolOk(st: State, fs: Chunks, cmp: Matching, ht: nat, chains: seq<seq<Node>>) {
    && Sound(cmp) && TableOk(st, cmp, ht, chains) && Full(FlatNodes(chains))
    && Stores(st.m, fs) && InPool(fs, |st.m|) && Apart(fs) && Separate(st.live, fs, |st.m|)
  }

  lemma PoolPlaced(st: State, fs: Chunks, cmp: Matching, ht: nat, chains: seq<seq<Node>>)
    requires PoolOk(st, fs, cmp, ht, chains)
    ensures var es := Flat(Vas(chains)); var ns := FlatNodes(chains);
      && 8 <= ht <= |st.m| && EntriesOk(st.m, es) && NodesOk(st, ns)
      && Placed(st.live, fs, Starts(ht, ns), Regs(st.m, fs, ht, es), |st.m|)
  {
    hide Word, ChainOk, Owns, Placed, NodesOk, Starts, Regs, EntriesOk, Sound, HasKey;
    var ns := FlatNodes(chains);
    TableNodes(st, cmp, ht, chains, BUCKETS);
    assert chains[..BUCKETS] == chains;
    OwnsBounds(st, ht);
    AllPlaced(st, fs, ht, ns);
    FlatVas(chains);
  }

  lemma PoolHealthy(st: State, fs: Chunks, cmp: Matching, ht: nat, chains: seq<seq<Node>>)
    requires PoolOk(st, fs, cmp, ht, chains)
    ensures Healthy(st.m, ht, fs, Vas(chains))
  {
    hide Word, Owns, NodesOk, Starts, Regs, EntriesOk, EntryOk, Sound, HasKey, NodeOk, Flat, TableOk, Chains,
      AcceptsAll, WellPlaced;
    PoolPlaced(st, fs, cmp, ht, chains);
    TableChains(st, fs, cmp, ht, chains);
    StoresLinked(st.m, fs);
    PlacedAccepted(Regs(st.m, fs, ht, Flat(Vas(chains))), |st.m|);
  }
}
