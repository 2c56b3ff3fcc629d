/** No request leaks a block, but for failed ones and for deleting the head of a
    longer chain: what stays in use is what the table reaches. */
module Leaks {
  import opened Memory
  import opened Regions
  import opened Tables
  import opened Health
  import opened TableSteps
  import opened HashTables
  import opened Sweeping
  import opened Recovery

  /** A block of some node of the chains. */
  ghost predicate OfNode(chains: seq<seq<Node>>, k: nat, i: nat, a: int) {
    k < |chains| && i < |chains[k]| && a in NodeStarts(chains[k][i])
  }

  lemma {:induction false} StartsFrom(ht: nat, ns: seq<Node>, a: int) returns (i: nat)
    requires a in Starts(ht, ns) && a != ht - 8
    ensures i < |ns| && a in NodeStarts(ns[i])
  {
    if a in NodeStarts(ns[|ns| - 1]) {
      i := |ns| - 1;
    } else {
      i := StartsFrom(ht, ns[..|ns| - 1], a);
    }
  }

  /** What the table reaches, chain by chain. */
  lemma ReachedBy(ht: nat, chains: seq<seq<Node>>, a: int)
    ensures a in Starts(ht, FlatNodes(chains)) <==> a == ht - 8 || exists k: nat, i: nat :: OfNode(chains, k, i, a)
  {
    hide Starts, FlatNodes, NodeStarts;
    var ns := FlatNodes(chains);
    TableStart(ht, ns);
    if a in Starts(ht, ns) && a != ht - 8 {
      var x := StartsFrom(ht, ns, a);
      var k, i := FlatNodesFrom(chains, x);
      assert OfNode(chains, k, i, a);
    }
    if k: nat, i: nat :| OfNode(chains, k, i, a) {
      var x := FlatNodesHas(chains, k, i);
      StartsHas(ht, ns, x);
    }
  }

  ghost predicate Clean(ht: nat, live: Live, chains: seq<seq<Node>>) {
    NoLeaks(live, Starts(ht, FlatNodes(chains)))
  }

  /** Enough that every used block still belongs to a node. */
  lemma CleanFrom(ht: nat, live0: Live, chains0: seq<seq<Node>>, live: Live, chains: seq<seq<Node>>)
    requires Clean(ht, live0, chains0)
    requires forall a :: a in live ==> a == ht - 8 || a in live0 || exists k: nat, i: nat :: OfNode(chains, k, i, a)
    requires forall k: nat, i: nat, a: int ::
      OfNode(chains0, k, i, a) && a in live ==> exists x: nat, y: nat :: OfNode(chains, x, y, a)
    ensures Clean(ht, live, chains)
  {
    hide Starts, FlatNodes, OfNode;
    forall a | a in live
      ensures a in Starts(ht, FlatNodes(chains))
    {
      ReachedBy(ht, chains0, a);
      ReachedBy(ht, chains, a);
    }
  }

  /** A successful insert. */
  lemma InsertClean(t: HashTable, ht: nat, live0: Live, chains0: seq<seq<Node>>, live: Live, chains: seq<seq<Node>>,
      key: Bytes)
    requires Clean(ht, live0, chains0) && t.Inserted(live0, live, chains0, chains, key)
    ensures Clean(ht, live, chains)
  {
    hide Clean, Starts, FlatNodes;
    var k := t.cmp.bucket(key);
    var n := chains[k][0];
    forall a | a in live && a !in live0
      ensures exists x: nat, y: nat :: OfNode(chains, x, y, a)
    {
      assert OfNode(chains, k, 0, a);
    }
    forall x: nat, y: nat, a: int | OfNode(chains0, x, y, a)
      ensures exists x': nat, y': nat :: OfNode(chains, x', y', a)
    {
      assert OfNode(chains, x, if x == k then y + 1 else y, a);
    }
    CleanFrom(ht, live0, chains0, live, chains);
  }

  /** A successful update. */
  lemma UpdateClean(t: HashTable, ht: nat, live0: Live, chains0: seq<seq<Node>>, live: Live, chains: seq<seq<Node>>,
      k: nat, i: nat)
    requires Clean(ht, live0, chains0) && t.Updated(live0, live, chains0, chains, k, i)
    ensures Clean(ht, live, chains)
  {
    hide Clean, Starts, FlatNodes;
    forall a | a in live && a !in live0
      ensures exists x: nat, y: nat :: OfNode(chains, x, y, a)
    {
      assert OfNode(chains, k, i, a);
    }
    forall x: nat, y: nat, a: int | OfNode(chains0, x, y, a) && a in live
      ensures exists x': nat, y': nat :: OfNode(chains, x', y', a)
    {
      assert OfNode(chains, x, y, a);
    }
    CleanFrom(ht, live0, chains0, live, chains);
  }

  /** Deleting an entry that does not head a longer chain. */
  lemma RemoveClean(t: HashTable, ht: nat, live0: Live, chains0: seq<seq<Node>>, live: Live, chains: seq<seq<Node>>,
      k: nat, i: nat)
    requires Clean(ht, live0, chains0) && t.Removed(live0, live, chains0, chains, k, i) && (i > 0 || |chains0[k]| == 1)
    requires forall x: nat, y: nat ::
      x < |chains0| && y < |chains0[x]| && chains0[x][y].value.Some? ==> chains0[x][y].vp != 0
    ensures Clean(ht, live, chains)
  {
    hide Clean, Starts, FlatNodes;
    forall x: nat, y: nat, a: int | OfNode(chains0, x, y, a) && a in live
      ensures exists x': nat, y': nat :: OfNode(chains, x', y', a)
    {
      assert x != k || y != i;
      if x == k { DroppedAt(chains0[k], i, if y < i then y else y - 1); }
      assert OfNode(chains, x, if x == k && y > i then y - 1 else y, a);
    }
    CleanFrom(ht, live0, chains0, live, chains);
  }

  /** A value that is there has a pointer that is not null. */
  lemma ValuePointers(t: HashTable)
    requires t.Stored()
    ensures forall x: nat, y: nat ::
      x < |t.chains| && y < |t.chains[x]| && t.chains[x][y].value.Some? ==> t.chains[x][y].vp != 0
  {
    hide Word, TableOk, Sound, Counts;
    TableFits(t.St(), t.cmp, t.ht, t.chains);
    forall x: nat, y: nat | x < |t.chains| && y < |t.chains[x]| && t.chains[x][y].value.Some?
      ensures t.chains[x][y].vp != 0
    {
      t.OldValue(t.St(), x, y);
    }
  }
}
