/** How the pool's bytes store a free list: the descriptor at offset 0 doubles as
    the list's sentinel, every chunk holds `next` and `size` in its first two words. */
module Links {
  import opened Memory
  import opened FreeList

  /** Offset of list node `i`, the sentinel being node -1. */
  function NodeOff(fs: Chunks, i: int): nat
    requires i < |fs|
  {
    if i < 0 then 0 else fs[i].off
  }

  /** Offset of chunk `i`, or 0 past the end of the list. */
  function OffOr0(fs: Chunks, i: int): nat
    requires 0 <= i
  {
    if i < |fs| then fs[i].off else 0
  }

  /** The headers lie in the pool, off the descriptor, and do not overlap. */
  ghost predicate Heads(fs: Chunks, n: nat) {
    && (forall i :: 0 <= i < |fs| ==> DESC <= fs[i].off && fs[i].off + HEADER <= n && fs[i].End() <= n)
    && (forall i, j :: 0 <= i < j < |fs| ==>
          fs[i].off + HEADER <= fs[j].off || fs[j].off + HEADER <= fs[i].off)
  }

  lemma ApartHeads(fs: Chunks, n: nat)
    requires InPool(fs, n) && Apart(fs)
    ensures Heads(fs, n)
  {
    hide Word, Put;
    forall i, j | 0 <= i < j < |fs|
      ensures fs[i].off + HEADER <= fs[j].off || fs[j].off + HEADER <= fs[i].off
    {
      assert Clear(fs[i], fs[j]);
    }
  }

  /** Taking chunk `i`'s place with a header in a region without free bytes that ends at the chunk. */
  lemma HeadsMoved(fs: Chunks, i: nat, c: Chunk, n: nat, a: nat, size: nat)
    requires Heads(fs, n) && InPool(fs, n) && i < |fs| && Outside(fs, a, size) && DESC <= a && size > 0
    requires c.off == a && a + size == fs[i].off && c.End() == fs[i].End()
    ensures Heads(fs[i := c], n) && (i > 0 ==> fs[i - 1].off + HEADER <= a || a + HEADER <= fs[i - 1].off)
  {
    forall k | 0 <= k < |fs| && k != i
      ensures fs[k].off + HEADER <= a || a + HEADER <= fs[k].off
    {
      assert Clear(fs[k], Chunk(a, size));
      HeadsAt(fs, n, i, k);
    }
  }

  lemma HeadsPushed(fs: Chunks, c: Chunk, n: nat)
    requires Heads(fs, n) && InPool(fs, n) && Outside(fs, c.off, c.size) && DESC <= c.off && HEADER <= c.size
    requires c.End() <= n
    ensures Heads([c] + fs, n)
  {
    var r := [c] + fs;
    forall i, j | 0 <= i < j < |r|
      ensures r[i].off + HEADER <= r[j].off || r[j].off + HEADER <= r[i].off
    {
      assert r[j] == fs[j - 1] && Clear(fs[j - 1], Chunk(c.off, c.size));
      if i > 0 { assert r[i] == fs[i - 1]; }
    }
  }

  /** The pool `m` stores exactly the list `fs`. */
  ghost predicate Stores(m: Bytes, fs: Chunks) {
    && DESC <= |m| < LIMIT
    && Heads(fs, |m|)
    && Word(m, 0) == OffOr0(fs, 0)
    && Word(m, 8) == 0
    && (forall i :: 0 <= i < |fs| ==> Word(m, fs[i].off + 8) == fs[i].size)
    && (forall i, j :: 0 <= i < j < |fs| && j == i + 1 ==> Word(m, fs[i].off) == fs[j].off)
    && (|fs| > 0 ==> Word(m, fs[|fs| - 1].off) == 0)
  }

  lemma NextWord(m: Bytes, fs: Chunks, i: int)
    requires Stores(m, fs) && -1 <= i < |fs|
    ensures Word(m, NodeOff(fs, i)) == OffOr0(fs, i + 1)
  {
    hide Word, Put;
  }

  /** The list is determined by the bytes. */
  lemma {:induction false} StoresUnique(m: Bytes, fs: Chunks, gs: Chunks)
    requires Stores(m, fs) && Stores(m, gs)
    ensures fs == gs
  {
    hide Word, Put;
    var k := 0;
    while k < |fs| && k < |gs|
      invariant k <= |fs| && k <= |gs|
      invariant forall j :: 0 <= j < k ==> fs[j] == gs[j]
      invariant OffOr0(fs, k) == OffOr0(gs, k)
    {
      NextWord(m, fs, k);
      NextWord(m, gs, k);
      k := k + 1;
    }
  }

  /** Writing a chunk's size word. */
  lemma SizeSet(m: Bytes, fs: Chunks, i: nat, v: nat)
    requires Stores(m, fs) && i < |fs| && fs[i].off + v <= |m|
    ensures Stores(Put(m, fs[i].off + 8, v), fs[i := Chunk(fs[i].off, v)])
  {
    hide Word, Put;
    var r := fs[i := Chunk(fs[i].off, v)];
    var m' := Put(m, fs[i].off + 8, v);
    forall j | 0 <= j < |r|
      ensures NodeStored(m', r, j)
    {
      NextWord(m, fs, j);
      if j != i { HeadsAt(fs, |m|, i, j); }
    }
    HeadsSame(fs, r, |m|);
    StoresIntro(m', r);
  }

  lemma HeadsAt(fs: Chunks, n: nat, i: nat, j: nat)
    requires Heads(fs, n) && i < |fs| && j < |fs| && i != j
    ensures fs[i].off + HEADER <= fs[j].off || fs[j].off + HEADER <= fs[i].off
  {
  }

  lemma HeadsSame(fs: Chunks, gs: Chunks, n: nat)
    requires Heads(fs, n) && |gs| == |fs|
    requires forall i :: 0 <= i < |fs| ==> gs[i].off == fs[i].off && gs[i].End() <= n
    ensures Heads(gs, n)
  {
  }

  /** The words of one chunk of a stored list. */
  ghost predicate NodeStored(m: Bytes, fs: Chunks, i: nat)
    requires i < |fs| && fs[i].off + HEADER <= |m|
  {
    Word(m, fs[i].off) == OffOr0(fs, i + 1) && Word(m, fs[i].off + 8) == fs[i].size
  }

  lemma StoresIntro(m: Bytes, fs: Chunks)
    requires DESC <= |m| < LIMIT && Heads(fs, |m|)
    requires Word(m, 0) == OffOr0(fs, 0) && Word(m, 8) == 0
    requires forall i :: 0 <= i < |fs| ==> NodeStored(m, fs, i)
    ensures Stores(m, fs)
  {
    hide Word, Put;
    forall i, j | 0 <= i < j < |fs| && j == i + 1
      ensures Word(m, fs[i].off) == fs[j].off
    {
      assert NodeStored(m, fs, i);
    }
    if |fs| > 0 { assert NodeStored(m, fs, |fs| - 1); }
    forall i | 0 <= i < |fs|
      ensures Word(m, fs[i].off + 8) == fs[i].size
    {
      assert NodeStored(m, fs, i);
    }
  }

  /** Pointing chunk `i`'s list predecessor at chunk `i`'s successor. */
  lemma Unlinked(m: Bytes, fs: Chunks, i: nat)
    requires Stores(m, fs) && i < |fs|
    ensures Stores(Put(m, NodeOff(fs, i - 1), OffOr0(fs, i + 1)), RemoveAt(fs, i))
  {
    hide Word, Put;
    var m' := Put(m, NodeOff(fs, i - 1), OffOr0(fs, i + 1));
    var r := RemoveAt(fs, i);
    assert Heads(r, |m'|);
    forall j | 0 <= j < |r|
      ensures NodeStored(m', r, j)
    {
      UnlinkedNode(m, fs, i, j);
    }
    NextWord(m, fs, -1);
    StoresIntro(m', r);
  }

  lemma UnlinkedNode(m: Bytes, fs: Chunks, i: nat, j: nat)
    requires Stores(m, fs) && i < |fs| && j < |fs| - 1
    ensures NodeStored(Put(m, NodeOff(fs, i - 1), OffOr0(fs, i + 1)), RemoveAt(fs, i), j)
  {
    hide Word, Put;
    var k := if j < i then j else j + 1;
    NextWord(m, fs, k);
    if i > 0 && k != i - 1 {
      assert fs[i - 1].off + HEADER <= fs[k].off || fs[k].off + HEADER <= fs[i - 1].off;
    }
  }

  /** `m'` is `m` with a header for `c` written and the word at `p` pointing at it. */
  ghost predicate Hooked(m: Bytes, m': Bytes, c: Chunk, next: nat, p: nat) {
    && |m'| == |m| && c.off + HEADER <= |m| && p + 8 <= |m|
    && (p + 8 <= c.off || c.off + HEADER <= p)
    && Word(m', c.off) == next && Word(m', c.off + 8) == c.size && Word(m', p) == c.off
    && forall b: nat {:trigger Word(m', b)} ::
         (b + 8 <= |m| && (b + 8 <= c.off || c.off + HEADER <= b) && (b + 8 <= p || p + 8 <= b)) ==>
           Word(m', b) == Word(m, b)
  }

  lemma HookedBy(m: Bytes, c: Chunk, next: nat, p: nat)
    requires c.off + HEADER <= |m| < LIMIT && p + 8 <= |m| && next < LIMIT && c.size < LIMIT
    requires p + 8 <= c.off || c.off + HEADER <= p
    ensures Hooked(m, Put(Put(Put(m, c.off, next), c.off + 8, c.size), p, c.off), c, next, p)
  {
    hide Word, Put;
    var m1 := Put(m, c.off, next);
    var m2 := Put(m1, c.off + 8, c.size);
    var m3 := Put(m2, p, c.off);
    forall b: nat | b + 8 <= |m| && (b + 8 <= c.off || c.off + HEADER <= b) && (b + 8 <= p || p + 8 <= b)
      ensures Word(m3, b) == Word(m, b)
    {
      assert Word(m1, b) == Word(m, b);
      assert Word(m2, b) == Word(m1, b);
    }
  }

  /** Writing a fresh header and pointing the descriptor at it. */
  lemma Pushed(m: Bytes, m': Bytes, fs: Chunks, c: Chunk)
    requires Stores(m, fs) && Heads([c] + fs, |m|) && Hooked(m, m', c, OffOr0(fs, 0), 0)
    ensures Stores(m', [c] + fs)
  {
    hide Word, Put;
    var r := [c] + fs;
    forall j | 0 <= j < |r|
      ensures NodeStored(m', r, j)
    {
      PushedNode(m, m', fs, c, j);
    }
    StoresIntro(m', r);
  }

  lemma PushedNode(m: Bytes, m': Bytes, fs: Chunks, c: Chunk, j: nat)
    requires Stores(m, fs) && Heads([c] + fs, |m|) && Hooked(m, m', c, OffOr0(fs, 0), 0)
    requires j <= |fs|
    ensures NodeStored(m', [c] + fs, j)
  {
    hide Word, Put;
    var r := [c] + fs;
    if j > 0 {
      NextWord(m, fs, j - 1);
      assert r[0].off + HEADER <= r[j].off || r[j].off + HEADER <= r[0].off;
    }
  }

  /** Writing a header that takes chunk `i`'s place in the list. */
  lemma Replaced(m: Bytes, m': Bytes, fs: Chunks, i: nat, c: Chunk)
    requires Stores(m, fs) && i < |fs| && Heads(fs[i := c], |m|)
    requires Hooked(m, m', c, OffOr0(fs, i + 1), NodeOff(fs, i - 1))
    ensures Stores(m', fs[i := c])
  {
    hide Word, Put;
    var r := fs[i := c];
    forall j | 0 <= j < |r|
      ensures NodeStored(m', r, j)
    {
      ReplacedNode(m, m', fs, i, c, j);
    }
    NextWord(m, fs, -1);
    assert r[i] == c;
    StoresIntro(m', r);
  }

  lemma ReplacedNode(m: Bytes, m': Bytes, fs: Chunks, i: nat, c: Chunk, j: nat)
    requires Stores(m, fs) && i < |fs| && j < |fs| && Heads(fs[i := c], |m|)
    requires Hooked(m, m', c, OffOr0(fs, i + 1), NodeOff(fs, i - 1))
    ensures NodeStored(m', fs[i := c], j)
  {
    hide Word, Put;
    var r := fs[i := c];
    ChunkReads(m, fs, j);
    if j != i { HeadsAt(r, |m|, i, j); }
    if i > 0 && j != i - 1 { HeadsAt(r, |m|, i - 1, j); }
    hide Stores, Heads;
  }

  lemma ChunkReads(m: Bytes, fs: Chunks, j: nat)
    requires Stores(m, fs) && j < |fs|
    ensures fs[j].off + HEADER <= |m| && Word(m, fs[j].off) == OffOr0(fs, j + 1) && Word(m, fs[j].off + 8) == fs[j].size
  {
    hide Word;
    NextWord(m, fs, j);
  }

  /** A write that misses every header and the sentinel words keeps the list. */
  lemma StoresFrame(m: Bytes, m': Bytes, fs: Chunks)
    requires Stores(m, fs) && |m'| == |m|
    requires forall k :: 0 <= k < 16 ==> m'[k] == m[k]
    requires forall i, k :: 0 <= i < |fs| && fs[i].off <= k < fs[i].off + HEADER ==> m'[k] == m[k]
    ensures Stores(m', fs)
  {
    hide Word, Put;
    AgreeWord(m, m', 0);
    AgreeWord(m, m', 8);
    forall i | 0 <= i < |fs|
      ensures Word(m', fs[i].off) == Word(m, fs[i].off) && Word(m', fs[i].off + 8) == Word(m, fs[i].off + 8)
    {
      AgreeWord(m, m', fs[i].off);
      AgreeWord(m, m', fs[i].off + 8);
    }
  }

  /* ---- Lists in arbitrary memory ---- */

  /** Following `next` words from the descriptor passes exactly the chunks `v`. */
  ghost predicate LinkedPrefix(m: Bytes, v: Chunks) {
    && DESC <= |m|
    && (forall i :: 0 <= i < |v| ==> 0 < v[i].off && v[i].off + HEADER <= |m| && Word(m, v[i].off + 8) == v[i].size)
    && (|v| > 0 ==> Word(m, 0) == v[0].off)
    && (forall i, j :: 0 <= i < j < |v| && j == i + 1 ==> Word(m, v[i].off) == v[j].off)
  }

  /** Where the list goes on after the chunks `v`. */
  function NextVa(m: Bytes, v: Chunks): nat
    requires DESC <= |m| && (|v| > 0 ==> v[|v| - 1].off + HEADER <= |m|)
  {
    if v == [] then Word(m, 0) else Word(m, v[|v| - 1].off)
  }

  /** The memory links exactly the list `fs`, whatever the chunks' sizes are. */
  ghost predicate Linked(m: Bytes, fs: Chunks) {
    LinkedPrefix(m, fs) && NextVa(m, fs) == 0
  }

  lemma StoresLinked(m: Bytes, fs: Chunks)
    requires Stores(m, fs)
    ensures Linked(m, fs)
  {
  }

  /** A walk along a linked list sees a prefix of it. */
  lemma PrefixNext(m: Bytes, v: Chunks, fs: Chunks)
    requires LinkedPrefix(m, v) && Linked(m, fs) && |v| <= |fs| && v == fs[..|v|]
    ensures NextVa(m, v) == OffOr0(fs, |v|)
    ensures |v| < |fs| ==> NextVa(m, v) > 0 && fs[|v|] == Chunk(NextVa(m, v), Word(m, NextVa(m, v) + 8))
  {
    if |v| > 0 { assert v[|v| - 1] == fs[|v| - 1]; }
  }

  lemma {:induction false} LinkedUnique(m: Bytes, fs: Chunks, gs: Chunks)
    requires Linked(m, fs) && Linked(m, gs)
    ensures fs == gs
  {
    hide Word;
    var k := 0;
    while k < |fs| && k < |gs|
      invariant k <= |fs| && k <= |gs| && fs[..k] == gs[..k]
      decreases |fs| - k
    {
      LinkedCut(m, fs, k);
      LinkedCut(m, gs, k);
      k := k + 1;
    }
    LinkedCut(m, fs, k);
    LinkedCut(m, gs, k);
  }

  /** Where a linked list goes on after its first `k` chunks. */
  lemma LinkedCut(m: Bytes, fs: Chunks, k: nat)
    requires Linked(m, fs) && k <= |fs|
    ensures LinkedPrefix(m, fs[..k]) && NextVa(m, fs[..k]) == OffOr0(fs, k)
    ensures k < |fs| ==> OffOr0(fs, k) > 0 && OffOr0(fs, k) + HEADER <= |m|
    ensures k < |fs| ==> fs[k] == Chunk(OffOr0(fs, k), Word(m, OffOr0(fs, k) + 8)) && fs[..k + 1] == fs[..k] + [fs[k]]
  {
    hide Word;
    assert forall i :: 0 <= i < k ==> fs[..k][i] == fs[i];
    if k == |fs| { assert fs[..k] == fs; }
  }

  lemma PrefixStep(m: Bytes, v: Chunks)
    requires LinkedPrefix(m, v) && 0 < NextVa(m, v) && NextVa(m, v) + HEADER <= |m|
    ensures LinkedPrefix(m, v + [Chunk(NextVa(m, v), Word(m, NextVa(m, v) + 8))])
    ensures NextVa(m, v + [Chunk(NextVa(m, v), Word(m, NextVa(m, v) + 8))]) == Word(m, NextVa(m, v))
  {
    var c := Chunk(NextVa(m, v), Word(m, NextVa(m, v) + 8));
    var r := v + [c];
    assert forall i :: 0 <= i < |v| ==> r[i] == v[i];
    assert r[|v|] == c;
  }
}
