/** Two instances of the table's key matching: the comparison as written, whose
    inner `continue` only continues the byte loop, and the intended one. */
module KeyMatch {
  import opened Memory
  import opened Endless
  import opened Marking
  import opened Tables

  /** The key test inside the loops of `ht_lookup` and `ht_delete`: a differing
      byte only skips to the next byte. */
  method KeyTest(stored: Bytes, key: Bytes) returns (found: bool)
    ensures found <==> |stored| == |key|
  {
    var l := |stored|;
    if l != |key| { return false; }
    var i := 0;
    while i < l
      invariant 0 <= i <= l
    {
      i := i + 1;
      if stored[i - 1] != key[i - 1] { continue; }
    }
    return true;
  }

  /** Keys match by bucket and length: what the test amounts to inside one bucket. */
  function AsWritten(hash: Bytes -> nat): Matching {
    Matching(k => hash(k) % BUCKETS, (a: Bytes, b: Bytes) => |a| == |b| && hash(a) % BUCKETS == hash(b) % BUCKETS)
  }

  function Intended(hash: Bytes -> nat): Matching {
    Matching(k => hash(k) % BUCKETS, (a: Bytes, b: Bytes) => a == b)
  }

  /** The table theorems hold of both. */
  lemma BothSound(hash: Bytes -> nat)
    ensures Sound(AsWritten(hash)) && Sound(Intended(hash))
  {
    var w, e := AsWritten(hash), Intended(hash);
    assert forall a :: w.bucket(a) < BUCKETS && e.bucket(a) < BUCKETS;
  }

  /** Along the chain of the looked-up key's bucket, where every stored key has
      that bucket, the test and the relation are the same. */
  lemma TestIsMatch(hash: Bytes -> nat, st: State, ht: nat, chains: seq<seq<Node>>, key: Bytes, i: nat)
    requires TableOk(st, AsWritten(hash), ht, chains)
    requires i < |chains[hash(key) % BUCKETS]|
    ensures var n := chains[hash(key) % BUCKETS][i];
      AsWritten(hash).same(n.key, key) <==> |n.key| == |key|
  {
    hide Word, StrAt, Owns, LinkedNodes;
    var cmp, k := AsWritten(hash), hash(key) % BUCKETS;
    TableAt(st, cmp, ht, chains, k);
    assert NodeOk(st, cmp, k, chains[k][i]);
    assert cmp.bucket(chains[k][i].key) == k;
  }

  /** As written a key finds its own pair, and nothing else, exactly when the map
      holds no other key of its length in its bucket. */
  lemma FindsOwnPair(hash: Bytes -> nat, view: View, key: Bytes)
    ensures (forall k :: k in view ==> (AsWritten(hash).same(k, key) <==> Intended(hash).same(k, key)))
      <==> forall k :: k in view && k != key && hash(k) % BUCKETS == hash(key) % BUCKETS ==> |k| != |key|
  {
    var w, e := AsWritten(hash), Intended(hash);
    forall k | k in view
      ensures (w.same(k, key) <==> e.same(k, key))
        <==> !(k != key && hash(k) % BUCKETS == hash(key) % BUCKETS && |k| == |key|)
    {
    }
    if forall k :: k in view && k != key && hash(k) % BUCKETS == hash(key) % BUCKETS ==> |k| != |key| {
      forall k | k in view ensures w.same(k, key) <==> e.same(k, key) {}
    }
  }

  /** Whatever the hash function, the code as written confuses two keys. */
  lemma SomeKeysConfused(hash: Bytes -> nat)
    ensures exists a, b :: a != b && AsWritten(hash).same(a, b)
  {
    var key: nat -> Bytes := x => [(x % 256) as byte, (x / 256 % 256) as byte];
    var f: nat -> nat := x => hash(key(x)) % BUCKETS;
    var i, j := Pigeonhole(f, 65536, BUCKETS);
    assert f(i) == f(j);
    assert key(i) != key(j) by {
      assert i == 256 * (i / 256 % 256) + i % 256 && j == 256 * (j / 256 % 256) + j % 256;
      assert key(i)[0] == key(j)[0] && key(i)[1] == key(j)[1] ==> i == j;
    }
    assert AsWritten(hash).same(key(i), key(j));
  }
}
