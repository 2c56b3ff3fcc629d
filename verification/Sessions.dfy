/** Whole crash-free sessions on one namespace: any sequence of requests, from
    the creation of the pool on, is answered as the map would answer it. */
module Sessions {
  import opened Memory
  import opened Rounding
  import opened FreeList
  import opened Links
  import opened Regions
  import opened Allocation
  import opened Pools
  import opened Marking
  import opened Tables
  import opened Health
  import opened TableSteps
  import opened HashTables
  import opened Sweeping
  import opened Recovery
  import opened Creation
  import opened Leaks

  datatype Request = Put(key: Bytes, value: Bytes) | Get(key: Bytes) | Remove(key: Bytes)

  datatype Reply = Done(ok: bool) | Found(value: Option<Bytes>)

  /** The map, and which of its keys head the chains of their buckets. */
  datatype Shown = Shown(view: View, heads: set<Bytes>)

  ghost predicate HeadsChain(cmp: Matching, chains: seq<seq<Node>>, key: Bytes) {
    cmp.bucket(key) < |chains| && |chains[cmp.bucket(key)]| > 0 && chains[cmp.bucket(key)][0].key == key
  }

  ghost function HeadKeys(cmp: Matching, view: View, chains: seq<seq<Node>>): set<Bytes> {
    set k | k in view && HeadsChain(cmp, chains, k)
  }

  ghost function ShownBy(t: HashTable): Shown
    reads t
  {
    Shown(t.view, HeadKeys(t.cmp, t.view, t.chains))
  }

  /** The keys of `ks` in other buckets. */
  ghost function OtherBuckets(cmp: Matching, ks: set<Bytes>, key: Bytes): set<Bytes> {
    set k | k in ks && cmp.bucket(k) != cmp.bucket(key)
  }

  /** The map answers `q` with `a` and becomes `s'`.  `k0` stands for the one key of
      the map that matches.  A failed update loses its value; a new key heads its
      chain; and removing a key that heads its chain removes the whole bucket. */
  ghost predicate Answers(cmp: Matching, s: Shown, q: Request, a: Reply, s': Shown) {
    match q
    case Put(key, value) =>
      && a.Done?
      && (Unmatched(cmp, s.view, key) ==>
            s' == if a.ok then Shown(s.view[key := Some(value)], OtherBuckets(cmp, s.heads, key) + {key}) else s)
      && (forall k0 :: k0 in s.view && cmp.same(k0, key) ==>
            s' == Shown(s.view[k0 := if a.ok then Some(value) else None], s.heads))
    case Get(key) =>
      && a.Found? && s' == s
      && (Unmatched(cmp, s.view, key) ==> a.value == None)
      && (forall k0 :: k0 in s.view && cmp.same(k0, key) ==> a.value == s.view[k0])
    case Remove(key) =>
      && a.Done? && (a.ok <==> !Unmatched(cmp, s.view, key))
      && (Unmatched(cmp, s.view, key) ==> s' == s)
      && (forall k0 :: k0 in s.view && cmp.same(k0, key) ==>
            s' == if k0 in s.heads then Shown(WithoutBucket(s.view, cmp, cmp.bucket(key)), s.heads - {k0})
                  else Shown(s.view - {k0}, s.heads))
  }

  ghost predicate Unmatched(cmp: Matching, view: View, key: Bytes) {
    forall k :: k in view ==> !cmp.same(k, key)
  }

  /* ---- Room ---- */

  /** The blocks a put of a new key allocates, in order. */
  ghost function Blocks(min: nat, key: Bytes, value: Bytes): seq<nat> {
    [NeedFor(min, |value| + 9), NeedFor(min, |key| + 9), NeedFor(min, ENTRY)]
  }

  /** The list `fs'` is `fs` with at most `k` regions given back. */
  ghost predicate GivesBack(fs: Chunks, fs': Chunks, k: nat) {
    exists gaps :: |gaps| <= k && fs' == ReleaseAll(fs, gaps) && Grows(fs, fs')
  }

  /** Whether there is room decides how a put is answered, and what it does to the list:
      a new key needs three blocks, a key in the map one for its new value, after which
      the old one is given back. */
  ghost predicate Fares(cmp: Matching, min: nat, view: View, q: Request, a: Reply, fs: Chunks, fs': Chunks) {
    match q
    case Put(key, value) =>
      var s := NeedFor(min, |value| + 9);
      && a.Done?
      && (if Unmatched(cmp, view, key) then
            (a.ok <==> Fits(fs, Blocks(min, key, value))) && fs' == Tried(fs, Blocks(min, key, value))
          else
            && (a.ok <==> Serves(fs, s))
            && (if a.ok then GivesBack(Taken(fs, s), fs', 1) else fs' == fs))
    case Get(key) => fs' == fs
    case Remove(key) => if Unmatched(cmp, view, key) then fs' == fs else GivesBack(fs, fs', 3)
  }

  /** What a request may cost. */
  ghost function Cost(min: nat, q: Request): nat {
    match q
    case Put(key, value) => Sum(Blocks(min, key, value))
    case Get(_) => 0
    case Remove(_) => 0
  }

  ghost function Costs(min: nat, qs: seq<Request>): nat {
    if qs == [] then 0 else Costs(min, qs[..|qs| - 1]) + Cost(min, qs[|qs| - 1])
  }

  lemma CostIs(min: nat, q: Request)
    ensures Cost(min, q) == 0 || Cost(min, q) >= HEADER
    ensures q.Put? ==> Cost(min, q) >= NeedFor(min, |q.value| + 9) + HEADER
  {
    hide NeedFor;
    if q.Put? {
      var ss := Blocks(min, q.key, q.value);
      assert Sum(ss) == ss[0] + Sum(ss[1..]) && Sum(ss[1..]) == ss[1..][0] + Sum(ss[1..][1..]);
      assert ss[1..][0] == ss[1] >= HEADER;
    }
  }

  /** What is spared beside a request's cost is spared after it, and a put is answered with true. */
  lemma FaresSpares(cmp: Matching, min: nat, view: View, q: Request, a: Reply, fs: Chunks, fs': Chunks, n: nat, r: nat)
    requires Canonical(fs, n) && Canonical(fs', n) && Fares(cmp, min, view, q, a, fs, fs')
    requires Spare(fs, Cost(min, q) + r) && (r == 0 || HEADER <= r)
    ensures (q.Put? ==> a == Done(true)) && Spare(fs', r)
  {
    hide NeedFor, Canonical, Unmatched, Fits, Serves, Tried, Taken, Sum, Spare;
    match q {
      case Put(key, value) =>
        var ss, s := Blocks(min, key, value), NeedFor(min, |value| + 9);
        if Unmatched(cmp, view, key) {
          TriedSpares(fs, ss, r);
        } else {
          CostIs(min, q);
          var rest := Cost(min, q) - s + r;
          assert Serves(fs, s + rest) by { SpareServes(fs, s + rest); }
          TakenSpares(fs, s, rest);
          TakenCanonical(fs, s, n);
          GivenSpares(Taken(fs, s), fs', n, rest, 1);
          SpareLess(fs', rest, r);
        }
      case Get(key) =>
      case Remove(key) =>
        if !Unmatched(cmp, view, key) { GivenSpares(fs, fs', n, r, 3); }
    }
  }

  lemma SpareServes(fs: Chunks, r: nat)
    requires Spare(fs, r) && r > 0
    ensures Serves(fs, r)
  {
  }

  lemma GivenSpares(fs: Chunks, fs': Chunks, n: nat, r: nat, k: nat)
    requires Canonical(fs, n) && Canonical(fs', n) && GivesBack(fs, fs', k) && Spare(fs, r)
    ensures Spare(fs', r)
  {
    hide Canonical, Spare, Covers;
    GrownSpares(fs, fs', n, r);
  }

  ghost predicate Short(qs: seq<Request>) {
    forall i :: 0 <= i < |qs| && qs[i].Put? ==> |qs[i].key| <= MAX_STRING && |qs[i].value| <= MAX_STRING
  }

  /** The views before and after each request. */
  ghost predicate Explained(cmp: Matching, views: seq<Shown>, qs: seq<Request>, replies: seq<Reply>) {
    && |views| == |qs| + 1 && |replies| == |qs|
    && forall i, j :: 0 <= i < j < |views| && j == i + 1 ==> Answers(cmp, views[i], qs[i], replies[i], views[j])
  }

  /** The free lists before and after each request. */
  ghost predicate Fared(cmp: Matching, min: nat, views: seq<Shown>, qs: seq<Request>, replies: seq<Reply>,
      lists: seq<Chunks>, n: nat) {
    && |lists| == |views| == |qs| + 1 && |replies| == |qs|
    && (forall i :: 0 <= i < |lists| ==> Canonical(lists[i], n))
    && forall i, j :: 0 <= i < j < |lists| && j == i + 1 ==>
         Fares(cmp, min, views[i].view, qs[i], replies[i], lists[i], lists[j])
  }

  /** An answered request that leaks nothing: no failed allocation, and no deleted
      head of a longer chain. */
  ghost predicate Gentle(cmp: Matching, chains: seq<seq<Node>>, q: Request, a: Reply) {
    match q
    case Put(_, _) => a.Done? && a.ok
    case Get(_) => true
    case Remove(key) =>
      var k := cmp.bucket(key);
      k < |chains| ==> |chains[k]| <= 1 || !cmp.same(chains[k][0].key, key)
  }

  /** Enough for that, in terms of the map: what is removed is alone in its bucket. */
  ghost predicate Harmless(cmp: Matching, view: View, q: Request, a: Reply) {
    match q
    case Put(_, _) => a.Done? && a.ok
    case Get(_) => true
    case Remove(key) => forall x :: x in view && cmp.bucket(x) == cmp.bucket(key) ==> cmp.same(x, key)
  }

  lemma HarmlessGentle(t: HashTable, q: Request, a: Reply)
    requires t.Valid() && Harmless(t.cmp, t.view, q, a)
    ensures Gentle(t.cmp, t.chains, q, a)
  {
    hide Word, TableOk, Sound, Stores, Canonical, Separate, Counts, ChainOk;
    if q.Remove? {
      BucketFits(t, q.key);
      var k := t.cmp.bucket(q.key);
      var c := t.chains[k];
      if |c| > 1 { TwoInChain(t, k, q.key); }
    }
  }

  /** Two entries of a chain cannot both match a key. */
  lemma TwoInChain(t: HashTable, k: nat, key: Bytes)
    requires t.Valid() && k < |t.chains| && |t.chains[k]| > 1
    ensures var c := t.chains[k];
      c[0].key in t.view && c[1].key in t.view && t.cmp.bucket(c[0].key) == k && t.cmp.bucket(c[1].key) == k
      && !(t.cmp.same(c[0].key, key) && t.cmp.same(c[1].key, key))
  {
    hide Word, TableOk, Sound, Stores, Canonical, Separate, Counts, ChainOk;
    var st, c := t.St(), t.chains[k];
    TableFits(st, t.cmp, t.ht, t.chains);
    TableAt(st, t.cmp, t.ht, t.chains, k);
    ChainNode(st, t.cmp, k, Head(st.m, t.ht, k), c, 0);
    ChainNode(st, t.cmp, k, Head(st.m, t.ht, k), c, 1);
    SameSym(t.cmp, c[0].key, key);
    SameSym(t.cmp, c[1].key, key);
    SameTrans(t.cmp, c[0].key, key, c[1].key);
    SameTrans(t.cmp, c[1].key, key, c[0].key);
    SamePosition(st, t.cmp, k, Head(st.m, t.ht, k), c, 0, 1);
  }

  /** One request. */
  method Serve(t: HashTable, q: Request) returns (a: Reply)
    requires t.Valid() && t.pool.Full() && (q.Put? ==> |q.key| <= MAX_STRING && |q.value| <= MAX_STRING)
    modifies t, t.pool`M, t.pool`fs, t.pool`live, t.pool.mem
    ensures t.Valid() && t.pool.Full() && Answers(t.cmp, old(ShownBy(t)), q, a, ShownBy(t))
    ensures |t.pool.M| == |old(t.pool.M)| && DESC <= |t.pool.M| && MinAlloc(t.pool.M) == MinAlloc(old(t.pool.M))
    ensures Fares(t.cmp, MinAlloc(t.pool.M), old(t.view), q, a, old(t.pool.fs), t.pool.fs)
    ensures Clean(t.ht, old(t.pool.live), old(t.chains)) && Gentle(t.cmp, old(t.chains), q, a) ==>
      Clean(t.ht, t.pool.live, t.chains)
  {
    hide Clean, HashTable.Stored, Pool.Ok, Pool.Full, WithoutBucket, HeadsChain, MinAlloc, Fits, Serves, NeedFor,
      Tried, Taken;
    BucketFits(t, q.key);
    match q {
      case Put(key, value) => a := ServePut(t, key, value);
      case Get(key) =>
        var v := t.Get(key);
        a := Found(v);
      case Remove(key) => a := ServeRemove(t, key);
    }
  }

  method ServePut(t: HashTable, key: Bytes, value: Bytes) returns (a: Reply)
    requires t.Valid() && t.pool.Full() && |key| <= MAX_STRING && |value| <= MAX_STRING
    modifies t, t.pool`M, t.pool`fs, t.pool`live, t.pool.mem
    ensures t.Valid() && t.pool.Full() && Answers(t.cmp, old(ShownBy(t)), Put(key, value), a, ShownBy(t))
    ensures |t.pool.M| == |old(t.pool.M)| && DESC <= |t.pool.M| && MinAlloc(t.pool.M) == MinAlloc(old(t.pool.M))
    ensures Fares(t.cmp, MinAlloc(t.pool.M), old(t.view), Put(key, value), a, old(t.pool.fs), t.pool.fs)
    ensures Clean(t.ht, old(t.pool.live), old(t.chains)) && a == Done(true) ==> Clean(t.ht, t.pool.live, t.chains)
  {
    hide Clean, HashTable.Inserted, HashTable.Updated, Word, TableOk, Sound, Stores, Canonical, Separate, Tiled, Counts,
      AtMostTwoMore, Fits, InsertNeeds, Serves, SameDescriptor, SameLog, Pending, Quiet, Pool.Full, SameKeys,
      HeadsChain,
      HashTable.Stored, HashTable.Valid, Pool.Ok, HashTable.CrashState, WithoutBucket, OtherBuckets, HeadKeys,
      HashTable.Given, HashTable.Usable, HashTable.Standing, NoDoubles, Taken, Tried, Blocks, NeedFor, MinAlloc, Need;
    ghost var live0, chains0, s0, fs0, m0 := t.pool.live, t.chains, ShownBy(t), t.pool.fs, t.pool.M;
    BucketFits(t, key);
    BlocksAre(m0, key, value);
    SameSym(t.cmp, key, key);
    t.ValidIs();
    var ok, crashed := t.Set(key, value, false);
    a := Done(ok);
    SmallestKept(m0, t.pool.M);
    if Clean(t.ht, live0, chains0) && ok { PutClean(t, live0, chains0, key); }
    if ok && !Unmatched(t.cmp, s0.view, key) { PutGives(t, live0, chains0, key, Taken(fs0, Need(m0, |value| + 9))); }
    if Unmatched(t.cmp, s0.view, key) {
      if ok { HeadsInserted(t, s0.view, chains0, live0, key, value); }
    } else {
      forall k0 | k0 in s0.view && t.cmp.same(k0, key)
        ensures ShownBy(t) == Shown(s0.view[k0 := if ok then Some(value) else None], s0.heads)
      {
        PutKeys(s0.view, k0, if ok then Some(value) else None);
        HeadsSame(t.cmp, s0.view, chains0, t.view, t.chains);
      }
    }
  }

  lemma BlocksAre(m: Bytes, key: Bytes, value: Bytes)
    requires DESC <= |m|
    ensures InsertNeeds(m, key, value) == Blocks(MinAlloc(m), key, value)
    ensures Need(m, |value| + 9) == NeedFor(MinAlloc(m), |value| + 9)
  {
  }

  lemma SmallestKept(m: Bytes, m': Bytes)
    requires DESC <= |m| && SameDescriptor(m, m')
    ensures |m'| == |m| && MinAlloc(m') == MinAlloc(m)
  {
    hide Word;
    SameWord(m, m', VERSION);
    SameWord(m, m', MIN_ALLOC);
  }

  /** A value that was replaced is given back. */
  lemma PutGives(t: HashTable, live0: Live, chains0: seq<seq<Node>>, key: Bytes, fs: Chunks)
    requires exists i: nat ::
      && t.Updated(live0, t.pool.live, chains0, t.chains, t.cmp.bucket(key), i)
      && var gaps := t.Region(live0, chains0[t.cmp.bucket(key)][i].vp);
         t.Given(fs, gaps) && (t.Usable() <==> NoDoubles(fs, gaps))
    ensures GivesBack(fs, t.pool.fs, 1)
  {
    hide HashTable.Usable, Grows, Shape, ReleaseAll, NoDoubles;
    var i: nat :| t.Updated(live0, t.pool.live, chains0, t.chains, t.cmp.bucket(key), i)
      && var gaps := t.Region(live0, chains0[t.cmp.bucket(key)][i].vp);
         t.Given(fs, gaps) && (t.Usable() <==> NoDoubles(fs, gaps));
    var gaps := t.Region(live0, chains0[t.cmp.bucket(key)][i].vp);
    GivenGives(t, fs, gaps, 1);
  }

  lemma GivenGives(t: HashTable, fs: Chunks, gaps: Chunks, k: nat)
    requires t.Given(fs, gaps) && |gaps| <= k
    ensures GivesBack(fs, t.pool.fs, k)
  {
    hide ReleaseAll, Grows, NoDoubles, InPool, Apart, NoTouch, Twice, Crisp;
  }

  /** A value that is replaced leaves the keys as they are. */
  lemma PutKeys(view: View, k: Bytes, v: Option<Bytes>)
    requires k in view
    ensures view[k := v].Keys == view.Keys
  {
  }

  method ServeRemove(t: HashTable, key: Bytes) returns (a: Reply)
    requires t.Valid() && t.pool.Full()
    modifies t, t.pool`M, t.pool`fs, t.pool`live, t.pool.mem
    ensures t.Valid() && t.pool.Full() && Answers(t.cmp, old(ShownBy(t)), Remove(key), a, ShownBy(t))
    ensures |t.pool.M| == |old(t.pool.M)| && DESC <= |t.pool.M| && MinAlloc(t.pool.M) == MinAlloc(old(t.pool.M))
    ensures Fares(t.cmp, MinAlloc(t.pool.M), old(t.view), Remove(key), a, old(t.pool.fs), t.pool.fs)
    ensures Clean(t.ht, old(t.pool.live), old(t.chains)) && Gentle(t.cmp, old(t.chains), Remove(key), a) ==>
      Clean(t.ht, t.pool.live, t.chains)
  {
    hide Clean, HashTable.Removed, Word, TableOk, Stores, Canonical, Separate, Tiled, Counts, WithoutBucket, SameLog,
      Pool.Full, HeadsChain, HashTable.Stored, Pool.Ok, HashTable.CrashState, Sound, HashTable.Given, HashTable.Usable,
      HashTable.Standing, NoDoubles, HashTable.NodeRegions, MinAlloc, HashTable.Safely;
    ghost var live0, chains0, view0, fs0, m0 := t.pool.live, t.chains, t.view, t.pool.fs, t.pool.M;
    ValuePointers(t);
    BucketFits(t, key);
    RemoveHeads(t, key);
    var ok, crashed;
    ghost var head, freed;
    t.ValidIs();
    ok, crashed, head, freed := t.Delete(key, false);
    a := Done(ok);
    LogDescriptor(m0, t.pool.M);
    SmallestKept(m0, t.pool.M);
    if ok { FreesThree(t, live0, chains0, key, fs0, freed); }
    if Clean(t.ht, live0, chains0) && Gentle(t.cmp, chains0, Remove(key), a) && ok {
      DroppedClean(t, live0, chains0, key, head);
    }
    if ok { HeadsRemoved(t, view0, chains0, live0, key, head); }
  }

  lemma FreesThree(t: HashTable, live0: Live, chains0: seq<seq<Node>>, key: Bytes, fs0: Chunks, freed: Chunks)
    requires (exists i: nat :: t.Frees(live0, chains0, key, i, freed)) && t.Given(fs0, freed)
    ensures GivesBack(fs0, t.pool.fs, 3)
  {
    hide HashTable.Given, GivesBack;
    GivenGives(t, fs0, freed, 3);
  }

  lemma HeadsSame(cmp: Matching, view0: View, chains0: seq<seq<Node>>, view: View, chains: seq<seq<Node>>)
    requires SameKeys(chains0, chains)
    ensures view.Keys == view0.Keys ==> HeadKeys(cmp, view, chains) == HeadKeys(cmp, view0, chains0)
  {
    if view.Keys == view0.Keys {
      forall k ensures k in view <==> k in view0 { assert k in view.Keys <==> k in view0.Keys; }
    }
  }

  lemma HeadsInserted(t: HashTable, view0: View, chains0: seq<seq<Node>>, live0: Live, key: Bytes, value: Bytes)
    requires t.Inserted(live0, t.pool.live, chains0, t.chains, key)
    ensures t.view == view0[key := Some(value)] && key !in view0 ==>
      HeadKeys(t.cmp, t.view, t.chains) == OtherBuckets(t.cmp, HeadKeys(t.cmp, view0, chains0), key) + {key}
  {
    var k := t.cmp.bucket(key);
    forall x
      ensures HeadsChain(t.cmp, t.chains, x) <==>
        if t.cmp.bucket(x) == k then x == key else HeadsChain(t.cmp, chains0, x)
    {
    }
  }

  /** A key that is to be removed heads its chain if the entry that matches does. */
  lemma RemoveHeads(t: HashTable, key: Bytes)
    requires t.Valid() && t.cmp.bucket(key) < |t.chains|
    ensures forall k0 :: k0 in t.view && t.cmp.same(k0, key) ==>
      (t.Heads(key) <==> HeadsChain(t.cmp, t.chains, k0)) && t.cmp.bucket(k0) == t.cmp.bucket(key)
  {
    hide Word, TableOk, Sound, Stores, Canonical, Separate, Counts, ChainOk;
    var st, k := t.St(), t.cmp.bucket(key);
    TableFits(st, t.cmp, t.ht, t.chains);
    TableAt(st, t.cmp, t.ht, t.chains, k);
    var c := t.chains[k];
    forall k0 | k0 in t.view && t.cmp.same(k0, key)
      ensures (t.Heads(key) <==> HeadsChain(t.cmp, t.chains, k0)) && t.cmp.bucket(k0) == k
    {
      SameSym(t.cmp, k0, key);
      if t.Heads(key) {
        ChainNode(st, t.cmp, k, Head(st.m, t.ht, k), c, 0);
        SameTrans(t.cmp, c[0].key, key, k0);
        MatchUnique(st, t.cmp, t.ht, t.chains, c[0].key, k0);
      }
    }
  }

  lemma HeadsRemoved(t: HashTable, view0: View, chains0: seq<seq<Node>>, live0: Live, key: Bytes, head: bool)
    requires exists i: nat ::
      t.Removed(live0, t.pool.live, chains0, t.chains, t.cmp.bucket(key), i) && (head <==> i == 0)
    ensures forall k0 ::
      k0 in view0 && t.cmp.bucket(k0) == t.cmp.bucket(key) && (head <==> HeadsChain(t.cmp, chains0, k0)) ==>
      && (head && t.view == WithoutBucket(view0, t.cmp, t.cmp.bucket(key)) ==>
            HeadKeys(t.cmp, t.view, t.chains) == HeadKeys(t.cmp, view0, chains0) - {k0})
      && (!head && t.view == view0 - {k0} ==> HeadKeys(t.cmp, t.view, t.chains) == HeadKeys(t.cmp, view0, chains0))
  {
    var k := t.cmp.bucket(key);
    var i: nat :| t.Removed(live0, t.pool.live, chains0, t.chains, k, i) && (head <==> i == 0);
    forall x
      ensures HeadsChain(t.cmp, t.chains, x) <==> HeadsChain(t.cmp, chains0, x) && (t.cmp.bucket(x) == k ==> i > 0)
    {
    }
  }

  lemma BucketFits(t: HashTable, key: Bytes)
    requires t.Valid()
    ensures Sound(t.cmp) && t.cmp.bucket(key) < |t.chains| && DESC <= |t.pool.M|
  {
    hide Word, TableOk, Sound, Stores, Canonical, Separate, Counts;
    TableFits(t.St(), t.cmp, t.ht, t.chains);
    SameSym(t.cmp, key, key);
  }

  lemma PutClean(t: HashTable, live0: Live, chains0: seq<seq<Node>>, key: Bytes)
    requires Clean(t.ht, live0, chains0)
    requires t.Inserted(live0, t.pool.live, chains0, t.chains, key) ||
      exists i: nat :: t.Updated(live0, t.pool.live, chains0, t.chains, t.cmp.bucket(key), i)
    ensures Clean(t.ht, t.pool.live, t.chains)
  {
    hide Clean, HashTable.Inserted, HashTable.Updated;
    var k := t.cmp.bucket(key);
    if t.Inserted(live0, t.pool.live, chains0, t.chains, key) {
      InsertClean(t, t.ht, live0, chains0, t.pool.live, t.chains, key);
    } else {
      var i: nat :| t.Updated(live0, t.pool.live, chains0, t.chains, k, i);
      UpdateClean(t, t.ht, live0, chains0, t.pool.live, t.chains, k, i);
    }
  }

  lemma DroppedClean(t: HashTable, live0: Live, chains0: seq<seq<Node>>, key: Bytes, head: bool)
    requires Clean(t.ht, live0, chains0) && Sound(t.cmp)
    requires t.cmp.bucket(key) < |chains0|
    requires (|chains0[t.cmp.bucket(key)]| <= 1 || !t.cmp.same(chains0[t.cmp.bucket(key)][0].key, key))
    requires head == (|chains0[t.cmp.bucket(key)]| > 0 && t.cmp.same(chains0[t.cmp.bucket(key)][0].key, key))
    requires exists i: nat ::
      t.Removed(live0, t.pool.live, chains0, t.chains, t.cmp.bucket(key), i) && (head <==> i == 0)
    requires forall x: nat, y: nat ::
      x < |chains0| && y < |chains0[x]| && chains0[x][y].value.Some? ==> chains0[x][y].vp != 0
    ensures Clean(t.ht, t.pool.live, t.chains)
  {
    hide Clean;
    var k := t.cmp.bucket(key);
    var i: nat :| t.Removed(live0, t.pool.live, chains0, t.chains, k, i) && (head <==> i == 0);
    RemoveClean(t, t.ht, live0, chains0, t.pool.live, t.chains, k, i);
  }

  /** As long as all requests so far together cost no more than `room`, every put is answered with true. */
  ghost predicate InRoomDone(min: nat, qs: seq<Request>, replies: seq<Reply>, room: nat)
    requires |replies| == |qs|
  {
    forall i :: 0 <= i < |qs| && qs[i].Put? && Costs(min, qs[..i + 1]) <= room ==> replies[i] == Done(true)
  }

  /** So it is with the size of any chunk of the first list. */
  lemma RoomForAll(cmp: Matching, min: nat, views: seq<Shown>, qs: seq<Request>, replies: seq<Reply>,
      lists: seq<Chunks>, n: nat, room: nat)
    requires Fared(cmp, min, views, qs, replies, lists, n) && Spare(lists[0], room)
    ensures |replies| == |qs| && InRoomDone(min, qs, replies, room)
  {
    hide Fares, Canonical, Costs, Spare, Cost;
    forall i | 0 <= i < |qs| && qs[i].Put? && Costs(min, qs[..i + 1]) <= room
      ensures replies[i] == Done(true)
    {
      RoomAt(cmp, min, views, qs, replies, lists, n, room, i + 1, i);
      CostsMore(min, qs, i);
      FaredAt(cmp, min, views, qs, replies, lists, n, i);
      FaresSpares(cmp, min, views[i].view, qs[i], replies[i], lists[i], lists[i + 1], n, 0);
    }
  }

  lemma {:induction false} RoomAt(cmp: Matching, min: nat, views: seq<Shown>, qs: seq<Request>, replies: seq<Reply>,
      lists: seq<Chunks>, n: nat, room: nat, k: nat, i: nat)
    requires Fared(cmp, min, views, qs, replies, lists, n) && Spare(lists[0], room)
    requires i <= k <= |qs| && Costs(min, qs[..k]) <= room
    ensures i < |lists|
    ensures Costs(min, qs[..i]) <= Costs(min, qs[..k]) && Spare(lists[i], Costs(min, qs[..k]) - Costs(min, qs[..i]))
  {
    hide Fares, Canonical, Costs, Spare, Cost, Fared;
    assert |lists| == |qs| + 1 by { FaredLength(cmp, min, views, qs, replies, lists, n); }
    CostsGrow(min, qs, i, k);
    if i == 0 {
      assert Costs(min, qs[..0]) == 0 by { NoCosts(min, qs); }
      SpareLess(lists[0], room, Costs(min, qs[..k]));
    } else {
      CostsMore(min, qs, i - 1);
      RoomAt(cmp, min, views, qs, replies, lists, n, room, k, i - 1);
      FaredAt(cmp, min, views, qs, replies, lists, n, i - 1);
      FaresSpares(cmp, min, views[i - 1].view, qs[i - 1], replies[i - 1], lists[i - 1], lists[i], n,
        Costs(min, qs[..k]) - Costs(min, qs[..i]));
    }
  }

  lemma FaredLength(cmp: Matching, min: nat, views: seq<Shown>, qs: seq<Request>, replies: seq<Reply>,
      lists: seq<Chunks>, n: nat)
    requires Fared(cmp, min, views, qs, replies, lists, n)
    ensures |lists| == |views| == |qs| + 1 && |replies| == |qs|
  {
  }

  lemma FaredAt(cmp: Matching, min: nat, views: seq<Shown>, qs: seq<Request>, replies: seq<Reply>,
      lists: seq<Chunks>, n: nat, i: nat)
    requires Fared(cmp, min, views, qs, replies, lists, n) && i < |qs|
    ensures |lists| == |views| == |qs| + 1 && |replies| == |qs|
    ensures Canonical(lists[i], n) && Canonical(lists[i + 1], n)
    ensures Fares(cmp, min, views[i].view, qs[i], replies[i], lists[i], lists[i + 1])
  {
    hide Fares, Canonical;
  }

  lemma NoCosts(min: nat, qs: seq<Request>)
    ensures Costs(min, qs[..0]) == 0
  {
  }

  lemma CostsMore(min: nat, qs: seq<Request>, i: nat)
    requires i < |qs|
    ensures Costs(min, qs[..i + 1]) == Costs(min, qs[..i]) + Cost(min, qs[i])
  {
    assert qs[..i + 1][..i] == qs[..i];
  }

  lemma {:induction false} CostsGrow(min: nat, qs: seq<Request>, i: nat, k: nat)
    requires i <= k <= |qs|
    ensures Costs(min, qs[..i]) == Costs(min, qs[..k]) || Costs(min, qs[..i]) + HEADER <= Costs(min, qs[..k])
  {
    hide Costs, Cost;
    if i < k {
      CostsGrow(min, qs, i, k - 1);
      CostsMore(min, qs, k - 1);
      CostIs(min, qs[k - 1]);
    }
  }

  lemma FaredMore(cmp: Matching, min: nat, views: seq<Shown>, qs: seq<Request>, i: nat, replies: seq<Reply>,
      lists: seq<Chunks>, n: nat, a: Reply, view: Shown, fs: Chunks)
    requires i < |qs| && Fared(cmp, min, views, qs[..i], replies, lists, n) && Canonical(fs, n)
    requires Fares(cmp, min, views[i].view, qs[i], a, lists[i], fs)
    ensures Fared(cmp, min, views + [view], qs[..i + 1], replies + [a], lists + [fs], n)
  {
    hide Fares, Canonical;
    var vs, rs, ls := views + [view], replies + [a], lists + [fs];
    forall x, y | 0 <= x < y < |ls| && y == x + 1
      ensures Fares(cmp, min, vs[x].view, qs[..i + 1][x], rs[x], ls[x], ls[y])
    {
      if x < i {
        assert qs[..i + 1][x] == qs[..i][x] && vs[x] == views[x] && ls[x] == lists[x] && ls[y] == lists[y];
        assert rs[x] == replies[x];
      }
    }
  }

  /** Any session on a new namespace.  Each put is answered with true exactly if its
      blocks fit into the list it finds, and so are all puts that do not cost more
      than the one chunk left beside the table. */
  method Session(n: nat, minAlloc: nat, cmp: Matching, qs: seq<Request>)
    returns (t: HashTable, replies: seq<Reply>, ghost views: seq<Shown>, ghost lists: seq<Chunks>)
    requires Sound(cmp) && MIN_POOL <= n < LIMIT && Round(minAlloc) < LIMIT && Short(qs)
    ensures t.cmp == cmp && t.Valid() && t.pool.Full() && Explained(cmp, views, qs, replies)
    ensures views[0] == Shown(map[], {}) && views[|qs|] == ShownBy(t)
    ensures |t.pool.M| == n && MinAlloc(t.pool.M) == Round(minAlloc)
    ensures Fared(cmp, MinAlloc(t.pool.M), views, qs, replies, lists, n)
    ensures lists[0] == [Chunk(DESC, n - DESC - TABLE_BLOCK)] && lists[|qs|] == t.pool.fs
    ensures InRoomDone(MinAlloc(t.pool.M), qs, replies, n - DESC - TABLE_BLOCK)
    ensures (forall i :: 0 <= i < |qs| ==> Harmless(cmp, views[i].view, qs[i], replies[i])) ==>
      NoLeaks(t.pool.live, StartsOf(t))
  {
    hide Word, TableOk, Sound, Stores, Canonical, Separate, Tiled, Counts, Answers, Round, Checkable, Pool.Full,
      Quiet, MinAlloc, NoLeaks, Starts, FlatNodes, Harmless, Gentle, Intact, HeadsChain, Fares, Costs, Spare, Need,
      Rounded, LeastPow2From, NoLongZeroRun;
    t := Create(n, minAlloc, cmp);
    CheckableIntact(t);
    assert ShownBy(t) == Shown(map[], {});
    replies, views, lists := [], [ShownBy(t)], [t.pool.fs];
    ghost var min := MinAlloc(t.pool.M);
    SparesAll(n - DESC - TABLE_BLOCK);
    var i := 0;
    while i < |qs|
      invariant 0 <= i <= |qs| && t.Valid() && t.pool.Full() && fresh(t) && fresh(t.pool) && fresh(t.pool.mem)
      invariant t.cmp == cmp && |t.pool.M| == n && MinAlloc(t.pool.M) == min
      invariant Fared(cmp, min, views, qs[..i], replies, lists, n)
      invariant lists[0] == [Chunk(DESC, n - DESC - TABLE_BLOCK)] && lists[i] == t.pool.fs
      invariant Explained(cmp, views, qs[..i], replies) && views[0] == Shown(map[], {}) && views[i] == ShownBy(t)
      invariant (forall j :: 0 <= j < i ==> Harmless(cmp, views[j].view, qs[j], replies[j])) ==>
        Clean(t.ht, t.pool.live, t.chains)
    {
      ghost var chains0 := t.chains;
      forall a | Harmless(cmp, t.view, qs[i], a) ensures Gentle(cmp, chains0, qs[i], a) { HarmlessGentle(t, qs[i], a); }
      ghost var views0, replies0 := views, replies;
      var a := Serve(t, qs[i]);
      ExplainedMore(cmp, views, qs, i, replies, a, ShownBy(t));
      assert Canonical(t.pool.fs, n) by { t.ValidIs(); }
      FaredMore(cmp, min, views, qs, i, replies, lists, n, a, ShownBy(t), t.pool.fs);
      replies, views, lists := replies + [a], views + [ShownBy(t)], lists + [t.pool.fs];
      HarmlessPrefix(cmp, views0, qs, i, replies0, a, ShownBy(t));
      i := i + 1;
    }
    assert qs[..|qs|] == qs;
    RoomForAll(cmp, min, views, qs, replies, lists, n, n - DESC - TABLE_BLOCK);
  }

  lemma SparesAll(size: nat)
    ensures Spare([Chunk(DESC, size)], size)
  {
  }

  lemma HarmlessPrefix(cmp: Matching, views: seq<Shown>, qs: seq<Request>, i: nat, replies: seq<Reply>, a: Reply,
      view: Shown)
    requires i < |qs| && |views| == i + 1 && |replies| == i
    ensures (forall j :: 0 <= j < i + 1 ==> Harmless(cmp, (views + [view])[j].view, qs[j], (replies + [a])[j])) ==>
      && Harmless(cmp, views[i].view, qs[i], a)
      && forall j :: 0 <= j < i ==> Harmless(cmp, views[j].view, qs[j], replies[j])
  {
    hide Harmless;
    var vs, rs := views + [view], replies + [a];
    assert vs[i] == views[i] && rs[i] == a;
    assert forall j :: 0 <= j < i ==> vs[j] == views[j] && rs[j] == replies[j];
  }

  lemma ExplainedMore(cmp: Matching, views: seq<Shown>, qs: seq<Request>, i: nat, replies: seq<Reply>, a: Reply,
      view: Shown)
    requires i < |qs| && Explained(cmp, views, qs[..i], replies) && Answers(cmp, views[i], qs[i], a, view)
    ensures Explained(cmp, views + [view], qs[..i + 1], replies + [a])
  {
    hide Answers;
    var vs, rs := views + [view], replies + [a];
    forall x, y | 0 <= x < y < |vs| && y == x + 1
      ensures Answers(cmp, vs[x], qs[..i + 1][x], rs[x], vs[y])
    {
      if x < i {
        assert qs[..i + 1][x] == qs[..i][x] && vs[x] == views[x] && vs[y] == views[y] && rs[x] == replies[x];
      }
    }
  }

  /* ---- Lost values ---- */

  /** A request leaves a map without lost values without any exactly if it is not a
      put that found a matching key but no room. */
  lemma LostExactly(cmp: Matching, s: Shown, q: Request, a: Reply, s': Shown)
    requires Filled(s.view) && Answers(cmp, s, q, a, s')
    ensures Filled(s'.view) <==> !(q.Put? && !a.ok && !Unmatched(cmp, s.view, q.key))
  {
    match q {
      case Put(key, value) =>
        if k0 :| k0 in s.view && cmp.same(k0, key) {
          assert s'.view[k0] == if a.ok then Some(value) else None;
        }
      case Get(key) =>
      case Remove(key) =>
        if k0 :| k0 in s.view && cmp.same(k0, key) {}
    }
  }

  /* ---- Sessions that a plain map explains ---- */

  /** What a plain map says; only a put that fails on a key in the map loses its value. */
  ghost predicate Plainly(view: View, q: Request, a: Reply, view': View) {
    match q
    case Put(key, value) =>
      && a.Done?
      && view' == if a.ok then view[key := Some(value)] else if key in view then view[key := None] else view
    case Get(key) => a == Found(if key in view then view[key] else None) && view' == view
    case Remove(key) => a == Done(key in view) && view' == view - {key}
  }

  /** No requested key matches another, and a removed key shares its bucket with no other. */
  ghost predicate Distinct(cmp: Matching, qs: seq<Request>) {
    && (forall i, j :: 0 <= i < |qs| && 0 <= j < |qs| && cmp.same(qs[i].key, qs[j].key) ==> qs[i].key == qs[j].key)
    && (forall i, j :: 0 <= i < |qs| && 0 <= j < |qs| && qs[j].Remove? ==>
          cmp.bucket(qs[i].key) == cmp.bucket(qs[j].key) ==> qs[i].key == qs[j].key)
  }

  ghost predicate Asked(qs: seq<Request>, view: View) {
    forall k :: k in view ==> exists i :: 0 <= i < |qs| && qs[i].key == k
  }

  /** Among the requested keys, what matches a requested key is that key. */
  lemma OnlyItself(cmp: Matching, qs: seq<Request>, view: View, i: nat)
    requires Sound(cmp) && Distinct(cmp, qs) && i < |qs| && Asked(qs, view)
    ensures forall k :: k in view && cmp.same(k, qs[i].key) ==> k == qs[i].key
    ensures Unmatched(cmp, view, qs[i].key) <==> qs[i].key !in view
    ensures qs[i].Remove? && qs[i].key in view ==>
      WithoutBucket(view, cmp, cmp.bucket(qs[i].key)) == view - {qs[i].key}
  {
    var key := qs[i].key;
    SameSym(cmp, key, key);
    hide Sound;
    forall k | k in view && cmp.same(k, key)
      ensures k == key
    {
      var j :| 0 <= j < |qs| && qs[j].key == k;
    }
    if qs[i].Remove? {
      forall k | k in view && cmp.bucket(k) == cmp.bucket(key)
        ensures k == key
      {
        var j :| 0 <= j < |qs| && qs[j].key == k;
      }
    }
  }

  lemma PlainStep(cmp: Matching, qs: seq<Request>, s: Shown, i: nat, a: Reply, s': Shown)
    requires Sound(cmp) && Distinct(cmp, qs) && i < |qs| && Asked(qs, s.view) && Answers(cmp, s, qs[i], a, s')
    ensures Plainly(s.view, qs[i], a, s'.view) && Asked(qs, s'.view)
  {
    var key := qs[i].key;
    OnlyItself(cmp, qs, s.view, i);
    SameSym(cmp, key, key);
    hide Distinct, Sound, Unmatched, OtherBuckets, WithoutBucket;
    if key !in s.view { assert s.view - {key} == s.view; }
    AskedMore(qs, s.view, s'.view, i);
  }

  lemma AskedMore(qs: seq<Request>, view: View, view': View, i: nat)
    requires Asked(qs, view) && i < |qs|
    ensures (forall k :: k in view' ==> k in view || k == qs[i].key) ==> Asked(qs, view')
  {
  }

  /** Whatever the matching, a session on such keys is answered as by a plain map. */
  lemma {:induction false} PlainSession(cmp: Matching, views: seq<Shown>, qs: seq<Request>, replies: seq<Reply>, n: nat)
    requires Sound(cmp) && Explained(cmp, views, qs, replies) && views[0].view == map[] && Distinct(cmp, qs)
    requires n <= |qs|
    ensures Asked(qs, views[n].view)
    ensures forall i :: 0 <= i < n ==> Plainly(views[i].view, qs[i], replies[i], views[i + 1].view)
  {
    hide Answers, Plainly, Distinct, Sound;
    if n > 0 {
      PlainSession(cmp, views, qs, replies, n - 1);
      PlainStep(cmp, qs, views[n - 1], n - 1, replies[n - 1], views[n]);
    }
  }

  /* ---- Sessions within the room there is ---- */

  /** The map after the requests, all of which succeed. */
  ghost function Ideal(qs: seq<Request>): View {
    if qs == [] then map[] else IdealNext(Ideal(qs[..|qs| - 1]), qs[|qs| - 1])
  }

  ghost function IdealNext(view: View, q: Request): View {
    match q
    case Put(key, value) => view[key := Some(value)]
    case Get(_) => view
    case Remove(key) => view - {key}
  }

  ghost function IdealReply(view: View, q: Request): Reply {
    match q
    case Put(_, _) => Done(true)
    case Get(key) => Found(if key in view then view[key] else None)
    case Remove(key) => Done(key in view)
  }

  /** Sessions on such keys that stay within the room beside the table are those of a map. */
  lemma {:induction false} IdealSession(cmp: Matching, min: nat, views: seq<Shown>, qs: seq<Request>,
      replies: seq<Reply>, lists: seq<Chunks>, n: nat, room: nat, i: nat)
    requires Sound(cmp) && Explained(cmp, views, qs, replies) && views[0].view == map[] && Distinct(cmp, qs)
    requires Fared(cmp, min, views, qs, replies, lists, n) && Spare(lists[0], room) && Costs(min, qs) <= room
    requires i <= |qs|
    ensures views[i].view == Ideal(qs[..i])
    ensures forall j :: 0 <= j < i ==> replies[j] == IdealReply(Ideal(qs[..j]), qs[j])
  {
    hide Answers, Distinct, Sound, Fared, Spare, Asked, Costs, Plainly, IdealNext, IdealReply, Ideal;
    FaredLength(cmp, min, views, qs, replies, lists, n);
    IdealMore(qs, i);
    if i > 0 {
      IdealSession(cmp, min, views, qs, replies, lists, n, room, i - 1);
      PlainSession(cmp, views, qs, replies, i);
      assert Plainly(views[i - 1].view, qs[i - 1], replies[i - 1], views[i].view);
      RoomForAll(cmp, min, views, qs, replies, lists, n, room);
      assert Costs(min, qs[..i]) <= room by {
        CostsGrow(min, qs, i, |qs|);
        assert qs[..|qs|] == qs;
      }
      assert qs[i - 1].Put? ==> replies[i - 1] == Done(true) by { assert i - 1 + 1 == i; }
      IdealStep(views[i - 1].view, qs[i - 1], replies[i - 1], views[i].view);
    }
  }

  lemma IdealMore(qs: seq<Request>, i: nat)
    requires i <= |qs|
    ensures Ideal(qs[..i]) == if i == 0 then map[] else IdealNext(Ideal(qs[..i - 1]), qs[i - 1])
  {
    hide IdealNext;
    if i > 0 { assert qs[..i][..i - 1] == qs[..i - 1]; }
  }

  lemma IdealStep(view: View, q: Request, a: Reply, view': View)
    requires Plainly(view, q, a, view') && (q.Put? ==> a == Done(true))
    ensures view' == IdealNext(view, q) && a == IdealReply(view, q)
  {
  }

  /** Two keys that match spoil it at once: what was put under one is got under the other. */
  lemma ConfusedSession(cmp: Matching, a: Bytes, b: Bytes, value: Bytes, views: seq<Shown>, replies: seq<Reply>)
    requires Explained(cmp, views, [Put(a, value), Get(b)], replies) && views[0].view == map[]
    requires replies[0] == Done(true)
    ensures cmp.same(a, b) <==> replies[1] == Found(Some(value))
  {
    assert Answers(cmp, views[0], Put(a, value), replies[0], views[1]);
    assert Answers(cmp, views[1], Get(b), replies[1], views[2]);
    assert views[1].view == map[a := Some(value)];
  }
}
