/** The chained hash table as it lies in the pool, the blocks it owns and the
    map it shows.  Keys are matched by any equivalence that respects buckets. */
module Tables {
  import opened Memory
  import opened FreeList
  import opened Regions
  import opened Marking

  datatype Option<T> = None | Some(value: T)

  /** How keys are hashed and compared. */
  datatype Matching = Matching(bucket: Bytes -> nat, same: (Bytes, Bytes) -> bool)

  ghost predicate Sound(cmp: Matching) {
    && (forall a :: cmp.bucket(a) < BUCKETS)
    && (forall a :: cmp.same(a, a))
    && (forall a, b :: cmp.same(a, b) ==> cmp.same(b, a) && cmp.bucket(a) == cmp.bucket(b))
    && (forall a, b, c :: cmp.same(a, b) && cmp.same(b, c) ==> cmp.same(a, c))
  }

  lemma SameSym(cmp: Matching, a: Bytes, b: Bytes)
    requires Sound(cmp)
    ensures cmp.same(a, a) && cmp.bucket(a) < BUCKETS
    ensures cmp.same(a, b) ==> cmp.same(b, a) && cmp.bucket(a) == cmp.bucket(b)
  {
  }

  lemma SameTrans(cmp: Matching, a: Bytes, b: Bytes, c: Bytes)
    requires Sound(cmp)
    ensures cmp.same(a, b) && cmp.same(b, c) ==> cmp.same(a, c)
  {
  }

  /** A value is `None` after an update that failed stored a null pointer over it. */
  datatype Node = Node(va: nat, kp: nat, vp: nat, key: Bytes, value: Option<Bytes>)

  /** What a used region of the table is for, keyed by the stored key. */
  datatype Role = TableBlock | EntryBlock(key: Bytes) | KeyBlock(key: Bytes) | ValueBlock(key: Bytes)

  function RoleKey(r: Role): Option<Bytes> {
    match r
    case TableBlock => None
    case EntryBlock(key) => Some(key)
    case KeyBlock(key) => Some(key)
    case ValueBlock(key) => Some(key)
  }

  type View = map<Bytes, Option<Bytes>>

  datatype State = State(m: Bytes, live: Live, role: map<nat, Role>, view: View)

  /** The string object at `p`: its length, then its characters. */
  ghost predicate StrAt(m: Bytes, p: nat, s: Bytes) {
    p + 8 + |s| <= |m| && Word(m, p) == |s| && m[p + 8..p + 8 + |s|] == s
  }

  ghost predicate NodeAt(m: Bytes, n: Node) {
    && n.va + ENTRY <= |m| && Word(m, n.va + 8) == n.kp && Word(m, n.va + 16) == n.vp
    && StrAt(m, n.kp, n.key)
    && (match n.value case None => n.vp == 0 case Some(v) => StrAt(m, n.vp, v))
  }

  /** The region of payload `p` is a live block with this role that can hold `size` bytes. */
  ghost predicate Owns(st: State, p: nat, r: Role, size: nat) {
    && DESC + 8 <= p && p - 8 in st.role && st.role[p - 8] == r
    && p - 8 in st.live && size + 8 <= st.live[p - 8] && p - 8 + st.live[p - 8] <= |st.m|
    && Word(st.m, p - 8) == st.live[p - 8]
  }

  ghost predicate NodeOk(st: State, cmp: Matching, k: nat, n: Node) {
    && NodeAt(st.m, n)
    && Owns(st, n.va, EntryBlock(n.key), ENTRY)
    && Owns(st, n.kp, KeyBlock(n.key), |n.key| + 9)
    && (n.value.Some? ==> Owns(st, n.vp, ValueBlock(n.key), |n.value.value| + 9))
    && cmp.bucket(n.key) == k && n.key in st.view && st.view[n.key] == n.value
  }

  /** `va_next` words link the nodes of a chain from `head`. */
  ghost predicate LinkedNodes(m: Bytes, head: nat, c: seq<Node>) {
    && (forall i :: 0 <= i < |c| ==> c[i].va != 0 && c[i].va + ENTRY <= |m|)
    && head == (if |c| > 0 then c[0].va else 0)
    && (forall i, j :: 0 <= i < j < |c| && j == i + 1 ==> Word(m, c[i].va) == c[j].va)
    && (|c| > 0 ==> Word(m, c[|c| - 1].va) == 0)
  }

  ghost predicate ChainOk(st: State, cmp: Matching, k: nat, head: nat, c: seq<Node>) {
    && LinkedNodes(st.m, head, c)
    && (forall i :: 0 <= i < |c| ==> NodeOk(st, cmp, k, c[i]))
    && (forall i, j :: 0 <= i < j < |c| ==> !cmp.same(c[i].key, c[j].key))
  }

  ghost predicate HasKey(c: seq<Node>, key: Bytes) {
    exists i :: 0 <= i < |c| && c[i].key == key
  }

  /** Every block with a role is live, and every key that owns one is in the map. */
  ghost predicate RolesShown(st: State) {
    forall a :: a in st.role ==> a in st.live && (RoleKey(st.role[a]).Some? ==> RoleKey(st.role[a]).value in st.view)
  }

  /** The table at `ht` stores `chains`, owns its blocks and shows `st.view`. */
  ghost predicate TableOk(st: State, cmp: Matching, ht: nat, chains: seq<seq<Node>>) {
    && |chains| == BUCKETS && ht + TABLE <= |st.m|
    && Owns(st, ht, TableBlock, TABLE) && RolesShown(st)
    && (forall k :: 0 <= k < BUCKETS ==> ChainOk(st, cmp, k, Head(st.m, ht, k), chains[k]))
    && (forall key :: key in st.view ==> cmp.bucket(key) < BUCKETS && HasKey(chains[cmp.bucket(key)], key))
  }

  /* ---- Moving a node to another state ---- */

  ghost predicate RegionKept(st: State, st': State, p: nat) {
    && p >= 8 && p - 8 in st.role && p - 8 in st'.role && st'.role[p - 8] == st.role[p - 8]
    && p - 8 in st.live && p - 8 in st'.live && st'.live[p - 8] == st.live[p - 8]
    && Agree(st.m, st'.m, p - 8, st.live[p - 8])
  }

  ghost predicate Carries(st: State, st': State, n: Node) {
    && RegionKept(st, st', n.va) && RegionKept(st, st', n.kp) && (n.value.Some? ==> RegionKept(st, st', n.vp))
    && n.key in st'.view && n.key in st.view && st'.view[n.key] == st.view[n.key]
  }

  lemma OwnsKept(st: State, st': State, p: nat, r: Role, size: nat)
    requires Owns(st, p, r, size) && RegionKept(st, st', p)
    ensures Owns(st', p, r, size)
  {
    AgreeWord(st.m, st'.m, p - 8);
  }

  lemma StrKept(m: Bytes, m': Bytes, p: nat, s: Bytes, a: nat, n: nat)
    requires StrAt(m, p, s) && Agree(m, m', a, n) && a <= p && p + 8 + |s| <= a + n
    ensures StrAt(m', p, s)
  {
    AgreeWord(m, m', p);
    AgreeSlice(m, m', p + 8, |s|);
  }

  lemma NodeCarried(st: State, st': State, cmp: Matching, k: nat, n: Node)
    requires NodeOk(st, cmp, k, n) && Carries(st, st', n)
    ensures NodeOk(st', cmp, k, n) && Word(st'.m, n.va) == Word(st.m, n.va)
  {
    hide Word, StrAt;
    OwnsKept(st, st', n.va, EntryBlock(n.key), ENTRY);
    OwnsKept(st, st', n.kp, KeyBlock(n.key), |n.key| + 9);
    AgreeWord(st.m, st'.m, n.va);
    AgreeWord(st.m, st'.m, n.va + 8);
    AgreeWord(st.m, st'.m, n.va + 16);
    StrKept(st.m, st'.m, n.kp, n.key, n.kp - 8, st.live[n.kp - 8]);
    if n.value.Some? {
      OwnsKept(st, st', n.vp, ValueBlock(n.key), |n.value.value| + 9);
      StrKept(st.m, st'.m, n.vp, n.value.value, n.vp - 8, st.live[n.vp - 8]);
    }
  }

  lemma ChainCarried(st: State, st': State, cmp: Matching, k: nat, head: nat, c: seq<Node>)
    requires ChainOk(st, cmp, k, head, c) && |st'.m| == |st.m|
    requires forall i :: 0 <= i < |c| ==> Carries(st, st', c[i])
    ensures ChainOk(st', cmp, k, head, c)
  {
    hide Word, NodeOk, Carries;
    forall i | 0 <= i < |c|
      ensures NodeOk(st', cmp, k, c[i]) && Word(st'.m, c[i].va) == Word(st.m, c[i].va)
    {
      NodeCarried(st, st', cmp, k, c[i]);
    }
  }

  /* ---- Whole-table steps ---- */

  /** Every block the table owns keeps its bytes. */
  ghost predicate AllKept(st: State, st': State) {
    && |st'.m| == |st.m| && st'.role == st.role && st'.view == st.view
    && forall a :: a in st.role && a in st.live ==>
         a in st'.live && st'.live[a] == st.live[a] && Agree(st.m, st'.m, a, st.live[a])
  }

  lemma KeptRegion(st: State, st': State, p: nat, r: Role, size: nat)
    requires AllKept(st, st') && Owns(st, p, r, size)
    ensures RegionKept(st, st', p)
  {
  }

  lemma KeptCarries(st: State, st': State, cmp: Matching, k: nat, n: Node)
    requires AllKept(st, st') && NodeOk(st, cmp, k, n)
    ensures Carries(st, st', n)
  {
    hide AllKept, NodeAt, Owns, RegionKept;
    KeptRegion(st, st', n.va, EntryBlock(n.key), ENTRY);
    KeptRegion(st, st', n.kp, KeyBlock(n.key), |n.key| + 9);
    if n.value.Some? { KeptRegion(st, st', n.vp, ValueBlock(n.key), |n.value.value| + 9); }
    assert st'.view == st.view by { AllKeptView(st, st'); }
  }

  lemma AllKeptView(st: State, st': State)
    requires AllKept(st, st')
    ensures st'.view == st.view && st'.role == st.role && |st'.m| == |st.m|
  {
  }

  lemma TableAt(st: State, cmp: Matching, ht: nat, chains: seq<seq<Node>>, k: nat)
    requires TableOk(st, cmp, ht, chains) && k < BUCKETS
    ensures |chains| == BUCKETS && ht + TABLE <= |st.m| && ChainOk(st, cmp, k, Head(st.m, ht, k), chains[k])
  {
  }

  lemma TableFits(st: State, cmp: Matching, ht: nat, chains: seq<seq<Node>>)
    requires TableOk(st, cmp, ht, chains)
    ensures |chains| == BUCKETS && ht + TABLE <= |st.m| && Owns(st, ht, TableBlock, TABLE)
  {
  }

  lemma HeadKept(st: State, st': State, ht: nat, k: nat)
    requires ht + TABLE <= |st.m| && RegionKept(st, st', ht) && Owns(st, ht, TableBlock, TABLE) && k < BUCKETS
    ensures |st'.m| == |st.m| && Head(st'.m, ht, k) == Head(st.m, ht, k)
  {
    AgreeWord(st.m, st'.m, ht + 8 + 8 * k);
  }

  /** Changes outside the table's blocks leave it alone. */
  lemma TableFrame(st: State, st': State, cmp: Matching, ht: nat, chains: seq<seq<Node>>)
    requires TableOk(st, cmp, ht, chains) && AllKept(st, st')
    ensures TableOk(st', cmp, ht, chains) && Word(st'.m, ht) == Word(st.m, ht)
  {
    hide Word, AllKept, NodeOk, Carries, ChainOk, Owns, RegionKept, Agree, HasKey;
    KeptRegion(st, st', ht, TableBlock, TABLE);
    OwnsKept(st, st', ht, TableBlock, TABLE);
    AllKeptView(st, st');
    forall k | 0 <= k < BUCKETS
      ensures ChainOk(st', cmp, k, Head(st'.m, ht, k), chains[k])
    {
      TableAt(st, cmp, ht, chains, k);
      HeadKept(st, st', ht, k);
      KeptChain(st, st', cmp, k, Head(st.m, ht, k), chains[k]);
    }
    SizeKept(st, st', ht);
    KeptRoles(st, st');
  }

  lemma KeptRoles(st: State, st': State)
    requires AllKept(st, st') && RolesShown(st)
    ensures RolesShown(st')
  {
  }

  lemma SizeKept(st: State, st': State, ht: nat)
    requires ht + TABLE <= |st.m| && RegionKept(st, st', ht) && Owns(st, ht, TableBlock, TABLE)
    ensures |st'.m| == |st.m| && Word(st'.m, ht) == Word(st.m, ht)
  {
    AgreeWord(st.m, st'.m, ht);
  }

  lemma KeptChain(st: State, st': State, cmp: Matching, k: nat, head: nat, c: seq<Node>)
    requires ChainOk(st, cmp, k, head, c) && AllKept(st, st')
    ensures ChainOk(st', cmp, k, head, c)
  {
    hide Word, AllKept, NodeOk, Carries;
    AllKeptView(st, st');
    forall i | 0 <= i < |c| ensures Carries(st, st', c[i]) { KeptCarries(st, st', cmp, k, c[i]); }
    ChainCarried(st, st', cmp, k, head, c);
  }

  /* ---- Replacing one chain ---- */

  /** Blocks and map entries of the other buckets stay as they are. */
  ghost predicate OthersKept(st: State, st': State, cmp: Matching, k: nat) {
    && |st'.m| == |st.m|
    && (forall a :: a in st.role && RoleKey(st.role[a]).Some? && cmp.bucket(RoleKey(st.role[a]).value) != k ==>
          RegionKept(st, st', a + 8))
    && (forall key :: key in st.view && cmp.bucket(key) != k ==> key in st'.view && st'.view[key] == st.view[key])
    && (forall key :: key in st'.view && cmp.bucket(key) != k ==> key in st.view)
  }

  lemma OtherCarries(st: State, st': State, cmp: Matching, k: nat, k': nat, n: Node)
    requires OthersKept(st, st', cmp, k) && k' != k && NodeOk(st, cmp, k', n)
    ensures Carries(st, st', n)
  {
    hide RegionKept, NodeAt, Word;
    assert RegionKept(st, st', n.va - 8 + 8);
    assert RegionKept(st, st', n.kp - 8 + 8);
    if n.value.Some? { assert RegionKept(st, st', n.vp - 8 + 8); }
  }

  /** Only bucket `k` differs. */
  lemma ReplaceChain(st: State, st': State, cmp: Matching, ht: nat, chains: seq<seq<Node>>, k: nat, c: seq<Node>)
    requires TableOk(st, cmp, ht, chains) && k < BUCKETS && OthersKept(st, st', cmp, k)
    requires Owns(st', ht, TableBlock, TABLE) && RolesShown(st')
    requires forall j :: 0 <= j < BUCKETS && j != k ==> Head(st'.m, ht, j) == Head(st.m, ht, j)
    requires ChainOk(st', cmp, k, Head(st'.m, ht, k), c)
    requires forall key :: key in st'.view && cmp.bucket(key) == k ==> HasKey(c, key)
    ensures TableOk(st', cmp, ht, chains[k := c])
  {
    hide Word, NodeOk, Carries, ChainOk, Owns, RegionKept, HasKey;
    var r := chains[k := c];
    forall j | 0 <= j < BUCKETS
      ensures ChainOk(st', cmp, j, Head(st'.m, ht, j), r[j])
    {
      if j != k {
        TableAt(st, cmp, ht, chains, j);
        OtherChain(st, st', cmp, k, j, Head(st.m, ht, j), chains[j]);
      }
    }
    forall key | key in st'.view
      ensures cmp.bucket(key) < BUCKETS && HasKey(r[cmp.bucket(key)], key)
    {
      if cmp.bucket(key) != k { assert key in st.view; }
    }
  }

  lemma OtherChain(st: State, st': State, cmp: Matching, k: nat, j: nat, head: nat, c: seq<Node>)
    requires ChainOk(st, cmp, j, head, c) && OthersKept(st, st', cmp, k) && j != k
    ensures ChainOk(st', cmp, j, head, c)
  {
    hide Word, NodeOk, Carries;
    forall i | 0 <= i < |c| ensures Carries(st, st', c[i]) { OtherCarries(st, st', cmp, k, j, c[i]); }
    ChainCarried(st, st', cmp, j, head, c);
  }

  ghost predicate NoMatch(cmp: Matching, c: seq<Node>, key: Bytes) {
    forall i :: 0 <= i < |c| ==> !cmp.same(c[i].key, key)
  }

  lemma KeyInChain(st: State, cmp: Matching, ht: nat, chains: seq<seq<Node>>, key: Bytes)
    requires TableOk(st, cmp, ht, chains) && key in st.view
    ensures cmp.bucket(key) < BUCKETS && HasKey(chains[cmp.bucket(key)], key)
  {
  }

  /** The table sees a key exactly when its map holds a matching one. */
  lemma NoMatchInView(st: State, cmp: Matching, ht: nat, chains: seq<seq<Node>>, key: Bytes)
    requires TableOk(st, cmp, ht, chains) && Sound(cmp)
    ensures NoMatch(cmp, chains[cmp.bucket(key)], key) <==> forall k :: k in st.view ==> !cmp.same(k, key)
  {
    hide Word, NodeAt, Owns, LinkedNodes;
    var c := chains[cmp.bucket(key)];
    if NoMatch(cmp, c, key) {
      forall k | k in st.view
        ensures !cmp.same(k, key)
      {
        KeyInChain(st, cmp, ht, chains, k);
        assert cmp.same(k, key) ==> HasKey(c, k);
      }
    }
    if forall k :: k in st.view ==> !cmp.same(k, key) {
      TableAt(st, cmp, ht, chains, cmp.bucket(key));
      forall i | 0 <= i < |c|
        ensures !cmp.same(c[i].key, key)
      {
        assert NodeOk(st, cmp, cmp.bucket(key), c[i]);
      }
    }
  }

  /** The map never holds two matching keys. */
  lemma MatchUnique(st: State, cmp: Matching, ht: nat, chains: seq<seq<Node>>, a: Bytes, b: Bytes)
    requires TableOk(st, cmp, ht, chains) && Sound(cmp) && a in st.view && b in st.view && cmp.same(a, b)
    ensures a == b
  {
    hide Word, NodeOk, Owns, LinkedNodes;
    KeyInChain(st, cmp, ht, chains, a);
    KeyInChain(st, cmp, ht, chains, b);
    var k := cmp.bucket(a);
    var c := chains[k];
    TableAt(st, cmp, ht, chains, k);
    var i :| 0 <= i < |c| && c[i].key == a;
    var j :| 0 <= j < |c| && c[j].key == b;
    SamePosition(st, cmp, k, Head(st.m, ht, k), c, i, j);
  }

  lemma SamePosition(st: State, cmp: Matching, k: nat, head: nat, c: seq<Node>, i: nat, j: nat)
    requires ChainOk(st, cmp, k, head, c) && i < |c| && j < |c|
    ensures cmp.same(c[i].key, c[j].key) && cmp.same(c[j].key, c[i].key) ==> i == j
  {
  }

  /* ---- Insert ---- */

  /** Every table block but the table itself keeps its bytes and its role. */
  ghost predicate EntriesKept(st: State, st': State) {
    && |st'.m| == |st.m|
    && forall a :: a in st.role && RoleKey(st.role[a]).Some? ==> RegionKept(st, st', a + 8)
  }

  lemma EntryCarries(st: State, st': State, cmp: Matching, k: nat, n: Node)
    requires EntriesKept(st, st') && NodeOk(st, cmp, k, n) && n.key in st'.view && st'.view[n.key] == st.view[n.key]
    ensures Carries(st, st', n)
  {
    hide RegionKept, NodeAt, Word;
    assert RegionKept(st, st', n.va - 8 + 8);
    assert RegionKept(st, st', n.kp - 8 + 8);
    if n.value.Some? { assert RegionKept(st, st', n.vp - 8 + 8); }
  }

  /** Linking a fresh entry at the head of its bucket adds its key to the map. */
  lemma InsertChain(st: State, st': State, cmp: Matching, ht: nat, chains: seq<seq<Node>>, n: Node)
    requires TableOk(st, cmp, ht, chains) && Sound(cmp) && EntriesKept(st, st')
    requires NoMatch(cmp, chains[cmp.bucket(n.key)], n.key)
    requires st'.view == st.view[n.key := n.value]
    requires var k := cmp.bucket(n.key);
      && NodeOk(st', cmp, k, n) && n.va != 0
      && Word(st'.m, n.va) == Head(st.m, ht, k) && ht + TABLE <= |st'.m| && Head(st'.m, ht, k) == n.va
      && (forall j :: 0 <= j < BUCKETS && j != k ==> Head(st'.m, ht, j) == Head(st.m, ht, j))
    requires Owns(st', ht, TableBlock, TABLE) && RolesShown(st')
    ensures n.key !in st.view
    ensures TableOk(st', cmp, ht, chains[cmp.bucket(n.key) := [n] + chains[cmp.bucket(n.key)]])
  {
    hide Word, NodeAt, NodeOk, Owns, RegionKept, Carries, Sound, ChainOk, EntriesKept, NoMatch, HasKey;
    var k := cmp.bucket(n.key);
    SameSym(cmp, n.key, n.key);
    var c := chains[k];
    NoMatchInView(st, cmp, ht, chains, n.key);
    assert n.key !in st.view;
    TableAt(st, cmp, ht, chains, k);
    EntriesChain(st, st', cmp, k, Head(st.m, ht, k), c);
    Prepended(st', cmp, k, Head(st.m, ht, k), c, n);
    forall key | key in st'.view && cmp.bucket(key) == k
      ensures HasKey([n] + c, key)
    {
      if key != n.key { KeyInChain(st, cmp, ht, chains, key); }
      HasKeyMore(c, n, key);
    }
    EntriesOthers(st, st', cmp, k, n);
    ReplaceChain(st, st', cmp, ht, chains, k, [n] + c);
  }

  lemma EntriesChain(st: State, st': State, cmp: Matching, k: nat, head: nat, c: seq<Node>)
    requires ChainOk(st, cmp, k, head, c) && EntriesKept(st, st')
    requires forall key :: key in st.view ==> key in st'.view && st'.view[key] == st.view[key]
    ensures ChainOk(st', cmp, k, head, c)
  {
    hide Word, NodeAt, Owns, RegionKept, Carries, EntriesKept;
    forall i | 0 <= i < |c| ensures Carries(st, st', c[i]) {
      EntryCarries(st, st', cmp, k, c[i]);
    }
    assert |st'.m| == |st.m| by { EntriesLength(st, st'); }
    ChainCarried(st, st', cmp, k, head, c);
  }

  lemma EntriesLength(st: State, st': State)
    requires EntriesKept(st, st')
    ensures |st'.m| == |st.m|
  {
  }

  lemma EntriesOthers(st: State, st': State, cmp: Matching, k: nat, n: Node)
    requires EntriesKept(st, st') && st'.view == st.view[n.key := n.value] && n.key !in st.view
    requires cmp.bucket(n.key) == k
    ensures OthersKept(st, st', cmp, k)
  {
    hide RegionKept;
  }

  lemma HasKeyMore(c: seq<Node>, n: Node, key: Bytes)
    ensures HasKey([n] + c, key) <==> key == n.key || HasKey(c, key)
  {
    var r := [n] + c;
    assert r[0] == n && forall i :: 0 <= i < |c| ==> r[i + 1] == c[i];
    if HasKey(c, key) {
      var i :| 0 <= i < |c| && c[i].key == key;
      assert r[i + 1].key == key;
    }
  }

  lemma Prepended(st: State, cmp: Matching, k: nat, head: nat, c: seq<Node>, n: Node)
    requires ChainOk(st, cmp, k, head, c) && NodeOk(st, cmp, k, n) && n.va != 0 && Word(st.m, n.va) == head
    requires NoMatch(cmp, c, n.key) && Sound(cmp)
    ensures ChainOk(st, cmp, k, n.va, [n] + c)
  {
    hide Word, NodeOk, Sound, LinkedNodes;
    NodeFits(st, cmp, k, n);
    var r := [n] + c;
    PrependedLinks(st.m, head, c, n);
    forall i, j | 0 <= i < j < |r|
      ensures !cmp.same(r[i].key, r[j].key)
    {
      SameSym(cmp, n.key, c[j - 1].key);
      if i > 0 { assert r[i] == c[i - 1]; }
    }
  }

  lemma PrependedLinks(m: Bytes, head: nat, c: seq<Node>, n: Node)
    requires LinkedNodes(m, head, c) && n.va != 0 && n.va + ENTRY <= |m| && Word(m, n.va) == head
    ensures LinkedNodes(m, n.va, [n] + c)
  {
    hide Word;
    var r := [n] + c;
    assert r[0] == n && forall i :: 0 <= i < |c| ==> r[i + 1] == c[i];
    forall i, j | 0 <= i < j < |r| && j == i + 1
      ensures r[i].va + ENTRY <= |m| && Word(m, r[i].va) == r[j].va
    {
      if i > 0 { NextLinked(m, head, c, i - 1); }
    }
  }

  lemma NextLinked(m: Bytes, head: nat, c: seq<Node>, i: nat)
    requires LinkedNodes(m, head, c) && i + 1 < |c|
    ensures c[i].va + ENTRY <= |m| && Word(m, c[i].va) == c[i + 1].va
  {
    hide Word;
  }

  lemma NodeFits(st: State, cmp: Matching, k: nat, n: Node)
    requires NodeOk(st, cmp, k, n)
    ensures n.va + ENTRY <= |st.m| && DESC + 8 <= n.va && DESC + 8 <= n.kp
    ensures Word(st.m, n.va + 8) == n.kp && Word(st.m, n.va + 16) == n.vp
  {
  }

  /* ---- Update ---- */

  /** Node `j` of chain `k` was given another value. */
  lemma UpdateChain(st: State, st': State, cmp: Matching, ht: nat, chains: seq<seq<Node>>, k: nat, j: nat, n: Node)
    requires TableOk(st, cmp, ht, chains) && k < BUCKETS && j < |chains[k]|
    requires n.va == chains[k][j].va && n.key == chains[k][j].key
    requires st'.view == st.view[n.key := n.value] && |st'.m| == |st.m|
    requires forall a :: a in st.role && RoleKey(st.role[a]) != Some(n.key) ==> RegionKept(st, st', a + 8)
    requires NodeOk(st', cmp, k, n) && Word(st'.m, n.va) == Word(st.m, n.va)
    requires Sound(cmp) && RolesShown(st')
    ensures n.key in st.view && cmp.bucket(n.key) == k
    ensures TableOk(st', cmp, ht, chains[k := chains[k][j := n]])
  {
    hide Word, NodeOk, Owns, RegionKept, Carries, Sound, ChainOk, HasKey;
    var c := chains[k];
    TableAt(st, cmp, ht, chains, k);
    ChainNode(st, cmp, k, Head(st.m, ht, k), c, j);
    TableRegion(st, st', ht, n.key);
    OwnsKept(st, st', ht, TableBlock, TABLE);
    forall i | 0 <= i < BUCKETS ensures Head(st'.m, ht, i) == Head(st.m, ht, i) { HeadKept(st, st', ht, i); }
    UpdatedChain(st, st', cmp, k, Head(st.m, ht, k), c, j, n);
    forall key | key in st'.view && cmp.bucket(key) == k
      ensures HasKey(c[j := n], key)
    {
      if key != n.key { KeyInChain(st, cmp, ht, chains, key); }
      HasKeySame(c, j, n, key);
    }
    UpdateOthers(st, st', cmp, k, n);
    ReplaceChain(st, st', cmp, ht, chains, k, c[j := n]);
  }

  lemma ChainNode(st: State, cmp: Matching, k: nat, head: nat, c: seq<Node>, j: nat)
    requires ChainOk(st, cmp, k, head, c) && j < |c|
    ensures NodeOk(st, cmp, k, c[j])
    ensures c[j].key in st.view && st.view[c[j].key] == c[j].value && cmp.bucket(c[j].key) == k
    ensures c[j].va != 0 && c[j].va + ENTRY <= |st.m|
  {
  }

  lemma HasKeySame(c: seq<Node>, j: nat, n: Node, key: Bytes)
    requires j < |c| && n.key == c[j].key
    ensures HasKey(c[j := n], key) <==> HasKey(c, key)
    ensures HasKey(c, n.key)
  {
    var r := c[j := n];
    assert forall i :: 0 <= i < |c| ==> r[i].key == c[i].key;
    if HasKey(c, key) {
      var i :| 0 <= i < |c| && c[i].key == key;
      assert r[i].key == key;
    }
    assert c[j].key == n.key;
  }

  lemma UpdateOthers(st: State, st': State, cmp: Matching, k: nat, n: Node)
    requires n.key in st.view && cmp.bucket(n.key) == k && st'.view == st.view[n.key := n.value] && |st'.m| == |st.m|
    requires forall a :: a in st.role && RoleKey(st.role[a]) != Some(n.key) ==> RegionKept(st, st', a + 8)
    ensures OthersKept(st, st', cmp, k)
  {
    hide RegionKept;
  }

  lemma UpdatedChain(st: State, st': State, cmp: Matching, k: nat, head: nat, c: seq<Node>, j: nat, n: Node)
    requires ChainOk(st, cmp, k, head, c) && j < |c| && Sound(cmp)
    requires n.va == c[j].va && n.key == c[j].key
    requires st'.view == st.view[n.key := n.value] && |st'.m| == |st.m|
    requires forall a :: a in st.role && RoleKey(st.role[a]) != Some(n.key) ==> RegionKept(st, st', a + 8)
    requires NodeOk(st', cmp, k, n) && Word(st'.m, n.va) == Word(st.m, n.va)
    ensures ChainOk(st', cmp, k, head, c[j := n])
  {
    hide Word, StrAt, Owns, RegionKept, Carries, Sound, ChainOk;
    forall i | 0 <= i < |c| && i != j
      ensures NodeOk(st', cmp, k, c[i]) && Word(st'.m, c[i].va) == Word(st.m, c[i].va)
    {
      ChainNode(st, cmp, k, head, c, i);
      SamePosition(st, cmp, k, head, c, i, j);
      SameSym(cmp, c[j].key, c[j].key);
      UnlikeCarries(st, st', cmp, k, c[i], n.key);
      NodeCarried(st, st', cmp, k, c[i]);
    }
    UpdatedLinks(st, st', cmp, k, head, c, j, n);
  }

  lemma TableRegion(st: State, st': State, ht: nat, key: Bytes)
    requires Owns(st, ht, TableBlock, TABLE)
    requires forall a :: a in st.role && RoleKey(st.role[a]) != Some(key) ==> RegionKept(st, st', a + 8)
    ensures RegionKept(st, st', ht)
  {
    hide RegionKept;
    assert RegionKept(st, st', ht - 8 + 8);
  }

  lemma UnlikeCarries(st: State, st': State, cmp: Matching, k: nat, n: Node, key: Bytes)
    requires NodeOk(st, cmp, k, n) && n.key != key
    requires forall a :: a in st.role && RoleKey(st.role[a]) != Some(key) ==> RegionKept(st, st', a + 8)
    requires n.key in st'.view && st'.view[n.key] == st.view[n.key]
    ensures Carries(st, st', n)
  {
    hide RegionKept, NodeAt, Word;
    assert RegionKept(st, st', n.va - 8 + 8);
    assert RegionKept(st, st', n.kp - 8 + 8);
    if n.value.Some? { assert RegionKept(st, st', n.vp - 8 + 8); }
  }

  lemma UpdatedLinks(st: State, st': State, cmp: Matching, k: nat, head: nat, c: seq<Node>, j: nat, n: Node)
    requires ChainOk(st, cmp, k, head, c) && j < |c| && n.va == c[j].va && n.key == c[j].key && |st'.m| == |st.m|
    requires forall i ::
      0 <= i < |c| && i != j ==> NodeOk(st', cmp, k, c[i]) && Word(st'.m, c[i].va) == Word(st.m, c[i].va)
    requires NodeOk(st', cmp, k, n) && Word(st'.m, n.va) == Word(st.m, n.va)
    ensures ChainOk(st', cmp, k, head, c[j := n])
  {
    hide Word, NodeOk;
    var r := c[j := n];
    assert forall i :: 0 <= i < |c| ==> r[i].va == c[i].va && r[i].key == c[i].key && (i != j ==> r[i] == c[i]);
  }

  /* ---- Delete ---- */

  /** The same keys in the same places. */
  ghost predicate SameKeys(chains0: seq<seq<Node>>, chains: seq<seq<Node>>) {
    && |chains| == |chains0|
    && (forall k :: 0 <= k < |chains| ==> |chains[k]| == |chains0[k]|)
    && forall k, i :: 0 <= k < |chains| && 0 <= i < |chains[k]| ==> chains[k][i].key == chains0[k][i].key
  }

  lemma KeysSelf(chains: seq<seq<Node>>)
    ensures SameKeys(chains, chains)
  {
  }

  lemma KeysReplaced(chains: seq<seq<Node>>, k: nat, i: nat, n: Node)
    requires k < |chains| && i < |chains[k]| && n.key == chains[k][i].key
    ensures SameKeys(chains, chains[k := chains[k][i := n]])
  {
  }

  /** The chain after deleting node `i`: as written, deleting the head drops the whole chain. */
  function Dropped(c: seq<Node>, i: nat): seq<Node>
    requires i < |c|
  {
    if i == 0 then [] else c[..i] + c[i + 1..]
  }

  /** The map with bucket `k` cut down to the keys of `c`. */
  ghost function CutView(view: View, cmp: Matching, k: nat, c: seq<Node>): View {
    map key | key in view && (cmp.bucket(key) != k || HasKey(c, key)) :: view[key]
  }

  /** The blocks whose keys are still in the map. */
  ghost function CutRoles(role: map<nat, Role>, view: View): map<nat, Role> {
    map a | a in role && (RoleKey(role[a]).Some? ==> RoleKey(role[a]).value in view) :: role[a]
  }

  ghost function WithoutBucket(view: View, cmp: Matching, k: nat): View {
    map key | key in view && cmp.bucket(key) != k :: view[key]
  }

  /** Clearing the bucket removes just `key` exactly when no other key shares it. */
  lemma BucketOfOne(view: View, cmp: Matching, key: Bytes)
    requires key in view
    ensures WithoutBucket(view, cmp, cmp.bucket(key)) == view - {key}
      <==> forall x :: x in view && cmp.bucket(x) == cmp.bucket(key) ==> x == key
  {
    var w := WithoutBucket(view, cmp, cmp.bucket(key));
    assert w == view - {key} ==> forall x :: x in view && x != key ==> x in w;
  }

  lemma DroppedAt(c: seq<Node>, i: nat, x: nat)
    requires 0 < i < |c| && x < |c| - 1
    ensures |Dropped(c, i)| == |c| - 1 && Dropped(c, i)[x] == c[if x < i then x else x + 1]
  {
  }

  lemma DroppedHas(c: seq<Node>, i: nat, x: nat)
    requires 0 < i < |c| && x < |c| && x != i
    ensures HasKey(Dropped(c, i), c[x].key)
  {
    assert Dropped(c, i)[if x < i then x else x - 1] == c[x];
  }

  /** What unlinking node `i` of chain `k` must leave alone. */
  ghost predicate CutFrom(st: State, st': State, cmp: Matching, ht: nat, k: nat, c: seq<Node>, i: nat)
    requires i < |c| && ht + TABLE <= |st.m| && k < BUCKETS
  {
    && |st'.m| == |st.m| && st'.live == st.live
    && st'.view == CutView(st.view, cmp, k, Dropped(c, i)) && st'.role == CutRoles(st.role, st'.view)
    && Owns(st', ht, TableBlock, TABLE)
    && (forall j :: 0 <= j < BUCKETS && j != k ==> Head(st'.m, ht, j) == Head(st.m, ht, j))
    && Head(st'.m, ht, k) == (if i == 0 then 0 else Head(st.m, ht, k))
    && (forall a :: a in st'.role && RoleKey(st'.role[a]).Some? && (i > 0 ==> a != c[i - 1].va - 8) ==>
          RegionKept(st, st', a + 8))
    && (i > 0 ==>
          NodeOk(st', cmp, k, c[i - 1]) && c[i].va + 8 <= |st.m| && Word(st'.m, c[i - 1].va) == Word(st.m, c[i].va))
  }

  lemma DeleteChain(st: State, st': State, cmp: Matching, ht: nat, chains: seq<seq<Node>>, k: nat, i: nat)
    requires TableOk(st, cmp, ht, chains) && Sound(cmp) && k < BUCKETS && i < |chains[k]|
    requires CutFrom(st, st', cmp, ht, k, chains[k], i)
    ensures TableOk(st', cmp, ht, chains[k := Dropped(chains[k], i)])
  {
    hide Word, NodeOk, Owns, RegionKept, Carries, Sound, ChainOk, HasKey, Dropped;
    var c := chains[k];
    TableAt(st, cmp, ht, chains, k);
    if i == 0 {
      EmptyChain(st', cmp, k);
    } else {
      DroppedChain(st, st', cmp, ht, k, Head(st.m, ht, k), c, i);
    }
    assert OthersKept(st, st', cmp, k) by { DeleteOthers(st, st', cmp, ht, k, c, i, chains); }
    assert Dropped(c, 0) == [] by { DroppedHead(c); }
    ReplaceChain(st, st', cmp, ht, chains, k, Dropped(c, i));
  }

  lemma DroppedHead(c: seq<Node>)
    requires |c| > 0
    ensures Dropped(c, 0) == []
  {
  }

  lemma EmptyChain(st: State, cmp: Matching, k: nat)
    ensures ChainOk(st, cmp, k, 0, [])
  {
  }

  lemma DeleteOthers(st: State, st': State, cmp: Matching, ht: nat, k: nat, c: seq<Node>, i: nat,
      chains: seq<seq<Node>>)
    requires i < |c| && ht + TABLE <= |st.m| && k < BUCKETS && CutFrom(st, st', cmp, ht, k, c, i)
    requires TableOk(st, cmp, ht, chains) && c == chains[k]
    ensures OthersKept(st, st', cmp, k)
  {
    hide Word, RegionKept, HasKey, Dropped, NodeAt, Agree, LinkedNodes;
    TableAt(st, cmp, ht, chains, k);
    if i > 0 {
      ChainNode(st, cmp, k, Head(st.m, ht, k), c, i - 1);
      assert Owns(st, c[i - 1].va, EntryBlock(c[i - 1].key), ENTRY);
    }
    forall a | a in st.role && RoleKey(st.role[a]).Some? && cmp.bucket(RoleKey(st.role[a]).value) != k
      ensures RegionKept(st, st', a + 8)
    {
      assert a in st'.role && st'.role[a] == st.role[a];
    }
  }

  lemma DroppedChain(st: State, st': State, cmp: Matching, ht: nat, k: nat, head: nat, c: seq<Node>, i: nat)
    requires ChainOk(st, cmp, k, head, c) && Sound(cmp) && 0 < i < |c| && ht + TABLE <= |st.m| && k < BUCKETS
    requires CutFrom(st, st', cmp, ht, k, c, i)
    ensures ChainOk(st', cmp, k, head, Dropped(c, i))
  {
    hide Word, StrAt, Owns, RegionKept, Carries, Sound, HasKey, Dropped, CutFrom;
    UnlinkedPrev(st, st', cmp, ht, k, head, c, i);
    forall x | 0 <= x < |c| && x != i
      ensures NodeOk(st', cmp, k, c[x]) && (x != i - 1 ==> Word(st'.m, c[x].va) == Word(st.m, c[x].va))
    {
      ChainNode(st, cmp, k, head, c, x);
      if x != i - 1 {
        DroppedCarries(st, st', cmp, ht, k, head, c, i, x);
        NodeCarried(st, st', cmp, k, c[x]);
      }
    }
    DroppedLinks(st.m, st'.m, head, c, i);
    DroppedDistinct(st, st', cmp, k, head, c, i);
  }

  lemma UnlinkedPrev(st: State, st': State, cmp: Matching, ht: nat, k: nat, head: nat, c: seq<Node>, i: nat)
    requires ChainOk(st, cmp, k, head, c) && 0 < i < |c| && ht + TABLE <= |st.m| && k < BUCKETS
    requires CutFrom(st, st', cmp, ht, k, c, i)
    ensures |st'.m| == |st.m| && NodeOk(st', cmp, k, c[i - 1]) && c[i - 1].va + ENTRY <= |st.m|
    ensures c[i].va + ENTRY <= |st.m|
    ensures Word(st'.m, c[i - 1].va) == Word(st.m, c[i].va)
  {
  }

  /** Nodes other than the deleted one and its predecessor are untouched. */
  lemma DroppedCarries(st: State, st': State, cmp: Matching, ht: nat, k: nat, head: nat, c: seq<Node>, i: nat, x: nat)
    requires ChainOk(st, cmp, k, head, c) && Sound(cmp) && 0 < i < |c| && ht + TABLE <= |st.m| && k < BUCKETS
    requires CutFrom(st, st', cmp, ht, k, c, i) && x < |c| && x != i && x != i - 1
    ensures Carries(st, st', c[x])
  {
    hide Word, StrAt, NodeAt, RegionKept, Sound, HasKey, Dropped, LinkedNodes;
    var n := c[x];
    DroppedHas(c, i, x);
    SameSym(cmp, n.key, n.key);
    SamePosition(st, cmp, k, head, c, x, i - 1);
    assert NodeOk(st, cmp, k, n) && NodeOk(st, cmp, k, c[i - 1]);
    assert n.key in st'.view && n.key != c[i - 1].key;
    assert st.role[c[i - 1].va - 8] == EntryBlock(c[i - 1].key);
    CutKept(st, st', n.va, EntryBlock(n.key), c[i - 1].va - 8);
    CutKept(st, st', n.kp, KeyBlock(n.key), c[i - 1].va - 8);
    if n.value.Some? { CutKept(st, st', n.vp, ValueBlock(n.key), c[i - 1].va - 8); }
  }

  lemma CutKept(st: State, st': State, p: nat, r: Role, but: int)
    requires st'.role == CutRoles(st.role, st'.view) && p >= 8 && p - 8 in st.role && st.role[p - 8] == r
    requires RoleKey(r).Some? && RoleKey(r).value in st'.view
    requires but in st.role && st.role[but] != r
    requires forall a :: a in st'.role && RoleKey(st'.role[a]).Some? && a != but ==> RegionKept(st, st', a + 8)
    ensures RegionKept(st, st', p)
  {
    hide RegionKept;
    assert p - 8 in st'.role;
    assert RegionKept(st, st', p - 8 + 8);
  }

  lemma DroppedLinks(m: Bytes, m': Bytes, head: nat, c: seq<Node>, i: nat)
    requires LinkedNodes(m, head, c) && 0 < i < |c| && |m'| == |m|
    requires forall x :: 0 <= x < |c| && x != i && x != i - 1 ==> Word(m', c[x].va) == Word(m, c[x].va)
    requires c[i - 1].va + ENTRY <= |m| && c[i].va + ENTRY <= |m| && Word(m', c[i - 1].va) == Word(m, c[i].va)
    ensures LinkedNodes(m', head, Dropped(c, i))
  {
    hide Word;
    var r := Dropped(c, i);
    assert forall x :: 0 <= x < |r| ==> r[x] == c[if x < i then x else x + 1];
    forall x, y | 0 <= x < y < |r| && y == x + 1
      ensures Word(m', r[x].va) == r[y].va
    {
      if x >= i { assert r[x] == c[x + 1] && r[y] == c[y + 1]; }
      else if x == i - 1 { assert r[x] == c[i - 1] && r[y] == c[i + 1]; }
      else { assert r[x] == c[x] && r[y] == c[y]; }
    }
    assert r[|r| - 1] == if i == |c| - 1 then c[i - 1] else c[|c| - 1];
  }

  lemma DroppedDistinct(st: State, st': State, cmp: Matching, k: nat, head: nat, c: seq<Node>, i: nat)
    requires ChainOk(st, cmp, k, head, c) && 0 < i < |c| && LinkedNodes(st'.m, head, Dropped(c, i))
    requires forall x :: 0 <= x < |c| && x != i ==> NodeOk(st', cmp, k, c[x])
    ensures ChainOk(st', cmp, k, head, Dropped(c, i))
  {
    hide Word, NodeOk, LinkedNodes;
    var r := Dropped(c, i);
    assert forall x :: 0 <= x < |r| ==> r[x] == c[if x < i then x else x + 1];
  }

  /** As written, deleting removes exactly the found key unless that key heads a
      chain with other entries. */
  lemma DeleteExact(st: State, cmp: Matching, ht: nat, chains: seq<seq<Node>>, k: nat, i: nat)
    requires TableOk(st, cmp, ht, chains) && Sound(cmp) && k < BUCKETS && i < |chains[k]|
    ensures chains[k][i].key in st.view && chains[k][i].key !in CutView(st.view, cmp, k, Dropped(chains[k], i))
    ensures CutView(st.view, cmp, k, Dropped(chains[k], i)) == st.view - {chains[k][i].key}
      <==> (i > 0 || |chains[k]| == 1)
    ensures i == 0 ==> CutView(st.view, cmp, k, Dropped(chains[k], i)) == WithoutBucket(st.view, cmp, k)
  {
    hide Word, NodeOk, Owns, LinkedNodes, HasKey, Dropped, Sound;
    var c := chains[k];
    var key := c[i].key;
    var cut := CutView(st.view, cmp, k, Dropped(c, i));
    TableAt(st, cmp, ht, chains, k);
    ChainNode(st, cmp, k, Head(st.m, ht, k), c, i);
    SameSym(cmp, key, key);
    if i == 0 {
      DroppedHead(c);
      forall x ensures !HasKey([], x) { NoKeyInEmpty(x); }
      if |c| > 1 {
        ChainNode(st, cmp, k, Head(st.m, ht, k), c, 1);
        SamePosition(st, cmp, k, Head(st.m, ht, k), c, 0, 1);
        assert c[1].key in st.view - {key} && c[1].key !in cut;
      } else {
        forall x | x in st.view && cmp.bucket(x) == k
          ensures x == key
        {
          KeyInChain(st, cmp, ht, chains, x);
          SingleKey(c, x);
        }
        assert cut == st.view - {key};
      }
    } else {
      forall x | x in st.view && cmp.bucket(x) == k
        ensures HasKey(Dropped(c, i), x) <==> x != key
      {
        KeyInChain(st, cmp, ht, chains, x);
        DroppedKeys(st, cmp, k, Head(st.m, ht, k), c, i, x);
      }
      assert cut == st.view - {key};
    }
  }

  lemma NoKeyInEmpty(x: Bytes)
    ensures !HasKey([], x)
  {
  }

  lemma SingleKey(c: seq<Node>, x: Bytes)
    requires |c| == 1 && HasKey(c, x)
    ensures x == c[0].key
  {
  }

  lemma DroppedKeys(st: State, cmp: Matching, k: nat, head: nat, c: seq<Node>, i: nat, x: Bytes)
    requires ChainOk(st, cmp, k, head, c) && Sound(cmp) && 0 < i < |c| && HasKey(c, x)
    ensures HasKey(Dropped(c, i), x) <==> x != c[i].key
  {
    hide Word, NodeOk, LinkedNodes, Dropped, Sound, ChainOk;
    var j :| 0 <= j < |c| && c[j].key == x;
    if j != i { DroppedHas(c, i, j); }
    if HasKey(Dropped(c, i), x) {
      DroppedAt(c, i, 0);
      var y :| 0 <= y < |Dropped(c, i)| && Dropped(c, i)[y].key == x;
      DroppedAt(c, i, y);
      var z := if y < i then y else y + 1;
      SameSym(cmp, x, x);
      SamePosition(st, cmp, k, head, c, z, i);
    }
  }

  /** Writing the size word changes nothing else about the table. */
  lemma SizePoked(st: State, st': State, cmp: Matching, ht: nat, chains: seq<seq<Node>>)
    requires TableOk(st, cmp, ht, chains) && EntriesKept(st, st') && st'.view == st.view && st'.role == st.role
    requires st'.live == st.live && 8 <= ht && ht + TABLE <= |st'.m| && |st'.m| == |st.m|
    requires Word(st'.m, ht - 8) == Word(st.m, ht - 8)
    requires forall j :: 0 <= j < BUCKETS ==> Head(st'.m, ht, j) == Head(st.m, ht, j)
    ensures TableOk(st', cmp, ht, chains)
  {
    hide Word, ChainOk, EntriesKept, HasKey;
    EntriesLength(st, st');
    forall k | 0 <= k < BUCKETS
      ensures ChainOk(st', cmp, k, Head(st'.m, ht, k), chains[k])
    {
      TableAt(st, cmp, ht, chains, k);
      EntriesChain(st, st', cmp, k, Head(st.m, ht, k), chains[k]);
    }
  }
}
