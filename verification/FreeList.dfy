/** The free list as a value: the chunks in list order.  `Carve`, `Release` and
    `Compacted` give the list that allocating, freeing and compacting leave
    behind, including compaction's unhandled case; the lemmas say what that
    does to the set of free bytes. */
module FreeList {

  const DESC: nat := 88    // sizeof(lmc_mem_descriptor_t)
  const HEADER: nat := 16  // sizeof(lmc_mem_chunk_descriptor_t)

  const MIN_BLOCK: nat := 24  // a used region holds at least a chunk header and its size word

  datatype Chunk = Chunk(off: nat, size: nat) {
    function End(): nat { off + size }
  }

  type Chunks = seq<Chunk>

  ghost predicate Within(b: int, a: int, n: int) {
    a <= b < a + n
  }

  /** Offsets [a, a + n) as a set. */
  ghost function Bits(a: int, n: int): set<int> {
    set b | a <= b < a + n && Within(b, a, n)
  }

  /* ---- Shape ---- */

  ghost predicate Clear(c: Chunk, d: Chunk) {
    c.End() <= d.off || d.End() <= c.off
  }

  ghost predicate InPool(fs: Chunks, n: nat) {
    forall i :: 0 <= i < |fs| ==> DESC <= fs[i].off && HEADER <= fs[i].size && fs[i].End() <= n
  }

  ghost predicate Apart(fs: Chunks) {
    forall i, j :: 0 <= i < j < |fs| ==> Clear(fs[i], fs[j])
  }

  /** No chunk ends where another starts: the invariant that makes freeing correct. */
  ghost predicate NoTouch(fs: Chunks) {
    forall i, j :: 0 <= i < |fs| && 0 <= j < |fs| && i != j ==> fs[i].End() != fs[j].off
  }

  ghost predicate Canonical(fs: Chunks, n: nat) {
    InPool(fs, n) && Apart(fs) && NoTouch(fs)
  }

  /** Byte `b` is free. */
  ghost predicate Covers(fs: Chunks, b: int) {
    exists i :: 0 <= i < |fs| && fs[i].off <= b < fs[i].End()
  }

  /** The region [a, a + n) has no free byte. */
  ghost predicate Outside(fs: Chunks, a: nat, n: nat) {
    forall i :: 0 <= i < |fs| ==> Clear(fs[i], Chunk(a, n))
  }

  /* ---- Allocating ---- */

  function FirstFit(fs: Chunks, s: nat): (i: nat)
    ensures i <= |fs|
    ensures forall j :: 0 <= j < i ==> fs[j].size < s
    ensures i < |fs| ==> s <= fs[i].size
  {
    if fs == [] || s <= fs[0].size then 0 else FirstFit(fs[1..], s) + 1
  }

  /** A chunk is handed out whole when the rest could not hold a header. */
  function Share(size: nat, s: nat): (t: nat)
    requires s <= size
  {
    if size - s < HEADER then size else s
  }

  function RemoveAt(fs: Chunks, i: nat): (r: Chunks)
    requires i < |fs|
    ensures |r| == |fs| - 1
    ensures forall j :: 0 <= j < |r| ==> r[j] == fs[if j < i then j else j + 1]
  {
    fs[..i] + fs[i + 1..]
  }

  /** Take the last `t` bytes of chunk `i`. */
  function Carve(fs: Chunks, i: nat, t: nat): Chunks
    requires i < |fs| && t <= fs[i].size
  {
    if t == fs[i].size then RemoveAt(fs, i)
    else fs[i := Chunk(fs[i].off, fs[i].size - t)]
  }

  lemma InPoolAt(fs: Chunks, n: nat, i: nat)
    requires InPool(fs, n) && i < |fs|
    ensures DESC <= fs[i].off && HEADER <= fs[i].size && fs[i].End() <= n
  {
  }

  lemma CoversAt(fs: Chunks, i: nat, b: nat)
    requires i < |fs| && fs[i].off <= b < fs[i].End()
    ensures Covers(fs, b)
  {
  }

  lemma CoverIndex(fs: Chunks, b: int) returns (i: nat)
    requires Covers(fs, b)
    ensures i < |fs| && fs[i].off <= b < fs[i].End()
  {
    i :| 0 <= i < |fs| && fs[i].off <= b < fs[i].End();
  }

  lemma ApartAt(fs: Chunks, i: nat, j: nat)
    requires Apart(fs) && i < |fs| && j < |fs| && i != j
    ensures Clear(fs[i], fs[j])
  {
  }

  lemma RemovedCovers(fs: Chunks, i: nat)
    requires i < |fs| && Apart(fs)
    ensures forall b {:trigger Covers(RemoveAt(fs, i), b)} ::
      Covers(RemoveAt(fs, i), b) <==> Covers(fs, b) && !(fs[i].off <= b < fs[i].End())
  {
    hide Covers, Apart;
    var r := RemoveAt(fs, i);
    forall b
      ensures Covers(r, b) <==> Covers(fs, b) && !(fs[i].off <= b < fs[i].End())
    {
      if Covers(r, b) {
        var j := CoverIndex(r, b);
        var k := if j < i then j else j + 1;
        CoversAt(fs, k, b);
        ApartAt(fs, i, k);
      }
      if Covers(fs, b) && !(fs[i].off <= b < fs[i].End()) {
        var k := CoverIndex(fs, b);
        CoversAt(r, if k < i then k else k - 1, b);
      }
    }
  }

  lemma RemovedCanonical(fs: Chunks, i: nat, n: nat)
    requires i < |fs|
    ensures InPool(fs, n) ==> InPool(RemoveAt(fs, i), n)
    ensures Apart(fs) ==> Apart(RemoveAt(fs, i))
    ensures NoTouch(fs) ==> NoTouch(RemoveAt(fs, i))
  {
  }

  /** Resizing chunk `i` exchanges exactly its bytes. */
  lemma ResizedCovers(fs: Chunks, i: nat, c: Chunk)
    requires i < |fs| && Apart(fs)
    ensures forall b {:trigger Covers(fs[i := c], b)} ::
      Covers(fs[i := c], b) <==>
      c.off <= b < c.End() || (Covers(fs, b) && !(fs[i].off <= b < fs[i].End()))
  {
    hide Covers, Apart;
    var r := fs[i := c];
    forall b
      ensures Covers(r, b) <==>
        c.off <= b < c.End() || (Covers(fs, b) && !(fs[i].off <= b < fs[i].End()))
    {
      if Covers(r, b) {
        var j := CoverIndex(r, b);
        if j != i { CoversAt(fs, j, b); ApartAt(fs, i, j); }
      }
      if c.off <= b < c.End() {
        CoversAt(r, i, b);
      } else if Covers(fs, b) && !(fs[i].off <= b < fs[i].End()) {
        var k := CoverIndex(fs, b);
        CoversAt(r, k, b);
      }
    }
  }

  lemma ShrunkApart(fs: Chunks, i: nat, t: nat, n: nat)
    requires InPool(fs, n) && Apart(fs) && i < |fs| && t > 0 && t + HEADER <= fs[i].size
    ensures var r := fs[i := Chunk(fs[i].off, fs[i].size - t)];
      InPool(r, n) && Apart(r) && (NoTouch(fs) ==> NoTouch(r)) && Outside(r, fs[i].End() - t, t)
  {
    var r := fs[i := Chunk(fs[i].off, fs[i].size - t)];
    forall j | 0 <= j < |r| && j != i
      ensures Clear(r[j], fs[i]) && r[j] == fs[j] && r[i].End() != r[j].off
      ensures NoTouch(fs) ==> r[j].End() != r[i].off
    {
      if j < i { assert Clear(fs[j], fs[i]); } else { assert Clear(fs[i], fs[j]); }
    }
  }

  lemma RemovedOutside(fs: Chunks, i: nat)
    requires i < |fs| && Apart(fs)
    ensures Outside(RemoveAt(fs, i), fs[i].off, fs[i].size)
  {
    var r := RemoveAt(fs, i);
    forall j | 0 <= j < |r|
      ensures Clear(r[j], fs[i])
    {
      if j < i { assert Clear(fs[j], fs[i]); } else { assert Clear(fs[i], fs[j + 1]); }
    }
  }

  /** Carving keeps chunks separate, and unbordered if they were, and moves exactly
      the tail of chunk `i` out of the free bytes. */
  lemma CarveApart(fs: Chunks, i: nat, s: nat, n: nat)
    requires InPool(fs, n) && Apart(fs) && i < |fs| && 0 < s <= fs[i].size
    ensures var t := Share(fs[i].size, s);
      var r := Carve(fs, i, t);
      && InPool(r, n) && Apart(r) && (NoTouch(fs) ==> NoTouch(r))
      && Outside(r, fs[i].End() - t, t)
      && (forall b {:trigger Covers(r, b)} ::
           Covers(r, b) <==> Covers(fs, b) && !(fs[i].End() - t <= b < fs[i].End()))
  {
    hide Covers, Apart, NoTouch, InPool, Outside;
    InPoolAt(fs, n, i);
    forall b | fs[i].off <= b < fs[i].End() ensures Covers(fs, b) { CoversAt(fs, i, b); }
    var t := Share(fs[i].size, s);
    if t == fs[i].size {
      RemovedCovers(fs, i);
      RemovedOutside(fs, i);
      RemovedCanonical(fs, i, n);
    } else {
      ShrunkApart(fs, i, t, n);
      ResizedCovers(fs, i, Chunk(fs[i].off, fs[i].size - t));
    }
  }

  /** In particular it keeps the list canonical. */
  lemma CarveKeeps(fs: Chunks, i: nat, s: nat, n: nat)
    requires Canonical(fs, n) && i < |fs| && 0 < s <= fs[i].size
    ensures var t := Share(fs[i].size, s);
      var r := Carve(fs, i, t);
      && Canonical(r, n)
      && Outside(r, fs[i].End() - t, t)
      && (forall b {:trigger Covers(r, b)} ::
           Covers(r, b) <==> Covers(fs, b) && !(fs[i].End() - t <= b < fs[i].End()))
  {
    hide Covers, Apart, NoTouch, InPool, Outside, Carve;
    CarveApart(fs, i, s, n);
  }

  /* ---- Freeing ---- */

  predicate Meets(c: Chunk, a: nat, n: nat) {
    c.End() == a || a + n == c.off
  }

  lemma MeetsDef(c: Chunk, a: nat, n: nat)
    ensures Meets(c, a, n) <==> c.End() == a || a + n == c.off
  {
  }

  /** The first chunk, in list order, that borders [a, a + n). */
  function FirstMeeting(fs: Chunks, a: nat, n: nat): (i: nat)
    ensures i <= |fs|
    ensures forall j :: 0 <= j < i ==> !Meets(fs[j], a, n)
    ensures i < |fs| ==> Meets(fs[i], a, n)
  {
    if fs == [] || Meets(fs[0], a, n) then 0 else FirstMeeting(fs[1..], a, n) + 1
  }

  lemma MeetingIs(fs: Chunks, va: nat, size: nat, k: nat)
    requires k <= |fs| && (forall q :: 0 <= q < k ==> !Meets(fs[q], va, size))
    requires k < |fs| ==> Meets(fs[k], va, size)
    ensures FirstMeeting(fs, va, size) == k
  {
  }

  /** The chunk compaction merges chunk `i` with: the first at or after `from`
      that borders it, never `i` itself nor its list predecessor. */
  function Partner(fs: Chunks, i: nat, from: nat): (j: nat)
    requires i < |fs| && from <= |fs|
    ensures from <= j <= |fs|
    ensures forall k :: from <= k < j && k != i && k + 1 != i ==> !Meets(fs[k], fs[i].off, fs[i].size)
    ensures j < |fs| ==> j != i && j + 1 != i && Meets(fs[j], fs[i].off, fs[i].size)
    decreases |fs| - from
  {
    if from == |fs| then from
    else if from != i && from + 1 != i && Meets(fs[from], fs[i].off, fs[i].size) then from
    else Partner(fs, i, from + 1)
  }

  /** Chunk `i` grown over the bytes of chunk `j` above it, which is still listed. */
  function Grown(fs: Chunks, i: nat, j: nat): Chunks
    requires i < |fs| && j < |fs|
  {
    fs[i := Chunk(fs[i].off, fs[i].size + fs[j].size)]
  }

  /** Chunk `i` merged with chunk `j` above it, which stays listed if it heads the list. */
  function MergedUp(fs: Chunks, i: nat, j: nat): Chunks
    requires i < |fs| && j < |fs|
  {
    if j == 0 then Grown(fs, i, j) else RemoveAt(Grown(fs, i, j), j)
  }

  /** Chunk `i` merged into chunk `j` below it. */
  function MergedDown(fs: Chunks, i: nat, j: nat): Chunks
    requires i < |fs| && j < |fs|
  {
    RemoveAt(Grown(fs, j, i), i)
  }

  /** What compaction around chunk `i` makes of the list, for any list. */
  function Compacted(fs: Chunks, i: nat): Chunks
    requires i < |fs|
  {
    var j := Partner(fs, i, 0);
    if j == |fs| then fs
    else if fs[j].End() == fs[i].off then MergedDown(fs, i, j)
    else MergedUp(fs, i, j)
  }

  /** What freeing [a, a + n) makes of the list. */
  function Release(fs: Chunks, a: nat, n: nat): Chunks {
    var i := FirstMeeting(fs, a, n);
    if i == |fs| then [Chunk(a, n)] + fs else Compacted(Absorb(fs, i, a, n), i)
  }

  /** Chunk `i`, which borders [a, a + n), takes those bytes over. */
  function Absorb(fs: Chunks, i: nat, a: nat, n: nat): Chunks
    requires i < |fs|
  {
    if fs[i].End() == a then fs[i := Chunk(fs[i].off, fs[i].size + n)]
    else fs[i := Chunk(a, n + fs[i].size)]
  }

  lemma AbsorbKeeps(fs: Chunks, i: nat, a: nat, n: nat, hi: nat)
    requires InPool(fs, hi) && Apart(fs) && i < |fs| && Meets(fs[i], a, n)
    requires Outside(fs, a, n) && DESC <= a && a + n <= hi
    ensures InPool(Absorb(fs, i, a, n), hi) && Apart(Absorb(fs, i, a, n))
    ensures forall b {:trigger Covers(Absorb(fs, i, a, n), b)} ::
      Covers(Absorb(fs, i, a, n), b) <==> Covers(fs, b) || a <= b < a + n
  {
    var c := Absorb(fs, i, a, n)[i];
    ResizedCovers(fs, i, c);
    forall j | 0 <= j < |fs| && j != i
      ensures Clear(fs[j], c)
    {
      assert Clear(fs[j], fs[i]) && Clear(fs[j], Chunk(a, n));
    }
  }

  /** After absorbing, everything that still borders chunk `i` comes later in the
      list, so neither unhandled case of compaction can arise. */
  lemma UnhandledUnreachable(fs: Chunks, a: nat, n: nat, hi: nat)
    requires Canonical(fs, hi) && Outside(fs, a, n) && n > 0
    requires FirstMeeting(fs, a, n) < |fs|
    ensures var i := FirstMeeting(fs, a, n);
      var gs := Absorb(fs, i, a, n);
      && (Partner(gs, i, 0) == |gs| || Partner(gs, i, 0) > i)
      && (forall j :: 0 <= j < |gs| && j != i && Meets(gs[j], gs[i].off, gs[i].size) ==>
            j == Partner(gs, i, 0))
  {
    var i := FirstMeeting(fs, a, n);
    var gs := Absorb(fs, i, a, n);
    forall j | 0 <= j < |gs| && j != i && Meets(gs[j], gs[i].off, gs[i].size)
      ensures j > i && Meets(fs[j], a, n)
    {
      assert gs[j] == fs[j];
    }
    forall j, k | 0 <= j < |gs| && 0 <= k < |gs| && j != i && k != i
      && Meets(gs[j], gs[i].off, gs[i].size) && Meets(gs[k], gs[i].off, gs[i].size)
      ensures j == k
    {
      assert Clear(fs[j], fs[i]) && Clear(fs[k], fs[i]);
    }
  }

  /** The join of two bordering chunks. */
  ghost predicate Joins(d: Chunk, x: Chunk, y: Chunk) {
    (x.End() == y.off && d == Chunk(x.off, x.size + y.size)) ||
    (y.End() == x.off && d == Chunk(y.off, x.size + y.size))
  }

  function Merged(gs: Chunks, keep: nat, drop: nat, d: Chunk): Chunks
    requires keep < |gs| && drop < |gs|
  {
    RemoveAt(gs[keep := d], drop)
  }

  lemma MergedCovers(gs: Chunks, keep: nat, drop: nat, d: Chunk)
    requires keep < |gs| && drop < |gs| && keep != drop && Apart(gs)
    requires Joins(d, gs[keep], gs[drop])
    ensures forall b {:trigger Covers(Merged(gs, keep, drop, d), b)} ::
      Covers(Merged(gs, keep, drop, d), b) <==> Covers(gs, b)
  {
    var hs := RemoveAt(gs, drop);
    var k := if keep < drop then keep else keep - 1;
    assert hs[k] == gs[keep];
    assert Merged(gs, keep, drop, d) == hs[k := d];
    RemovedCovers(gs, drop);
    RemovedCanonical(gs, drop, 0);
    ResizedCovers(hs, k, d);
    forall b
      ensures Covers(hs[k := d], b) <==> Covers(gs, b)
    {
      assert d.off <= b < d.End() <==>
        gs[keep].off <= b < gs[keep].End() || gs[drop].off <= b < gs[drop].End();
      assert Covers(hs, b) <==> Covers(gs, b) && !(gs[drop].off <= b < gs[drop].End());
    }
  }

  lemma MergedCanonical(gs: Chunks, keep: nat, drop: nat, d: Chunk, hi: nat)
    requires keep < |gs| && drop < |gs| && keep != drop && Apart(gs) && InPool(gs, hi)
    requires Joins(d, gs[keep], gs[drop])
    requires forall i, j :: 0 <= i < |gs| && 0 <= j < |gs| && i != j && gs[i].End() == gs[j].off ==>
      (i == keep && j == drop) || (i == drop && j == keep)
    ensures Canonical(Merged(gs, keep, drop, d), hi)
  {
    hide Apart, NoTouch, InPool;
    var hs := gs[keep := d];
    var r := RemoveAt(hs, drop);
    forall x, y | 0 <= x < y < |r|
      ensures Clear(r[x], r[y]) && r[x].End() != r[y].off && r[y].End() != r[x].off
    {
      var p, q := if x < drop then x else x + 1, if y < drop then y else y + 1;
      MergedPair(gs, keep, drop, d, p, q);
      MergedPair(gs, keep, drop, d, q, p);
    }
    forall x | 0 <= x < |r|
      ensures DESC <= r[x].off && HEADER <= r[x].size && r[x].End() <= hi
    {
      InPoolAt(gs, hi, if x < drop then x else x + 1);
      InPoolAt(gs, hi, drop);
    }
    PairwiseCanonical(r, hi);
  }

  lemma MergedPair(gs: Chunks, keep: nat, drop: nat, d: Chunk, x: nat, y: nat)
    requires keep < |gs| && drop < |gs| && keep != drop && Apart(gs)
    requires Joins(d, gs[keep], gs[drop])
    requires forall i, j :: 0 <= i < |gs| && 0 <= j < |gs| && i != j && gs[i].End() == gs[j].off ==>
      (i == keep && j == drop) || (i == drop && j == keep)
    requires x < |gs| && y < |gs| && x != y && x != drop && y != drop
    ensures var hs := gs[keep := d]; Clear(hs[x], hs[y]) && hs[x].End() != hs[y].off
  {
    hide Apart;
    ApartAt(gs, x, y);
    ApartAt(gs, x, drop);
    ApartAt(gs, y, drop);
  }

  /** Freeing a used region keeps the list canonical and adds exactly that
      region to the free bytes. */
  lemma ReleaseKeeps(fs: Chunks, a: nat, n: nat, hi: nat)
    requires Canonical(fs, hi) && Outside(fs, a, n) && DESC <= a && a + n <= hi && n > 0
    requires n >= HEADER || FirstMeeting(fs, a, n) < |fs|
    ensures Canonical(Release(fs, a, n), hi)
    ensures forall b {:trigger Covers(Release(fs, a, n), b)} ::
      Covers(Release(fs, a, n), b) <==> Covers(fs, b) || a <= b < a + n
  {
    var i := FirstMeeting(fs, a, n);
    if i == |fs| {
      PushedKeeps(fs, a, n, hi);
    } else {
      AbsorbKeeps(fs, i, a, n, hi);
      AbsorbTouches(fs, a, n, hi);
      CompactedKeeps(Absorb(fs, i, a, n), i, hi);
    }
  }

  lemma PushedKeeps(fs: Chunks, a: nat, n: nat, hi: nat)
    requires Canonical(fs, hi) && Outside(fs, a, n) && DESC <= a && a + n <= hi && n >= HEADER
    requires FirstMeeting(fs, a, n) == |fs|
    ensures Canonical([Chunk(a, n)] + fs, hi)
    ensures forall b {:trigger Covers([Chunk(a, n)] + fs, b)} ::
      Covers([Chunk(a, n)] + fs, b) <==> Covers(fs, b) || a <= b < a + n
  {
    hide Covers, Apart, NoTouch, FirstMeeting;
    var r := [Chunk(a, n)] + fs;
    forall b
      ensures Covers(r, b) <==> Covers(fs, b) || a <= b < a + n
    {
      if Covers(r, b) {
        var k := CoverIndex(r, b);
        if k > 0 { CoversAt(fs, k - 1, b); }
      }
      if Covers(fs, b) {
        var k := CoverIndex(fs, b);
        CoversAt(r, k + 1, b);
      }
      if a <= b < a + n { CoversAt(r, 0, b); }
    }
    PushedCanonical(fs, a, n, hi);
  }

  lemma PushedCanonical(fs: Chunks, a: nat, n: nat, hi: nat)
    requires Canonical(fs, hi) && Outside(fs, a, n) && DESC <= a && a + n <= hi && n >= HEADER
    requires FirstMeeting(fs, a, n) == |fs|
    ensures Canonical([Chunk(a, n)] + fs, hi)
  {
    hide FirstMeeting, Outside, Apart, NoTouch, Meets;
    var r := [Chunk(a, n)] + fs;
    forall i, j | 0 <= i < j < |r|
      ensures Clear(r[i], r[j]) && r[i].End() != r[j].off && r[j].End() != r[i].off
    {
      if i > 0 {
        ApartAt(fs, i - 1, j - 1);
        NoTouchAt(fs, i - 1, j - 1);
      } else {
        PushedPair(fs, a, n, j - 1);
      }
    }
    PairwiseCanonical(r, hi);
  }

  lemma PushedPair(fs: Chunks, a: nat, n: nat, j: nat)
    requires Outside(fs, a, n) && FirstMeeting(fs, a, n) == |fs| && j < |fs|
    ensures Clear(Chunk(a, n), fs[j]) && fs[j].End() != a && a + n != fs[j].off
  {
    hide FirstMeeting;
    assert !Meets(fs[j], a, n) && Clear(fs[j], Chunk(a, n));
  }

  lemma NoTouchAt(fs: Chunks, i: nat, j: nat)
    requires NoTouch(fs) && i < |fs| && j < |fs| && i != j
    ensures fs[i].End() != fs[j].off && fs[j].End() != fs[i].off
  {
  }

  lemma PairwiseCanonical(r: Chunks, hi: nat)
    requires forall i, j :: 0 <= i < j < |r| ==> Clear(r[i], r[j]) && r[i].End() != r[j].off && r[j].End() != r[i].off
    requires forall i :: 0 <= i < |r| ==> DESC <= r[i].off && HEADER <= r[i].size && r[i].End() <= hi
    ensures Canonical(r, hi)
  {
  }

  /** The only chunks of the list that touch are chunk `i` and its partner, which comes later. */
  ghost predicate OnlyPartnerTouches(gs: Chunks, i: nat)
    requires i < |gs|
  {
    var j := Partner(gs, i, 0);
    && (j == |gs| || j > i)
    && forall x, y :: 0 <= x < |gs| && 0 <= y < |gs| && x != y && gs[x].End() == gs[y].off ==>
         (x == i && y == j) || (x == j && y == i)
  }

  lemma AbsorbTouches(fs: Chunks, a: nat, n: nat, hi: nat)
    requires Canonical(fs, hi) && Outside(fs, a, n) && n > 0
    requires FirstMeeting(fs, a, n) < |fs|
    ensures var i := FirstMeeting(fs, a, n); OnlyPartnerTouches(Absorb(fs, i, a, n), i)
  {
    var i := FirstMeeting(fs, a, n);
    var gs := Absorb(fs, i, a, n);
    UnhandledUnreachable(fs, a, n, hi);
    forall x, y | 0 <= x < |gs| && 0 <= y < |gs| && x != y && gs[x].End() == gs[y].off
      ensures (x == i && y == Partner(gs, i, 0)) || (x == Partner(gs, i, 0) && y == i)
    {
      assert x != i ==> gs[x] == fs[x];
      assert y != i ==> gs[y] == fs[y];
      assert y != i ==> x == i && Meets(gs[y], gs[i].off, gs[i].size);
      assert x != i ==> y == i && Meets(gs[x], gs[i].off, gs[i].size);
    }
  }

  /** Compaction either does nothing or merges chunk `i` with its partner. */
  lemma CompactedForm(gs: Chunks, i: nat) returns (keep: nat, drop: nat, d: Chunk)
    requires i < |gs| && OnlyPartnerTouches(gs, i) && Partner(gs, i, 0) < |gs|
    ensures keep < |gs| && drop < |gs| && keep != drop
    ensures Joins(d, gs[keep], gs[drop]) && Compacted(gs, i) == Merged(gs, keep, drop, d)
    ensures {keep, drop} == {i, Partner(gs, i, 0)}
  {
    hide Partner, RemoveAt;
    var j := Partner(gs, i, 0);
    assert gs[j].End() == gs[i].off || gs[i].End() == gs[j].off by { MeetsDef(gs[j], gs[i].off, gs[i].size); }
    if gs[j].End() == gs[i].off {
      keep, drop, d := j, i, Chunk(gs[j].off, gs[j].size + gs[i].size);
      assert Compacted(gs, i) == MergedDown(gs, i, j);
    } else {
      keep, drop, d := i, j, Chunk(gs[i].off, gs[i].size + gs[j].size);
      assert Compacted(gs, i) == MergedUp(gs, i, j);
    }
  }

  lemma CompactedKeeps(gs: Chunks, i: nat, hi: nat)
    requires i < |gs| && InPool(gs, hi) && Apart(gs) && OnlyPartnerTouches(gs, i)
    ensures Canonical(Compacted(gs, i), hi)
    ensures forall b {:trigger Covers(Compacted(gs, i), b)} :: Covers(Compacted(gs, i), b) <==> Covers(gs, b)
  {
    var j := Partner(gs, i, 0);
    if j == |gs| {
      assert NoTouch(gs);
    } else {
      var keep, drop, d := CompactedForm(gs, i);
      assert (keep == i && drop == j) || (keep == j && drop == i) by { assert keep in {i, j} && drop in {i, j}; }
      MergedCovers(gs, keep, drop, d);
      MergedCanonical(gs, keep, drop, d, hi);
    }
  }

  /* ---- Lists whose chunks may touch or overlap ---- */

  /** `r` covers what `gs` covers. */
  ghost predicate SameCover(gs: Chunks, r: Chunks) {
    forall b {:trigger Covers(r, b)} :: Covers(r, b) <==> Covers(gs, b)
  }

  /** Growing one chunk over another that follows it, listed or not, changes no byte. */
  lemma GrownCovers(gs: Chunks, i: nat, j: nat)
    requires i < |gs| && j < |gs| && i != j && gs[i].End() == gs[j].off
    ensures SameCover(gs, Grown(gs, i, j)) && SameCover(gs, RemoveAt(Grown(gs, i, j), j))
  {
    hide Covers, RemoveAt;
    var r := Grown(gs, i, j);
    var q := RemoveAt(r, j);
    assert r[i] == Chunk(gs[i].off, gs[i].size + gs[j].size) && forall k :: 0 <= k < |gs| && k != i ==> r[k] == gs[k];
    forall b
      ensures Covers(r, b) <==> Covers(gs, b)
      ensures Covers(q, b) <==> Covers(gs, b)
    {
      if Covers(gs, b) {
        var k := CoverIndex(gs, b);
        CoversAt(r, k, b);
        var x := if k == j then i else k;
        assert r[x].off <= b < r[x].End();
        CoversAt(q, if x < j then x else x - 1, b);
      }
      if Covers(r, b) {
        var k := CoverIndex(r, b);
        CoversAt(gs, if k == i && b >= gs[i].End() then j else k, b);
      }
      if Covers(q, b) {
        var k := CoverIndex(q, b);
        CoversAt(r, if k < j then k else k + 1, b);
      }
    }
  }

  /** Compaction keeps exactly the free bytes, for any list. */
  lemma CompactedCovers(gs: Chunks, i: nat, hi: nat)
    requires i < |gs| && InPool(gs, hi)
    ensures SameCover(gs, Compacted(gs, i)) && InPool(Compacted(gs, i), hi)
  {
    hide Covers, Partner, Meets, RemoveAt, Grown;
    var j := Partner(gs, i, 0);
    if j < |gs| {
      MeetsDef(gs[j], gs[i].off, gs[i].size);
      if gs[j].End() == gs[i].off {
        GrownCovers(gs, j, i);
        GrownInPool(gs, j, i, hi);
        RemovedCanonical(Grown(gs, j, i), i, hi);
      } else {
        GrownCovers(gs, i, j);
        GrownInPool(gs, i, j, hi);
        RemovedCanonical(Grown(gs, i, j), j, hi);
      }
    }
  }

  lemma GrownInPool(gs: Chunks, i: nat, j: nat, hi: nat)
    requires i < |gs| && j < |gs| && InPool(gs, hi) && gs[i].End() == gs[j].off
    ensures |Grown(gs, i, j)| == |gs| && InPool(Grown(gs, i, j), hi)
  {
  }

  lemma AbsorbCovers(fs: Chunks, i: nat, a: nat, n: nat, hi: nat)
    requires i < |fs| && Meets(fs[i], a, n) && InPool(fs, hi) && DESC <= a && a + n <= hi
    ensures |Absorb(fs, i, a, n)| == |fs| && InPool(Absorb(fs, i, a, n), hi)
    ensures forall b {:trigger Covers(Absorb(fs, i, a, n), b)} ::
      Covers(Absorb(fs, i, a, n), b) <==> Covers(fs, b) || a <= b < a + n
  {
    hide Covers;
    var r := Absorb(fs, i, a, n);
    forall b
      ensures Covers(r, b) <==> Covers(fs, b) || a <= b < a + n
    {
      if Covers(fs, b) { var k := CoverIndex(fs, b); CoversAt(r, k, b); }
      if a <= b < a + n { CoversAt(r, i, b); }
      if Covers(r, b) {
        var k := CoverIndex(r, b);
        if !(a <= b < a + n) { CoversAt(fs, k, b); }
      }
    }
  }

  /** The region can hold a chunk header or borders a free chunk. */
  ghost predicate HasRoom(fs: Chunks, a: nat, n: nat) {
    n >= HEADER || FirstMeeting(fs, a, n) < |fs|
  }

  /** Giving a region back adds exactly its bytes, for any list; the list stays in
      shape exactly if the region has room. */
  lemma ReleaseCovers(fs: Chunks, a: nat, n: nat, hi: nat)
    requires InPool(fs, hi) && DESC <= a && a + n <= hi
    ensures InPool(Release(fs, a, n), hi) <==> HasRoom(fs, a, n)
    ensures forall b {:trigger Covers(Release(fs, a, n), b)} ::
      Covers(Release(fs, a, n), b) <==> Covers(fs, b) || a <= b < a + n
  {
    hide Covers, FirstMeeting, Absorb, Compacted;
    var i := FirstMeeting(fs, a, n);
    if i < |fs| {
      AbsorbCovers(fs, i, a, n, hi);
      CompactedCovers(Absorb(fs, i, a, n), i, hi);
    } else {
      var r := [Chunk(a, n)] + fs;
      assert r[0] == Chunk(a, n) && forall k :: 0 <= k < |fs| ==> r[k + 1] == fs[k];
      PushedCovers(fs, a, n);
      assert InPool(r, hi) <==> n >= HEADER by { PushedInPool(fs, a, n, hi); }
    }
  }

  lemma PushedInPool(fs: Chunks, a: nat, n: nat, hi: nat)
    requires InPool(fs, hi) && DESC <= a && a + n <= hi
    ensures InPool([Chunk(a, n)] + fs, hi) <==> n >= HEADER
  {
    var r := [Chunk(a, n)] + fs;
    assert r[0] == Chunk(a, n);
  }

  lemma PushedCovers(fs: Chunks, a: nat, n: nat)
    ensures forall b {:trigger Covers([Chunk(a, n)] + fs, b)} ::
      Covers([Chunk(a, n)] + fs, b) <==> Covers(fs, b) || a <= b < a + n
  {
    hide Covers;
    var r := [Chunk(a, n)] + fs;
    forall b
      ensures Covers(r, b) <==> Covers(fs, b) || a <= b < a + n
    {
      if Covers(r, b) {
        var k := CoverIndex(r, b);
        if k > 0 { CoversAt(fs, k - 1, b); }
      }
      if Covers(fs, b) {
        var k := CoverIndex(fs, b);
        CoversAt(r, k + 1, b);
      }
      if a <= b < a + n { CoversAt(r, 0, b); }
    }
  }

  /** Compaction counts a chunk twice exactly if it merges upwards with the list head. */
  lemma CompactedApart(gs: Chunks, i: nat, hi: nat)
    requires i < |gs| && InPool(gs, hi) && Apart(gs)
    ensures Apart(Compacted(gs, i)) <==> !(i >= 2 && gs[i].End() == gs[0].off)
  {
    hide Partner, Apart, InPool;
    var j := Partner(gs, i, 0);
    InPoolAt(gs, hi, 0);
    InPoolAt(gs, hi, i);
    MeetsDef(gs[0], gs[i].off, gs[i].size);
    if j < |gs| {
      InPoolAt(gs, hi, j);
      MeetsDef(gs[j], gs[i].off, gs[i].size);
      if gs[j].End() == gs[i].off {
        MergedApart(gs, j, i, hi);
      } else if j == 0 {
        GrownTwice(gs, i, j);
        TwiceNotApart(Grown(gs, i, j));
      } else {
        MergedApart(gs, i, j, hi);
      }
    }
  }

  /** Chunk `keep` grows over chunk `drop` above it, which leaves the list. */
  lemma MergedApart(gs: Chunks, keep: nat, drop: nat, hi: nat)
    requires InPool(gs, hi) && keep < |gs| && drop < |gs| && keep != drop && Apart(gs) && gs[keep].End() == gs[drop].off
    ensures Apart(RemoveAt(Grown(gs, keep, drop), drop))
  {
    var hs := Grown(gs, keep, drop);
    var r := RemoveAt(hs, drop);
    hide Apart, InPool;
    forall x, y | 0 <= x < y < |r|
      ensures Clear(r[x], r[y])
    {
      var p, q := if x < drop then x else x + 1, if y < drop then y else y + 1;
      ApartAt(gs, p, q);
      ApartAt(gs, p, drop);
      ApartAt(gs, q, drop);
      InPoolAt(gs, hi, p);
      InPoolAt(gs, hi, q);
    }
    assert Apart(r) by { ApartIntro(r); }
  }

  lemma ApartIntro(r: Chunks)
    requires forall x, y :: 0 <= x < y < |r| ==> Clear(r[x], r[y])
    ensures Apart(r)
  {
  }

  /** Two chunks share at least `HEADER` bytes. */
  ghost predicate Overlap(c: Chunk, d: Chunk) {
    var lo := if c.off > d.off then c.off else d.off;
    var hi := if c.End() < d.End() then c.End() else d.End();
    lo + HEADER <= hi
  }

  /** Some chunk, or most of one, is counted twice. */
  ghost predicate Twice(fs: Chunks) {
    exists x, y :: 0 <= x < y < |fs| && Overlap(fs[x], fs[y])
  }

  lemma TwiceAt(fs: Chunks, x: nat, y: nat)
    requires x < |fs| && y < |fs| && x != y && Overlap(fs[x], fs[y])
    ensures Twice(fs)
  {
    assert if x < y then Overlap(fs[x], fs[y]) else Overlap(fs[y], fs[x]);
  }

  lemma TwicePair(fs: Chunks) returns (x: nat, y: nat)
    requires Twice(fs)
    ensures x < y < |fs| && Overlap(fs[x], fs[y])
  {
    x, y :| 0 <= x < y < |fs| && Overlap(fs[x], fs[y]);
  }

  lemma TwiceNotApart(fs: Chunks)
    requires Twice(fs)
    ensures !Apart(fs)
  {
    hide Apart;
    var x, y := TwicePair(fs);
    assert Apart(fs) ==> Clear(fs[x], fs[y]) by { if Apart(fs) { ApartAt(fs, x, y); } }
  }

  lemma GrownTwice(gs: Chunks, i: nat, j: nat)
    requires i < |gs| && j < |gs| && i != j && gs[i].End() == gs[j].off && HEADER <= gs[j].size
    ensures Twice(Grown(gs, i, j))
  {
    TwiceAt(Grown(gs, i, j), i, j);
  }

  /** The give-back merges upwards with a list head it touched all along. */
  ghost predicate Doubles(fs: Chunks, a: nat, n: nat) {
    var i := FirstMeeting(fs, a, n);
    i < |fs| && i >= 2 && Absorb(fs, i, a, n)[i].End() == fs[0].off
  }

  /** Giving a region back to separate chunks leaves them separate exactly unless it doubles the head. */
  lemma ReleaseApart(fs: Chunks, a: nat, n: nat, hi: nat)
    requires InPool(fs, hi) && Apart(fs) && Outside(fs, a, n) && DESC <= a && a + n <= hi && n > 0
    ensures Apart(Release(fs, a, n)) <==> !Doubles(fs, a, n)
    ensures Doubles(fs, a, n) ==> Twice(Release(fs, a, n))
  {
    hide FirstMeeting, Apart, InPool, Partner, Meets;
    var i := FirstMeeting(fs, a, n);
    if i < |fs| {
      AbsorbKeeps(fs, i, a, n, hi);
      var gs := Absorb(fs, i, a, n);
      CompactedApart(gs, i, hi);
      if Doubles(fs, a, n) { DoubledHead(gs, i, hi); }
    } else {
      PushedApart(fs, a, n);
    }
  }

  /** What that means for allocations: the last byte of the head is still free after
      any part of the head has been handed out. */
  lemma DoubledStaysFree(fs: Chunks, a: nat, n: nat, hi: nat, t: nat)
    requires InPool(fs, hi) && Doubles(fs, a, n) && DESC <= a && a + n <= hi
    ensures var r := Release(fs, a, n);
      |r| > 2 && (0 < t <= r[0].size ==> Covers(Carve(r, 0, t), r[0].End() - 1))
  {
    hide FirstMeeting, InPool, Partner, Meets, Covers, Twice;
    var i := FirstMeeting(fs, a, n);
    assert i < |fs| && Meets(fs[i], a, n);
    AbsorbCovers(fs, i, a, n, hi);
    var gs := Absorb(fs, i, a, n);
    DoubledHead(gs, i, hi);
    InPoolAt(gs, hi, 0);
    var r := Grown(gs, i, 0);
    assert r[i].End() == r[0].End() && r[0] == gs[0];
    if 0 < t <= r[0].size {
      var q := Carve(r, 0, t);
      var k := if t == r[0].size then i - 1 else i;
      assert q[k] == r[i];
      CoversAt(q, k, r[0].End() - 1);
    }
  }

  lemma DoubledHead(gs: Chunks, i: nat, hi: nat)
    requires 2 <= i < |gs| && InPool(gs, hi) && gs[i].End() == gs[0].off
    ensures Compacted(gs, i) == Grown(gs, i, 0) && Twice(Compacted(gs, i))
  {
    hide Meets;
    InPoolAt(gs, hi, 0);
    InPoolAt(gs, hi, i);
    MeetsDef(gs[0], gs[i].off, gs[i].size);
    GrownTwice(gs, i, 0);
  }

  lemma PushedApart(fs: Chunks, a: nat, n: nat)
    requires Apart(fs) && Outside(fs, a, n)
    ensures Apart([Chunk(a, n)] + fs)
  {
    var r := [Chunk(a, n)] + fs;
    forall x, y | 0 <= x < y < |r|
      ensures Clear(r[x], r[y])
    {
      assert r[y] == fs[y - 1] && Clear(fs[y - 1], Chunk(a, n));
      if x > 0 { assert r[x] == fs[x - 1]; }
    }
  }

  /** No later give-back mends a list that counts bytes twice. */
  lemma ReleaseTwice(fs: Chunks, a: nat, n: nat, hi: nat)
    requires InPool(fs, hi) && Twice(fs) && DESC <= a && a + n <= hi
    ensures Twice(Release(fs, a, n))
  {
    hide FirstMeeting, Absorb, Compacted, Twice;
    var i := FirstMeeting(fs, a, n);
    if i < |fs| {
      AbsorbCovers(fs, i, a, n, hi);
      AbsorbTwice(fs, i, a, n);
      CompactedTwice(Absorb(fs, i, a, n), i, hi);
    } else {
      var x, y := TwicePair(fs);
      var r := [Chunk(a, n)] + fs;
      assert r[x + 1] == fs[x] && r[y + 1] == fs[y];
      TwiceAt(r, x + 1, y + 1);
    }
  }

  lemma AbsorbTwice(fs: Chunks, i: nat, a: nat, n: nat)
    requires i < |fs| && Meets(fs[i], a, n) && Twice(fs)
    ensures Twice(Absorb(fs, i, a, n))
  {
    hide Twice;
    var x, y := TwicePair(fs);
    TwiceAt(Absorb(fs, i, a, n), x, y);
  }

  lemma CompactedTwice(gs: Chunks, i: nat, hi: nat)
    requires i < |gs| && InPool(gs, hi) && Twice(gs)
    ensures Twice(Compacted(gs, i))
  {
    hide Twice, Partner, InPool, RemoveAt;
    var j := Partner(gs, i, 0);
    if j < |gs| {
      MeetsDef(gs[j], gs[i].off, gs[i].size);
      if gs[j].End() == gs[i].off { MergedTwice(gs, j, i); } else { MergedTwice(gs, i, j); }
    }
  }

  lemma MergedTwice(gs: Chunks, keep: nat, drop: nat)
    requires keep < |gs| && drop < |gs| && keep != drop && gs[keep].End() == gs[drop].off && Twice(gs)
    ensures Twice(Grown(gs, keep, drop)) && Twice(RemoveAt(Grown(gs, keep, drop), drop))
  {
    hide Twice;
    var x, y := TwicePair(gs);
    var hs := Grown(gs, keep, drop);
    TwiceAt(hs, x, y);
    var p, q := if x == drop then keep else x, if y == drop then keep else y;
    assert Overlap(hs[p], hs[q]) && p != q && p != drop && q != drop;
    TwiceAt(RemoveAt(hs, drop), if p < drop then p else p - 1, if q < drop then q else q - 1);
  }

  /* ---- Crashes ---- */

  /** The lists compaction around chunk `i` can be caught with at its crash sites. */
  ghost predicate CompactCrash(gs: Chunks, i: nat, r: Chunks)
    requires i < |gs|
  {
    var j := Partner(gs, i, 0);
    || r == gs
    || r == Compacted(gs, i)
    || (j < |gs| && gs[j].End() == gs[i].off && r == RemoveAt(gs, i))
    || (j < |gs| && gs[j].End() != gs[i].off && r == Grown(gs, i, j))
  }

  /** The lists freeing [a, a + n) can be caught with at its crash sites. */
  ghost predicate ReleaseCrash(fs: Chunks, a: nat, n: nat, r: Chunks) {
    var i := FirstMeeting(fs, a, n);
    i < |fs| && (r == fs || CompactCrash(Absorb(fs, i, a, n), i, r))
  }

  /* ---- A chunk counted twice by give-backs in the order of their offsets ---- */

  /** Chunk `q` counts chunk `p`, which comes before it, again; and neither will be
      unlinked by a give-back behind `e`. */
  ghost predicate Pair(fs: Chunks, p: nat, q: nat, e: int) {
    && p < q < |fs| && fs[q].off < e && fs[q].off < fs[p].off && Overlap(fs[p], fs[q])
    && (fs[q].End() <= fs[p].End() || fs[q].End() <= e)
    && forall k :: 0 <= k < |fs| ==> fs[k].End() != fs[p].off
  }

  ghost predicate Paired(fs: Chunks, e: int) {
    exists p, q :: Pair(fs, p, q, e)
  }

  lemma PairedTwice(fs: Chunks, p: nat, q: nat, e: int)
    requires Pair(fs, p, q, e)
    ensures Twice(fs) && Paired(fs, e)
  {
    TwiceAt(fs, p, q);
  }

  lemma PairRemoved(fs: Chunks, p: nat, q: nat, e: int, x: nat)
    requires Pair(fs, p, q, e) && x < |fs| && x != p && x != q
    ensures Pair(RemoveAt(fs, x), if x < p then p - 1 else p, if x < q then q - 1 else q, e)
  {
    hide Overlap;
  }

  /** Where a give-back behind `e` reaches; it is not absorbed by chunk `q`. */
  lemma PairMeets(fs: Chunks, p: nat, q: nat, e: int, a: nat, n: nat)
    requires Pair(fs, p, q, e) && e < a && Outside(fs, a, n) && n > 0
    ensures fs[p].off < a && fs[q].End() <= a && (fs[q].End() == a ==> fs[p].End() == a) && fs[q].off < a
    ensures FirstMeeting(fs, a, n) != q && (fs[q].End() == a ==> FirstMeeting(fs, a, n) <= p)
  {
    assert Clear(fs[p], Chunk(a, n)) && Clear(fs[q], Chunk(a, n));
  }

  lemma PairAbsorbed(fs: Chunks, p: nat, q: nat, e: int, a: nat, n: nat)
    requires Pair(fs, p, q, e) && e < a && Outside(fs, a, n) && n > 0 && FirstMeeting(fs, a, n) < |fs|
    ensures var i := FirstMeeting(fs, a, n);
      var gs := Absorb(fs, i, a, n);
      && |gs| == |fs| && Pair(gs, p, q, a + n) && i != q && gs[i].End() >= a + n && gs[i].off <= a && gs[p].off < a
      && (gs[i].End() == a + n || (gs[i].off == a && i != p))
      && gs[q].End() <= a && (gs[q].End() == a ==> gs[p].End() >= a && i <= p && (i == p || gs[p].End() == a))
  {
    hide FirstMeeting;
    var i := FirstMeeting(fs, a, n);
    PairMeets(fs, p, q, e, a, n);
    MeetsDef(fs[i], a, n);
  }

  lemma PairGrown(gs: Chunks, p: nat, q: nat, e: int, keep: nat, drop: nat)
    requires Pair(gs, p, q, e) && keep < |gs| && drop < |gs| && keep != drop && gs[keep].End() == gs[drop].off
    requires gs[p].off < gs[drop].End() && (keep == q ==> gs[drop].End() <= e)
    ensures |Grown(gs, keep, drop)| == |gs| && Pair(Grown(gs, keep, drop), p, q, e)
  {
  }

  lemma PairMerged(gs: Chunks, p: nat, q: nat, e: int, keep: nat, drop: nat)
    requires Pair(gs, p, q, e) && keep < |gs| && drop < |gs| && keep != drop && gs[keep].End() == gs[drop].off
    requires gs[p].off < gs[drop].End() && (keep == q ==> gs[drop].End() <= e) && drop != p && drop != q
    ensures Twice(Grown(gs, keep, drop)) && Paired(Grown(gs, keep, drop), e)
    ensures |Grown(gs, keep, drop)| == |gs| && Paired(RemoveAt(Grown(gs, keep, drop), drop), e)
  {
    hide RemoveAt, Grown, Pair;
    var hs := Grown(gs, keep, drop);
    PairGrown(gs, p, q, e, keep, drop);
    PairedTwice(hs, p, q, e);
    PairLess(hs, p, q, e, drop);
  }

  lemma PairLess(fs: Chunks, p: nat, q: nat, e: int, x: nat)
    requires Pair(fs, p, q, e) && x < |fs| && x != p && x != q
    ensures Twice(RemoveAt(fs, x)) && Paired(RemoveAt(fs, x), e)
  {
    hide RemoveAt, Pair;
    PairRemoved(fs, p, q, e, x);
    PairedTwice(RemoveAt(fs, x), if x < p then p - 1 else p, if x < q then q - 1 else q, e);
  }

  /** The partner below is chunk `q` only if the grown chunk ends where the region ends. */
  lemma PairPartner(gs: Chunks, p: nat, q: nat, a: nat, i: nat)
    requires p < q < |gs| && i < p && gs[i].off == a == gs[p].End()
    ensures Partner(gs, i, 0) <= p
  {
    MeetsDef(gs[p], gs[i].off, gs[i].size);
  }

  /** Merging chunk `i` down into `j` leaves the pair listed, also while chunk `i` is unlinked. */
  lemma PairDown(gs: Chunks, p: nat, q: nat, a: nat, n: nat, i: nat)
    requires Pair(gs, p, q, a + n) && i < |gs| && i != q && n > 0
    requires gs[i].End() >= a + n && gs[i].off <= a && gs[p].off < a
    requires gs[i].End() == a + n || (gs[i].off == a && i != p)
    requires gs[q].End() <= a && (gs[q].End() == a ==> gs[p].End() >= a && i <= p && (i == p || gs[p].End() == a))
    requires Partner(gs, i, 0) < |gs| && gs[Partner(gs, i, 0)].End() == gs[i].off
    ensures Twice(RemoveAt(gs, i)) && Paired(MergedDown(gs, i, Partner(gs, i, 0)), a + n)
  {
    hide RemoveAt, Partner, Grown, Pair, Twice;
    var j := Partner(gs, i, 0);
    PairHas(gs, p, q, a + n, j);
    PairLess(gs, p, q, a + n, i);
    if i < p && gs[i].off == a == gs[p].End() { PairPartner(gs, p, q, a, i); }
    PairMerged(gs, p, q, a + n, j, i);
  }

  lemma PairHas(gs: Chunks, p: nat, q: nat, e: int, k: nat)
    requires Pair(gs, p, q, e) && k < |gs|
    ensures gs[k].End() != gs[p].off && p < q < |gs|
  {
  }

  /** Merging chunk `i` upwards with `j` does too. */
  lemma PairUp(gs: Chunks, p: nat, q: nat, a: nat, n: nat, i: nat, j: nat)
    requires Pair(gs, p, q, a + n) && i < |gs| && i != q && n > 0 && j < |gs| && i != j
    requires gs[i].End() >= a + n && gs[p].off < a && gs[q].off < a && gs[i].End() == gs[j].off
    ensures Twice(Grown(gs, i, j)) && Paired(MergedUp(gs, i, j), a + n)
  {
    hide RemoveAt, Grown, Pair, Twice;
    PairHas(gs, p, q, a + n, i);
    PairMerged(gs, p, q, a + n, i, j);
  }

  /** So a give-back behind `e` keeps the pair, wherever it is interrupted. */
  lemma PairReleased(fs: Chunks, e: int, a: nat, n: nat)
    requires Paired(fs, e) && e < a && Outside(fs, a, n) && n > 0
    ensures Paired(Release(fs, a, n), a + n)
    ensures forall r :: ReleaseCrash(fs, a, n, r) ==> Twice(r)
  {
    hide FirstMeeting, Absorb, Pair, Partner, RemoveAt, Grown;
    var p, q :| Pair(fs, p, q, e);
    PairedTwice(fs, p, q, e);
    var i := FirstMeeting(fs, a, n);
    if i == |fs| {
      PairPushed(fs, p, q, e, a, n);
    } else {
      PairAbsorbed(fs, p, q, e, a, n);
      PairCompacted(Absorb(fs, i, a, n), p, q, a, n, i);
    }
  }

  lemma PairPushed(fs: Chunks, p: nat, q: nat, e: int, a: nat, n: nat)
    requires Pair(fs, p, q, e) && e < a && Outside(fs, a, n) && n > 0
    ensures Paired([Chunk(a, n)] + fs, a + n)
  {
    PairMeets(fs, p, q, e, a, n);
    assert Pair([Chunk(a, n)] + fs, p + 1, q + 1, a + n);
  }

  lemma PairCompacted(gs: Chunks, p: nat, q: nat, a: nat, n: nat, i: nat)
    requires Pair(gs, p, q, a + n) && i < |gs| && i != q && n > 0
    requires gs[i].End() >= a + n && gs[i].off <= a && gs[p].off < a
    requires gs[i].End() == a + n || (gs[i].off == a && i != p)
    requires gs[q].End() <= a && (gs[q].End() == a ==> gs[p].End() >= a && i <= p && (i == p || gs[p].End() == a))
    ensures Paired(Compacted(gs, i), a + n)
    ensures forall r :: CompactCrash(gs, i, r) ==> Twice(r)
  {
    hide Twice, RemoveAt, Grown, MergedUp, MergedDown, Overlap;
    var j := Partner(gs, i, 0);
    PairedTwice(gs, p, q, a + n);
    if j < |gs| {
      MeetsDef(gs[j], gs[i].off, gs[i].size);
      if gs[j].End() == gs[i].off { PairDown(gs, p, q, a, n, i); } else { PairUp(gs, p, q, a, n, i, j); }
    }
    PairedIsTwice(Compacted(gs, i), a + n);
  }

  lemma PairedIsTwice(fs: Chunks, e: int)
    requires Paired(fs, e)
    ensures Twice(fs)
  {
    hide Pair, Twice;
    var p, q :| Pair(fs, p, q, e);
    PairedTwice(fs, p, q, e);
  }

  /** The give-back that counts the list head twice makes such a pair. */
  lemma PairMade(fs: Chunks, a: nat, n: nat, hi: nat)
    requires InPool(fs, hi) && Apart(fs) && Outside(fs, a, n) && DESC <= a && a + n <= hi && n > 0 && Doubles(fs, a, n)
    ensures Paired(Release(fs, a, n), a + n)
  {
    hide FirstMeeting, Apart, InPool, Partner, Compacted, Covers;
    var i := FirstMeeting(fs, a, n);
    var gs := Absorb(fs, i, a, n);
    assert Meets(fs[i], a, n);
    AbsorbKeeps(fs, i, a, n, hi);
    DoubledHead(gs, i, hi);
    var r := Grown(gs, i, 0);
    InPoolAt(gs, hi, 0);
    forall k | 0 <= k < |r|
      ensures r[k].End() != r[0].off
    {
      InPoolAt(gs, hi, k);
      if k != 0 && k != i { ApartAt(gs, k, i); }
    }
    assert Pair(r, 0, i, a + n);
  }

  /* ---- Several give-backs ---- */

  /** Giving regions back one after the other. */
  function ReleaseAll(fs: Chunks, gaps: Chunks): Chunks {
    if gaps == [] then fs
    else
      var c := gaps[|gaps| - 1];
      Release(ReleaseAll(fs, gaps[..|gaps| - 1]), c.off, c.size)
  }

  /** No region, when its turn comes, lets a chunk grow up to a list head it touched all along. */
  ghost predicate NoDoubles(fs: Chunks, gaps: Chunks) {
    gaps == [] ||
    (var init, c := gaps[..|gaps| - 1], gaps[|gaps| - 1];
     NoDoubles(fs, init) && !Doubles(ReleaseAll(fs, init), c.off, c.size))
  }

  /* ---- Chunks that are apart or share at least a header ---- */

  /** Any two chunks are apart or share a whole header: what every give-back and crash keeps. */
  ghost predicate Crisp(fs: Chunks) {
    forall i, j :: 0 <= i < j < |fs| ==> Clear(fs[i], fs[j]) || Overlap(fs[i], fs[j])
  }

  lemma CrispAt(fs: Chunks, i: nat, j: nat)
    requires Crisp(fs) && i < |fs| && j < |fs| && i != j
    ensures Clear(fs[i], fs[j]) || Overlap(fs[i], fs[j])
  {
    assert i < j || Clear(fs[j], fs[i]) || Overlap(fs[j], fs[i]);
  }

  /** Separate chunks are crisp, and crisp chunks are separate or counted twice. */
  lemma CrispEither(fs: Chunks)
    ensures Apart(fs) ==> Crisp(fs)
    ensures Crisp(fs) ==> (Twice(fs) <==> !Apart(fs))
  {
    hide Clear, Overlap;
    if Twice(fs) { TwiceNotApart(fs); }
    if !Apart(fs) && Crisp(fs) {
      var i, j :| 0 <= i < j < |fs| && !Clear(fs[i], fs[j]);
      TwiceAt(fs, i, j);
    }
  }

  lemma RemovedCrisp(fs: Chunks, i: nat)
    requires i < |fs| && Crisp(fs)
    ensures Crisp(RemoveAt(fs, i))
  {
    hide Clear, Overlap;
  }

  lemma AbsorbCrisp(fs: Chunks, i: nat, a: nat, n: nat, hi: nat)
    requires i < |fs| && Crisp(fs) && InPool(fs, hi) && Meets(fs[i], a, n) && Outside(fs, a, n) && n > 0
    ensures Crisp(Absorb(fs, i, a, n))
  {
    hide Crisp, InPool;
    var gs := Absorb(fs, i, a, n);
    forall x, y | 0 <= x < y < |gs|
      ensures Clear(gs[x], gs[y]) || Overlap(gs[x], gs[y])
    {
      CrispAt(fs, x, y);
      InPoolAt(fs, hi, x);
      InPoolAt(fs, hi, y);
      assert Clear(fs[x], Chunk(a, n)) && Clear(fs[y], Chunk(a, n));
    }
    CrispIs(gs);
  }

  lemma CrispIs(fs: Chunks)
    requires forall x, y :: 0 <= x < y < |fs| ==> Clear(fs[x], fs[y]) || Overlap(fs[x], fs[y])
    ensures Crisp(fs)
  {
  }

  lemma GrownCrisp(gs: Chunks, i: nat, j: nat, hi: nat)
    requires i < |gs| && j < |gs| && i != j && gs[i].End() == gs[j].off && Crisp(gs) && InPool(gs, hi)
    ensures Crisp(Grown(gs, i, j)) && Crisp(RemoveAt(Grown(gs, i, j), j))
  {
    hide Crisp, InPool;
    var r := Grown(gs, i, j);
    InPoolAt(gs, hi, i);
    InPoolAt(gs, hi, j);
    forall x, y | 0 <= x < y < |r|
      ensures Clear(r[x], r[y]) || Overlap(r[x], r[y])
    {
      InPoolAt(gs, hi, x);
      InPoolAt(gs, hi, y);
      CrispAt(gs, x, y);
      if x != j { CrispAt(gs, x, j); }
      if y != j { CrispAt(gs, y, j); }
    }
    CrispIs(r);
    RemovedCrisp(r, j);
  }

  lemma CompactedCrisp(gs: Chunks, i: nat, hi: nat)
    requires i < |gs| && InPool(gs, hi) && Crisp(gs)
    ensures Crisp(Compacted(gs, i))
  {
    hide Crisp, Partner, InPool, RemoveAt, Grown;
    var j := Partner(gs, i, 0);
    if j < |gs| {
      MeetsDef(gs[j], gs[i].off, gs[i].size);
      if gs[j].End() == gs[i].off { GrownCrisp(gs, j, i, hi); } else { GrownCrisp(gs, i, j, hi); }
    }
  }

  lemma ReleaseCrisp(fs: Chunks, a: nat, n: nat, hi: nat)
    requires InPool(fs, hi) && Crisp(fs) && Outside(fs, a, n) && DESC <= a && a + n <= hi && n > 0
    ensures Crisp(Release(fs, a, n))
  {
    hide FirstMeeting, Absorb, Compacted, Crisp, InPool, Outside;
    var i := FirstMeeting(fs, a, n);
    if i < |fs| {
      AbsorbCrisp(fs, i, a, n, hi);
      AbsorbCovers(fs, i, a, n, hi);
      CompactedCrisp(Absorb(fs, i, a, n), i, hi);
    } else {
      PushedCrisp(fs, a, n);
    }
  }

  lemma PushedCrisp(fs: Chunks, a: nat, n: nat)
    requires Crisp(fs) && Outside(fs, a, n)
    ensures Crisp([Chunk(a, n)] + fs)
  {
    hide Overlap;
    var r := [Chunk(a, n)] + fs;
    forall x, y | 0 <= x < y < |r|
      ensures Clear(r[x], r[y]) || Overlap(r[x], r[y])
    {
      assert r[y] == fs[y - 1] && Clear(fs[y - 1], Chunk(a, n));
      if x > 0 { assert r[x] == fs[x - 1]; }
    }
  }

  /** At every crash site of a free the list stays in the pool, lists only bytes that
      were free or in the freed block, and is crisp if it was. */
  lemma CrashKeeps(fs: Chunks, a: nat, n: nat, r: Chunks, hi: nat)
    requires InPool(fs, hi) && Outside(fs, a, n) && DESC <= a && a + n <= hi && n > 0
    requires ReleaseCrash(fs, a, n, r)
    ensures InPool(r, hi) && (Crisp(fs) ==> Crisp(r))
    ensures forall b :: Covers(r, b) ==> Covers(fs, b) || a <= b < a + n
  {
    hide FirstMeeting, Partner, Covers, Crisp, InPool, Outside, Compacted, Absorb, Meets, RemoveAt, Grown;
    var i := FirstMeeting(fs, a, n);
    assert i < |fs| && Meets(fs[i], a, n);
    var gs := Absorb(fs, i, a, n);
    AbsorbCovers(fs, i, a, n, hi);
    if Crisp(fs) { AbsorbCrisp(fs, i, a, n, hi); }
    var j := Partner(gs, i, 0);
    if j < |gs| && gs[j].End() != gs[i].off {
      MeetsDef(gs[j], gs[i].off, gs[i].size);
      GrownCovers(gs, i, j);
      GrownInPool(gs, i, j, hi);
      if Crisp(gs) { GrownCrisp(gs, i, j, hi); }
    }
    CompactedCovers(gs, i, hi);
    if Crisp(gs) {
      CompactedCrisp(gs, i, hi);
      RemovedCrisp(gs, i);
    }
    RemovedCanonical(gs, i, hi);
    forall b ensures Covers(RemoveAt(gs, i), b) ==> Covers(gs, b) { RemovedFewer(gs, i, b); }
  }

  lemma RemovedFewer(gs: Chunks, i: nat, b: int)
    requires i < |gs|
    ensures Covers(RemoveAt(gs, i), b) ==> Covers(gs, b)
  {
    hide Covers;
    if Covers(RemoveAt(gs, i), b) {
      var k := CoverIndex(RemoveAt(gs, i), b);
      CoversAt(gs, if k < i then k else k + 1, b);
    }
  }

  /* ---- What several give-backs make of the list ---- */

  /** What was free still is. */
  ghost predicate Grows(fs0: Chunks, fs: Chunks) {
    forall b :: Covers(fs0, b) ==> Covers(fs, b)
  }

  /** What the give-backs make of the list: it only grows, canonical stays canonical,
      separate chunks stay separate exactly if no give-back doubles the head, and
      a chunk counted twice stays so. */
  ghost predicate Shape(fs0: Chunks, fs: Chunks, gaps: Chunks, n: nat) {
    && InPool(fs, n) && Grows(fs0, fs)
    && (Canonical(fs0, n) ==> Canonical(fs, n))
    && (Apart(fs0) ==> (Apart(fs) <==> NoDoubles(fs0, gaps)) && (!NoDoubles(fs0, gaps) ==> Twice(fs)))
    && (Twice(fs0) ==> Twice(fs)) && (Crisp(fs0) ==> Crisp(fs))
  }

  lemma ShapeNone(fs: Chunks, n: nat)
    requires InPool(fs, n)
    ensures Shape(fs, fs, [], n)
  {
  }

  lemma ShapeMore(fs0: Chunks, fs: Chunks, gaps: Chunks, n: nat, c: Chunk)
    requires Shape(fs0, fs, gaps, n) && fs == ReleaseAll(fs0, gaps)
    requires Outside(fs, c.off, c.size) && DESC <= c.off && c.End() <= n && c.size > 0 && HasRoom(fs, c.off, c.size)
    ensures Shape(fs0, Release(fs, c.off, c.size), gaps + [c], n)
  {
    hide Apart, NoTouch, InPool, Covers, Outside, Release, FirstMeeting, Twice, Doubles, ReleaseAll, HasRoom, Crisp;
    ReleaseCovers(fs, c.off, c.size, n);
    if Crisp(fs) { ReleaseCrisp(fs, c.off, c.size, n); }
    if Canonical(fs0, n) { CanonicalRelease(fs, c.off, c.size, n); }
    var r := gaps + [c];
    assert r[..|r| - 1] == gaps && r[|r| - 1] == c;
    assert NoDoubles(fs0, r) <==> NoDoubles(fs0, gaps) && !Doubles(fs, c.off, c.size);
    if Apart(fs) { ReleaseApart(fs, c.off, c.size, n); }
    if Twice(fs) {
      ReleaseTwice(fs, c.off, c.size, n);
      TwiceNotApart(Release(fs, c.off, c.size));
    }
    assert Grows(fs0, Release(fs, c.off, c.size));
  }

  /** A give-back that counted the list head twice left such a pair, which the later ones kept. */
  ghost predicate Marred(fs0: Chunks, gaps: Chunks) {
    Apart(fs0) && !NoDoubles(fs0, gaps) ==>
      |gaps| > 0 && Paired(ReleaseAll(fs0, gaps), gaps[|gaps| - 1].End())
  }

  lemma MarredMore(fs0: Chunks, fs: Chunks, gaps: Chunks, n: nat, c: Chunk)
    requires Shape(fs0, fs, gaps, n) && fs == ReleaseAll(fs0, gaps) && Marred(fs0, gaps)
    requires Outside(fs, c.off, c.size) && DESC <= c.off && c.End() <= n && c.size > 0
    requires |gaps| > 0 ==> gaps[|gaps| - 1].End() < c.off
    ensures Marred(fs0, gaps + [c])
    ensures Apart(fs0) && !NoDoubles(fs0, gaps) ==>
      forall r :: ReleaseCrash(fs, c.off, c.size, r) ==> Twice(r)
  {
    hide Apart, NoTouch, InPool, Covers, Outside, Release, Twice, Doubles, ReleaseAll, Crisp, Paired, ReleaseCrash,
      Grows;
    var r := gaps + [c];
    assert r[..|r| - 1] == gaps && r[|r| - 1] == c;
    assert NoDoubles(fs0, r) <==> NoDoubles(fs0, gaps) && !Doubles(fs, c.off, c.size);
    assert ReleaseAll(fs0, r) == Release(fs, c.off, c.size) by { ReleaseMore(fs0, gaps, c); }
    if Apart(fs0) && !NoDoubles(fs0, gaps) {
      PairReleased(fs, gaps[|gaps| - 1].End(), c.off, c.size);
    } else if Apart(fs0) && Doubles(fs, c.off, c.size) {
      PairMade(fs, c.off, c.size, n);
    }
  }

  lemma ReleaseMore(fs0: Chunks, gaps: Chunks, c: Chunk)
    ensures ReleaseAll(fs0, gaps + [c]) == Release(ReleaseAll(fs0, gaps), c.off, c.size)
  {
    hide Release;
    assert (gaps + [c])[..|gaps|] == gaps;
  }

  lemma CanonicalRelease(fs: Chunks, a: nat, n: nat, hi: nat)
    requires Canonical(fs, hi) && Outside(fs, a, n) && DESC <= a && a + n <= hi && n > 0 && HasRoom(fs, a, n)
    ensures Canonical(Release(fs, a, n), hi)
  {
    hide Apart, NoTouch, InPool, Covers, Outside, Release, FirstMeeting;
    ReleaseKeeps(fs, a, n, hi);
  }

  /* ---- Totals ---- */

  function Total(fs: Chunks): nat {
    if fs == [] then 0 else fs[0].size + Total(fs[1..])
  }
}
