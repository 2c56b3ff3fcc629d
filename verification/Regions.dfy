/** Used regions beside the free list, and what carving and releasing do to the tiling. */
module Regions {
  import opened FreeList

  /** Start of a used region (its size word) to its length. */
  type Live = map<nat, nat>

  ghost predicate Disjoint(a: nat, n: nat, b: nat, k: nat) {
    a + n <= b || b + k <= a
  }

  /** Used regions lie in the pool, apart from one another and from every free chunk. */
  ghost predicate Separate(live: Live, fs: Chunks, n: nat) {
    && (forall a :: a in live ==> DESC <= a && HEADER < live[a] && a + live[a] <= n && Outside(fs, a, live[a]))
    && (forall a, b :: a in live && b in live && a != b ==> Disjoint(a, live[a], b, live[b]))
  }

  ghost predicate Used(live: Live, b: int) {
    exists a :: a in live && a <= b < a + live[a]
  }

  /** Every byte after the descriptor is free or used. */
  ghost predicate Tiled(live: Live, fs: Chunks, n: nat) {
    forall b :: DESC <= b < n ==> Covers(fs, b) || Used(live, b)
  }

  lemma OutsideUncovered(fs: Chunks, a: nat, n: nat)
    ensures Outside(fs, a, n) ==> forall b :: a <= b < a + n ==> !Covers(fs, b)
  {
  }

  lemma UncoveredOutside(fs: Chunks, a: nat, n: nat, hi: nat)
    requires InPool(fs, hi) && n > 0
    requires forall b :: a <= b < a + n ==> !Covers(fs, b)
    ensures Outside(fs, a, n)
  {
    forall i | 0 <= i < |fs|
      ensures Clear(fs[i], Chunk(a, n))
    {
      var b := if fs[i].off <= a then a else fs[i].off;
      assert fs[i].off <= b < fs[i].End() ==> Covers(fs, b);
    }
  }

  /** Regions stay separate from a list that covers fewer bytes. */
  lemma FewerFree(live: Live, fs: Chunks, gs: Chunks, n: nat)
    requires Separate(live, fs, n) && InPool(gs, n)
    requires forall b :: Covers(gs, b) ==> Covers(fs, b)
    ensures Separate(live, gs, n)
  {
    forall a | a in live
      ensures Outside(gs, a, live[a])
    {
      OutsideUncovered(fs, a, live[a]);
      UncoveredOutside(gs, a, live[a], n);
    }
  }

  lemma UsedAdd(live: Live, a: nat, t: nat)
    requires a !in live
    ensures forall b {:trigger Used(live[a := t], b)} :: Used(live[a := t], b) <==> Used(live, b) || a <= b < a + t
  {
    var l2 := live[a := t];
    forall b
      ensures Used(l2, b) <==> Used(live, b) || a <= b < a + t
    {
      if Used(l2, b) { var x :| x in l2 && x <= b < x + l2[x]; }
      if Used(live, b) { var x :| x in live && x <= b < x + live[x]; assert x in l2 && l2[x] == live[x]; }
      if a <= b < a + t { assert a in l2; }
    }
  }

  /** Carving moves a tail from free to used. */
  lemma CarveRegions(live: Live, fs: Chunks, i: nat, s: nat, n: nat)
    requires InPool(fs, n) && Apart(fs) && Separate(live, fs, n) && i < |fs| && MIN_BLOCK <= s <= fs[i].size
    ensures var t := Share(fs[i].size, s);
      var a := fs[i].End() - t;
      && a !in live
      && Separate(live[a := t], Carve(fs, i, t), n)
      && (Tiled(live, fs, n) ==> Tiled(live[a := t], Carve(fs, i, t), n))
  {
    var t := Share(fs[i].size, s);
    var a := fs[i].End() - t;
    CarveApart(fs, i, s, n);
    FewerFree(live, fs, Carve(fs, i, t), n);
    forall b | b in live
      ensures Disjoint(a, t, b, live[b])
    {
      assert Clear(fs[i], Chunk(b, live[b]));
    }
    UsedAdd(live, a, t);
    CarvedTiles(live, fs, i, s, n);
  }

  lemma CarvedTiles(live: Live, fs: Chunks, i: nat, s: nat, n: nat)
    requires InPool(fs, n) && Apart(fs) && i < |fs| && 0 < s <= fs[i].size
    requires fs[i].End() - Share(fs[i].size, s) !in live
    ensures var t := Share(fs[i].size, s);
      Tiled(live, fs, n) ==> Tiled(live[fs[i].End() - t := t], Carve(fs, i, t), n)
  {
    var t := Share(fs[i].size, s);
    CarveApart(fs, i, s, n);
    UsedAdd(live, fs[i].End() - t, t);
  }

  /** Releasing a used region moves it back, whatever the list. */
  lemma ReleaseRegions(live: Live, fs: Chunks, a: nat, n: nat)
    requires InPool(fs, n) && Separate(live, fs, n) && a in live
    ensures InPool(Release(fs, a, live[a]), n)
    ensures Separate(live - {a}, Release(fs, a, live[a]), n)
    ensures Tiled(live, fs, n) ==> Tiled(live - {a}, Release(fs, a, live[a]), n)
    ensures Canonical(fs, n) ==> Canonical(Release(fs, a, live[a]), n)
  {
    hide Release, InPool, Apart, NoTouch, FirstMeeting;
    var gs := Release(fs, a, live[a]);
    var l2 := live - {a};
    ReleaseCovers(fs, a, live[a], n);
    if Canonical(fs, n) { ReleaseKeeps(fs, a, live[a], n); }
    forall b | b in l2
      ensures Outside(gs, b, l2[b])
    {
      OutsideUncovered(fs, b, live[b]);
      UncoveredOutside(gs, b, live[b], n);
    }
    forall b | DESC <= b < n && (Covers(fs, b) || Used(live, b))
      ensures Covers(gs, b) || Used(l2, b)
    {
      if Used(live, b) {
        var x :| x in live && x <= b < x + live[x];
        assert x != a ==> x in l2;
      }
    }
  }
}
