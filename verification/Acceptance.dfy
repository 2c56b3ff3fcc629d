/** What the usage bitmap accepts, region after region.  A region whose end does not
    wrap around is accepted if every byte of it is clear but for those its check never
    looks at, so an accepted region can only hide a whole earlier one, of at most
    seven bytes, in there. */
module Acceptance {
  import opened Memory
  import opened FreeList
  import opened UsageMaps

  /** A region that is accepted without any bit being set. */
  ghost predicate Idle(c: Chunk) {
    c.size == 0 || c.End() >= LIMIT
  }

  ghost predicate AllIdle(cs: Chunks) {
    forall i :: 0 <= i < |cs| ==> Idle(cs[i])
  }

  ghost predicate NoneIdle(cs: Chunks) {
    forall i :: 0 <= i < |cs| ==> !Idle(cs[i])
  }

  /** One after the other all regions are accepted, from bitmap `marks` on. */
  ghost predicate AcceptsAll(marks: set<int>, n: nat, cs: Chunks)
    decreases |cs|
  {
    || cs == []
    || (Accepts(marks, n, cs[0].off, cs[0].size)
        && AcceptsAll(MarkedBy(marks, cs[0].off, cs[0].size), n, cs[1..]))
  }

  ghost function MarkedAll(marks: set<int>, cs: Chunks): set<int>
    decreases |cs|
  {
    if cs == [] then marks else MarkedAll(MarkedBy(marks, cs[0].off, cs[0].size), cs[1..])
  }

  /** The empty bitmap accepted `regs` and became `marks`. */
  ghost predicate Marks(marks: set<int>, regs: Chunks, n: nat) {
    AcceptsAll({}, n, regs) && marks == MarkedAll({}, regs)
  }

  lemma {:induction false} Joined(marks: set<int>, n: nat, a: Chunks, b: Chunks)
    ensures MarkedAll(marks, a + b) == MarkedAll(MarkedAll(marks, a), b)
    ensures AcceptsAll(marks, n, a + b) <==> AcceptsAll(marks, n, a) && AcceptsAll(MarkedAll(marks, a), n, b)
    decreases |a|
  {
    hide Accepts, MarkedBy;
    if a == [] {
      assert a + b == b;
    } else {
      assert (a + b)[0] == a[0] && (a + b)[1..] == a[1..] + b;
      Joined(MarkedBy(marks, a[0].off, a[0].size), n, a[1..], b);
    }
  }

  lemma OneMore(marks: set<int>, n: nat, c: Chunk)
    ensures AcceptsAll(marks, n, [c]) <==> Accepts(marks, n, c.off, c.size)
    ensures MarkedAll(marks, [c]) == MarkedBy(marks, c.off, c.size)
  {
    hide Accepts, MarkedBy;
    assert [c][1..] == [];
  }

  /** One region more is accepted exactly if the bitmap so far accepts it. */
  lemma MarksMore(marks: set<int>, regs: Chunks, n: nat, c: Chunk)
    requires Marks(marks, regs, n)
    ensures Accepts(marks, n, c.off, c.size) <==> AcceptsAll({}, n, regs + [c])
    ensures Accepts(marks, n, c.off, c.size) ==> Marks(MarkedBy(marks, c.off, c.size), regs + [c], n)
  {
    hide Accepts, MarkedBy, AcceptsAll, MarkedAll;
    Joined({}, n, regs, [c]);
    OneMore(marks, n, c);
  }

  /** A prefix of accepted regions is accepted. */
  lemma AcceptedPrefix(a: Chunks, b: Chunks, n: nat)
    requires AcceptsAll({}, n, a + b)
    ensures AcceptsAll({}, n, a)
  {
    hide AcceptsAll;
    Joined({}, n, a, b);
  }

  lemma MarksNone(n: nat)
    ensures Marks({}, [], n)
  {
  }

  lemma {:induction false} IdleKeeps(marks: set<int>, cs: Chunks)
    requires AllIdle(cs)
    ensures MarkedAll(marks, cs) == marks
    decreases |cs|
  {
    if cs != [] {
      assert Idle(cs[0]);
      assert MarkedBy(marks, cs[0].off, cs[0].size) == marks by { BitsEmpty(marks, cs[0].off); }
      IdleKeeps(marks, cs[1..]);
    }
  }

  /** Accepted regions only add bits of the pool; any region that is not idle adds some. */
  lemma {:induction false} MarkedAllGrows(marks: set<int>, n: nat, cs: Chunks)
    requires AcceptsAll(marks, n, cs) && marks <= Bits(0, n)
    ensures marks <= MarkedAll(marks, cs) <= Bits(0, n)
    ensures !AllIdle(cs) ==> MarkedAll(marks, cs) != marks
    decreases |cs|
  {
    hide Passes, Bits;
    if cs != [] {
      var c := cs[0];
      var m1 := MarkedBy(marks, c.off, c.size);
      MarkedOne(marks, n, c);
      MarkedAllGrows(m1, n, cs[1..]);
      if Idle(c) && AllIdle(cs[1..]) {
        forall i | 0 <= i < |cs| ensures Idle(cs[i]) { if i > 0 { assert cs[i] == cs[1..][i - 1]; } }
      }
    }
  }

  lemma MarkedOne(marks: set<int>, n: nat, c: Chunk)
    requires Accepts(marks, n, c.off, c.size) && marks <= Bits(0, n)
    ensures marks <= MarkedBy(marks, c.off, c.size) <= Bits(0, n)
    ensures !Idle(c) ==> MarkedBy(marks, c.off, c.size) != marks
  {
    if !Idle(c) {
      hide Skips;
      assert Within(c.off, c.off, c.size);
      assert c.off in marks ==> Missed(marks, c.off, c.size, c.off);
    }
    if c.End() < LIMIT {
      forall b | b in Bits(c.off, c.size) ensures b in Bits(0, n) { assert Within(b, 0, n); }
    }
  }

  /* ---- Which bytes are marked ---- */

  /** Byte `b` lies in a region that gets marked. */
  ghost predicate Solid(regs: Chunks, b: int) {
    exists i :: 0 <= i < |regs| && !Idle(regs[i]) && regs[i].off <= b < regs[i].End()
  }

  lemma SolidAt(regs: Chunks, i: nat, b: int)
    requires i < |regs| && !Idle(regs[i]) && regs[i].off <= b < regs[i].End()
    ensures Solid(regs, b)
  {
  }

  lemma {:induction false} MarkedIsSolid(marks: set<int>, cs: Chunks, b: int)
    ensures b in MarkedAll(marks, cs) <==> b in marks || Solid(cs, b)
    decreases |cs|
  {
    if cs != [] {
      var c, rest := cs[0], cs[1..];
      var m1 := MarkedBy(marks, c.off, c.size);
      MarkedIsSolid(m1, rest, b);
      hide Idle;
      assert b in m1 <==> b in marks || (!Idle(c) && c.off <= b < c.End()) by { MarkedByIs(marks, c, b); }
      if Solid(cs, b) && !(!Idle(c) && c.off <= b < c.End()) {
        var i :| 0 <= i < |cs| && !Idle(cs[i]) && cs[i].off <= b < cs[i].End();
        assert rest[i - 1] == cs[i];
      }
      if Solid(rest, b) {
        var i :| 0 <= i < |rest| && !Idle(rest[i]) && rest[i].off <= b < rest[i].End();
        assert cs[i + 1] == rest[i];
      }
    }
  }

  lemma MarkedByIs(marks: set<int>, c: Chunk, b: int)
    ensures b in MarkedBy(marks, c.off, c.size) <==> b in marks || (!Idle(c) && c.off <= b < c.End())
  {
    assert Within(b, c.off, c.size) <==> c.off <= b < c.End();
  }

  /** Where no region is idle, exactly the bytes of the regions are marked. */
  lemma MarksCover(marks: set<int>, regs: Chunks, n: nat)
    requires Marks(marks, regs, n)
    ensures forall b :: b in marks <==> Solid(regs, b)
    ensures NoneIdle(regs) ==> forall b :: b in marks <==> Covers(regs, b)
  {
    hide Idle, MarkedAll, AcceptsAll;
    forall b
      ensures b in marks <==> Solid(regs, b)
      ensures NoneIdle(regs) ==> (Solid(regs, b) <==> Covers(regs, b))
    {
      MarkedIsSolid({}, regs, b);
    }
  }

  /* ---- How accepted regions may overlap ---- */

  /** The bitmap when region `j` came up. */
  ghost function Before(regs: Chunks, j: nat): set<int>
    requires j <= |regs|
  {
    MarkedAll({}, regs[..j])
  }

  /** Region `i` lies in the bytes that the check of region `j` never looks at. */
  ghost predicate Hidden(regs: Chunks, i: nat, j: nat)
    requires i < |regs| && j < |regs|
  {
    forall b :: regs[i].off <= b < regs[i].End() ==> Missed(Before(regs, j), regs[j].off, regs[j].size, b)
  }

  lemma PassedAt(regs: Chunks, n: nat, j: nat)
    requires AcceptsAll({}, n, regs) && j < |regs| && !Idle(regs[j])
    ensures regs[j].size > 0 && regs[j].End() <= n && Passes(Before(regs, j), regs[j].off, regs[j].size)
  {
    hide Passes, AcceptsAll, MarkedAll;
    assert regs == regs[..j] + regs[j..] && regs[j..] == [regs[j]] + regs[j + 1..];
    Joined({}, n, regs[..j], regs[j..]);
    Joined(Before(regs, j), n, [regs[j]], regs[j + 1..]);
    OneMore(Before(regs, j), n, regs[j]);
  }

  /** Where the bytes that are never looked at lie. */
  lemma MissedWindow(marks: set<int>, va: nat, size: nat, b: int)
    requires Missed(marks, va, size, b)
    ensures var w := Landing(marks, va, size);
      va < w - va % 8 <= b < w && w < va + size
  {
    SkipsClear(marks, va, va + size - 64);
    hide Skips;
  }

  /** Of two accepted regions the later one overlaps the earlier one exactly if it
      hides it, and then the earlier one lies inside it and is shorter than the
      later one starts off a byte boundary. */
  lemma AcceptedPair(regs: Chunks, n: nat, i: nat, j: nat)
    requires AcceptsAll({}, n, regs) && i < j < |regs| && !Idle(regs[i]) && !Idle(regs[j])
    ensures Clear(regs[i], regs[j]) <==> !Hidden(regs, i, j)
    ensures !Clear(regs[i], regs[j]) ==>
      regs[j].off < regs[i].off && regs[i].End() < regs[j].End() && regs[i].size <= regs[j].off % 8
  {
    hide Passes, AcceptsAll, MarkedAll, Missed, Idle, Skips;
    var c, d, marks := regs[i], regs[j], Before(regs, j);
    PassedAt(regs, n, j);
    PassedAt(regs, n, i);
    var w := Landing(marks, d.off, d.size);
    forall b | c.off <= b < c.End() && d.off <= b < d.End()
      ensures Missed(marks, d.off, d.size, b) && d.off < w - d.off % 8 <= b < w < d.End()
    {
      EarlierMarked(regs, i, j, b);
      PassedMissed(marks, d.off, d.size, b);
      MissedWindow(marks, d.off, d.size, b);
    }
    if Hidden(regs, i, j) {
      assert Missed(marks, d.off, d.size, c.off);
      MissedWindow(marks, d.off, d.size, c.off);
    }
    if !Clear(c, d) {
      var lo := if c.off > d.off then c.off else d.off;
      var first, behind := Missed(marks, d.off, d.size, lo), Missed(marks, d.off, d.size, w);
      assert first && lo == c.off;
      assert c.End() <= w;
    }
  }

  lemma EarlierMarked(regs: Chunks, i: nat, j: nat, b: int)
    requires i < j < |regs| && !Idle(regs[i]) && regs[i].off <= b < regs[i].End()
    ensures b in Before(regs, j)
  {
    hide Idle;
    MarkedIsSolid({}, regs[..j], b);
    assert regs[..j][i] == regs[i];
  }

  lemma PassedMissed(marks: set<int>, va: nat, size: nat, b: int)
    requires Passes(marks, va, size) && va <= b < va + size && b in marks
    ensures Missed(marks, va, size, b)
  {
    hide Missed;
  }

  /** Accepted regions are apart if and only if none is hidden from a later check. */
  lemma AcceptedApart(regs: Chunks, n: nat)
    requires AcceptsAll({}, n, regs) && NoneIdle(regs)
    ensures Apart(regs) <==> forall i, j :: 0 <= i < j < |regs| ==> !Hidden(regs, i, j)
  {
    hide AcceptsAll, Idle, Clear, Hidden;
    forall i, j | 0 <= i < j < |regs|
      ensures Clear(regs[i], regs[j]) <==> !Hidden(regs, i, j)
    {
      AcceptedPair(regs, n, i, j);
    }
  }

  /** So they are if all are eight bytes long, or all start on byte boundaries of the bitmap. */
  lemma WideApart(regs: Chunks, n: nat)
    requires AcceptsAll({}, n, regs) && NoneIdle(regs)
    requires
      || (forall i :: 0 <= i < |regs| ==> regs[i].size >= 8)
      || (forall i :: 0 <= i < |regs| ==> regs[i].off % 8 == 0)
    ensures Apart(regs)
  {
    hide AcceptsAll, Idle, Clear, Hidden;
    forall i, j | 0 <= i < j < |regs|
      ensures Clear(regs[i], regs[j])
    {
      AcceptedPair(regs, n, i, j);
      PassedAt(regs, n, i);
    }
  }

  /** Regions that are apart and in the pool are accepted. */
  lemma {:induction false} ApartAccepted(regs: Chunks, n: nat)
    requires Apart(regs) && forall i :: 0 <= i < |regs| ==> regs[i].size > 0 && regs[i].End() <= n
    requires n < LIMIT
    ensures AcceptsAll({}, n, regs) && NoneIdle(regs)
  {
    if regs != [] {
      var init, c := regs[..|regs| - 1], regs[|regs| - 1];
      assert regs == init + [c];
      ApartAccepted(init, n);
      hide AcceptsAll, MarkedAll, Apart, Passes;
      Joined({}, n, init, [c]);
      OneMore(MarkedAll({}, init), n, c);
      forall b | c.off <= b < c.End()
        ensures b !in MarkedAll({}, init)
      {
        MarkedIsSolid({}, init, b);
        NotSolid(regs, b);
      }
      UnmarkedPasses(MarkedAll({}, init), c.off, c.size);
    }
  }

  lemma NotSolid(regs: Chunks, b: int)
    requires Apart(regs) && regs != [] && regs[|regs| - 1].off <= b < regs[|regs| - 1].End()
    ensures !Solid(regs[..|regs| - 1], b)
  {
    hide Apart;
    forall i | 0 <= i < |regs| - 1
      ensures !(regs[i].off <= b < regs[i].End())
    {
      ApartAt(regs, i, |regs| - 1);
    }
  }

  lemma UnmarkedPasses(marks: set<int>, va: nat, size: nat)
    requires forall b :: va <= b < va + size ==> b !in marks
    ensures Passes(marks, va, size)
  {
    hide Missed;
  }

  /** Accepted regions that overlap: a chunk of one byte at 160, and then one of 200 at 97. */
  lemma HiddenExample(n: nat)
    requires 297 <= n < LIMIT
    ensures var regs := [Chunk(0, DESC), Chunk(160, 1), Chunk(97, 200)];
      AcceptsAll({}, n, regs) && NoneIdle(regs) && Hidden(regs, 1, 2) && !Apart(regs)
  {
    var a, b, c := Chunk(0, DESC), Chunk(160, 1), Chunk(97, 200);
    var regs := [a, b, c];
    var marks := MarkedAll({}, [a, b]);
    assert Apart([a, b]);
    ApartAccepted([a, b], n);
    forall x
      ensures x in marks <==> 0 <= x < 88 || x == 160
    {
      MarkedIsSolid({}, [a, b], x);
      assert [a, b][0] == a && [a, b][1] == b;
    }
    SkipsExample(marks);
    assert regs == [a, b] + [c] && regs[..2] == [a, b];
    Joined({}, n, [a, b], [c]);
    OneMore(marks, n, c);
    assert Accepts(marks, n, 97, 200);
    assert !Clear(regs[1], regs[2]);
  }

  lemma SkipsExample(marks: set<int>)
    requires forall x :: x in marks <==> 0 <= x < 88 || x == 160
    ensures Skips(marks, 97, 233) == 1 && Passes(marks, 97, 200) && Missed(marks, 97, 200, 160)
  {
    assert Unmarked(marks, Floor8(97), 64);
    assert 160 in marks && Floor8(161) == 160;
    SkipsMore(marks, 161, 233);
    SkipsMore(marks, 97, 233);
  }
}
