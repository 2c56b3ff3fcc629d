/** The usage bitmap, one bit per pool byte: `lmc_um_getbit`, `lmc_um_setbit`,
    `lmc_um_check_unmarked` with its 64-bit skips and `lmc_um_mark` with its memset. */
module UsageMaps {
  import opened Memory
  import opened FreeList

  function Mask(k: nat): bv8
    requires k < 8
  {
    if k == 0 then 0x01 else if k == 1 then 0x02 else if k == 2 then 0x04 else if k == 3 then 0x08
    else if k == 4 then 0x10 else if k == 5 then 0x20 else if k == 6 then 0x40 else 0x80
  }

  lemma MaskSets(x: bv8, k: nat, j: nat)
    requires k < 8 && j < 8
    ensures (x | Mask(k)) & Mask(j) != 0 <==> j == k || x & Mask(j) != 0
  {
  }

  lemma MaskFull(x: bv8)
    ensures x == 0xFF <==> forall k: nat :: k < 8 ==> x & Mask(k) != 0
    ensures x == 0 <==> forall k: nat :: k < 8 ==> x & Mask(k) == 0
  {
    assert x == 0xFF <==> (x & Mask(0) != 0 && x & Mask(1) != 0 && x & Mask(2) != 0 && x & Mask(3) != 0
      && x & Mask(4) != 0 && x & Mask(5) != 0 && x & Mask(6) != 0 && x & Mask(7) != 0);
    assert x == 0 <==> (x & Mask(0) == 0 && x & Mask(1) == 0 && x & Mask(2) == 0 && x & Mask(3) == 0
      && x & Mask(4) == 0 && x & Mask(5) == 0 && x & Mask(6) == 0 && x & Mask(7) == 0);
  }

  lemma BitsEmpty(s: set<int>, a: int)
    ensures s + Bits(a, 0) == s
  {
  }

  lemma BitsJoin(s: set<int>, a: int, n: nat, k: nat)
    ensures s + Bits(a, n) + Bits(a + n, k) == s + Bits(a, n + k)
  {
    forall b ensures Within(b, a, n + k) <==> Within(b, a, n) || Within(b, a + n, k) {}
  }

  lemma BitsAdd(s: set<int>, a: int, n: nat)
    ensures s + Bits(a, n) + {a + n} == s + Bits(a, n + 1)
  {
    forall b ensures Within(b, a, n + 1) <==> Within(b, a, n) || b == a + n {}
  }

  /** `marks` has no bit in [a, a + n). */
  ghost predicate Unmarked(marks: set<int>, a: int, n: int) {
    forall b :: a <= b < a + n ==> b !in marks
  }

  ghost predicate AllMarked(marks: set<int>, a: int, n: int) {
    forall b :: a <= b < a + n ==> b in marks
  }

  /** First bit of the byte that holds bit `i`. */
  function Floor8(i: nat): (r: nat)
    ensures r % 8 == 0 && r <= i < r + 8
  {
    8 * (i / 8)
  }

  /* ---- The word-skipping check, step by step ---- */

  /** How many 64-bit words the check passes over when it stands at bit `i`. */
  ghost function Skips(marks: set<int>, i: nat, ee: int): nat
    decreases ee - i
  {
    if i < ee && Unmarked(marks, Floor8(i), 64) then 1 + Skips(marks, i + 64, ee) else 0
  }

  /** Bit `b` of [va, va + size) is never looked at: after skipping words it started
      in the middle of, the check goes on as far into the next byte. */
  ghost predicate Missed(marks: set<int>, va: nat, size: nat, b: int) {
    var k := Skips(marks, va, va + size - 64);
    k > 0 && Floor8(va) + 64 * k <= b < Floor8(va) + 64 * k + va % 8
  }

  /** What the check accepts: no marked bit but missed ones. */
  ghost predicate Passes(marks: set<int>, va: nat, size: nat) {
    forall b :: va <= b < va + size && b in marks ==> Missed(marks, va, size, b)
  }

  /** From a byte boundary the check is exact. */
  lemma AlignedPasses(marks: set<int>, va: nat, size: nat)
    requires va % 8 == 0
    ensures Passes(marks, va, size) <==> Unmarked(marks, va, size)
  {
    hide Skips;
    if Passes(marks, va, size) {
      forall b | va <= b < va + size
        ensures b !in marks
      {
        assert !Missed(marks, va, size, b);
      }
    }
  }

  /** Off a byte boundary it is not: bit 64 is marked and [1, 201) is accepted. */
  lemma MissedExample()
    ensures Passes({64}, 1, 200) && !Unmarked({64}, 1, 200)
  {
    var marks: set<int> := {64};
    assert Unmarked(marks, Floor8(1), 64);
    assert 64 in marks && Floor8(65) == 64;
    assert Skips(marks, 65, 137) == 0;
    assert Skips(marks, 1, 137) == 1;
  }

  lemma SkipsMore(marks: set<int>, i: nat, ee: int)
    ensures i < ee && Unmarked(marks, Floor8(i), 64) ==> Skips(marks, i, ee) == 1 + Skips(marks, i + 64, ee)
    ensures i >= ee || !Unmarked(marks, Floor8(i), 64) ==> Skips(marks, i, ee) == 0
  {
  }

  /** The skipped words are clear, and the last one started before `ee`. */
  lemma {:induction false} SkipsClear(marks: set<int>, i: nat, ee: int)
    ensures Unmarked(marks, Floor8(i), 64 * Skips(marks, i, ee))
    ensures Skips(marks, i, ee) > 0 ==> i + 64 * Skips(marks, i, ee) < ee + 64
    decreases ee - i
  {
    if i < ee && Unmarked(marks, Floor8(i), 64) {
      SkipsClear(marks, i + 64, ee);
      assert Floor8(i + 64) == Floor8(i) + 64;
    }
  }

  /** Where the first skips from bit `va` end. */
  ghost function Landing(marks: set<int>, va: nat, size: nat): nat {
    va + 64 * Skips(marks, va, va + size - 64)
  }

  /** No further 64-bit skip over clear words can start at bit `i`. */
  ghost predicate Stuck(marks: set<int>, i: nat, ee: int) {
    i >= ee || !Unmarked(marks, Floor8(i), 64)
  }

  lemma StuckDef(marks: set<int>, i: nat, ee: int)
    ensures Stuck(marks, i, ee) <==> i >= ee || !Unmarked(marks, Floor8(i), 64)
  {
  }

  /** The check of [va, va + size) has reached bit `i` and accepted what lies behind it. */
  ghost predicate Checked(marks: set<int>, va: nat, size: nat, i: nat) {
    && (i == va || (i > Landing(marks, va, size) && (i % 8 == 0 || Stuck(marks, i, va + size - 64))))
    && forall b :: va <= b < i && b in marks ==> Missed(marks, va, size, b)
  }

  lemma CheckStart(marks: set<int>, va: nat, size: nat)
    ensures Checked(marks, va, size, va)
  {
  }

  /** Being stuck lasts to the end of the byte. */
  lemma StuckStep(marks: set<int>, i: nat, ee: int)
    requires Stuck(marks, i, ee)
    ensures (i + 1) % 8 == 0 || Stuck(marks, i + 1, ee)
  {
    assert (i + 1) % 8 == 0 || Floor8(i + 1) == Floor8(i);
  }

  /** The words skipped from bit `i0` on; `left` more will be. */
  ghost predicate Skipping(marks: set<int>, i0: nat, i: nat, ee: int) {
    i0 <= i && (i - i0) % 64 == 0 && Skips(marks, i0, ee) == (i - i0) / 64 + Skips(marks, i, ee)
  }

  lemma SkipOne(marks: set<int>, i0: nat, i: nat, ee: int)
    requires Skipping(marks, i0, i, ee) && i < ee && Unmarked(marks, Floor8(i), 64)
    ensures Skipping(marks, i0, i + 64, ee)
  {
    SkipsMore(marks, i, ee);
  }

  /** Where the skips stop, the bits behind are clear or missed, and bit `i` is not a missed one. */
  lemma SkipsEnd(marks: set<int>, va: nat, size: nat, i0: nat, i: nat)
    requires Checked(marks, va, size, i0) && va <= i0 && Skipping(marks, i0, i, va + size - 64)
    requires Stuck(marks, i, va + size - 64)
    ensures i >= Landing(marks, va, size) && !Missed(marks, va, size, i)
    ensures forall b :: va <= b < i && b in marks ==> Missed(marks, va, size, b)
  {
    var ee := va + size - 64;
    SkipsMore(marks, i, ee);
    SkipsClear(marks, i0, ee);
    hide Skips;
    assert i == i0 + 64 * Skips(marks, i0, ee);
    assert forall b :: Floor8(i0) <= b < Floor8(i0) + (i - i0) ==> b !in marks;
    if i0 != va && i > i0 {
      assert i0 % 8 == 0 by { SkipsMore(marks, i0, ee); }
    }
  }

  lemma CheckNext(marks: set<int>, va: nat, size: nat, i0: nat, i: nat)
    requires Checked(marks, va, size, i0) && va <= i0 && Skipping(marks, i0, i, va + size - 64)
    requires Stuck(marks, i, va + size - 64) && i !in marks
    ensures Checked(marks, va, size, i + 1)
  {
    hide Skips, Missed, Stuck, Skipping;
    SkipsEnd(marks, va, size, i0, i);
    StuckStep(marks, i, va + size - 64);
  }

  lemma MarkedIn(marks: set<int>, va: nat, size: nat, i0: nat, i: nat)
    requires Checked(marks, va, size, i0) && va <= i0 && Skipping(marks, i0, i, va + size - 64)
    requires Stuck(marks, i, va + size - 64) && i in marks && i < va + size
    ensures !Passes(marks, va, size)
  {
    hide Skips, Missed, Stuck, Skipping;
    SkipsEnd(marks, va, size, i0, i);
  }

  /** A range that starts with a marked bit is not accepted. */
  lemma MarkedStart(marks: set<int>, va: nat, size: nat)
    ensures va in marks && size > 0 ==> !Passes(marks, va, size)
  {
    hide Skips;
    assert !Missed(marks, va, size, va);
  }

  lemma MarkedWord(marks: set<int>, i: nat)
    ensures i in marks ==> !Unmarked(marks, Floor8(i), 64)
  {
  }

  /** What `lmc_um_mark` accepts on a pool of `n` bytes: a range whose end wraps
      around is accepted without a look if its start is in the pool. */
  ghost predicate Accepts(marks: set<int>, n: nat, va: nat, size: nat) {
    if va + size >= LIMIT then va <= DESC || va <= n
    else va + size <= n && Passes(marks, va, size)
  }

  /** The bits it then sets: none if the end wraps around. */
  ghost function MarkedBy(marks: set<int>, va: nat, size: nat): set<int> {
    if va + size >= LIMIT then marks else marks + Bits(va, size)
  }

  /** What it accepts it marks, and it lies in the pool, exactly if the end does not wrap around. */
  lemma AcceptedIsMarked(marks: set<int>, n: nat, va: nat, size: nat)
    requires Accepts(marks, n, va, size) && 0 < size < LIMIT && n < LIMIT && va !in marks
    ensures va + size < LIMIT <==> va + size <= n
    ensures va + size < LIMIT <==> va in MarkedBy(marks, va, size)
    ensures va + size < LIMIT <==> MarkedBy(marks, va, size) != marks
  {
    hide Passes;
    assert Within(va, va, size);
  }

  lemma SkipNone(marks: set<int>, i: nat, ee: int)
    ensures Skipping(marks, i, i, ee)
  {
  }

  lemma CheckEnd(marks: set<int>, va: nat, size: nat)
    requires Checked(marks, va, size, va + size)
    ensures Passes(marks, va, size)
  {
  }

  class UsageMap {
    const bytes: array<bv8>
    const n: nat               // bytes of the pool
    ghost var marks: set<int>

    ghost predicate Valid()
      reads this, bytes
      ensures Valid() ==> bytes.Length == (n + 7) / 8
    {
      && bytes.Length == (n + 7) / 8
      && forall b, k: nat :: 0 <= b < bytes.Length && k < 8 ==> (bytes[b] & Mask(k) != 0 <==> 8 * b + k in marks)
    }

    /** `calloc`. */
    constructor (n: nat)
      ensures Valid() && fresh(bytes) && this.n == n && marks == {}
    {
      bytes := new bv8[(n + 7) / 8](_ => 0);
      this.n := n;
      marks := {};
    }

    predicate GetBit(i: nat)
      requires Valid() && i < n
      reads this, bytes
      ensures GetBit(i) <==> i in marks
    {
      assert 8 * (i / 8) + i % 8 == i;
      bytes[i / 8] & Mask(i % 8) != 0
    }

    method SetBit(i: nat)
      requires Valid() && i < n
      modifies this`marks, bytes
      ensures Valid() && marks == old(marks) + {i}
    {
      hide Mask;
      var b0, k0 := i / 8, i % 8;
      bytes[b0] := bytes[b0] | Mask(k0);
      marks := marks + {i};
      forall b, k: nat | 0 <= b < bytes.Length && k < 8
        ensures bytes[b] & Mask(k) != 0 <==> 8 * b + k in marks
      {
        assert 8 * b + k == i <==> b == b0 && k == k0;
        if b == b0 { MaskSets(old(bytes[b0]), k0, k); }
      }
    }

    /** `memset(bf + from, 0xFF, to - from)`. */
    method Fill(from: nat, to: nat)
      requires Valid() && from <= to <= bytes.Length
      modifies this`marks, bytes
      ensures Valid() && marks == old(marks) + Bits(8 * from, 8 * (to - from))
    {
      var i := from;
      while i < to
        invariant from <= i <= to && Valid() && marks == old(marks) + Bits(8 * from, 8 * (i - from))
        modifies this`marks, bytes
      {
        bytes[i] := 0xFF;
        ghost var before := marks;
        marks := marks + Bits(8 * i, 8);
        MaskFull(0xFF);
        forall b, k: nat | 0 <= b < bytes.Length && k < 8
          ensures bytes[b] & Mask(k) != 0 <==> 8 * b + k in marks
        {
          assert 8 * b + k in Bits(8 * i, 8) <==> b == i;
        }
        i := i + 1;
      }
    }

    /** Whether the 64 bits of the word that holds bit `i`, read at byte i / 8, all equal `set`. */
    method WordIs(i: nat, ones: bool) returns (r: bool)
      requires Valid() && i / 8 + 8 <= bytes.Length
      ensures r <==> if ones then AllMarked(marks, Floor8(i), 64) else Unmarked(marks, Floor8(i), 64)
    {
      hide Valid;
      var p := i / 8;
      r := true;
      var k := 0;
      while k < 8
        invariant k <= 8
        invariant r <==> forall b :: 8 * p <= b < 8 * p + 8 * k ==> (b in marks <==> ones)
      {
        ByteIs(p + k);
        r := r && bytes[p + k] == (if ones then 0xFF else 0);
        k := k + 1;
      }
    }

    lemma ByteIs(p: nat)
      requires Valid() && p < bytes.Length
      ensures bytes[p] == 0xFF <==> forall b :: 8 * p <= b < 8 * p + 8 ==> b in marks
      ensures bytes[p] == 0 <==> forall b :: 8 * p <= b < 8 * p + 8 ==> b !in marks
    {
      MaskFull(bytes[p]);
      ByteBits(p);
      hide Valid, Mask;
      if forall b :: 8 * p <= b < 8 * p + 8 ==> b in marks {
        forall k: nat | k < 8 ensures bytes[p] & Mask(k) != 0 { assert 8 * p + k in marks; }
      }
      if forall b :: 8 * p <= b < 8 * p + 8 ==> b !in marks {
        forall k: nat | k < 8 ensures bytes[p] & Mask(k) == 0 { assert 8 * p + k !in marks; }
      }
    }

    lemma ByteBits(p: nat)
      requires Valid() && p < bytes.Length
      ensures forall b :: 8 * p <= b < 8 * p + 8 ==> (b in marks <==> bytes[p] & Mask(b - 8 * p) != 0)
    {
      forall b | 8 * p <= b < 8 * p + 8
        ensures b in marks <==> bytes[p] & Mask(b - 8 * p) != 0
      {
        assert 8 * p + (b - 8 * p) == b;
      }
    }

    /** The reads of the check of [va, va + size) stay in the bitmap: nothing is read if
        the range is empty or its end wraps around, at most the first word if it starts
        with a marked bit. */
    ghost predicate Readable(va: nat, size: nat)
      reads this
    {
      va + size < LIMIT && size > 0 ==>
        if va in marks then va < n && (va + size < 64 || size > 64 ==> va / 8 + 8 <= bytes.Length)
        else 64 <= va + size <= n
    }

    /** `lmc_um_check_unmarked`.  A range whose end wraps around is accepted unseen. */
    method CheckUnmarked(va: nat, size: nat) returns (r: bool)
      requires Valid() && va < LIMIT && size < LIMIT && Readable(va, size)
      ensures r <==> va + size >= LIMIT || Passes(marks, va, size)
    {
      hide Stuck, Unmarked, Checked, Passes, Skipping, Valid;
      var end := (va + size) % LIMIT;
      var ee := (end - 64) % LIMIT;
      var i := va;
      CheckStart(marks, va, size);
      MarkedStart(marks, va, size);
      while i < end
        invariant va + size < LIMIT ==> va <= i <= end && Checked(marks, va, size, i)
        invariant va + size >= LIMIT || va in marks ==> i == va
        decreases end - i
      {
        ghost var i0 := i;
        ghost var clear := va !in marks;
        assert clear ==> ee == end - 64;
        if clear { SkipNone(marks, i0, ee); }
        while i < ee
          invariant i0 <= i < end && (clear ==> Skipping(marks, i0, i, ee)) && (!clear ==> i == i0 == va)
          decreases ee - i
        {
          var zero := WordIs(i, false);
          if !zero { break; }
          MarkedWord(marks, i);
          SkipOne(marks, i0, i, ee);
          i := i + 64;
        }
        if GetBit(i) {
          if clear { StuckDef(marks, i, ee); MarkedIn(marks, va, size, i0, i); }
          return false;
        }
        StuckDef(marks, i, ee);
        CheckNext(marks, va, size, i0, i);
        i := i + 1;
      }
      if va + size < LIMIT { CheckEnd(marks, va, size); }
      return true;
    }

    /** `lmc_um_mark`. */
    method Mark(va: nat, size: nat) returns (r: bool)
      requires Valid() && va < LIMIT && size < LIMIT && DESC <= n < LIMIT
      requires va <= DESC ==> Readable(va, size)
      modifies this`marks, bytes
      ensures Valid() && (r <==> Accepts(old(marks), n, va, size))
      ensures marks == if r then MarkedBy(old(marks), va, size) else old(marks)
    {
      hide Valid, Passes, Unmarked, Bits;
      var end := (va + size) % LIMIT;
      if va > DESC && (va > n || end > n) { return false; }
      MarkedStart(marks, va, size);
      var clear := CheckUnmarked(va, size);
      if !clear { return false; }
      var i := va;
      BitsEmpty(marks, va);
      while i < end
        invariant va + size < LIMIT ==> va <= i <= end && marks == old(marks) + Bits(va, i - va)
        invariant va + size >= LIMIT ==> i == va && marks == old(marks)
        invariant Valid()
        modifies this`marks, bytes
        decreases end - i
      {
        if i % 8 == 0 {
          var from, to := i / 8, (end - 1) / 8;
          if from < to {
            Fill(from, to);
            BitsJoin(old(marks), va, i - va, (to - from) * 8);
            i := i + (to - from) * 8;
          }
        }
        SetBit(i);
        BitsAdd(old(marks), va, i - va);
        i := i + 1;
      }
      return true;
    }
  }
}
