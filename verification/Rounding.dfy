/** `round_to_next_power_of_2`: the bit-smearing trick on 64-bit words, whose
    last step (shifting by 32) is commented out in the source. */
module Rounding {

  function Pow2(n: nat): (r: nat)
    ensures r > 0
  {
    if n == 0 then 1 else 2 * Pow2(n - 1)
  }

  /** Bit `i` of `w`. */
  predicate Bit(w: nat, i: nat) {
    if i == 0 then w % 2 == 1 else Bit(w / 2, i - 1)
  }

  function Or(a: nat, b: nat): (r: nat)
    ensures r >= a && r >= b
  {
    if a == 0 && b == 0 then 0
    else 2 * Or(a / 2, b / 2) + (if a % 2 == 1 || b % 2 == 1 then 1 else 0)
  }

  function Shr(w: nat, k: nat): (r: nat)
    ensures r <= w
  {
    if k == 0 then w else Shr(w / 2, k - 1)
  }

  function Smear(w: nat, k: nat): (r: nat)
    ensures r >= w
  {
    Or(w, Shr(w, k))
  }

  /** The body for v >= 1; `v--` wraps to 2^64 - 1 and the result to 0 for v = 0. */
  function Round(v: nat): (r: nat)
    ensures r >= v
  {
    if v == 0 then 0
    else Smear(Smear(Smear(Smear(Smear(v - 1, 1), 2), 4), 8), 16) + 1
  }

  lemma {:induction false} OrBit(a: nat, b: nat, i: nat)
    ensures Bit(Or(a, b), i) <==> Bit(a, i) || Bit(b, i)
  {
    if a == 0 && b == 0 {
      ZeroBit(i);
    } else if i > 0 {
      OrBit(a / 2, b / 2, i - 1);
    }
  }

  lemma {:induction false} ZeroBit(i: nat)
    ensures !Bit(0, i)
  {
    if i > 0 { ZeroBit(i - 1); }
  }

  lemma {:induction false} ShrBit(w: nat, k: nat, i: nat)
    ensures Bit(Shr(w, k), i) <==> Bit(w, i + k)
  {
    if k > 0 {
      ShrBit(w / 2, k - 1, i);
    }
  }

  ghost predicate NoBitFrom(w: nat, n: nat) {
    forall i: nat :: Bit(w, i) ==> i < n
  }

  /** `w` fits in `n` bits exactly when no bit from `n` on is set. */
  lemma {:induction false} HighBits(w: nat, n: nat)
    ensures w < Pow2(n) <==> NoBitFrom(w, n)
  {
    if n > 0 {
      HighBits(w / 2, n - 1);
      if NoBitFrom(w, n) {
        forall i: nat | Bit(w / 2, i)
          ensures i < n - 1
        {
          assert Bit(w, i + 1);
        }
      }
      if w < Pow2(n) {
        forall i: nat | Bit(w, i)
          ensures i < n
        {
          if i > 0 { assert Bit(w / 2, i - 1); }
        }
      }
    } else if w == 0 {
      forall i: nat
        ensures !Bit(w, i)
      {
        ZeroBit(i);
      }
    } else {
      var i := TopBit(w);
      assert Bit(w, i);
    }
  }

  /** The highest set bit. */
  lemma {:induction false} TopBit(w: nat) returns (h: nat)
    requires w > 0
    ensures Bit(w, h) && Pow2(h) <= w < Pow2(h + 1)
  {
    if w == 1 {
      h := 0;
    } else {
      h := TopBit(w / 2);
      h := h + 1;
    }
  }

  ghost predicate OnesBelow(w: nat, n: nat) {
    forall i: nat :: i < n ==> Bit(w, i)
  }

  lemma {:induction false} AllOnes(w: nat, n: nat)
    requires w < Pow2(n)
    ensures OnesBelow(w, n) <==> w == Pow2(n) - 1
  {
    if n > 0 {
      AllOnes(w / 2, n - 1);
      if OnesBelow(w, n) {
        assert Bit(w, 0);
        forall i: nat | i < n - 1
          ensures Bit(w / 2, i)
        {
          assert Bit(w, i + 1);
        }
      }
      if w == Pow2(n) - 1 {
        assert OnesBelow(w / 2, n - 1);
        forall i: nat | i < n
          ensures Bit(w, i)
        {
          if i > 0 { assert Bit(w / 2, i - 1); }
        }
      }
    }
  }

  /** `r` has bit `i` set exactly when `w` has a bit set among i, .., i + k - 1. */
  ghost predicate Smeared(w: nat, r: nat, k: nat) {
    forall i: nat :: Bit(r, i) <==> BitWithin(w, i, k)
  }

  ghost predicate BitWithin(w: nat, i: nat, k: nat) {
    exists j: nat :: i <= j < i + k && Bit(w, j)
  }

  lemma SmearDoubles(w: nat, r: nat, k: nat)
    requires Smeared(w, r, k)
    ensures Smeared(w, Smear(r, k), 2 * k)
  {
    forall i: nat
      ensures Bit(Smear(r, k), i) <==> BitWithin(w, i, 2 * k)
    {
      OrBit(r, Shr(r, k), i);
      ShrBit(r, k, i);
      assert Bit(r, i) <==> BitWithin(w, i, k);
      assert Bit(r, i + k) <==> BitWithin(w, i + k, k);
      if BitWithin(w, i, 2 * k) {
        var j: nat :| i <= j < i + 2 * k && Bit(w, j);
        assert BitWithin(w, i, k) || BitWithin(w, i + k, k);
      }
    }
  }

  /** Five smearing steps reach 32 bits down. */
  lemma RoundSmears(v: nat)
    requires v >= 1
    ensures Smeared(v - 1, Round(v) - 1, 32)
  {
    var w := v - 1;
    forall i: nat
      ensures Bit(w, i) <==> BitWithin(w, i, 1)
    {
      if Bit(w, i) { assert i <= i < i + 1 && Bit(w, i); }
    }
    SmearDoubles(w, w, 1);
    SmearDoubles(w, Smear(w, 1), 2);
    SmearDoubles(w, Smear(Smear(w, 1), 2), 4);
    SmearDoubles(w, Smear(Smear(Smear(w, 1), 2), 4), 8);
    SmearDoubles(w, Smear(Smear(Smear(Smear(w, 1), 2), 4), 8), 16);
  }

  ghost predicate IsPow2(r: nat) {
    exists n: nat :: Pow2(n) == r
  }

  ghost predicate LeastPow2From(r: nat, v: nat) {
    IsPow2(r) && v <= r && forall q: nat :: IsPow2(q) && v <= q ==> r <= q
  }

  /** Below the top set bit of `w` there is no run of 32 zero bits. */
  ghost predicate NoLongZeroRun(w: nat) {
    forall h: nat, i: nat :: Bit(w, h) && i <= h ==> BitWithin(w, i, 32)
  }

  lemma {:induction false} Pow2Monotone(a: nat, b: nat)
    requires a <= b
    ensures Pow2(a) <= Pow2(b)
  {
    if a < b { Pow2Monotone(a, b - 1); }
  }

  lemma RoundBound(v: nat, n: nat)
    requires 1 <= v <= Pow2(n)
    ensures Round(v) <= Pow2(n)
  {
    var w, r := v - 1, Round(v) - 1;
    RoundSmears(v);
    HighBits(w, n);
    forall i: nat | Bit(r, i)
      ensures i < n
    {
      assert BitWithin(w, i, 32);
    }
    HighBits(r, n);
  }

  /** The result is the least power of two not below `v` exactly when v - 1 has
      no run of 32 zero bits under its top bit. */
  lemma RoundExact(v: nat)
    requires v >= 1
    ensures LeastPow2From(Round(v), v) <==> NoLongZeroRun(v - 1)
  {
    var w, r := v - 1, Round(v) - 1;
    if w == 0 {
      RoundOfOne();
    } else {
      hide Round, Smear, Pow2, NoLongZeroRun, Smeared, NoBitFrom, LeastPow2From, Bit;
      var h := TopBit(w);
      RoundSmears(v);
      RoundBound(v, h + 1);
      HighBits(w, h + 1);
      OnesIffNoRun(w, r, h);
      LeastIs(r + 1, v, h);
    }
  }

  /** Between two powers of two only the upper one is the least from `v` on. */
  lemma LeastIs(q: nat, v: nat, h: nat)
    requires Pow2(h) < v <= q <= Pow2(h + 1)
    ensures LeastPow2From(q, v) <==> q == Pow2(h + 1)
  {
    hide Pow2;
    LeastAbove(v, h);
    if IsPow2(q) { OnlyPow2(q, h); }
  }

  lemma RoundOfOne()
    ensures LeastPow2From(Round(1), 1) && NoLongZeroRun(0)
  {
    hide NoLongZeroRun;
    assert NoLongZeroRun(0) by { ZeroNoRun(); }
    assert Round(1) == 1 by {
      assert Shr(0, 1) == 0 && Shr(0, 2) == 0 && Shr(0, 4) == 0 && Shr(0, 8) == 0 && Shr(0, 16) == 0;
    }
    assert Pow2(0) == 1;
  }

  lemma ZeroNoRun()
    ensures NoLongZeroRun(0)
  {
    forall h: nat ensures !Bit(0, h) { ZeroBit(h); }
  }

  lemma OnesIffNoRun(w: nat, r: nat, h: nat)
    requires Smeared(w, r, 32) && Bit(w, h) && NoBitFrom(w, h + 1) && r < Pow2(h + 1)
    ensures NoLongZeroRun(w) <==> r == Pow2(h + 1) - 1
  {
    hide Bit, Pow2;
    AllOnes(r, h + 1);
    if NoLongZeroRun(w) {
      forall i: nat | i < h + 1 ensures Bit(r, i) { assert BitWithin(w, i, 32); }
    }
    if OnesBelow(r, h + 1) {
      forall k: nat, i: nat | Bit(w, k) && i <= k
        ensures BitWithin(w, i, 32)
      {
        assert Bit(r, i);
      }
    }
  }

  lemma OnlyPow2(p: nat, h: nat)
    requires IsPow2(p) && Pow2(h) < p <= Pow2(h + 1)
    ensures p == Pow2(h + 1)
  {
    var n: nat :| Pow2(n) == p;
    if n <= h { Pow2Monotone(n, h); }
    if n > h + 1 { Pow2Monotone(h + 2, n); }
  }

  lemma LeastAbove(v: nat, h: nat)
    requires Pow2(h) < v <= Pow2(h + 1)
    ensures LeastPow2From(Pow2(h + 1), v)
  {
    forall q: nat | IsPow2(q) && v <= q
      ensures Pow2(h + 1) <= q
    {
      var n: nat :| Pow2(n) == q;
      if n <= h { Pow2Monotone(n, h); }
      Pow2Monotone(h + 1, n);
    }
  }

  /** In particular it is for every v up to 2^32. */
  lemma RoundUpTo32Bits(v: nat)
    requires 1 <= v <= 0x1_0000_0000
    ensures LeastPow2From(Round(v), v) && Round(v) <= 0x1_0000_0000
  {
    var w := v - 1;
    Pow2Of32();
    HighBits(w, 32);
    forall h: nat, i: nat | Bit(w, h) && i <= h
      ensures BitWithin(w, i, 32)
    {
      assert h < i + 32;
    }
    RoundExact(v);
    RoundBound(v, 32);
  }

  lemma Pow2Of32()
    ensures Pow2(32) == 0x1_0000_0000
  {
    assert Pow2(8) == 256;
    assert Pow2(16) == 0x1_0000;
    assert Pow2(24) == 0x100_0000;
  }

  /** The commented-out step shows just above 2^33, where the result is no power of two. */
  lemma RoundFailsAbove33Bits()
    ensures !LeastPow2From(Round(0x2_0000_0001), 0x2_0000_0001)
  {
    var v := 0x2_0000_0001;
    Pow2Of32();
    assert Pow2(33) == v - 1;
    Pow2Bits(33);
    assert Bit(v - 1, 33) && !BitWithin(v - 1, 0, 32);
    RoundExact(v);
  }

  lemma {:induction false} Pow2Bits(n: nat)
    ensures forall i: nat :: Bit(Pow2(n), i) <==> i == n
  {
    forall i: nat
      ensures Bit(Pow2(n), i) <==> i == n
    {
      if n > 0 {
        Pow2Bits(n - 1);
        assert Pow2(n) / 2 == Pow2(n - 1);
      } else if i > 0 {
        ZeroBit(i - 1);
      }
    }
  }
}
