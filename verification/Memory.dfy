/** The pool as the C code sees it: a flat run of bytes in which a `size_t` is
    eight little-endian bytes at any offset.  Nothing here knows about chunks;
    a word store clobbers exactly eight bytes, so a header that does not fit
    overwrites its neighbour in this model as it does in the program. */
module Memory {

  type byte = x: int | 0 <= x < 256
  type Bytes = seq<byte>

  const LIMIT: nat := 0x1_0000_0000_0000_0000  // 2^64, one past the largest size_t

  ghost function Pow256(n: nat): (r: nat)
    ensures r > 0
  {
    if n == 0 then 1 else 256 * Pow256(n - 1)
  }

  function Little(s: Bytes): nat {
    if s == [] then 0 else s[0] + 256 * Little(s[1..])
  }

  function Digits(v: nat, n: nat): (s: Bytes)
    ensures |s| == n
  {
    if n == 0 then [] else [v % 256] + Digits(v / 256, n - 1)
  }

  lemma {:induction false} LittleDigits(v: nat, n: nat)
    requires v < Pow256(n)
    ensures Little(Digits(v, n)) == v
  {
    if n > 0 {
      LittleDigits(v / 256, n - 1);
      assert Digits(v, n)[1..] == Digits(v / 256, n - 1);
    }
  }

  lemma {:induction false} LittleBound(s: Bytes)
    ensures Little(s) < Pow256(|s|)
  {
    if s != [] {
      LittleBound(s[1..]);
    }
  }

  lemma {:induction false} LittleTop(s: Bytes, n: nat)
    requires |s| == n + 1
    ensures Little(s) >= s[n] * Pow256(n)
  {
    if n > 0 {
      LittleTop(s[1..], n - 1);
      assert s[1..][n - 1] == s[n];
      assert Pow256(n) == 256 * Pow256(n - 1);
      assert s[n] * Pow256(n) == 256 * (s[n] * Pow256(n - 1));
    }
  }

  lemma FirstDigit(v: nat, n: nat)
    requires n > 0
    ensures Digits(v, n)[0] == v % 256
  {
  }

  lemma Pow256Of7()
    ensures Pow256(7) == 0x100_0000_0000_0000
  {
    assert Pow256(3) == 0x100_0000;
    assert Pow256(5) == 0x100_0000_0000;
  }

  lemma Pow256Of8()
    ensures Pow256(8) == LIMIT
  {
    assert Pow256(2) == 0x1_0000;
    assert Pow256(4) == 0x1_0000_0000;
    assert Pow256(6) == 0x1_0000_0000_0000;
  }

  /** The `size_t` at offset `a`. */
  function Word(m: Bytes, a: nat): (v: nat)
    requires a + 8 <= |m|
    ensures v < LIMIT
  {
    LittleBound(m[a..a + 8]);
    Pow256Of8();
    Little(m[a..a + 8])
  }

  ghost predicate Agree(m: Bytes, m': Bytes, a: nat, n: nat) {
    |m| == |m'| && forall k :: a <= k < a + n && k < |m| ==> m[k] == m'[k]
  }

  lemma AgreeSlice(m: Bytes, m': Bytes, a: nat, n: nat)
    requires Agree(m, m', a, n) && a + n <= |m|
    ensures m[a..a + n] == m'[a..a + n]
  {
  }

  /** Two pools that agree on the eight bytes at `a` hold the same word there. */
  lemma AgreeWord(m: Bytes, m': Bytes, a: nat)
    requires Agree(m, m', a, 8) && a + 8 <= |m|
    ensures Word(m, a) == Word(m', a)
  {
    AgreeSlice(m, m', a, 8);
  }

  /** Storing the word `v` at `a`: it reads back, and no other byte moves. */
  function Put(m: Bytes, a: nat, v: nat): (r: Bytes)
    requires a + 8 <= |m| && v < LIMIT
    ensures |r| == |m| && Word(r, a) == v
    ensures forall k :: 0 <= k < |m| && !(a <= k < a + 8) ==> r[k] == m[k]
    ensures forall b: nat {:trigger Word(r, b)} ::
      b + 8 <= |m| && (b + 8 <= a || a + 8 <= b) ==> Word(r, b) == Word(m, b)
  {
    var r := m[..a] + Digits(v, 8) + m[a + 8..];
    assert Word(r, a) == v by {
      assert r[a..a + 8] == Digits(v, 8);
      Pow256Of8();
      LittleDigits(v, 8);
    }
    assert forall b: nat {:trigger Word(r, b)} ::
      b + 8 <= |m| && (b + 8 <= a || a + 8 <= b) ==> Word(r, b) == Word(m, b) by {
      forall b: nat | b + 8 <= |m| && (b + 8 <= a || a + 8 <= b)
        ensures Word(r, b) == Word(m, b)
      {
        AgreeWord(m, r, b);
      }
    }
    r
  }

  lemma {:induction false} LittleZero(s: Bytes)
    requires forall k :: 0 <= k < |s| ==> s[k] == 0
    ensures Little(s) == 0
  {
    if s != [] { LittleZero(s[1..]); }
  }

  ghost predicate Zeroed(m: Bytes, a: nat, n: nat) {
    forall k :: a <= k < a + n && k < |m| ==> m[k] == 0
  }

  lemma ZeroWord(m: Bytes, a: nat)
    requires Zeroed(m, a, 8) && a + 8 <= |m|
    ensures Word(m, a) == 0
  {
    LittleZero(m[a..a + 8]);
  }
}
