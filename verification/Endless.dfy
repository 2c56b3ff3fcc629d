/** When a marking loop runs forever.  A loop that follows `next` words and marks
    some regions at every node stops at a node it has marked before, unless all it
    marked on the way round was nothing: regions of size 0, and regions whose end
    wraps around, which the bitmap accepts without setting a bit. */
module Endless {
  import opened Memory
  import opened FreeList
  import opened UsageMaps
  import opened Acceptance

  /** The regions marked at each node, and the node after it; 0 ends the loop. */
  datatype Loop = Loop(n: nat, regs: nat -> Chunks, next: nat -> nat)

  datatype Turn = Out | Turn(marks: set<int>, va: nat)

  /** Bitmap and node after one more turn: `Out` if the loop has ended or a region was rejected. */
  ghost function Next(l: Loop, t: Turn): Turn {
    if t.Out? || t.va == 0 || !AcceptsAll(t.marks, l.n, l.regs(t.va)) then Out
    else Turn(MarkedAll(t.marks, l.regs(t.va)), l.next(t.va))
  }

  ghost function After(l: Loop, t: Turn, k: nat): Turn {
    if k == 0 then t else Next(l, After(l, t, k - 1))
  }

  /** From turn `i` to turn `j` the loop went round a cycle and marked nothing. */
  ghost predicate IdleCycle(l: Loop, t: Turn, i: nat, j: nat) {
    && i < j && After(l, t, i).Turn? && After(l, t, j).Turn? && After(l, t, i).va == After(l, t, j).va
    && forall k: nat :: i <= k < j && After(l, t, k).Turn? ==> AllIdle(l.regs(After(l, t, k).va))
  }

  lemma {:induction false} StillRunning(l: Loop, t: Turn, i: nat, j: nat)
    requires i <= j && After(l, t, j).Turn?
    ensures After(l, t, i).Turn? && (i < j ==> After(l, t, i).va != 0)
    decreases j - i
  {
    if i < j { StillRunning(l, t, i, j - 1); }
  }

  lemma {:induction false} CycleMarksNothing(l: Loop, t: Turn, i: nat, k: nat, j: nat)
    requires IdleCycle(l, t, i, j) && i <= k <= j
    ensures After(l, t, k).Turn? && After(l, t, k).marks == After(l, t, i).marks
  {
    StillRunning(l, t, k, j);
    if k > i {
      CycleMarksNothing(l, t, i, k - 1, j);
      IdleKeeps(After(l, t, k - 1).marks, l.regs(After(l, t, k - 1).va));
    }
  }

  lemma {:induction false} Shifted(l: Loop, t: Turn, i: nat, j: nat, q: nat)
    requires After(l, t, i) == After(l, t, j)
    ensures After(l, t, i + q) == After(l, t, j + q)
  {
    if q > 0 { Shifted(l, t, i, j, q - 1); }
  }

  lemma {:induction false} CycleRuns(l: Loop, t: Turn, i: nat, j: nat, k: nat)
    requires IdleCycle(l, t, i, j)
    ensures After(l, t, k).Turn?
    decreases k
  {
    if k <= j {
      StillRunning(l, t, k, j);
    } else {
      CycleMarksNothing(l, t, i, j, j);
      Shifted(l, t, i, j, k - j);
      CycleRuns(l, t, i, j, i + (k - j));
    }
  }

  ghost predicate Forever(l: Loop, t: Turn) {
    forall k: nat :: After(l, t, k).Turn?
  }

  lemma MarksBounded(l: Loop, t: Turn, k: nat)
    requires Forever(l, t) && After(l, t, k).marks <= Bits(0, l.n)
    ensures After(l, t, k).marks <= After(l, t, k + 1).marks <= Bits(0, l.n)
    ensures !AllIdle(l.regs(After(l, t, k).va)) ==> After(l, t, k).marks != After(l, t, k + 1).marks
  {
    hide Bits;
    assert After(l, t, k + 1).Turn?;
    MarkedAllGrows(After(l, t, k).marks, l.n, l.regs(After(l, t, k).va));
  }

  /** An endless loop marks nothing from some turn on: every mark uses up a bit of the pool. */
  lemma {:induction false} IdleInTheEnd(l: Loop, t: Turn, k: nat, clear: set<int>) returns (from: nat)
    requires Forever(l, t) && After(l, t, k).marks <= Bits(0, l.n) && clear == Bits(0, l.n) - After(l, t, k).marks
    ensures forall j: nat :: j >= from ==> AllIdle(l.regs(After(l, t, j).va))
    decreases |clear|
  {
    hide Bits, Next, After, AllIdle;
    if j: nat :| j >= k && !AllIdle(l.regs(After(l, t, j).va)) {
      MarksGrow(l, t, k, j);
      MarksBounded(l, t, j);
      var rest := Bits(0, l.n) - After(l, t, j + 1).marks;
      FewerLeft(After(l, t, k).marks, After(l, t, j).marks, After(l, t, j + 1).marks, Bits(0, l.n));
      from := IdleInTheEnd(l, t, j + 1, rest);
    } else {
      from := k;
    }
  }

  lemma {:induction false} MarksGrow(l: Loop, t: Turn, k: nat, j: nat)
    requires Forever(l, t) && After(l, t, k).marks <= Bits(0, l.n) && k <= j
    ensures After(l, t, k).marks <= After(l, t, j).marks <= Bits(0, l.n)
    decreases j - k
  {
    hide Bits, Next, After;
    if k < j {
      MarksGrow(l, t, k, j - 1);
      MarksBounded(l, t, j - 1);
    }
  }

  lemma FewerLeft(a: set<int>, b: set<int>, c: set<int>, all: set<int>)
    requires a <= b <= c <= all && b != c
    ensures |all - c| < |all - a|
  {
    var d := c - b;
    assert b + d == c;
    assert |d| == 0 ==> b + d == b;
    assert (all - c) + (c - a) == all - a && d <= c - a;
    assert |all - a| == |all - c| + |c - a|;
    assert c - a == d + (b - a);
    assert |c - a| == |d| + |b - a|;
  }

  /** Among more arguments than values two share a value. */
  lemma {:induction false} Pigeonhole(f: nat -> nat, n: nat, m: nat) returns (i: nat, j: nat)
    requires n > m && forall x: nat :: x < n ==> f(x) < m
    ensures i < j < n && f(i) == f(j)
    decreases m
  {
    // either some f(x) meets f(n - 1), or f(n - 1) can be renamed to m - 1 and left out
    if x: nat :| x < n - 1 && f(x) == f(n - 1) {
      i, j := x, n - 1;
    } else {
      var last := f(n - 1);
      var g: nat -> nat := x => if f(x) == m - 1 then last else f(x);
      forall x: nat | x < n - 1 ensures g(x) < m - 1 {}
      i, j := Pigeonhole(g, n - 1, m - 1);
    }
  }

  /** A marking loop runs forever if and only if it goes round a cycle without marking anything. */
  lemma ForeverIffIdleCycle(l: Loop, t: Turn)
    requires t.Turn? && t.marks <= Bits(0, l.n) && t.va < LIMIT && forall x :: l.next(x) < LIMIT
    ensures Forever(l, t) <==> exists i, j :: IdleCycle(l, t, i, j)
  {
    hide Next, After, Bits;
    if Forever(l, t) {
      assert After(l, t, 0) == t by { AfterNone(l, t); }
      var from := IdleInTheEnd(l, t, 0, Bits(0, l.n) - t.marks);
      var f: nat -> nat := (x: nat) => Node(l, t, from + x);
      forall x: nat ensures f(x) < LIMIT { NodeBound(l, t, from + x); }
      var i, j := Pigeonhole(f, LIMIT + 1, LIMIT);
      assert f(i) == Node(l, t, from + i) && f(j) == Node(l, t, from + j);
      assert IdleCycle(l, t, from + i, from + j);
    }
    if i, j :| IdleCycle(l, t, i, j) {
      forall k: nat ensures After(l, t, k).Turn? { CycleRuns(l, t, i, j, k); }
    }
  }

  lemma AfterNone(l: Loop, t: Turn)
    ensures After(l, t, 0) == t
  {
  }

  ghost function Node(l: Loop, t: Turn, k: nat): nat {
    if After(l, t, k).Turn? then After(l, t, k).va else 0
  }

  lemma NodeBound(l: Loop, t: Turn, k: nat)
    requires t.Turn? && t.va < LIMIT && forall x :: l.next(x) < LIMIT
    ensures Node(l, t, k) < LIMIT
  {
  }
}
