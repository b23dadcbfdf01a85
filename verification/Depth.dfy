/**
 How deep a Huffman tree can be: a tree with a path of d edges weighs at least as
 much as the Fibonacci number d + 2. So light trees have no codes that are too long.
 */
module Depth {
  import opened Bits
  import opened Sums
  import opened HuffTree

  function Fib(n: nat): (f: nat) {
    if n < 2 then n else Fib(n - 1) + Fib(n - 2)
  }

  lemma {:induction false} FibMono(a: nat, b: nat)
    requires 1 <= a <= b
    ensures 1 <= Fib(a) <= Fib(b)
    decreases b
  {
    if a < b {
      FibMono(a, b - 1);
      if b >= 3 { FibMono(1, b - 2); }
    } else if a >= 3 {
      FibMono(1, a - 1);
    }
  }

  // nodes are combined in the order of their weight
  ghost predicate Rising(fc: seq<nat>, r: seq<nat>) {
    Below(r, |fc|) && forall i, j :: 0 <= i < j < |r| ==> fc[r[i]] <= fc[r[j]]
  }

  // the internal node elems + s weighs at least b, and one of its sons at least a
  ghost predicate Heavy(fc: seq<nat>, r: seq<nat>, elems: nat, s: nat, a: nat, b: nat) {
    && elems + s < |fc| && 2 * s + 1 < |r| && Below(r, |fc|)
    && fc[elems + s] >= b && (fc[r[2 * s]] >= a || fc[r[2 * s + 1]] >= a)
  }

  // the father of a heavy node weighs at least the sum
  lemma Father(fc: seq<nat>, r: seq<nat>, leaves: seq<nat>, elems: nat, s: nat, a: nat, b: nat, q: nat)
    requires Shaped(r, leaves, elems) && Weighted(fc, r, elems) && Rising(fc, r) && Heavy(fc, r, elems, s, a, b) &&
        q < |r| && r[q] == elems + s
    ensures s < q / 2 && Heavy(fc, r, elems, q / 2, b, a + b)
  {
    hide Shaped;
    SonBelow(r, leaves, elems, q);
    var t := q / 2;
    assert q == 2 * t || q == 2 * t + 1;
    var sib := if q == 2 * t then 2 * t + 1 else 2 * t;
    assert 2 * s + 1 < 2 * t;
    assert fc[r[2 * s]] <= fc[r[sib]] && fc[r[2 * s + 1]] <= fc[r[sib]];
    assert fc[elems + t] == fc[r[2 * t]] + fc[r[2 * t + 1]];
  }

  // len[elems + s] levels above it, the root is heavier by as many steps
  lemma {:induction false} Climb(fc: seq<nat>, len: seq<nat>, r: seq<nat>, leaves: seq<nat>, elems: nat, max: nat,
      s: nat, k: nat)
    requires Ready(len, r, leaves, elems, max) && Weighted(fc, r, elems) && Rising(fc, r) && s < |r| / 2 && k >= 1
    requires Heavy(fc, r, elems, s, Fib(k), Fib(k + 1))
    ensures Root(r, elems) < |fc| && fc[Root(r, elems)] >= Fib(k + 1 + len[elems + s])
    decreases |r| - s
  {
    hide Shaped, Weighted, Rising;
    ReadyShape(len, r, leaves, elems, max);
    if elems + s != Root(r, elems) {
      var q := InternalSon(r, leaves, elems, elems + s);
      Father(fc, r, leaves, elems, s, Fib(k), Fib(k + 1), q);
      SonLen(len, r, leaves, elems, max, q);
      Climb(fc, len, r, leaves, elems, max, q / 2, k + 1);
      FibMono(k + 1 + len[elems + s], k + 2 + len[elems + q / 2]);
    }
  }

  lemma Bottom(fc: seq<nat>, r: seq<nat>, leaves: seq<nat>, elems: nat, s: nat)
    requires Shaped(r, leaves, elems) && Weighted(fc, r, elems) && s < |r| / 2
    requires forall q :: 0 <= q < |r| ==> fc[r[q]] >= 1
    ensures Heavy(fc, r, elems, s, Fib(2), Fib(3))
  {
    assert 2 * s + 1 < |r| && fc[r[2 * s]] >= 1 && fc[r[2 * s + 1]] >= 1;
    assert Fib(2) == 1 && Fib(3) == 2;
  }

  // symbols in use have a weight, so every node has one
  lemma {:induction false} AllHeavy(fc: seq<nat>, r: seq<nat>, leaves: seq<nat>, elems: nat, n: nat)
    requires Shaped(r, leaves, elems) && Weighted(fc, r, elems) && n < elems + |r| / 2 && (n >= elems || n in r)
    requires forall q :: 0 <= q < |r| && r[q] < elems ==> fc[r[q]] >= 1
    ensures fc[n] >= 1
    decreases n
  {
    if n >= elems {
      var s := n - elems;
      SonBelow(r, leaves, elems, 2 * s);
      AllHeavy(fc, r, leaves, elems, r[2 * s]);
    }
  }

  // a tree that weighs less has no path that is too long
  lemma LightTree(fc: seq<nat>, len: seq<nat>, r: seq<nat>, leaves: seq<nat>, elems: nat, max: nat)
    requires Ready(len, r, leaves, elems, max) && Weighted(fc, r, elems) && Rising(fc, r)
    requires forall q :: 0 <= q < |r| && r[q] < elems ==> fc[r[q]] >= 1
    requires Root(r, elems) < |fc| && fc[Root(r, elems)] < Fib(max + 3)
    ensures Over(len, r, elems, max, 0) == 0
  {
    hide Shaped, Rising, Over, Fib;
    ReadyShape(len, r, leaves, elems, max);
    forall n | elems <= n < elems + |r| / 2 ensures len[n] < max {
      var s := n - elems;
      forall q | 0 <= q < |r| ensures fc[r[q]] >= 1 {
        SonBelow(r, leaves, elems, q);
        AllHeavy(fc, r, leaves, elems, r[q]);
      }
      Bottom(fc, r, leaves, elems, s);
      Climb(fc, len, r, leaves, elems, max, s, 2);
      if len[n] >= max { FibMono(max + 3, 3 + len[n]); }
    }
    NoneOver(len, r, elems, max, 0);
  }

  lemma {:induction false} NoneOver(len: seq<nat>, r: seq<nat>, elems: nat, max: nat, p: nat)
    requires p <= |r| && |r| % 2 == 0 && |len| >= elems + |r| / 2
    requires forall n :: elems <= n < elems + |r| / 2 ==> len[n] < max
    ensures Over(len, r, elems, max, p) == 0
    decreases |r| - p
  {
    if p < |r| { NoneOver(len, r, elems, max, p + 1); }
  }
}
