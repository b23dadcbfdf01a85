/**
 The heap of trees.c: node numbers ordered by frequency, with the depth of the
 subtree as tie breaker. heap[0] is not used; the sons of heap[n] are heap[2n]
 and heap[2n+1].
 */
module PrioQueue {

  // the macro smaller: n may stand above m
  predicate Smaller(fc: seq<nat>, depth: seq<nat>, n: nat, m: nat)
    requires n < |fc| && m < |fc| && |fc| <= |depth|
  {
    fc[n] < fc[m] || (fc[n] == fc[m] && depth[n] <= depth[m])
  }

  ghost predicate Nodes(h: seq<nat>, len: nat, fc: seq<nat>, depth: seq<nat>) {
    len < |h| && |fc| <= |depth| && forall j :: 1 <= j <= len ==> h[j] < |fc|
  }

  // fathers from lo on stand above their sons
  ghost predicate HeapFrom(h: seq<nat>, len: nat, fc: seq<nat>, depth: seq<nat>, lo: nat)
    requires Nodes(h, len, fc, depth)
  {
    forall j :: 2 <= j <= len && lo <= j / 2 ==> Smaller(fc, depth, h[j / 2], h[j])
  }

  // the same, but v at k may be too large; its sons fit below its father
  ghost predicate HeapBut(h: seq<nat>, len: nat, fc: seq<nat>, depth: seq<nat>, lo: nat, k: nat)
    requires Nodes(h, len, fc, depth)
  {
    && (forall j :: 2 <= j <= len && lo <= j / 2 && j / 2 != k ==> Smaller(fc, depth, h[j / 2], h[j]))
    && (forall j :: 2 <= j <= len && j / 2 == k && lo <= k / 2 && k >= 2 ==> Smaller(fc, depth, h[k / 2], h[j]))
  }

  // the first len entries are rearranged, the rest is untouched
  ghost predicate Rearranged(a: seq<nat>, b: seq<nat>, len: nat) {
    && len < |a| == |b| && multiset(b[1..len + 1]) == multiset(a[1..len + 1])
    && a[0] == b[0] && a[len + 1..] == b[len + 1..]
  }

  function Exchanged(h: seq<nat>, i: nat, j: nat): (r: seq<nat>)
    requires i < |h| && j < |h|
  {
    h[i := h[j]][j := h[i]]
  }

  lemma ExchangeRearranged(a: seq<nat>, h: seq<nat>, len: nat, i: nat, j: nat)
    requires Rearranged(a, h, len) && 1 <= i <= len && 1 <= j <= len
    ensures Rearranged(a, Exchanged(h, i, j), len)
  {
    var r := Exchanged(h, i, j);
    var s, t := h[1..len + 1], r[1..len + 1];
    assert t == s[i - 1 := s[j - 1]][j - 1 := s[i - 1]];
    assert h[len + 1..] == r[len + 1..];
  }

  // v goes down one step, below its smaller son j
  lemma StepDown(h: seq<nat>, len: nat, fc: seq<nat>, depth: seq<nat>, lo: nat, k: nat, j: nat)
    requires Nodes(h, len, fc, depth) && 1 <= lo <= k && 2 * k <= j <= len && j <= 2 * k + 1
    requires HeapBut(h, len, fc, depth, lo, k)
    requires forall i :: 2 * k <= i <= len && i <= 2 * k + 1 ==> Smaller(fc, depth, h[j], h[i])
    requires Smaller(fc, depth, h[j], h[k])
    ensures Nodes(Exchanged(h, k, j), len, fc, depth)
    ensures HeapBut(Exchanged(h, k, j), len, fc, depth, lo, j)
  {
    var r := Exchanged(h, k, j);
    assert j / 2 == k;
    forall i | 2 <= i <= len && lo <= i / 2 && i / 2 != j ensures Smaller(fc, depth, r[i / 2], r[i]) {
      if i == k {
        assert Smaller(fc, depth, h[k / 2], h[j]);
      } else if i / 2 == k {
        assert r[k] == h[j];
      } else {
        assert r[i / 2] == h[i / 2] && r[i] == h[i];
      }
    }
    forall i | 2 <= i <= len && i / 2 == j ensures Smaller(fc, depth, r[j / 2], r[i]) {
      assert Smaller(fc, depth, h[i / 2], h[i]);
    }
  }

  lemma Settled(h: seq<nat>, len: nat, fc: seq<nat>, depth: seq<nat>, lo: nat, k: nat)
    requires Nodes(h, len, fc, depth) && 1 <= lo <= k && HeapBut(h, len, fc, depth, lo, k)
    requires k <= len && AboveSons(h, len, fc, depth, k, h[k])
    ensures HeapFrom(h, len, fc, depth, lo)
  {
    forall j | 2 <= j <= len && lo <= j / 2 ensures Smaller(fc, depth, h[j / 2], h[j]) {
      if j / 2 == k { assert 2 * k <= j <= 2 * k + 1; }
    }
  }

  // the loop invariant: h is the heap as it were with v in the hole at k
  ghost predicate Sifting(a: seq<nat>, h: seq<nat>, len: nat, fc: seq<nat>, depth: seq<nat>, lo: nat, k: nat) {
    1 <= lo <= k <= len && Rearranged(a, h, len) && Nodes(h, len, fc, depth) && HeapBut(h, len, fc, depth, lo, k)
  }

  lemma SiftStart(h: seq<nat>, len: nat, fc: seq<nat>, depth: seq<nat>, k: nat)
    requires 1 <= k <= len && Nodes(h, len, fc, depth) && HeapFrom(h, len, fc, depth, k + 1)
    ensures Sifting(h, h, len, fc, depth, k, k)
  {
  }

  lemma SiftStep(a: seq<nat>, h: seq<nat>, len: nat, fc: seq<nat>, depth: seq<nat>, lo: nat, k: nat, j: nat)
    requires Sifting(a, h, len, fc, depth, lo, k) && 2 * k <= j <= len && j <= 2 * k + 1
    requires AboveSons(h, len, fc, depth, k, h[j]) && Smaller(fc, depth, h[j], h[k])
    ensures Sifting(a, Exchanged(h, k, j), len, fc, depth, lo, j)
  {
    hide Rearranged, HeapBut, Nodes;
    NodesAt(h, len, fc, depth);
    StepDown(h, len, fc, depth, lo, k, j);
    ExchangeRearranged(a, h, len, k, j);
  }

  lemma NodesAt(h: seq<nat>, len: nat, fc: seq<nat>, depth: seq<nat>)
    requires Nodes(h, len, fc, depth)
    ensures len < |h| && |fc| <= |depth| && forall j :: 1 <= j <= len ==> h[j] < |fc|
  {
  }

  ghost predicate AboveSons(h: seq<nat>, len: nat, fc: seq<nat>, depth: seq<nat>, k: nat, v: nat)
    requires Nodes(h, len, fc, depth) && 1 <= k && v < |fc|
  {
    forall i :: 2 * k <= i <= len && i <= 2 * k + 1 ==> Smaller(fc, depth, v, h[i])
  }

  // the smaller of the two sons of k, or the only one
  method SmallerSon(heap: array<nat>, len: nat, fc: array<nat>, depth: array<nat>, k: nat, ghost h: seq<nat>)
      returns (j: nat)
    requires 1 <= k && 2 * k <= len && Nodes(h, len, fc[..], depth[..]) && heap.Length == |h|
    requires forall i :: 0 <= i < |h| && i != k ==> heap[i] == h[i]
    ensures 2 * k <= j <= len && j <= 2 * k + 1
    ensures AboveSons(h, len, fc[..], depth[..], k, h[j])
  {
    j := 2 * k;
    if j < len && Smaller(fc[..], depth[..], heap[j + 1], heap[j]) {
      j := j + 1;
    }
  }

  lemma AboveBoth(h: seq<nat>, len: nat, fc: seq<nat>, depth: seq<nat>, k: nat, j: nat, v: nat)
    requires Nodes(h, len, fc, depth) && 1 <= k && 1 <= j <= len && v < |fc|
    requires AboveSons(h, len, fc, depth, k, h[j]) && Smaller(fc, depth, v, h[j])
    ensures AboveSons(h, len, fc, depth, k, v)
  {
  }

  // pqdownheap: move the node at k down until both its sons are larger
  method DownHeap(heap: array<nat>, len: nat, fc: array<nat>, depth: array<nat>, k0: nat)
    requires heap != fc && heap != depth
    requires 1 <= k0 <= len && Nodes(heap[..], len, fc[..], depth[..])
    requires HeapFrom(heap[..], len, fc[..], depth[..], k0 + 1)
    modifies heap
    ensures Rearranged(old(heap[..]), heap[..], len) && Nodes(heap[..], len, fc[..], depth[..])
    ensures HeapFrom(heap[..], len, fc[..], depth[..], k0)
  {
    hide Rearranged, HeapFrom, Nodes, HeapBut, AboveSons;
    ghost var a := heap[..];
    SiftStart(a, len, fc[..], depth[..], k0);
    NodesAt(a, len, fc[..], depth[..]);
    var k, v := k0, heap[k0];
    ghost var h := a;
    var settled := false;
    while !settled && 2 * k <= len
      invariant Sifting(a, h, len, fc[..], depth[..], k0, k) && heap.Length == |a| == |h|
      invariant h[k] == v && v < fc.Length && h == heap[..][k := v]
      invariant settled ==> AboveSons(h, len, fc[..], depth[..], k, v)
      decreases !settled, len - k
    {
      NodesAt(h, len, fc[..], depth[..]);
      var j := SmallerSon(heap, len, fc, depth, k, h);
      if Smaller(fc[..], depth[..], v, heap[j]) {
        AboveBoth(h, len, fc[..], depth[..], k, j, v);
        settled := true;
      } else {
        SiftStep(a, h, len, fc[..], depth[..], k0, k, j);
        h := Exchanged(h, k, j);
        heap[k] := heap[j];
        k := j;
      }
    }
    heap[k] := v;
    assert heap[..] == h;
    NodesAt(h, len, fc[..], depth[..]);
    if 2 * k > len { NoSons(h, len, fc[..], depth[..], k); }
    Settled(h, len, fc[..], depth[..], k0, k);
  }

  lemma NoSons(h: seq<nat>, len: nat, fc: seq<nat>, depth: seq<nat>, k: nat)
    requires Nodes(h, len, fc, depth) && 1 <= k <= len && 2 * k > len
    ensures AboveSons(h, len, fc, depth, k, h[k])
  {
  }
}
