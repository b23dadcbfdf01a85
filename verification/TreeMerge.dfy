/**
 The first half of build_tree: collecting the used symbols in a heap and combining
 the two least frequent nodes until one is left.
 */
module TreeMerge {
  import opened Bits
  import opened Sums
  import opened Optimal
  import opened PrioQueue
  import opened HuffTree
  import opened Depth

  const HEAP_SIZE := 573   // 2 * L_CODES + 1

  // --- One step of combining, on values ---

  // the root of a heap has the least weight
  lemma {:induction false} RootSmallest(h: seq<nat>, len: nat, fc: seq<nat>, depth: seq<nat>, j: nat)
    requires Nodes(h, len, fc, depth) && HeapFrom(h, len, fc, depth, 1) && 1 <= j <= len
    ensures fc[h[1]] <= fc[h[j]]
    decreases j
  {
    if j >= 2 {
      RootSmallest(h, len, fc, depth, j / 2);
      assert Smaller(fc, depth, h[j / 2], h[j]);
    }
  }

  // the nodes in the heap
  function Active(h: seq<nat>, len: nat): (s: seq<nat>)
    requires len < |h|
    ensures |s| == len
  {
    h[1..len + 1]
  }

  lemma ActiveBelow(h: seq<nat>, len: nat, fc: seq<nat>, depth: seq<nat>)
    requires Nodes(h, len, fc, depth)
    ensures Below(Active(h, len), |fc|)
  {
  }

  lemma RootIsMin(h: seq<nat>, len: nat, fc: seq<nat>, depth: seq<nat>)
    requires Nodes(h, len, fc, depth) && HeapFrom(h, len, fc, depth, 1) && len >= 1
    ensures Below(Active(h, len), |fc|) && IsMin(multiset(Weights(fc, Active(h, len))), fc[h[1]])
  {
    hide HeapFrom;
    ActiveBelow(h, len, fc, depth);
    var w := Weights(fc, Active(h, len));
    assert w[0] == fc[h[1]];
    forall y | y in multiset(w) ensures fc[h[1]] <= y {
      var i :| 0 <= i < |w| && w[i] == y;
      RootSmallest(h, len, fc, depth, i + 1);
    }
  }

  // pqremove: the last node takes the place of the root
  lemma DropRoot(h: seq<nat>, len: nat, fc: seq<nat>, depth: seq<nat>)
    requires Nodes(h, len, fc, depth) && HeapFrom(h, len, fc, depth, 1) && len >= 2
    ensures var h' := h[1 := h[len]];
            && Nodes(h', len - 1, fc, depth) && HeapFrom(h', len - 1, fc, depth, 2)
            && multiset(Active(h, len)) == multiset([h[1]] + Active(h', len - 1))
  {
    var h' := h[1 := h[len]];
    var a := Active(h, len);
    var mid := h[2..len];
    assert a == [h[1]] + mid + [h[len]];
    assert Active(h', len - 1) == [h[len]] + mid;
  }

  // weights of a list with one node in front
  lemma WeightsFront(fc: seq<nat>, x: nat, s: seq<nat>)
    requires x < |fc| && Below(s, |fc|)
    ensures Below([x] + s, |fc|) && multiset(Weights(fc, [x] + s)) == multiset{fc[x]} + multiset(Weights(fc, s))
    ensures SumAt(fc, [x] + s) == fc[x] + SumAt(fc, s)
  {
    assert Weights(fc, [x] + s) == [fc[x]] + Weights(fc, s);
    assert ([x] + s)[1..] == s;
  }

  // combining n and m into node
  lemma Combine(fc: seq<nat>, fc': seq<nat>, h: seq<nat>, n: nat, m: nat, rest: seq<nat>, node: nat)
    requires Below(h, |fc|) && Below(rest, |fc|) && n < |fc| && m < |fc| && node < |fc|
    requires multiset(h) == multiset([n] + ([m] + rest)) && node !in rest
    requires fc' == fc[node := fc[n] + fc[m]]
    requires IsMin(multiset(Weights(fc, h)), fc[n]) && IsMin(multiset(Weights(fc, [m] + rest)), fc[m])
    ensures Below([node] + rest, |fc'|)
    ensures HuffCost(multiset(Weights(fc, h))) == fc[n] + fc[m] + HuffCost(multiset(Weights(fc', [node] + rest)))
    ensures SumAt(fc', [node] + rest) == SumAt(fc, h)
  {
    hide HuffCost, IsMin, Weights, SumAt;
    var a, b := fc[n], fc[m];
    WeightsFront(fc, m, rest);
    WeightsFront(fc, n, [m] + rest);
    WeightsPerm(fc, h, [n] + ([m] + rest));
    SumAtPerm(fc, h, [n] + ([m] + rest));
    WeightsFront(fc', node, rest);
    SameWeights(fc, fc', rest);
    var w := multiset(Weights(fc, h));
    MergedBag(w, multiset(Weights(fc, [m] + rest)), multiset(Weights(fc, rest)), a, b);
    InBoth(w, a, b);
    HuffStep(w, a, b);
  }

  lemma MergedBag(w: multiset<nat>, w1: multiset<nat>, w2: multiset<nat>, a: nat, b: nat)
    requires w == multiset{a} + w1 && w1 == multiset{b} + w2
    ensures a in w && w - multiset{a} == w1 && b in w1
    ensures var c: nat := a + b; Merged(w, a, b) == multiset{c} + w2
  {
  }

  lemma SameWeights(fc: seq<nat>, fc': seq<nat>, s: seq<nat>)
    requires Below(s, |fc|) && |fc'| == |fc| && forall i :: 0 <= i < |s| ==> fc[s[i]] == fc'[s[i]]
    ensures Weights(fc', s) == Weights(fc, s) && SumAt(fc', s) == SumAt(fc, s)
  {
    SumAtSame(fc, fc', s);
    assert Weights(fc', s) == Weights(fc, s);
  }

  // --- The forest ---

  // sons have smaller numbers than their fathers
  ghost predicate Sons(r: seq<nat>, elems: nat) {
    |r| % 2 == 0 && forall q :: 0 <= q < |r| ==> r[q] < elems + q / 2
  }

  // every node is either combined already or in the heap
  ghost predicate Ledger(h: seq<nat>, len: nat, r: seq<nat>, leaves: seq<nat>, elems: nat) {
    && len < |h| && Symbols(leaves, elems)
    && multiset(r) + multiset(Active(h, len)) == NodeBag(leaves, elems, |r| / 2)
  }

  // combined nodes are kept at the upper end of the array, the first ones last
  ghost predicate Tail(h: seq<nat>, r: seq<nat>) {
    |h| == HEAP_SIZE && |r| <= HEAP_SIZE && forall p :: 0 <= p < |r| ==> h[HEAP_SIZE - 1 - p] == r[p]
  }

  ghost predicate Dads(dl: seq<nat>, r: seq<nat>, elems: nat) {
    forall p :: 0 <= p < |r| ==> r[p] < |dl| && dl[r[p]] == elems + p / 2
  }

  lemma ActiveFacts(h: seq<nat>, len: nat, r: seq<nat>, leaves: seq<nat>, elems: nat, x: nat)
    requires Ledger(h, len, r, leaves, elems) && x in Active(h, len)
    ensures x !in r && x < elems + |r| / 2 && multiset(Active(h, len))[x] == 1
  {
    NodeOnce(leaves, elems, |r| / 2, x);
    assert x in multiset(Active(h, len));
    assert x !in multiset(r);
  }

  // the two nodes combined are different and not combined yet, and the new one is new
  lemma CombineFacts(h: seq<nat>, len: nat, r: seq<nat>, leaves: seq<nat>, elems: nat, n: nat, m: nat, rest: seq<nat>)
    requires Ledger(h, len, r, leaves, elems)
    requires multiset(Active(h, len)) == multiset([n] + ([m] + rest))
    ensures n != m && n !in r && m !in r && n < elems + |r| / 2 && m < elems + |r| / 2 && elems + |r| / 2 !in rest
  {
    hide Active;
    var a := Active(h, len);
    var s := [n] + ([m] + rest);
    forall x | x in s ensures x in a {
      assert x in multiset(s);
      assert x in multiset(a);
    }
    assert s[0] == n && s[1] == m;
    ActiveFacts(h, len, r, leaves, elems, n);
    ActiveFacts(h, len, r, leaves, elems, m);
    assert multiset(s) == multiset{n} + (multiset{m} + multiset(rest));
    forall x | x in rest ensures x < elems + |r| / 2 {
      assert x in s;
      ActiveFacts(h, len, r, leaves, elems, x);
    }
  }

  lemma LedgerStep(h: seq<nat>, len: nat, r: seq<nat>, leaves: seq<nat>, elems: nat, n: nat, m: nat, node: nat,
      rest: seq<nat>, h': seq<nat>)
    requires Ledger(h, len, r, leaves, elems) && |r| % 2 == 0 && 2 <= len < |h'| + 1 && node == elems + |r| / 2
    requires multiset(Active(h, len)) == multiset([n, m]) + multiset(rest)
    requires multiset(Active(h', len - 1)) == multiset([node]) + multiset(rest)
    ensures Ledger(h', len - 1, r + [n, m], leaves, elems)
  {
    hide *;
    BagNext(leaves, elems, |r| / 2);
    PairEnd(r, n, m);
    LedgerBags(h, len, r, leaves, elems, multiset([n, m]), multiset([node]), multiset(rest), h', r + [n, m]);
  }

  lemma LedgerBags(h: seq<nat>, len: nat, r: seq<nat>, leaves: seq<nat>, elems: nat, two: multiset<nat>,
      one: multiset<nat>, rest: multiset<nat>, h': seq<nat>, r': seq<nat>)
    requires Ledger(h, len, r, leaves, elems) && 2 <= len < |h'| + 1 && |r'| / 2 == |r| / 2 + 1
    requires multiset(Active(h, len)) == two + rest && multiset(Active(h', len - 1)) == one + rest
    requires multiset(r') == multiset(r) + two
    requires NodeBag(leaves, elems, |r| / 2 + 1) == NodeBag(leaves, elems, |r| / 2) + one
    ensures Ledger(h', len - 1, r', leaves, elems)
  {
    hide *;
    LedgerElim(h, len, r, leaves, elems);
    BagStep(multiset(r), multiset(Active(h, len)), two, one, rest, NodeBag(leaves, elems, |r| / 2),
            multiset(r'), multiset(Active(h', len - 1)), NodeBag(leaves, elems, |r| / 2 + 1));
    NewLedger(h', len - 1, r', leaves, elems, |r| / 2 + 1);
  }

  lemma NewLedger(h: seq<nat>, len: nat, r: seq<nat>, leaves: seq<nat>, elems: nat, k: nat)
    requires len < |h| && Symbols(leaves, elems) && k == |r| / 2
    requires multiset(r) + multiset(Active(h, len)) == NodeBag(leaves, elems, k)
    ensures Ledger(h, len, r, leaves, elems)
  {
  }

  lemma LedgerElim(h: seq<nat>, len: nat, r: seq<nat>, leaves: seq<nat>, elems: nat)
    requires Ledger(h, len, r, leaves, elems)
    ensures len < |h| && Symbols(leaves, elems) &&
        multiset(r) + multiset(Active(h, len)) == NodeBag(leaves, elems, |r| / 2)
  {
  }

  lemma PairEnd(r: seq<nat>, n: nat, m: nat)
    ensures multiset(r + [n, m]) == multiset(r) + multiset([n, m]) && |r + [n, m]| / 2 == |r| / 2 + 1
  {
  }

  lemma PairFront(a: seq<nat>, n: nat, m: nat, rest: seq<nat>)
    requires multiset(a) == multiset([n] + ([m] + rest))
    ensures multiset(a) == multiset([n, m]) + multiset(rest)
  {
    assert [n] + ([m] + rest) == [n, m] + rest;
  }

  lemma OneFront(a: seq<nat>, x: nat, rest: seq<nat>)
    requires multiset(a) == multiset([x] + rest)
    ensures multiset(a) == multiset([x]) + multiset(rest)
  {
  }

  lemma BagStep(r: multiset<nat>, a: multiset<nat>, two: multiset<nat>, one: multiset<nat>, rest: multiset<nat>,
      all: multiset<nat>,
                r': multiset<nat>, a': multiset<nat>, all': multiset<nat>)
    requires r + a == all && a == two + rest
    requires r' == r + two && a' == one + rest && all' == all + one
    ensures r' + a' == all'
  {
  }

  lemma BagNext(leaves: seq<nat>, elems: nat, k: nat)
    ensures NodeBag(leaves, elems, k + 1) == NodeBag(leaves, elems, k) + multiset([elems + k])
  {
    IdsNext(elems, k);
  }

  lemma IdsNext(elems: nat, k: nat)
    ensures multiset(Ids(elems, elems + (k + 1))) == multiset(Ids(elems, elems + k)) + multiset([elems + k])
  {
    assert Ids(elems, elems + (k + 1)) == Ids(elems, elems + k) + [elems + k];
  }

  lemma SonsStep(r: seq<nat>, elems: nat, n: nat, m: nat)
    requires Sons(r, elems) && n < elems + |r| / 2 && m < elems + |r| / 2
    ensures Sons(r + [n, m], elems)
  {
  }

  lemma DadsStep(dl: seq<nat>, r: seq<nat>, elems: nat, n: nat, m: nat)
    requires Dads(dl, r, elems) && |r| % 2 == 0 && n !in r && m !in r && n < |dl| && m < |dl|
    ensures Dads(dl[n := elems + |r| / 2][m := elems + |r| / 2], r + [n, m], elems)
  {
    var r' := r + [n, m];
    var dl' := dl[n := elems + |r| / 2][m := elems + |r| / 2];
    forall p | 0 <= p < |r'| ensures r'[p] < |dl'| && dl'[r'[p]] == elems + p / 2 {
      if p < |r| { assert r[p] in r; }
    }
  }

  lemma WeightedStep(fc: seq<nat>, r: seq<nat>, elems: nat, n: nat, m: nat)
    requires Weighted(fc, r, elems) && Sons(r, elems) && elems + |r| / 2 < |fc|
    requires n < elems + |r| / 2 && m < elems + |r| / 2
    ensures Weighted(fc[elems + |r| / 2 := fc[n] + fc[m]], r + [n, m], elems)
  {
    var fc', r' := fc[elems + |r| / 2 := fc[n] + fc[m]], r + [n, m];
    forall s | 0 <= s < |r'| / 2 ensures fc'[elems + s] == fc'[r'[2 * s]] + fc'[r'[2 * s + 1]] {
      if s < |r| / 2 {
        assert r'[2 * s] == r[2 * s] && r'[2 * s + 1] == r[2 * s + 1];
        assert r[2 * s] < elems + s && r[2 * s + 1] < elems + s;
      }
    }
  }

  lemma InternalSum(fc: seq<nat>, elems: nat, k: nat, v: nat)
    requires elems + k < |fc|
    ensures Sum(fc[elems + k := v][elems..elems + (k + 1)]) == Sum(fc[elems..elems + k]) + v
  {
    var fc' := fc[elems + k := v];
    assert fc'[elems..elems + (k + 1)] == fc[elems..elems + k] + [v];
    SumConcat(fc[elems..elems + k], [v]);
    assert [v][1..] == [];
  }

  // --- The arrays ---

  // a table of ct_data: frequency or code, and father or length
  class Tree {
    const fc: array<nat>
    const dl: array<nat>

    constructor (size: nat)
      ensures fresh(fc) && fresh(dl) && fc != dl && fc.Length == dl.Length == size
    {
      fc := new nat[size](_ => 0);
      dl := new nat[size](_ => 0);
    }
  }

  // the static variables that all three trees share
  class Work {
    const heap: array<nat>
    const depth: array<nat>
    const blCount: array<nat>
    var heapLen: nat
    var heapMax: nat
    var optLen: int
    var staticLen: int

    constructor ()
      ensures fresh(heap) && fresh(depth) && fresh(blCount) && heap != depth && heap != blCount && depth != blCount
      ensures heap.Length == depth.Length == HEAP_SIZE && blCount.Length == 16
      ensures optLen == 0 && staticLen == 0
    {
      heap := new nat[HEAP_SIZE](_ => 0);
      depth := new nat[HEAP_SIZE](_ => 0);
      blCount := new nat[16](_ => 0);
      heapLen, heapMax, optLen, staticLen := 0, 0, 0, 0;
    }
  }

  ghost predicate Apart(ws: Work, tree: Tree)
    reads {}
  {
    && ws.heap.Length == ws.depth.Length == HEAP_SIZE && ws.blCount.Length == 16 &&
        tree.fc.Length == tree.dl.Length <= HEAP_SIZE
    && ws.heap != ws.depth && ws.heap != ws.blCount && ws.depth != ws.blCount && tree.fc != tree.dl
    && tree.fc != ws.heap && tree.fc != ws.depth && tree.fc != ws.blCount
    && tree.dl != ws.heap && tree.dl != ws.depth && tree.dl != ws.blCount
  }

  ghost predicate IsHeap(h: seq<nat>, len: nat, fc: seq<nat>, depth: seq<nat>) {
    Nodes(h, len, fc, depth) && HeapFrom(h, len, fc, depth, 1)
  }

  lemma RearrangedActive(a: seq<nat>, b: seq<nat>, len: nat)
    requires Rearranged(a, b, len)
    ensures |a| == |b| && len < |a| && multiset(Active(b, len)) == multiset(Active(a, len)) &&
        b[len + 1..] == a[len + 1..]
  {
  }

  // pqremove
  method PqRemove(ws: Work, tree: Tree, ghost h: seq<nat>, ghost fc: seq<nat>, ghost depth: seq<nat>) returns (n: nat)
    requires Apart(ws, tree) && ws.heapLen >= 2 && ws.heap[..] == h && tree.fc[..] == fc && ws.depth[..] == depth
    requires IsHeap(h, ws.heapLen, fc, depth)
    modifies ws`heapLen, ws.heap
    ensures ws.heapLen == old(ws.heapLen) - 1 && n == h[1] && tree.fc[..] == fc && ws.depth[..] == depth
    ensures IsHeap(ws.heap[..], ws.heapLen, fc, depth)
    ensures multiset(Active(h, old(ws.heapLen))) == multiset([n] + Active(ws.heap[..], ws.heapLen))
    ensures ws.heap[..][old(ws.heapLen)..] == h[old(ws.heapLen)..]
  {
    hide HeapFrom, Rearranged, Active;
    ghost var len := ws.heapLen;
    DropRoot(h, len, fc, depth);
    NodesAt(h, len, fc, depth);
    n := ws.heap[1];
    ws.heap[1] := ws.heap[ws.heapLen];
    ws.heapLen := ws.heapLen - 1;
    ghost var h1 := h[1 := h[len]];
    assert ws.heap[..] == h1;
    DownHeap(ws.heap, ws.heapLen, tree.fc, ws.depth, 1);
    RearrangedActive(h1, ws.heap[..], ws.heapLen);
    assert multiset([n] + Active(h1, len - 1)) == multiset{n} + multiset(Active(h1, len - 1));
    assert multiset([n] + Active(ws.heap[..], len - 1)) == multiset{n} + multiset(Active(ws.heap[..], len - 1));
    assert h1[len..] == h[len..];
  }

  // a new node at the root: the heap below it is not affected
  lemma NewRoot(h: seq<nat>, len: nat, fc: seq<nat>, depth: seq<nat>, h': seq<nat>, fc': seq<nat>, depth': seq<nat>,
      node: nat)
    requires IsHeap(h, len, fc, depth) && 1 <= len && node < |fc| && |fc'| == |fc| && |depth'| == |depth| && len < |h'|
    requires forall j :: 2 <= j <= len ==> h[j] < node && h'[j] == h[j]
    requires h'[1] == node
    requires forall n :: 0 <= n < node ==> fc'[n] == fc[n] && depth'[n] == depth[n]
    ensures Nodes(h', len, fc', depth') && HeapFrom(h', len, fc', depth', 2)
  {
    forall j | 2 <= j <= len && 2 <= j / 2
        ensures h'[j] < |fc'| && h'[j / 2] < |fc'| && Smaller(fc', depth', h'[j / 2], h'[j]) {
      assert Smaller(fc, depth, h[j / 2], h[j]);
    }
  }

  // the assignments that make node the father of n and of the root of the heap
  method Attach(ws: Work, tree: Tree, n: nat, node: nat, ghost h: seq<nat>, ghost fc: seq<nat>, ghost dl: seq<nat>)
      returns (m: nat)
    requires Apart(ws, tree) && ws.heap[..] == h && tree.fc[..] == fc && tree.dl[..] == dl
    requires 2 < ws.heapMax <= HEAP_SIZE && n < node < tree.fc.Length && h[1] < node && fc[n] + fc[h[1]] < 0x10000
    modifies ws`heapMax, ws.heap, ws.depth, tree.fc, tree.dl
    ensures m == h[1] && ws.heapMax == old(ws.heapMax) - 2
    ensures tree.fc[..] == fc[node := fc[n] + fc[m]] && tree.dl[..] == dl[n := node][m := node]
    ensures ws.heap[..] == h[ws.heapMax + 1 := n][ws.heapMax := m][1 := node]
    ensures forall i :: 0 <= i < HEAP_SIZE && i != node ==> ws.depth[i] == old(ws.depth[i])
  {
    m := ws.heap[1];
    ws.heapMax := ws.heapMax - 1;
    ws.heap[ws.heapMax] := n;
    ws.heapMax := ws.heapMax - 1;
    ws.heap[ws.heapMax] := m;
    tree.fc[node] := (tree.fc[n] + tree.fc[m]) % 0x10000;
    ws.depth[node] := ((if ws.depth[n] >= ws.depth[m] then ws.depth[n] else ws.depth[m]) + 1) % 256;
    tree.dl[n] := node;
    tree.dl[m] := node;
    ws.heap[1] := node;
  }

  // one round of the loop after pqremove
  method Join(ws: Work, tree: Tree, n: nat, node: nat, ghost h: seq<nat>, ghost fc: seq<nat>, ghost dl: seq<nat>,
      ghost depth: seq<nat>, ghost rest: seq<nat>)
    returns (m: nat)
    requires Apart(ws, tree) && ws.heap[..] == h && tree.fc[..] == fc && tree.dl[..] == dl && ws.depth[..] == depth
    requires IsHeap(h, ws.heapLen, fc, depth)
    requires 1 <= ws.heapLen && ws.heapLen + 2 < ws.heapMax <= HEAP_SIZE && n < node < |fc| &&
        fc[n] + fc[h[1]] < 0x10000
    requires (forall j :: 1 <= j <= ws.heapLen ==> h[j] < node) && Active(h, ws.heapLen)[1..] == rest
    modifies ws`heapMax, ws.heap, ws.depth, tree.fc, tree.dl
    ensures m == h[1] && ws.heapMax == old(ws.heapMax) - 2
    ensures tree.fc[..] == fc[node := fc[n] + fc[m]] && tree.dl[..] == dl[n := node][m := node]
    ensures IsHeap(ws.heap[..], ws.heapLen, tree.fc[..], ws.depth[..])
    ensures multiset(Active(ws.heap[..], ws.heapLen)) == multiset([node] + rest)
    ensures ws.heap[..][ws.heapLen + 1..] == h[old(ws.heapMax) - 1 := n][old(ws.heapMax) - 2 := m][ws.heapLen + 1..]
  {
    hide HeapFrom, Rearranged, IsHeap, Nodes, Active;
    ghost var len, max := ws.heapLen, ws.heapMax;
    m := Attach(ws, tree, n, node, h, fc, dl);
    ghost var h2 := ws.heap[..];
    NewRoot(h, len, fc, depth, h2, tree.fc[..], ws.depth[..], node);
    Attached(h, h2, len, max, n, m, node);
    DownHeap(ws.heap, ws.heapLen, tree.fc, ws.depth, 1);
    IsHeapIntro(ws.heap[..], len, tree.fc[..], ws.depth[..]);
    RearrangedActive(h2, ws.heap[..], len);
  }

  lemma Attached(h: seq<nat>, h2: seq<nat>, len: nat, max: nat, n: nat, m: nat, node: nat)
    requires 1 <= len && len + 2 < max <= |h| && h2 == h[max - 1 := n][max - 2 := m][1 := node]
    ensures Active(h2, len) == [node] + Active(h, len)[1..]
    ensures h2[len + 1..] == h[max - 1 := n][max - 2 := m][len + 1..]
  {
  }

  lemma IsHeapIntro(h: seq<nat>, len: nat, fc: seq<nat>, depth: seq<nat>)
    requires Nodes(h, len, fc, depth) && HeapFrom(h, len, fc, depth, 1)
    ensures IsHeap(h, len, fc, depth)
  {
  }

  // --- The loop ---

  ghost predicate Sized(h: seq<nat>, len: nat, max: nat, fc: seq<nat>, dl: seq<nat>, depth: seq<nat>, r: seq<nat>,
      leaves: seq<nat>, elems: nat) {
    && 2 <= |leaves| <= elems <= 286 && |fc| == |dl| == 2 * elems + 1 && |h| == |depth| == HEAP_SIZE
    && 1 <= len && |r| % 2 == 0 && |r| / 2 + len == |leaves| && max == HEAP_SIZE - |r|
  }

  ghost predicate Forest(h: seq<nat>, len: nat, max: nat, fc: seq<nat>, dl: seq<nat>, depth: seq<nat>, r: seq<nat>,
      leaves: seq<nat>, elems: nat) {
    && Sized(h, len, max, fc, dl, depth, r, leaves, elems)
    && Ledger(h, len, r, leaves, elems) && Sons(r, elems) && Tail(h, r) && Dads(dl, r, elems)
    && Weighted(fc, r, elems) && IsHeap(h, len, fc, depth)
  }

  // what has been spent, and what combining the rest will cost
  ghost predicate Priced(h: seq<nat>, len: nat, fc: seq<nat>, r: seq<nat>, elems: nat, cost: nat, total: nat) {
    && len < |h| && elems + |r| / 2 <= |fc| && Below(Active(h, len), |fc|)
    && cost == Sum(fc[elems..elems + |r| / 2]) + HuffCost(multiset(Weights(fc, Active(h, len))))
    && SumAt(fc, Active(h, len)) == total
  }

  // nodes combined already weigh no more than those still in the heap
  ghost predicate Spent(h: seq<nat>, len: nat, fc: seq<nat>, r: seq<nat>) {
    && len < |h| && Rising(fc, r) && Below(Active(h, len), |fc|)
    && forall x, y :: x in r && y in Active(h, len) ==> x < |fc| && y < |fc| && fc[x] <= fc[y]
  }

  // before a round: n goes first, then m
  ghost predicate TopTwo(h: seq<nat>, len: nat, fc: seq<nat>, h1: seq<nat>, n: nat, m: nat, rest: seq<nat>) {
    && 2 <= len < |h| && len - 1 < |h1| && Active(h1, len - 1) == [m] + rest && n < |fc|
    && m < |fc| && Below([m] + rest, |fc|) && Below(Active(h, len), |fc|)
    && multiset(Active(h, len)) == multiset([n] + ([m] + rest))
    && IsMin(multiset(Weights(fc, Active(h, len))), fc[n]) && IsMin(multiset(Weights(fc, [m] + rest)), fc[m])
  }

  lemma TopTwoIntro(h: seq<nat>, len: nat, fc: seq<nat>, depth: seq<nat>, h1: seq<nat>)
    requires IsHeap(h, len, fc, depth) && len >= 2 && IsHeap(h1, len - 1, fc, depth)
    requires multiset(Active(h, len)) == multiset([h[1]] + Active(h1, len - 1))
    ensures TopTwo(h, len, fc, h1, h[1], h1[1], h1[2..len])
  {
    hide HeapFrom, IsMin;
    RootIsMin(h, len, fc, depth);
    RootIsMin(h1, len - 1, fc, depth);
    assert Active(h1, len - 1) == [h1[1]] + h1[2..len];
  }

  // no 16-bit sum wraps around
  lemma NoWrap(h: seq<nat>, len: nat, fc: seq<nat>, h1: seq<nat>, n: nat, m: nat, rest: seq<nat>, total: nat)
    requires TopTwo(h, len, fc, h1, n, m, rest) && SumAt(fc, Active(h, len)) == total
    ensures m < |fc| && fc[n] + fc[m] <= total
  {
    hide IsMin, Weights;
    assert ([m] + rest)[0] == m;
    SumAtPerm(fc, Active(h, len), [n] + ([m] + rest));
    assert ([n] + ([m] + rest))[1..] == [m] + rest && ([m] + rest)[1..] == rest;
  }

  lemma PricedStep(h: seq<nat>, len: nat, fc: seq<nat>, r: seq<nat>, elems: nat, cost: nat, total: nat,
                   h1: seq<nat>, n: nat, m: nat, node: nat, rest: seq<nat>, fc': seq<nat>, h3: seq<nat>)
    requires Priced(h, len, fc, r, elems, cost, total) && TopTwo(h, len, fc, h1, n, m, rest)
    requires |r| % 2 == 0 && node == elems + |r| / 2 < |fc| && node !in rest
    requires fc' == fc[node := fc[n] + fc[m]] && len - 1 < |h3|
    requires multiset(Active(h3, len - 1)) == multiset([node] + rest)
    ensures Priced(h3, len - 1, fc', r + [n, m], elems, cost, total)
  {
    hide IsMin, Weights, HuffCost, Active, Sum, SumAt;
    RestBelow(m, rest, |fc|);
    Combine(fc, fc', Active(h, len), n, m, rest, node);
    PermBelow(Active(h3, len - 1), [node] + rest, |fc'|);
    WeightsPerm(fc', Active(h3, len - 1), [node] + rest);
    SumAtPerm(fc', Active(h3, len - 1), [node] + rest);
    InternalSum(fc, elems, |r| / 2, fc[n] + fc[m]);
    assert |r + [n, m]| / 2 == |r| / 2 + 1;
  }

  lemma LeastOf(fc: seq<nat>, s: seq<nat>, n: nat, y: nat)
    requires Below(s, |fc|) && n < |fc| && IsMin(multiset(Weights(fc, s)), fc[n]) && y in s
    ensures y < |fc| && fc[n] <= fc[y]
  {
    var i :| 0 <= i < |s| && s[i] == y;
    assert Weights(fc, s)[i] == fc[y];
    assert fc[y] in multiset(Weights(fc, s));
  }

  lemma RisingPair(fc: seq<nat>, r: seq<nat>, n: nat, m: nat)
    requires Rising(fc, r) && n < |fc| && m < |fc| && fc[n] <= fc[m] && forall x :: x in r ==>
        x < |fc| && fc[x] <= fc[n]
    ensures Rising(fc, r + [n, m])
  {
    var r' := r + [n, m];
    forall i, j | 0 <= i < j < |r'| ensures fc[r'[i]] <= fc[r'[j]] {
      if i < |r| { assert r[i] in r; }
    }
  }

  lemma RisingSame(fc: seq<nat>, fc': seq<nat>, r: seq<nat>)
    requires Rising(fc, r) && |fc'| == |fc| && forall x :: x in r && x < |fc| ==> fc'[x] == fc[x]
    ensures Rising(fc', r)
  {
    forall i | 0 <= i < |r| ensures fc'[r[i]] == fc[r[i]] { assert r[i] in r; }
  }

  // n and m come out of the heap in order, and every node left weighs at least as much
  lemma OutInOrder(h: seq<nat>, len: nat, fc: seq<nat>, r: seq<nat>, h1: seq<nat>, n: nat, m: nat, rest: seq<nat>)
    requires Spent(h, len, fc, r) && TopTwo(h, len, fc, h1, n, m, rest)
    ensures Rising(fc, r + [n, m])
    ensures forall x, y :: x in r + [n, m] && y in rest ==> x < |fc| && y < |fc| && fc[x] <= fc[y]
    ensures forall x :: x in r + [n, m] ==> x < |fc| && fc[x] <= fc[m]
  {
    hide IsMin, Weights, Active, Rising;
    FirstTwo(h, len, n, m, rest);
    LeastOf(fc, Active(h, len), n, m);
    RisingPair(fc, r, n, m);
    forall y | y in rest ensures y < |fc| && fc[n] <= fc[y] && fc[m] <= fc[y] {
      LeastOf(fc, Active(h, len), n, y);
      assert y in [m] + rest;
      LeastOf(fc, [m] + rest, m, y);
    }
  }

  lemma SpentStep(h: seq<nat>, len: nat, fc: seq<nat>, r: seq<nat>, h1: seq<nat>, n: nat, m: nat, node: nat,
      rest: seq<nat>, fc': seq<nat>, h3: seq<nat>)
    requires Spent(h, len, fc, r) && TopTwo(h, len, fc, h1, n, m, rest) && node < |fc| && node !in r + [n, m] &&
        node !in rest
    requires fc' == fc[node := fc[n] + fc[m]] && len - 1 < |h3| &&
        multiset(Active(h3, len - 1)) == multiset([node] + rest)
    ensures Spent(h3, len - 1, fc', r + [n, m])
  {
    hide IsMin, Weights, Active, Rising;
    OutInOrder(h, len, fc, r, h1, n, m, rest);
    RisingSame(fc, fc', r + [n, m]);
    RestBelow(m, rest, |fc|);
    var s := Active(h3, len - 1);
    PermBelow(s, [node] + rest, |fc'|);
    forall x, y | x in r + [n, m] && y in s ensures x < |fc'| && y < |fc'| && fc'[x] <= fc'[y] {
      assert y in multiset(s);
      assert y in multiset([node] + rest);
    }
  }

  lemma RestBelow(m: nat, rest: seq<nat>, k: nat)
    requires Below([m] + rest, k)
    ensures Below(rest, k)
  {
    forall i | 0 <= i < |rest| ensures rest[i] < k { assert ([m] + rest)[i + 1] == rest[i]; }
  }

  lemma PermBelow(a: seq<nat>, b: seq<nat>, k: nat)
    requires multiset(a) == multiset(b) && Below(b, k)
    ensures Below(a, k)
  {
    forall i | 0 <= i < |a| ensures a[i] < k {
      assert a[i] in multiset(a);
      assert a[i] in multiset(b);
    }
  }

  lemma TailStep(h: seq<nat>, len: nat, r: seq<nat>, n: nat, m: nat, h3: seq<nat>)
    requires Tail(h, r) && |h3| == HEAP_SIZE && |r| + 2 + len < HEAP_SIZE
    requires h3[len + 1..] == h[HEAP_SIZE - |r| - 1 := n][HEAP_SIZE - |r| - 2 := m][len + 1..]
    ensures Tail(h3, r + [n, m])
  {
    var h2 := h[HEAP_SIZE - |r| - 1 := n][HEAP_SIZE - |r| - 2 := m];
    var r' := r + [n, m];
    forall p | 0 <= p < |r'| ensures h3[HEAP_SIZE - 1 - p] == r'[p] {
      var k := HEAP_SIZE - 1 - p;
      assert h3[k] == h3[len + 1..][k - len - 1] && h2[k] == h2[len + 1..][k - len - 1];
    }
  }

  lemma TailSame(h: seq<nat>, h1: seq<nat>, len: nat, r: seq<nat>)
    requires Tail(h, r) && |h1| == HEAP_SIZE && |r| + len <= HEAP_SIZE && h1[len..] == h[len..]
    ensures Tail(h1, r)
  {
    forall p | 0 <= p < |r| ensures h1[HEAP_SIZE - 1 - p] == r[p] {
      var k := HEAP_SIZE - 1 - p;
      assert h1[k] == h1[len..][k - len] && h[k] == h[len..][k - len];
    }
  }

  // one round of the loop keeps all of it
  lemma ForestStep(h: seq<nat>, len: nat, max: nat, fc: seq<nat>, dl: seq<nat>, depth: seq<nat>, r: seq<nat>,
      leaves: seq<nat>, elems: nat,
                   h1: seq<nat>, n: nat, m: nat, node: nat, rest: seq<nat>, h3: seq<nat>, fc': seq<nat>, dl': seq<nat>,
                       depth': seq<nat>)
    requires Forest(h, len, max, fc, dl, depth, r, leaves, elems) && TopTwo(h, len, fc, h1, n, m, rest)
    requires |h1| == |h3| == |depth'| == HEAP_SIZE && h1[len..] == h[len..] && node == elems + |r| / 2
    requires fc' == fc[node := fc[n] + fc[m]] && n < |dl| && m < |dl| && dl' == dl[n := node][m := node]
    requires IsHeap(h3, len - 1, fc', depth')
    requires multiset(Active(h3, len - 1)) == multiset([node] + rest)
    requires h3[len..] == h1[max - 1 := n][max - 2 := m][len..]
    ensures Forest(h3, len - 1, max - 2, fc', dl', depth', r + [n, m], leaves, elems)
  {
    hide IsHeap, Ledger, Sons, Tail, Dads, Weighted, Active, IsMin;
    CombineFacts(h, len, r, leaves, elems, n, m, rest);
    PairFront(Active(h, len), n, m, rest);
    OneFront(Active(h3, len - 1), node, rest);
    LedgerStep(h, len, r, leaves, elems, n, m, node, rest, h3);
    SonsStep(r, elems, n, m);
    DadsStep(dl, r, elems, n, m);
    WeightedStep(fc, r, elems, n, m);
    TailSame(h, h1, len, r);
    TailStep(h1, len - 1, r, n, m, h3);
    assert |r + [n, m]| / 2 == |r| / 2 + 1;
  }

  // fields of symbols that are not used stay as they are
  ghost predicate SameUnused(dl: seq<nat>, dl': seq<nat>, leaves: seq<nat>, elems: nat) {
    |dl'| == |dl| && forall x :: 0 <= x < elems && x < |dl| && x !in leaves ==> dl'[x] == dl[x]
  }

  lemma NodeKind(h: seq<nat>, len: nat, r: seq<nat>, leaves: seq<nat>, elems: nat, x: nat)
    requires Ledger(h, len, r, leaves, elems) && x in Active(h, len) && x < elems
    ensures x in leaves
  {
    assert x in multiset(Active(h, len));
    assert x in NodeBag(leaves, elems, |r| / 2);
    assert x !in Ids(elems, elems + |r| / 2);
  }

  lemma FirstTwo(h: seq<nat>, len: nat, n: nat, m: nat, rest: seq<nat>)
    requires len < |h| && multiset(Active(h, len)) == multiset([n] + ([m] + rest))
    ensures n in Active(h, len) && m in Active(h, len) && forall x :: x in rest ==> x in Active(h, len)
  {
    hide Active;
    var s, a := [n] + ([m] + rest), Active(h, len);
    forall x | x in s ensures x in a {
      assert x in multiset(s);
      assert x in multiset(a);
    }
    assert s[0] == n && s[1] == m;
    forall x | x in rest ensures x in a { assert x in s; }
  }

  lemma UsedSons(h: seq<nat>, len: nat, r: seq<nat>, leaves: seq<nat>, elems: nat, n: nat, m: nat, rest: seq<nat>,
      dl: seq<nat>, node: nat)
    requires Ledger(h, len, r, leaves, elems) && multiset(Active(h, len)) == multiset([n] + ([m] + rest))
    requires n < |dl| && m < |dl|
    ensures SameUnused(dl, dl[n := node][m := node], leaves, elems)
  {
    hide Active;
    FirstTwo(h, len, n, m, rest);
    if n < elems { NodeKind(h, len, r, leaves, elems, n); }
    if m < elems { NodeKind(h, len, r, leaves, elems, m); }
  }

  lemma AllBelow(h: seq<nat>, len: nat, r: seq<nat>, leaves: seq<nat>, elems: nat, n: nat, h1: seq<nat>)
    requires Ledger(h, len, r, leaves, elems) && 1 <= len && len - 1 < |h1|
    requires multiset(Active(h, len)) == multiset([n] + Active(h1, len - 1))
    ensures forall j :: 1 <= j <= len - 1 ==> h1[j] < elems + |r| / 2
  {
    var s := [n] + Active(h1, len - 1);
    forall j | 1 <= j <= len - 1 ensures h1[j] < elems + |r| / 2 {
      assert s[j] == h1[j];
      assert h1[j] in multiset(s);
      assert h1[j] in multiset(Active(h, len));
      ActiveFacts(h, len, r, leaves, elems, h1[j]);
    }
  }

  lemma ActiveRest(h: seq<nat>, len: nat)
    requires 2 <= len <= |h|
    ensures Active(h, len - 1)[1..] == h[2..len]
  {
  }

  // the state of the loop, and the values of the arrays in it
  datatype State = State(h: seq<nat>, len: nat, max: nat, fc: seq<nat>, dl: seq<nat>, depth: seq<nat>)

  ghost predicate Holds(ws: Work, tree: Tree, z: State)
    reads ws, ws.heap, ws.depth, tree.fc, tree.dl
  {
    && ws.heap[..] == z.h && ws.heapLen == z.len && ws.heapMax == z.max
    && tree.fc[..] == z.fc && tree.dl[..] == z.dl && ws.depth[..] == z.depth
  }

  ghost predicate Good(z: State, r: seq<nat>, leaves: seq<nat>, elems: nat, cost: nat, total: nat) {
    && Forest(z.h, z.len, z.max, z.fc, z.dl, z.depth, r, leaves, elems)
    && Priced(z.h, z.len, z.fc, r, elems, cost, total) && total < 0x10000 && Spent(z.h, z.len, z.fc, r)
  }

  // what is known after pqremove
  ghost predicate Between(z: State, h1: seq<nat>, n: nat, r: seq<nat>, leaves: seq<nat>, elems: nat) {
    && 2 <= z.len < |h1| == |z.h| == HEAP_SIZE && IsHeap(h1, z.len - 1, z.fc, z.depth) && h1[z.len..] == z.h[z.len..]
    && TopTwo(z.h, z.len, z.fc, h1, n, h1[1], h1[2..z.len])
    && n < elems + |r| / 2 && elems + |r| / 2 !in h1[2..z.len]
    && (forall j :: 1 <= j <= z.len - 1 ==> h1[j] < elems + |r| / 2)
    && z.fc[n] + z.fc[h1[1]] < 0x10000
  }

  lemma BetweenIntro(z: State, h1: seq<nat>, n: nat, r: seq<nat>, leaves: seq<nat>, elems: nat, cost: nat, total: nat)
    requires Good(z, r, leaves, elems, cost, total) && 2 <= z.len < |h1| == HEAP_SIZE && n == z.h[1]
    requires IsHeap(h1, z.len - 1, z.fc, z.depth) && h1[z.len..] == z.h[z.len..]
    requires multiset(Active(z.h, z.len)) == multiset([n] + Active(h1, z.len - 1))
    ensures Between(z, h1, n, r, leaves, elems)
  {
    hide IsHeap, Ledger, Sons, Tail, Dads, Weighted, Active, IsMin, HuffCost, Weights, SumAt, Sum, Spent, TopTwo;
    var rest := h1[2..z.len];
    TopTwoIntro(z.h, z.len, z.fc, z.depth, h1);
    NoWrap(z.h, z.len, z.fc, h1, n, h1[1], rest, total);
    TopNew(z.h, z.len, z.fc, h1, n, h1[1], rest, r, leaves, elems);
    AllBelow(z.h, z.len, r, leaves, elems, n, h1);
  }

  lemma TopNew(h: seq<nat>, len: nat, fc: seq<nat>, h1: seq<nat>, n: nat, m: nat, rest: seq<nat>, r: seq<nat>,
      leaves: seq<nat>, elems: nat)
    requires TopTwo(h, len, fc, h1, n, m, rest) && Ledger(h, len, r, leaves, elems)
    ensures n < |fc| && n < elems + |r| / 2 && elems + |r| / 2 !in rest
  {
    hide Active, IsMin, Ledger;
    CombineFacts(h, len, r, leaves, elems, n, m, rest);
  }

  lemma BetweenFacts(z: State, h1: seq<nat>, n: nat, r: seq<nat>, leaves: seq<nat>, elems: nat, node: nat)
    requires Between(z, h1, n, r, leaves, elems) && node == elems + |r| / 2
    ensures 2 <= z.len < |h1| && n < node && (forall j :: 1 <= j <= z.len - 1 ==> h1[j] < node)
    ensures IsHeap(h1, z.len - 1, z.fc, z.depth)
    ensures n < |z.fc| && h1[1] < |z.fc| && z.fc[n] + z.fc[h1[1]] < 0x10000
  {
  }

  // what a merge makes of the state
  ghost predicate Joining(z: State, h1: seq<nat>, n: nat, m: nat, node: nat, z': State, r: seq<nat>, elems: nat) {
    && 2 <= z.len < |h1| && node == elems + |r| / 2 < |z.fc| && m == h1[1]
    && m < |z.dl| && n < |z.dl| && m < |z.fc| && n < |z.fc|
    && z'.len == z.len - 1 && 2 <= z.max <= |h1| && z'.max == z.max - 2 && |z'.h| == |z'.depth| == HEAP_SIZE == |h1|
    && z'.fc == z.fc[node := z.fc[n] + z.fc[m]] && z'.dl == z.dl[n := node][m := node]
    && IsHeap(z'.h, z.len - 1, z'.fc, z'.depth)
    && multiset(Active(z'.h, z.len - 1)) == multiset([node] + h1[2..z.len])
    && z'.h[z.len..] == h1[z.max - 1 := n][z.max - 2 := m][z.len..]
  }

  lemma GoodForest(z: State, h1: seq<nat>, n: nat, m: nat, node: nat, z': State, r: seq<nat>, leaves: seq<nat>,
      elems: nat, cost: nat, total: nat)
    requires Good(z, r, leaves, elems, cost, total) && Between(z, h1, n, r, leaves, elems) &&
        Joining(z, h1, n, m, node, z', r, elems)
    ensures Forest(z'.h, z'.len, z'.max, z'.fc, z'.dl, z'.depth, r + [n, m], leaves, elems)
    ensures SameUnused(z.dl, z'.dl, leaves, elems) && node !in r + [n, m] && node !in h1[2..z.len]
  {
    hide IsHeap, Ledger, Sons, Tail, Dads, Weighted, Active, IsMin, Priced, Spent, SameUnused;
    var rest := h1[2..z.len];
    ForestStep(z.h, z.len, z.max, z.fc, z.dl, z.depth, r, leaves, elems, h1, n, m, node, rest, z'.h, z'.fc, z'.dl,
        z'.depth);
    UsedSons(z.h, z.len, r, leaves, elems, n, m, rest, z.dl, node);
    NodeNew(z.h, z.len, r, leaves, elems, n, m, node, rest);
  }

  lemma GoodPrice(z: State, h1: seq<nat>, n: nat, m: nat, node: nat, z': State, r: seq<nat>, leaves: seq<nat>,
      elems: nat, cost: nat, total: nat)
    requires Good(z, r, leaves, elems, cost, total) && Between(z, h1, n, r, leaves, elems) &&
        Joining(z, h1, n, m, node, z', r, elems)
    requires node !in r + [n, m] && node !in h1[2..z.len] && |r| % 2 == 0
    ensures Priced(z'.h, z'.len, z'.fc, r + [n, m], elems, cost, total) && Spent(z'.h, z'.len, z'.fc, r + [n, m])
  {
    hide IsHeap, Forest, Active, IsMin, HuffCost, Weights, SumAt, Sum, Priced, Spent;
    var rest := h1[2..z.len];
    PricedStep(z.h, z.len, z.fc, r, elems, cost, total, h1, n, m, node, rest, z'.fc, z'.h);
    SpentStep(z.h, z.len, z.fc, r, h1, n, m, node, rest, z'.fc, z'.h);
  }

  lemma GoodStep(z: State, h1: seq<nat>, n: nat, m: nat, node: nat, z': State, r: seq<nat>, leaves: seq<nat>,
      elems: nat, cost: nat, total: nat)
    requires Good(z, r, leaves, elems, cost, total) && Between(z, h1, n, r, leaves, elems) &&
        Joining(z, h1, n, m, node, z', r, elems)
    ensures Good(z', r + [n, m], leaves, elems, cost, total)
    ensures SameUnused(z.dl, z'.dl, leaves, elems)
  {
    hide Forest, Priced, Spent, SameUnused, Between, Joining;
    GoodSizes(z, r, leaves, elems, cost, total);
    GoodForest(z, h1, n, m, node, z', r, leaves, elems, cost, total);
    JoiningSize(z, h1, n, m, node, z', r, elems);
    GoodPrice(z, h1, n, m, node, z', r, leaves, elems, cost, total);
  }

  lemma JoiningIntro(z: State, h1: seq<nat>, n: nat, m: nat, node: nat, z': State, r: seq<nat>, elems: nat)
    requires 2 <= z.len < |h1| == HEAP_SIZE && n < node < |z.fc| == |z.dl| && node == elems + |r| / 2
    requires m == h1[1] && m < |z.fc| && 2 <= z.max <= HEAP_SIZE && |z'.h| == |z'.depth| == HEAP_SIZE
    requires z'.len == z.len - 1 && z'.max == z.max - 2
    requires z'.fc == z.fc[node := z.fc[n] + z.fc[m]] && z'.dl == z.dl[n := node][m := node]
    requires IsHeap(z'.h, z'.len, z'.fc, z'.depth)
    requires multiset(Active(z'.h, z'.len)) == multiset([node] + h1[2..z.len])
    requires z'.h[z.len..] == h1[z.max - 1 := n][z.max - 2 := m][z.len..]
    ensures Joining(z, h1, n, m, node, z', r, elems)
  {
  }

  lemma JoiningSize(z: State, h1: seq<nat>, n: nat, m: nat, node: nat, z': State, r: seq<nat>, elems: nat)
    requires Joining(z, h1, n, m, node, z', r, elems)
    ensures z.len <= |h1|
  {
  }

  lemma NodeNew(h: seq<nat>, len: nat, r: seq<nat>, leaves: seq<nat>, elems: nat, n: nat, m: nat, node: nat,
      rest: seq<nat>)
    requires Ledger(h, len, r, leaves, elems) && Sons(r, elems) && node == elems + |r| / 2
    requires multiset(Active(h, len)) == multiset([n] + ([m] + rest))
    ensures node !in r + [n, m] && node !in rest
  {
    hide Active, Ledger;
    CombineFacts(h, len, r, leaves, elems, n, m, rest);
  }

  lemma GoodSizes(z: State, r: seq<nat>, leaves: seq<nat>, elems: nat, cost: nat, total: nat)
    requires Good(z, r, leaves, elems, cost, total)
    ensures |z.h| == |z.depth| == HEAP_SIZE && |z.fc| == |z.dl| == 2 * elems + 1 && 1 <= z.len && |r| % 2 == 0
    ensures z.max == HEAP_SIZE - |r| && |r| / 2 + z.len == |leaves| && 2 <= |leaves| <= elems <= 286
    ensures IsHeap(z.h, z.len, z.fc, z.depth)
  {
  }

  // the second half: n has been removed, and h1 is the heap after that
  method JoinLeast(ws: Work, tree: Tree, n: nat, node: nat, ghost h1: seq<nat>, ghost z: State, ghost r: seq<nat>,
      ghost leaves: seq<nat>, ghost elems: nat, ghost cost: nat, ghost total: nat)
    returns (ghost z': State, ghost r': seq<nat>)
    requires Apart(ws, tree) && ws.heap[..] == h1 && ws.heapLen == z.len - 1 && ws.heapMax == z.max
    requires tree.fc[..] == z.fc && tree.dl[..] == z.dl && ws.depth[..] == z.depth && node == elems + |r| / 2
    requires Good(z, r, leaves, elems, cost, total) && Between(z, h1, n, r, leaves, elems)
    modifies ws`heapMax, ws.heap, ws.depth, tree.fc, tree.dl
    ensures Holds(ws, tree, z') && z'.len == z.len - 1 && |r'| == |r| + 2
    ensures Good(z', r', leaves, elems, cost, total)
    ensures z'.fc[..elems] == z.fc[..elems] && SameUnused(z.dl, z'.dl, leaves, elems)
  {
    hide IsHeap, Good, Active, SameUnused, Between, Joining;
    GoodSizes(z, r, leaves, elems, cost, total);
    BetweenFacts(z, h1, n, r, leaves, elems, node);
    ActiveRest(h1, z.len);
    var m := Join(ws, tree, n, node, h1, z.fc, z.dl, z.depth, h1[2..z.len]);
    z' := State(ws.heap[..], ws.heapLen, ws.heapMax, tree.fc[..], tree.dl[..], ws.depth[..]);
    r' := r + [n, m];
    JoiningIntro(z, h1, n, m, node, z', r, elems);
    GoodStep(z, h1, n, m, node, z', r, leaves, elems, cost, total);
    GoodSizes(z', r', leaves, elems, cost, total);
  }

  // the two least frequent nodes become the sons of node
  method Round(ws: Work, tree: Tree, node: nat, ghost z: State, ghost r: seq<nat>, ghost leaves: seq<nat>,
      ghost elems: nat, ghost cost: nat, ghost total: nat)
    returns (ghost z': State, ghost r': seq<nat>)
    requires Apart(ws, tree) && Holds(ws, tree, z) && z.len >= 2 && node == elems + |r| / 2
    requires Good(z, r, leaves, elems, cost, total)
    modifies ws`heapLen, ws`heapMax, ws.heap, ws.depth, tree.fc, tree.dl
    ensures Holds(ws, tree, z') && z'.len == z.len - 1 && |r'| == |r| + 2
    ensures Good(z', r', leaves, elems, cost, total)
    ensures z'.fc[..elems] == z.fc[..elems] && SameUnused(z.dl, z'.dl, leaves, elems)
  {
    hide IsHeap, Good, Active, SameUnused, Between;
    GoodSizes(z, r, leaves, elems, cost, total);
    var n := PqRemove(ws, tree, z.h, z.fc, z.depth);
    ghost var h1 := ws.heap[..];
    BetweenIntro(z, h1, n, r, leaves, elems, cost, total);
    z', r' := JoinLeast(ws, tree, n, node, h1, z, r, leaves, elems, cost, total);
  }
}
