/**
 build_tree up to the finished Huffman tree: collecting the used symbols, forcing
 two of them, making a heap of them and combining nodes until one is left.
 */
module TreeBuild {
  import opened Bits
  import opened Sums
  import opened Optimal
  import opened PrioQueue
  import opened HuffTree
  import opened Depth
  import opened TreeMerge

  // --- The used symbols ---

  // the symbols below n of nonzero frequency
  function Used(fc: seq<nat>, n: nat): (s: seq<nat>)
    requires n <= |fc|
    ensures |s| <= n
  {
    if n == 0 then [] else if fc[n - 1] != 0 then Used(fc, n - 1) + [n - 1] else Used(fc, n - 1)
  }

  lemma {:induction false} UsedIn(fc: seq<nat>, n: nat, x: nat)
    requires n <= |fc|
    ensures x in Used(fc, n) <==> x < n && fc[x] != 0
  {
    if n > 0 { UsedIn(fc, n - 1, x); }
  }

  lemma {:induction false} UsedSymbols(fc: seq<nat>, n: nat)
    requires n <= |fc|
    ensures Symbols(Used(fc, n), n)
  {
    if n > 0 { UsedSymbols(fc, n - 1); }
  }

  lemma {:induction false} UsedSame(fc: seq<nat>, fc': seq<nat>, n: nat)
    requires n <= |fc| && n <= |fc'| && fc[..n] == fc'[..n]
    ensures Used(fc, n) == Used(fc', n)
  {
    if n > 0 {
      assert fc[n - 1] == fc[..n][n - 1] == fc'[..n][n - 1] == fc'[n - 1];
      assert fc[..n - 1] == fc[..n][..n - 1] && fc'[..n - 1] == fc'[..n][..n - 1];
      UsedSame(fc, fc', n - 1);
    }
  }

  // using one more symbol
  lemma {:induction false} UsedPut(fc: seq<nat>, n: nat, x: nat, v: nat)
    requires x < n <= |fc| && fc[x] == 0 && v != 0
    ensures multiset(Used(fc[x := v], n)) == multiset(Used(fc, n)) + multiset{x}
    ensures |Used(fc[x := v], n)| == |Used(fc, n)| + 1
  {
    hide Used;
    var fc' := fc[x := v];
    UsedStep(fc, n);
    UsedStep(fc', n);
    if x == n - 1 {
      assert fc'[..n - 1] == fc[..n - 1];
      UsedSame(fc, fc', n - 1);
      BagSnoc(Used(fc, n - 1), x);
    } else {
      UsedPut(fc, n - 1, x, v);
      BagSnoc(Used(fc, n - 1), n - 1);
      BagSnoc(Used(fc', n - 1), n - 1);
      BagSwap(multiset(Used(fc, n - 1)), multiset(Used(fc', n - 1)), x, n - 1);
    }
    BagSize(Used(fc', n), Used(fc, n), x);
  }

  lemma BagSize(a: seq<nat>, b: seq<nat>, x: nat)
    requires multiset(a) == multiset(b) + multiset{x}
    ensures |a| == |b| + 1
  {
    assert |multiset(a)| == |a| && |multiset(b)| == |b|;
  }

  lemma UsedStep(fc: seq<nat>, n: nat)
    requires 1 <= n <= |fc|
    ensures Used(fc, n) == if fc[n - 1] != 0 then Used(fc, n - 1) + [n - 1] else Used(fc, n - 1)
  {
  }

  lemma BagSwap(a: multiset<nat>, b: multiset<nat>, x: nat, y: nat)
    requires b == a + multiset{x}
    ensures b + multiset{y} == (a + multiset{y}) + multiset{x}
  {
  }

  lemma BagSnoc(s: seq<nat>, x: nat)
    ensures multiset(s + [x]) == multiset(s) + multiset{x}
  {
  }

  // the largest used symbol, or -1
  ghost predicate MaxUsed(fc: seq<nat>, n: nat, max: int)
    requires n <= |fc|
  {
    && -1 <= max < n && (max >= 0 ==> fc[max] != 0)
    && forall x :: 0 <= x < n && x > max ==> fc[x] == 0
  }

  method Collect(ws: Work, tree: Tree, elems: nat, ghost fc: seq<nat>) returns (maxCode: int)
    requires Apart(ws, tree) && elems <= 286 && elems < tree.fc.Length && tree.fc[..] == fc
    modifies ws`heapLen, ws.heap, ws.depth, tree.dl
    ensures tree.fc[..] == fc && ws.heapLen == |Used(fc, elems)| && Active(ws.heap[..], ws.heapLen) == Used(fc, elems)
    ensures MaxUsed(fc, elems, maxCode)
    ensures forall x :: 0 <= x < elems && fc[x] == 0 ==> tree.dl[x] == 0
  {
    hide Active;
    ws.heapLen, maxCode := 0, -1;
    var n := 0;
    ActiveNone(ws.heap[..]);
    while n < elems
      invariant n <= elems && tree.fc[..] == fc && ws.heapLen == |Used(fc, n)|
      invariant Active(ws.heap[..], ws.heapLen) == Used(fc, n)
      invariant MaxUsed(fc, n, maxCode)
      invariant forall x :: 0 <= x < n && fc[x] == 0 ==> tree.dl[x] == 0
    {
      assert tree.fc[n] == fc[n];
      if tree.fc[n] != 0 {
        ActiveSnoc(ws.heap[..], ws.heapLen, n);
        ws.heapLen := ws.heapLen + 1;
        ws.heap[ws.heapLen] := n;
        maxCode := n;
        ws.depth[n] := 0;
      } else {
        tree.dl[n] := 0;
      }
      n := n + 1;
    }
  }

  lemma ActiveNone(h: seq<nat>)
    requires |h| > 0
    ensures Active(h, 0) == []
  {
  }

  lemma ActiveSnoc(h: seq<nat>, len: nat, x: nat)
    requires len + 1 < |h|
    ensures Active(h[len + 1 := x], len + 1) == Active(h, len) + [x]
  {
  }

  // --- At least two symbols ---

  // extra bits, first symbol that has any, number of symbols, longest code, and the code
  // lengths of the corresponding static tree if there is one
  datatype Desc = Desc(extra: seq<nat>, base: nat, elems: nat, maxLength: nat, stat: seq<nat>)

  // fc' is fc with the symbols in f used once
  ghost predicate ForcedBy(fc: seq<nat>, fc': seq<nat>, f: seq<nat>)
    decreases |f|
  {
    if f == [] then fc' == fc
    else f[0] < |fc| && f[0] < 3 && fc[f[0]] == 0 && ForcedBy(fc[f[0] := 1], fc', f[1..])
  }

  lemma {:induction false} ForcedSnoc(fc: seq<nat>, fc': seq<nat>, f: seq<nat>, x: nat)
    requires ForcedBy(fc, fc', f) && x < |fc'| && x < 3 && fc'[x] == 0
    ensures |fc'| == |fc| && ForcedBy(fc, fc'[x := 1], f + [x])
    decreases |f|
  {
    if f == [] {
      assert f + [x] == [x] && [x][1..] == [];
    } else {
      ForcedSnoc(fc[f[0] := 1], fc', f[1..], x);
      assert (f + [x])[1..] == f[1..] + [x];
    }
  }

  // with at most one symbol in use, the one chosen is not in use
  lemma FreeSymbol(fc: seq<nat>, n: nat, max: int, x: nat)
    requires 3 <= n <= |fc| && MaxUsed(fc, n, max) && |Used(fc, n)| < 2
    requires x == if max < 2 then max + 1 else 0
    ensures fc[x] == 0 && x < 3
    ensures MaxUsed(fc[x := 1], n, if max < 2 then max + 1 else max)
  {
    if max >= 2 {
      UsedIn(fc, n, max);
      UsedIn(fc, n, 0);
      if fc[0] != 0 { TwoUsed(Used(fc, n), 0, max); }
    }
  }

  lemma TwoUsed(s: seq<nat>, x: nat, y: nat)
    requires x in s && y in s && x != y
    ensures |s| >= 2
  {
    var i :| 0 <= i < |s| && s[i] == x;
    var j :| 0 <= j < |s| && s[j] == y;
  }

  // force at least two codes of nonzero frequency
  method Force(ws: Work, tree: Tree, desc: Desc, max0: int, ghost fc: seq<nat>)
      returns (maxCode: int, ghost fc': seq<nat>, ghost f: seq<nat>)
    requires Apart(ws, tree) && 3 <= desc.elems <= 286 && desc.elems < |fc| && tree.fc[..] == fc
    requires desc.stat == [] || |desc.stat| >= desc.elems
    requires ws.heapLen == |Used(fc, desc.elems)| && Active(ws.heap[..], ws.heapLen) == Used(fc, desc.elems)
    requires MaxUsed(fc, desc.elems, max0)
    modifies ws`heapLen, ws`optLen, ws`staticLen, ws.heap, ws.depth, tree.fc
    ensures tree.fc[..] == fc' && |fc'| == |fc| && ForcedBy(fc, fc', f) && forall i :: 0 <= i < |f| ==> f[i] < 3
    ensures |f| == (if |Used(fc, desc.elems)| < 2 then 2 - |Used(fc, desc.elems)| else 0)
    ensures ws.heapLen == |Used(fc', desc.elems)| >= 2
    ensures multiset(Active(ws.heap[..], ws.heapLen)) == multiset(Used(fc', desc.elems))
    ensures MaxUsed(fc', desc.elems, maxCode)
    ensures ws.optLen == old(ws.optLen) - |f|
    ensures ws.staticLen == old(ws.staticLen) - (if desc.stat != [] then StatSum(desc.stat, f) else 0)
    ensures |Used(fc, desc.elems)| == 1 ==> f == [if max0 < 2 then max0 + 1 else 0]
  {
    hide Active, Used;
    ghost var n := desc.elems;
    maxCode, fc', f := max0, fc, [];
    while ws.heapLen < 2
      invariant tree.fc[..] == fc' && |fc'| == |fc| && ForcedBy(fc, fc', f)
      invariant |f| + |Used(fc, n)| == |Used(fc', n)| == ws.heapLen && |f| <= 2
      invariant f != [] ==> |Used(fc', n)| <= 2
      invariant |Used(fc, n)| == 1 ==> if f == [] then maxCode == max0 else f == [if max0 < 2 then max0 + 1 else 0]
      invariant multiset(Active(ws.heap[..], ws.heapLen)) == multiset(Used(fc', n))
      invariant MaxUsed(fc', n, maxCode)
      invariant forall i :: 0 <= i < |f| ==> f[i] < 3
      invariant ws.optLen == old(ws.optLen) - |f|
      invariant ws.staticLen == old(ws.staticLen) - (if desc.stat != [] then StatSum(desc.stat, f) else 0)
      decreases 2 - ws.heapLen
    {
      var x;
      maxCode, x := ForceOne(ws, tree, desc, maxCode, fc');
      ForcedSnoc(fc, fc', f, x);
      if desc.stat != [] { StatSnoc(desc.stat, f, x); }
      fc', f := fc'[x := 1], f + [x];
    }
  }

  // one symbol more: after the last one if that is below 2, or else 0
  method ForceOne(ws: Work, tree: Tree, desc: Desc, max0: int, ghost fc: seq<nat>) returns (maxCode: int, x: nat)
    requires Apart(ws, tree) && 3 <= desc.elems <= 286 && desc.elems < |fc| && tree.fc[..] == fc
    requires desc.stat == [] || |desc.stat| >= desc.elems
    requires ws.heapLen == |Used(fc, desc.elems)| < 2 && MaxUsed(fc, desc.elems, max0)
    requires multiset(Active(ws.heap[..], ws.heapLen)) == multiset(Used(fc, desc.elems))
    modifies ws`heapLen, ws`optLen, ws`staticLen, ws.heap, ws.depth, tree.fc
    ensures x == (if max0 < 2 then max0 + 1 else 0) && x < 3 && fc[x] == 0 && tree.fc[..] == fc[x := 1]
    ensures ws.heapLen == old(ws.heapLen) + 1 == |Used(fc[x := 1], desc.elems)|
    ensures multiset(Active(ws.heap[..], ws.heapLen)) == multiset(Used(fc[x := 1], desc.elems))
    ensures MaxUsed(fc[x := 1], desc.elems, maxCode)
    ensures ws.optLen == old(ws.optLen) - 1
    ensures ws.staticLen == old(ws.staticLen) - if desc.stat != [] then desc.stat[x] else 0
  {
    hide Active, Used;
    x := if max0 < 2 then max0 + 1 else 0;
    FreeSymbol(fc, desc.elems, max0, x);
    UsedPut(fc, desc.elems, x, 1);
    ActiveSnoc(ws.heap[..], ws.heapLen, x);
    BagSnoc(Active(ws.heap[..], ws.heapLen), x);
    maxCode := if max0 < 2 then max0 + 1 else max0;
    ws.heapLen := ws.heapLen + 1;
    ws.heap[ws.heapLen] := x;
    tree.fc[x] := 1;
    ws.depth[x] := 0;
    ws.optLen := ws.optLen - 1;
    if desc.stat != [] { ws.staticLen := ws.staticLen - desc.stat[x]; }
  }

  // the static lengths of the forced symbols
  ghost function StatSum(stat: seq<nat>, f: seq<nat>): (r: nat)
    requires |stat| >= 3 && forall i :: 0 <= i < |f| ==> f[i] < 3
  {
    if f == [] then 0 else stat[f[0]] + StatSum(stat, f[1..])
  }

  lemma {:induction false} StatSnoc(stat: seq<nat>, f: seq<nat>, x: nat)
    requires |stat| >= 3 && x < 3 && forall i :: 0 <= i < |f| ==> f[i] < 3
    ensures StatSum(stat, f + [x]) == StatSum(stat, f) + stat[x]
    decreases |f|
  {
    if f == [] {
      assert f + [x] == [x] && [x][1..] == [];
    } else {
      StatSnoc(stat, f[1..], x);
      assert (f + [x])[1..] == f[1..] + [x];
    }
  }

  // --- The heap ---

  lemma LeavesOfHeap(h: seq<nat>, len: nat, fc: seq<nat>, depth: seq<nat>)
    requires Nodes(h, len, fc, depth)
    ensures HeapFrom(h, len, fc, depth, len / 2 + 1)
  {
  }

  method Heapify(ws: Work, tree: Tree)
    requires Apart(ws, tree) && Nodes(ws.heap[..], ws.heapLen, tree.fc[..], ws.depth[..])
    modifies ws.heap
    ensures Rearranged(old(ws.heap[..]), ws.heap[..], ws.heapLen) &&
        IsHeap(ws.heap[..], ws.heapLen, tree.fc[..], ws.depth[..])
  {
    hide HeapFrom, Rearranged, Nodes;
    ghost var h0, len := ws.heap[..], ws.heapLen;
    LeavesOfHeap(h0, len, tree.fc[..], ws.depth[..]);
    SameArrangement(h0, len, tree.fc[..], ws.depth[..]);
    var n: nat := ws.heapLen / 2;
    while n >= 1
      invariant n <= len / 2 && Nodes(ws.heap[..], len, tree.fc[..], ws.depth[..])
      invariant Rearranged(h0, ws.heap[..], len) && HeapFrom(ws.heap[..], len, tree.fc[..], ws.depth[..], n + 1)
    {
      ghost var h := ws.heap[..];
      DownHeap(ws.heap, ws.heapLen, tree.fc, ws.depth, n);
      RearrangedTwice(h0, h, ws.heap[..], len);
      n := n - 1;
    }
  }

  lemma SameArrangement(h: seq<nat>, len: nat, fc: seq<nat>, depth: seq<nat>)
    requires Nodes(h, len, fc, depth)
    ensures Rearranged(h, h, len)
  {
  }

  lemma RearrangedTwice(a: seq<nat>, b: seq<nat>, c: seq<nat>, len: nat)
    requires Rearranged(a, b, len) && Rearranged(b, c, len)
    ensures Rearranged(a, c, len)
  {
  }

  lemma {:induction false} UsedSum(fc: seq<nat>, n: nat)
    requires n <= |fc|
    ensures Below(Used(fc, n), |fc|) && SumAt(fc, Used(fc, n)) == Sum(fc[..n])
  {
    if n > 0 {
      UsedSum(fc, n - 1);
      assert fc[..n] == fc[..n - 1] + [fc[n - 1]];
      SumConcat(fc[..n - 1], [fc[n - 1]]);
      assert [fc[n - 1]][1..] == [];
      if fc[n - 1] != 0 { SumAtSnoc(fc, Used(fc, n - 1), n - 1); }
    }
  }

  // every used symbol is a tree of its own
  lemma ForestStart(z: State, leaves: seq<nat>, elems: nat, total: nat)
    requires 2 <= |leaves| <= elems <= 286 && |z.fc| == |z.dl| == 2 * elems + 1 && |z.h| == |z.depth| == HEAP_SIZE
    requires z.len == |leaves| && z.max == HEAP_SIZE && IsHeap(z.h, z.len, z.fc, z.depth)
    requires Symbols(leaves, elems) && multiset(Active(z.h, z.len)) == multiset(leaves)
    requires Below(leaves, |z.fc|) && SumAt(z.fc, leaves) == total < 0x10000
    ensures Good(z, [], leaves, elems, HuffCost(multiset(Weights(z.fc, leaves))), total)
  {
    hide IsHeap, HuffCost, SumAt;
    PermBelow(Active(z.h, z.len), leaves, |z.fc|);
    WeightsPerm(z.fc, Active(z.h, z.len), leaves);
    SumAtPerm(z.fc, Active(z.h, z.len), leaves);
    assert Ids(elems, elems + 0) == [];
    assert z.fc[elems..elems + 0] == [];
  }

  // the loop
  method MergeAll(ws: Work, tree: Tree, ghost z0: State, ghost leaves: seq<nat>, elems: nat, ghost cost: nat,
      ghost total: nat)
    returns (ghost z: State, ghost r: seq<nat>)
    requires Apart(ws, tree) && Holds(ws, tree, z0) && Good(z0, [], leaves, elems, cost, total)
    modifies ws`heapLen, ws`heapMax, ws.heap, ws.depth, tree.fc, tree.dl
    ensures Holds(ws, tree, z) && Good(z, r, leaves, elems, cost, total) && z.len == 1
    ensures z.fc[..elems] == z0.fc[..elems] && SameUnused(z0.dl, z.dl, leaves, elems)
  {
    hide Good, SameUnused;
    z, r := z0, [];
    GoodSizes(z, r, leaves, elems, cost, total);
    SameStart(z.dl, leaves, elems);
    var node := elems;
    while ws.heapLen >= 2
      invariant Holds(ws, tree, z) && Good(z, r, leaves, elems, cost, total) && node == elems + |r| / 2
      invariant |z.fc| == |z0.fc| == 2 * elems + 1 && 1 <= z.len && |r| % 2 == 0
      invariant z.fc[..elems] == z0.fc[..elems] && SameUnused(z0.dl, z.dl, leaves, elems)
      decreases ws.heapLen
    {
      ghost var dl := z.dl;
      z, r := Round(ws, tree, node, z, r, leaves, elems, cost, total);
      GoodSizes(z, r, leaves, elems, cost, total);
      SameTwice(z0.dl, dl, z.dl, leaves, elems);
      node := node + 1;
    }
  }

  lemma SameStart(dl: seq<nat>, leaves: seq<nat>, elems: nat)
    ensures SameUnused(dl, dl, leaves, elems)
  {
  }

  lemma SameTwice(a: seq<nat>, b: seq<nat>, c: seq<nat>, leaves: seq<nat>, elems: nat)
    requires SameUnused(a, b, leaves, elems) && SameUnused(b, c, leaves, elems)
    ensures SameUnused(a, c, leaves, elems)
  {
  }

  // the finished tree: the root in front of its descendants, and what all of it costs
  ghost predicate Built(h: seq<nat>, max: nat, fc: seq<nat>, dl: seq<nat>, r: seq<nat>, leaves: seq<nat>, elems: nat) {
    && Shaped(r, leaves, elems) && Weighted(fc, r, elems) && Dads(dl, r, elems) && Tail(h, r)
    && |r| == 2 * |leaves| - 2 && |fc| == |dl| == 2 * elems + 1 && elems <= 286
    && |r| < HEAP_SIZE && max == HEAP_SIZE - |r| - 1 && h[max] == Root(r, elems)
  }

  lemma LastIsRoot(h: seq<nat>, r: seq<nat>, leaves: seq<nat>, elems: nat)
    requires Ledger(h, 1, r, leaves, elems) && Sons(r, elems) && |r| >= 2
    ensures h[1] == Root(r, elems) && Shaped(r, leaves, elems)
  {
    var root := Root(r, elems);
    assert Active(h, 1) == [h[1]];
    assert Ids(elems, elems + |r| / 2)[|r| / 2 - 1] == root;
    assert root in NodeBag(leaves, elems, |r| / 2);
    assert root !in r;
    assert root !in multiset(r);
    assert root in multiset([h[1]]);
    assert root in [h[1]];
  }

  // nodes were combined in the order of their weight, and the root weighs total
  ghost predicate InOrder(fc: seq<nat>, r: seq<nat>, elems: nat, total: nat) {
    Rising(fc, r) && |r| >= 2 && Root(r, elems) < |fc| && fc[Root(r, elems)] == total
  }

  lemma BuiltIntro(z: State, r: seq<nat>, leaves: seq<nat>, elems: nat, cost: nat, total: nat, h: seq<nat>, max: nat)
    requires Good(z, r, leaves, elems, cost, total) && z.len == 1 && max == z.max - 1
    requires h == z.h[max := z.h[1]]
    ensures Built(h, max, z.fc, z.dl, r, leaves, elems) && cost == Sum(z.fc[elems..elems + |r| / 2]) &&
        InOrder(z.fc, r, elems, total)
  {
    hide Ledger, Sons, Dads, Weighted, IsHeap, Weights, Sum, HuffCost, SumAt, Shaped, Rising;
    LastIsRoot(z.h, r, leaves, elems);
    FewCost(multiset(Weights(z.fc, Active(z.h, 1))));
    OnlyRoot(z.fc, z.h, total);
  }

  lemma OnlyRoot(fc: seq<nat>, h: seq<nat>, total: nat)
    requires 1 < |h| && Below(Active(h, 1), |fc|) && SumAt(fc, Active(h, 1)) == total
    ensures h[1] < |fc| && fc[h[1]] == total
  {
    var s := Active(h, 1);
    assert s[0] == h[1] && s[1..] == [];
  }

  lemma {:induction false} ForcedSum(fc: seq<nat>, fc': seq<nat>, f: seq<nat>, n: nat)
    requires ForcedBy(fc, fc', f) && 3 <= n <= |fc|
    ensures |fc'| == |fc| && Sum(fc'[..n]) == Sum(fc[..n]) + |f| && fc'[n..] == fc[n..]
    decreases |f|
  {
    if f != [] {
      var x := f[0];
      ForcedSum(fc[x := 1], fc', f[1..], n);
      assert fc[x := 1][..n] == fc[..n][x := 1];
      SumPut(fc[..n], x, 1);
      assert fc[x := 1][n..] == fc[n..];
    }
  }

  // the first three symbols have no extra bits
  ghost predicate DescOk(desc: Desc) {
    && 3 <= desc.elems <= 286 && (desc.stat == [] || |desc.stat| >= desc.elems)
    && desc.base + |desc.extra| >= desc.elems && 1 <= desc.maxLength <= 15 && desc.elems <= Pow2(desc.maxLength)
    && forall i :: 0 <= i < |desc.extra| && desc.base + i < 3 ==> desc.extra[i] == 0
  }

  // what the first half of build_tree makes of the frequencies fc
  ghost predicate Made(h: seq<nat>, max: nat, fc': seq<nat>, dl: seq<nat>, desc: Desc, maxCode: int, fc: seq<nat>,
      fc1: seq<nat>, f: seq<nat>, r: seq<nat>)
    requires DescOk(desc)
  {
    var n := desc.elems;
    && |fc| == |fc1| == |fc'| == 2 * n + 1 && ForcedBy(fc, fc1, f) && fc'[..n] == fc1[..n]
    && |f| == (if |Used(fc, n)| < 2 then 2 - |Used(fc, n)| else 0)
    && MaxUsed(fc1, n, maxCode) && |Used(fc1, n)| >= 2
    && Built(h, max, fc', dl, r, Used(fc1, n), n)
    && Below(Used(fc1, n), |fc1|)
    && HuffCost(multiset(Weights(fc1, Used(fc1, n)))) == Sum(fc'[n..n + |r| / 2])
    && InOrder(fc', r, n, Sum(fc1[..n]))
    && |dl| >= n && forall x :: 0 <= x < n && fc1[x] == 0 ==> dl[x] == 0
  }

  // what is left to combine
  ghost predicate Prepared(z: State, desc: Desc, maxCode: int, fc: seq<nat>, fc1: seq<nat>, f: seq<nat>)
    requires DescOk(desc)
  {
    var n := desc.elems;
    && |fc| == |fc1| == 2 * n + 1 && z.fc == fc1 && ForcedBy(fc, fc1, f)
    && |f| == (if |Used(fc, n)| < 2 then 2 - |Used(fc, n)| else 0)
    && MaxUsed(fc1, n, maxCode) && |Used(fc1, n)| >= 2 && Below(Used(fc1, n), |fc1|)
    && Good(z, [], Used(fc1, n), n, HuffCost(multiset(Weights(fc1, Used(fc1, n)))), Sum(fc1[..n]))
    && |z.dl| >= n && forall x :: 0 <= x < n && fc[x] == 0 ==> z.dl[x] == 0
  }

  // the heap of the used symbols
  method Prepare(ws: Work, tree: Tree, desc: Desc, ghost fc: seq<nat>)
      returns (maxCode: int, ghost fc1: seq<nat>, ghost f: seq<nat>, ghost z: State)
    requires Apart(ws, tree) && DescOk(desc) && tree.fc[..] == fc && |fc| == 2 * desc.elems + 1 &&
        Sum(fc[..desc.elems]) <= 0xfffd
    modifies ws`heapLen, ws`heapMax, ws`optLen, ws`staticLen, ws.heap, ws.depth, tree.fc, tree.dl
    ensures Holds(ws, tree, z) && Prepared(z, desc, maxCode, fc, fc1, f)
    ensures forall i :: 0 <= i < |f| ==> f[i] < 3
    ensures ws.optLen == old(ws.optLen) - |f|
    ensures ws.staticLen == old(ws.staticLen) - (if desc.stat != [] then StatSum(desc.stat, f) else 0)
  {
    hide Used, Active, Good, IsHeap, HuffCost, Sum, SumAt, Rearranged, MaxUsed, ForcedBy, StatSum;
    ghost var n := desc.elems;
    maxCode := Collect(ws, tree, desc.elems, fc);
    ws.heapMax := HEAP_SIZE;
    maxCode, fc1, f := Force(ws, tree, desc, maxCode, fc);
    ForcedSum(fc, fc1, f, n);
    ghost var h := ws.heap[..];
    HeapNodes(h, ws.heapLen, fc1, ws.depth[..], n);
    Heapify(ws, tree);
    RearrangedActive(h, ws.heap[..], ws.heapLen);
    z := State(ws.heap[..], ws.heapLen, ws.heapMax, tree.fc[..], tree.dl[..], ws.depth[..]);
    ForestStart(z, Used(fc1, n), n, Sum(fc1[..n]));
  }

  lemma HeapNodes(h: seq<nat>, len: nat, fc1: seq<nat>, depth: seq<nat>, n: nat)
    requires len < |h| && n <= |fc1| <= |depth| && multiset(Active(h, len)) == multiset(Used(fc1, n))
    ensures Nodes(h, len, fc1, depth) && Symbols(Used(fc1, n), n) && Below(Used(fc1, n), |fc1|)
    ensures SumAt(fc1, Used(fc1, n)) == Sum(fc1[..n])
  {
    hide Used, Active, SumAt, Sum;
    UsedSum(fc1, n);
    UsedSymbols(fc1, n);
    PermBelow(Active(h, len), Used(fc1, n), |fc1|);
    NodesOf(h, len, fc1, depth);
  }

  method MakeTree(ws: Work, tree: Tree, desc: Desc, ghost fc: seq<nat>)
      returns (maxCode: int, ghost fc1: seq<nat>, ghost f: seq<nat>, ghost r: seq<nat>)
    requires Apart(ws, tree) && DescOk(desc) && tree.fc[..] == fc && |fc| == 2 * desc.elems + 1 &&
        Sum(fc[..desc.elems]) <= 0xfffd
    modifies ws`heapLen, ws`heapMax, ws`optLen, ws`staticLen, ws.heap, ws.depth, tree.fc, tree.dl
    ensures Made(ws.heap[..], ws.heapMax, tree.fc[..], tree.dl[..], desc, maxCode, fc, fc1, f, r)
    ensures forall i :: 0 <= i < |f| ==> f[i] < 3
    ensures ws.optLen == old(ws.optLen) - |f|
    ensures ws.staticLen == old(ws.staticLen) - (if desc.stat != [] then StatSum(desc.stat, f) else 0)
  {
    hide Used, Active, Built, Good, HuffCost, Sum, SumAt, MaxUsed, ForcedBy, StatSum, InOrder;
    ghost var n := desc.elems;
    ghost var z;
    maxCode, fc1, f, z := Prepare(ws, tree, desc, fc);
    ghost var dl, leaves, cost, total := z.dl, Used(fc1, n), HuffCost(multiset(Weights(fc1, Used(fc1, n)))),
        Sum(fc1[..n]);
    z, r := MergeAll(ws, tree, z, leaves, desc.elems, cost, total);
    GoodSizes(z, r, leaves, n, cost, total);
    ws.heapMax := ws.heapMax - 1;
    ws.heap[ws.heapMax] := ws.heap[1];
    BuiltIntro(z, r, leaves, n, cost, total, ws.heap[..], ws.heapMax);
    UnusedZero(fc, fc1, f, dl, tree.dl[..], n);
  }

  lemma NodesOf(h: seq<nat>, len: nat, fc: seq<nat>, depth: seq<nat>)
    requires len < |h| && Below(Active(h, len), |fc|) && |fc| <= |depth|
    ensures Nodes(h, len, fc, depth)
  {
    forall j | 1 <= j <= len ensures h[j] < |fc| { assert Active(h, len)[j - 1] == h[j]; }
  }

  // symbols not in use have length zero
  lemma UnusedZero(fc: seq<nat>, fc1: seq<nat>, f: seq<nat>, dl: seq<nat>, dl': seq<nat>, n: nat)
    requires n <= |fc| == |fc1| && n <= |dl| && ForcedBy(fc, fc1, f)
    requires forall x :: 0 <= x < n && fc[x] == 0 ==> dl[x] == 0
    requires SameUnused(dl, dl', Used(fc1, n), n)
    ensures |dl'| >= n && forall x :: 0 <= x < n && fc1[x] == 0 ==> dl'[x] == 0
  {
    hide Used;
    forall x | 0 <= x < n && fc1[x] == 0 ensures dl'[x] == 0 {
      UsedIn(fc1, n, x);
      ForcedKeeps(fc, fc1, f, x);
    }
  }

  lemma {:induction false} ForcedKeeps(fc: seq<nat>, fc': seq<nat>, f: seq<nat>, x: nat)
    requires ForcedBy(fc, fc', f) && x < |fc|
    ensures |fc'| == |fc| && (fc'[x] == fc[x] || (fc[x] == 0 && fc'[x] == 1))
    decreases |f|
  {
    if f != [] { ForcedKeeps(fc[f[0] := 1], fc', f[1..], x); }
  }
}
