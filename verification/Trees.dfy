/**
 build_tree as a whole: from frequencies to a complete canonical code whose lengths
 respect the limit, with its exact contribution to the predicted block sizes, and of
 minimum cost if the limit was not reached.
 */
module Trees {
  import opened Bits
  import opened Canonical
  import opened Sums
  import opened Optimal
  import opened PrioQueue
  import opened HuffTree
  import opened Depth
  import opened TreeMerge
  import opened TreeBuild
  import opened BitLengths
  import opened TreeCodes
  import opened HuftBuild

  // --- From nodes to symbols ---

  lemma {:induction false} UsedSumAt(g: seq<nat>, fc: seq<nat>, n: nat)
    requires n <= |fc| && n <= |g| && forall x :: 0 <= x < n && fc[x] == 0 ==> g[x] == 0
    ensures Below(Used(fc, n), |g|) && SumAt(g, Used(fc, n)) == Sum(g[..n])
  {
    if n > 0 {
      UsedSumAt(g, fc, n - 1);
      assert g[..n] == g[..n - 1] + [g[n - 1]];
      SumConcat(g[..n - 1], [g[n - 1]]);
      assert [g[n - 1]][1..] == [];
      if fc[n - 1] != 0 { SumAtSnoc(g, Used(fc, n - 1), n - 1); }
    }
  }

  // a table over nodes that is zero but for used symbols, added up over the tree
  lemma TreeSum(g: seq<nat>, r: seq<nat>, fc1: seq<nat>, n: nat)
    requires n <= |fc1| && n <= |g| && Shaped(r, Used(fc1, n), n) && Below(r, |g|) && Root(r, n) < |g|
    requires (forall x :: n <= x < |g| ==> g[x] == 0) && (forall x :: 0 <= x < n && fc1[x] == 0 ==> g[x] == 0)
    ensures SumAt(g, r) == Sum(g[..n])
  {
    hide Used, SumAt, Sum, Shaped;
    LeafSum(g, r, Used(fc1, n), n);
    UsedSumAt(g, fc1, n);
  }

  lemma {:induction false} CountSum(lens: seq<nat>, g: seq<nat>, k: nat, m: nat)
    requires m <= |lens| && m <= |g| && forall i :: 0 <= i < m ==> g[i] == if lens[i] == k then 1 else 0
    ensures CountTo(lens, m, k) == Sum(g[..m])
    decreases m
  {
    if m > 0 {
      CountSum(lens, g, k, m - 1);
      assert g[..m] == g[..m - 1] + [g[m - 1]];
      SumConcat(g[..m - 1], [g[m - 1]]);
      assert [g[m - 1]][1..] == [];
    }
  }

  lemma {:induction false} DotSum(w: seq<nat>, l: seq<nat>, g: seq<nat>)
    requires |w| == |l| <= |g| && forall i :: 0 <= i < |w| ==> g[i] == w[i] * l[i]
    ensures Dot(w, l) == Sum(g[..|w|])
    decreases |w|
  {
    if w != [] {
      var m := |w| - 1;
      DotSum(w[..m], l[..m], g);
      assert g[..m + 1] == g[..m] + [g[m]];
      SumConcat(g[..m], [g[m]]);
      assert [g[m]][1..] == [];
    }
  }

  // bits that a symbol takes with code lengths lens, extra bits included
  function BitCosts(lens: seq<nat>, desc: Desc): (b: seq<nat>)
    requires desc.base + |desc.extra| >= desc.elems && |lens| >= desc.elems
    ensures |b| == desc.elems && forall n :: 0 <= n < desc.elems ==> b[n] == lens[n] + XBits(desc, n)
  {
    seq(desc.elems, n requires 0 <= n < desc.elems => lens[n] + XBits(desc, n))
  }

  // --- Lengths of symbols ---

  // lengths dl for the symbols in use in fc1, counted in bl: no bit pattern is left over
  ghost predicate GoodLens(lens: seq<nat>, fc1: seq<nat>, desc: Desc) {
    && |lens| == desc.elems <= |fc1| && Complete(lens)
    && (forall x :: 0 <= x < |lens| ==> lens[x] <= desc.maxLength && (lens[x] == 0 <==> fc1[x] == 0))
  }

  lemma UsedInTree(r: seq<nat>, fc1: seq<nat>, n: nat, x: nat) returns (q: nat)
    requires n <= |fc1| && Shaped(r, Used(fc1, n), n) && x < n && fc1[x] != 0
    ensures q < |r| && r[q] == x
  {
    hide Used;
    UsedIn(fc1, n, x);
    assert x in multiset(Used(fc1, n));
    assert x in NodeBag(Used(fc1, n), n, |r| / 2);
    assert x in multiset(r) + multiset([Root(r, n)]);
    assert x in multiset(r);
    q :| 0 <= q < |r| && r[q] == x;
  }

  lemma SymbolLens(dl: seq<nat>, fc1: seq<nat>, desc: Desc, r: seq<nat>)
    requires DescOk(desc) && desc.elems <= |fc1| && desc.elems <= |dl| && Shaped(r, Used(fc1, desc.elems), desc.elems)
    requires LeafLens(dl, desc.elems, r, desc.maxLength)
    requires forall x :: 0 <= x < desc.elems && fc1[x] == 0 ==> dl[x] == 0
    ensures forall x :: 0 <= x < desc.elems ==> dl[x] <= desc.maxLength && (dl[x] == 0 <==> fc1[x] == 0)
  {
    hide Used, Shaped;
    forall x | 0 <= x < desc.elems ensures dl[x] <= desc.maxLength && (dl[x] == 0 <==> fc1[x] == 0) {
      if fc1[x] != 0 { var q := UsedInTree(r, fc1, desc.elems, x); }
    }
  }

  lemma SymbolCounts(dl: seq<nat>, bl: seq<nat>, fc1: seq<nat>, desc: Desc, r: seq<nat>)
    requires DescOk(desc) && desc.elems <= |fc1| && Shaped(r, Used(fc1, desc.elems), desc.elems) &&
        Root(r, desc.elems) < |dl|
    requires LeafLens(dl, desc.elems, r, desc.maxLength) && CountsOf(dl, desc.elems, r) == bl
    requires forall x :: 0 <= x < desc.elems && fc1[x] == 0 ==> dl[x] == 0
    ensures CountedBy(bl, dl[..desc.elems])
  {
    hide Used, Shaped, SumAt, CountTo, Kraft, Sum;
    var n, lens := desc.elems, dl[..desc.elems];
    SymbolLens(dl, fc1, desc, r);
    KraftCounts(dl, n, r, desc.maxLength);
    forall k | 1 <= k <= 15 ensures bl[k] == CountTo(lens, |lens|, k) {
      var g := CountTable(dl, n, k);
      TreeSum(g, r, fc1, n);
      CountSum(lens, g, k, n);
    }
  }

  lemma SymbolKraft(bl: seq<nat>, lens: seq<nat>, max: nat)
    requires CountedBy(bl, lens) && max <= 15 && Kraft(bl, max) == Pow2(max) && forall i :: 0 <= i < |lens| ==>
        lens[i] <= max
    ensures Complete(lens)
  {
    hide CountTo, Kraft, Pow2;
    var c := Counts(lens);
    KraftSame(bl, c, max);
    forall k | max < k <= BMAX ensures c[k] == 0 {
      if c[k] > 0 { var sym := CountWitness(lens, |lens|, k); }
    }
    KraftFull(c, max, MAX_BITS);
  }

  lemma KraftFull(c: seq<nat>, k: nat, n: nat)
    requires k <= n < |c| && Kraft(c, k) == Pow2(k) && forall i :: k < i <= n ==> c[i] == 0
    ensures Kraft(c, n) == Pow2(n)
  {
    KraftZeros(c, k, n);
    Pow2Add(k, n - k);
  }

  // --- What the code costs ---

  lemma SymbolBits(fc: seq<nat>, dl: seq<nat>, fc1: seq<nat>, desc: Desc, r: seq<nat>)
    requires DescOk(desc) && desc.elems <= |fc1| && desc.elems <= |fc| == |dl| && fc[..desc.elems] == fc1[..desc.elems]
    requires Shaped(r, Used(fc1, desc.elems), desc.elems) && Below(r, |dl|) && Root(r, desc.elems) < |dl|
    ensures SumAt(BitsTable(fc, dl, desc), r) == Dot(fc1[..desc.elems], BitCosts(dl[..desc.elems], desc))
  {
    hide Used, Shaped, SumAt, Sum, Dot;
    var n := desc.elems;
    var g := BitsTable(fc, dl, desc);
    SameFront(fc, fc1, n);
    TreeSum(g, r, fc1, n);
    DotSum(fc1[..n], BitCosts(dl[..n], desc), g);
  }

  lemma SymbolStat(fc: seq<nat>, fc1: seq<nat>, desc: Desc, r: seq<nat>)
    requires DescOk(desc) && desc.elems <= |fc1| && desc.elems <= |fc| && fc[..desc.elems] == fc1[..desc.elems] &&
        desc.stat != []
    requires Shaped(r, Used(fc1, desc.elems), desc.elems) && Below(r, |fc|) && Root(r, desc.elems) < |fc|
    ensures SumAt(StatTable(fc, desc), r) == Dot(fc1[..desc.elems], BitCosts(desc.stat, desc))
  {
    hide Used, Shaped, SumAt, Sum, Dot;
    var n := desc.elems;
    var g := StatTable(fc, desc);
    SameFront(fc, fc1, n);
    TreeSum(g, r, fc1, n);
    DotSum(fc1[..n], BitCosts(desc.stat, desc), g);
  }

  lemma NoStat(fc: seq<nat>, desc: Desc, r: seq<nat>)
    requires DescOk(desc) && desc.stat == [] && Below(r, |fc|)
    ensures SumAt(StatTable(fc, desc), r) == 0
  {
    ZeroSum(StatTable(fc, desc), r);
  }

  lemma SameFront(a: seq<nat>, b: seq<nat>, n: nat)
    requires n <= |a| && n <= |b| && a[..n] == b[..n]
    ensures forall x :: 0 <= x < n ==> a[x] == b[x]
  {
    forall x | 0 <= x < n ensures a[x] == b[x] { assert a[..n][x] == b[..n][x]; }
  }

  // the costs of the forced symbols
  ghost function CostSum(b: seq<nat>, f: seq<nat>): (r: nat)
    requires |b| >= 3 && forall i :: 0 <= i < |f| ==> f[i] < 3
  {
    if f == [] then 0 else b[f[0]] + CostSum(b, f[1..])
  }

  lemma {:induction false} ForcedDot(fc: seq<nat>, fc': seq<nat>, f: seq<nat>, b: seq<nat>)
    requires ForcedBy(fc, fc', f) && 3 <= |b| <= |fc| && forall i :: 0 <= i < |f| ==> f[i] < 3
    ensures |fc'| == |fc| && Dot(fc'[..|b|], b) == Dot(fc[..|b|], b) + CostSum(b, f)
    decreases |f|
  {
    hide Dot;
    if f != [] {
      var x, n := f[0], |b|;
      ForcedDot(fc[x := 1], fc', f[1..], b);
      assert fc[x := 1][..n] == fc[..n][x := 1];
      DotPut(fc[..n], b, x, 1, b[x]);
      assert b[x := b[x]] == b;
    }
  }

  lemma {:induction false} CostOnes(b: seq<nat>, f: seq<nat>)
    requires |b| >= 3 && forall i :: 0 <= i < |f| ==> f[i] < 3 && b[f[i]] == 1
    ensures CostSum(b, f) == |f|
  {
    if f != [] { CostOnes(b, f[1..]); }
  }

  lemma {:induction false} CostStats(b: seq<nat>, stat: seq<nat>, f: seq<nat>)
    requires |b| >= 3 && |stat| >= 3 && forall i :: 0 <= i < |f| ==> f[i] < 3 && b[f[i]] == stat[f[i]]
    ensures CostSum(b, f) == StatSum(stat, f)
  {
    if f != [] { CostStats(b, stat, f[1..]); }
  }

  lemma NoExtra(desc: Desc, x: nat)
    requires DescOk(desc) && x < 3
    ensures XBits(desc, x) == 0
  {
  }

  // with two symbols in use, each takes one bit
  lemma TwoOnes(dl: seq<nat>, fc1: seq<nat>, desc: Desc, r: seq<nat>, x: nat)
    requires DescOk(desc) && desc.elems <= |fc1| && Shaped(r, Used(fc1, desc.elems), desc.elems) && |r| == 2
    requires LenRel(dl, r, desc.elems, desc.maxLength) && x < desc.elems && fc1[x] != 0
    ensures x < |dl| && dl[x] == 1
  {
    hide Used, Shaped;
    var q := UsedInTree(r, fc1, desc.elems, x);
    assert Root(r, desc.elems) == desc.elems + q / 2;
  }

  lemma {:induction false} ForcedUsed(fc: seq<nat>, fc': seq<nat>, f: seq<nat>, i: nat)
    requires ForcedBy(fc, fc', f) && i < |f|
    ensures f[i] < |fc'| && |fc'| == |fc| && fc'[f[i]] != 0
    decreases |f|
  {
    ForcedKeeps(fc[f[0] := 1], fc', f[1..], f[0]);
    if i > 0 { ForcedUsed(fc[f[0] := 1], fc', f[1..], i - 1); }
  }

  // opt_len has grown by what the symbols cost at their real frequencies
  lemma OptGain(fc: seq<nat>, fc1: seq<nat>, f: seq<nat>, dl: seq<nat>, desc: Desc, r: seq<nat>)
    requires DescOk(desc) && desc.elems <= |fc| && ForcedBy(fc, fc1, f) && (forall i :: 0 <= i < |f| ==> f[i] < 3) &&
        |fc1| == |fc|
    requires desc.elems <= |dl| && (forall x :: 0 <= x < desc.elems && fc1[x] != 0 && f != [] ==> dl[x] == 1)
    ensures Dot(fc1[..desc.elems], BitCosts(dl[..desc.elems], desc)) ==
        Dot(fc[..desc.elems], BitCosts(dl[..desc.elems], desc)) + |f|
  {
    hide Dot;
    var b := BitCosts(dl[..desc.elems], desc);
    forall i | 0 <= i < |f| ensures b[f[i]] == 1 {
      ForcedUsed(fc, fc1, f, i);
      NoExtra(desc, f[i]);
    }
    ForcedDot(fc, fc1, f, b);
    CostOnes(b, f);
  }

  lemma StatGain(fc: seq<nat>, fc1: seq<nat>, f: seq<nat>, desc: Desc)
    requires DescOk(desc) && desc.elems <= |fc| && ForcedBy(fc, fc1, f) && (forall i :: 0 <= i < |f| ==> f[i] < 3) &&
        |fc1| == |fc| && desc.stat != []
    ensures Dot(fc1[..desc.elems], BitCosts(desc.stat, desc)) == Dot(fc[..desc.elems], BitCosts(desc.stat, desc)) +
        StatSum(desc.stat, f)
  {
    hide Dot;
    var b := BitCosts(desc.stat, desc);
    forall i | 0 <= i < |f| ensures b[f[i]] == desc.stat[f[i]] { NoExtra(desc, f[i]); }
    ForcedDot(fc, fc1, f, b);
    CostStats(b, desc.stat, f);
  }

  // --- Minimum cost ---

  lemma {:induction false} DotWeights(g: seq<nat>, w: seq<nat>, l: seq<nat>, s: seq<nat>)
    requires Below(s, |g|) && Below(s, |w|) && Below(s, |l|) && forall i :: 0 <= i < |s| ==>
        g[s[i]] == w[s[i]] * l[s[i]]
    ensures SumAt(g, s) == Dot(Weights(w, s), Weights(l, s))
    decreases |s|
  {
    if s != [] {
      var k := |s| - 1;
      DotWeights(g, w, l, s[..k]);
      assert s == s[..k] + [s[k]];
      SumAtSnoc(g, s[..k], s[k]);
      assert Weights(w, s) == Weights(w, s[..k]) + [w[s[k]]] && Weights(l, s) == Weights(l, s[..k]) + [l[s[k]]];
      DotSnoc(Weights(w, s[..k]), Weights(l, s[..k]), w[s[k]], l[s[k]]);
    }
  }

  // the lengths cost no more than any prefix code for the symbols in use
  ghost predicate CheapestFor(fc1: seq<nat>, lens: seq<nat>, s: seq<nat>) {
    && Below(s, |fc1|) && Below(s, |lens|)
    && Dot(Weights(fc1, s), Weights(lens, s)) == HuffCost(multiset(Weights(fc1, s)))
  }

  // no prefix code for the symbols s gives a smaller sum of frequency times length
  ghost predicate Minimal(fc1: seq<nat>, lens: seq<nat>, s: seq<nat>) {
    && Below(s, |fc1|) && Below(s, |lens|)
    && forall cs :: |cs| == |s| && Optimal.PrefixFree(cs) ==>
        Dot(Weights(fc1, s), Weights(lens, s)) <= Dot(Weights(fc1, s), Optimal.Lengths(cs))
  }

  lemma Cheapest(fc1: seq<nat>, lens: seq<nat>, s: seq<nat>)
    requires CheapestFor(fc1, lens, s)
    ensures Minimal(fc1, lens, s)
  {
    hide Dot, HuffCost, Optimal.PrefixFree, Optimal.Lengths;
    forall cs | |cs| == |s| && Optimal.PrefixFree(cs)
      ensures Dot(Weights(fc1, s), Weights(lens, s)) <= Dot(Weights(fc1, s), Optimal.Lengths(cs))
    {
      PrefixCost(Weights(fc1, s), cs);
    }
  }

  // nothing has been cut off, and the internal nodes weigh what combining costs
  ghost predicate Unlimited(fc: seq<nat>, dl: seq<nat>, s: seq<nat>, n: nat, max: nat, r: seq<nat>) {
    && Ready(dl, r, s, n, max) && Weighted(fc, r, n) && |fc| == |dl| && Over(dl, r, n, max, 0) == 0
  }

  lemma NodeCost(fc: seq<nat>, dl: seq<nat>, s: seq<nat>, n: nat, max: nat, r: seq<nat>)
    requires Unlimited(fc, dl, s, n, max, r) && n <= |fc|
    ensures |r| >= 2 && n + |r| / 2 <= |fc| && Below(s, |dl|)
    ensures SumAt(CostTable(fc, dl, n), s) == Sum(fc[n..n + |r| / 2])
  {
    hide Shaped, SumAt, Sum, LenRel, Weighted, Over;
    ReadyShape(dl, r, s, n, max);
    LeafCost(fc, dl, r, s, n, max);
    LeafSum(CostTable(fc, dl, n), r, s, n);
  }

  lemma TreeCost(fc: seq<nat>, dl: seq<nat>, fc1: seq<nat>, n: nat, max: nat, r: seq<nat>)
    requires n <= |fc1| && n <= |fc| && fc[..n] == fc1[..n] && Unlimited(fc, dl, Used(fc1, n), n, max, r)
    requires |r| >= 2 && n + |r| / 2 <= |fc| && Below(Used(fc1, n), |fc1|)
    requires HuffCost(multiset(Weights(fc1, Used(fc1, n)))) == Sum(fc[n..n + |r| / 2])
    ensures |fc| == |dl| && CheapestFor(fc1, dl[..n], Used(fc1, n))
  {
    hide Used, SumAt, Sum, Dot, HuffCost, Ready, Weighted, Over, Below, CostTable;
    var s := Used(fc1, n);
    NodeCost(fc, dl, s, n, max, r);
    UsedBelow(fc1, n);
    CostEntries(fc, dl, fc1, n, s);
    DotWeights(CostTable(fc, dl, n), fc1, dl[..n], s);
  }

  lemma CostEntries(fc: seq<nat>, dl: seq<nat>, fc1: seq<nat>, n: nat, s: seq<nat>)
    requires Below(s, n) && n <= |fc1| && n <= |fc| == |dl| && fc[..n] == fc1[..n]
    ensures Below(s, |dl[..n]|) && Below(s, |fc1|) && Below(s, |dl|)
    ensures forall i :: 0 <= i < |s| ==> CostTable(fc, dl, n)[s[i]] == fc1[s[i]] * dl[..n][s[i]]
  {
    SameFront(fc, fc1, n);
  }

  lemma UsedBelow(fc: seq<nat>, n: nat)
    requires n <= |fc|
    ensures Below(Used(fc, n), n)
  {
    UsedSymbols(fc, n);
  }

  // --- build_tree ---

  // fc1: the frequencies fc with symbols forced into use
  ghost predicate AtLeastTwo(fc: seq<nat>, fc1: seq<nat>, n: nat) {
    && n <= |fc| == |fc1| && |Used(fc1, n)| >= 2
    && (forall x :: 0 <= x < n ==> fc1[x] == fc[x] || (fc[x] == 0 && fc1[x] == 1))
    && (|Used(fc, n)| >= 2 ==> fc1[..n] == fc[..n])
  }

  lemma ForcedTwo(fc: seq<nat>, fc1: seq<nat>, f: seq<nat>, n: nat)
    requires n <= |fc| == |fc1| && ForcedBy(fc, fc1, f) && |Used(fc1, n)| >= 2
    requires |f| == if |Used(fc, n)| < 2 then 2 - |Used(fc, n)| else 0
    ensures AtLeastTwo(fc, fc1, n)
  {
    hide Used;
    forall x | 0 <= x < n ensures fc1[x] == fc[x] || (fc[x] == 0 && fc1[x] == 1) { ForcedKeeps(fc, fc1, f, x); }
  }

  // the lengths that gen_bitlen has set
  lemma LensDone(dl: seq<nat>, bl: seq<nat>, opt: int, stat: int, fc: seq<nat>, fc1: seq<nat>, desc: Desc, r: seq<nat>,
      opt0: int, stat0: int)
    requires DescOk(desc) && desc.elems <= |fc1| && Shaped(r, Used(fc1, desc.elems), desc.elems) &&
        Root(r, desc.elems) < |dl|
    requires BitLengths.Lengths(dl, bl, opt, stat, fc, desc, r, opt0, stat0) && desc.elems <= |dl|
    requires forall x :: 0 <= x < desc.elems && fc1[x] == 0 ==> dl[x] == 0
    ensures GoodLens(dl[..desc.elems], fc1, desc) && CountedBy(bl, dl[..desc.elems])
  {
    hide Used, Shaped, SumAt, Kraft, Pow2, CountTo, Complete;
    SymbolLens(dl, fc1, desc, r);
    SymbolCounts(dl, bl, fc1, desc, r);
    SymbolKraft(bl, dl[..desc.elems], desc.maxLength);
  }

  // what the running totals have gained
  ghost predicate Gained(opt: int, stat: int, opt0: int, stat0: int, fc: seq<nat>, lens: seq<nat>, desc: Desc)
    requires DescOk(desc) && |lens| == desc.elems <= |fc|
  {
    && opt == opt0 + Dot(fc[..desc.elems], BitCosts(lens, desc))
    && stat == stat0 + if desc.stat != [] then Dot(fc[..desc.elems], BitCosts(desc.stat, desc)) else 0
  }

  // the tree over fc2 of the frequencies fc1, which come from fc
  ghost predicate TreeFor(fc2: seq<nat>, dl: seq<nat>, fc: seq<nat>, fc1: seq<nat>, f: seq<nat>, desc: Desc,
      r: seq<nat>) {
    && desc.elems <= |fc| == |fc1| && desc.elems <= |fc2| == |dl| && fc2[..desc.elems] == fc1[..desc.elems]
    && Shaped(r, Used(fc1, desc.elems), desc.elems) && Root(r, desc.elems) < |dl| && Below(r, |dl|)
    && ForcedBy(fc, fc1, f) && forall i :: 0 <= i < |f| ==> f[i] < 3
  }

  lemma OptDone(fc2: seq<nat>, dl: seq<nat>, fc: seq<nat>, fc1: seq<nat>, f: seq<nat>, desc: Desc, r: seq<nat>)
    requires DescOk(desc) && TreeFor(fc2, dl, fc, fc1, f, desc, r)
    requires forall x :: 0 <= x < desc.elems && fc1[x] != 0 && f != [] ==> dl[x] == 1
    ensures SumAt(BitsTable(fc2, dl, desc), r) == |f| + Dot(fc[..desc.elems], BitCosts(dl[..desc.elems], desc))
  {
    hide Used, Shaped, SumAt, Dot, ForcedBy, BitsTable, BitCosts;
    SymbolBits(fc2, dl, fc1, desc, r);
    OptGain(fc, fc1, f, dl, desc, r);
  }

  lemma StatDone(fc2: seq<nat>, dl: seq<nat>, fc: seq<nat>, fc1: seq<nat>, f: seq<nat>, desc: Desc, r: seq<nat>)
    requires DescOk(desc) && TreeFor(fc2, dl, fc, fc1, f, desc, r)
    ensures SumAt(StatTable(fc2, desc), r) == if desc.stat != []
        then StatSum(desc.stat, f) + Dot(fc[..desc.elems], BitCosts(desc.stat, desc)) else 0
  {
    hide Used, Shaped, SumAt, Dot, ForcedBy, StatTable, BitCosts, StatSum;
    if desc.stat != [] {
      SymbolStat(fc2, fc1, desc, r);
      StatGain(fc, fc1, f, desc);
    } else {
      NoStat(fc2, desc, r);
    }
  }

  lemma GainDone(dl: seq<nat>, bl: seq<nat>, opt: int, stat: int, fc2: seq<nat>, fc: seq<nat>, fc1: seq<nat>,
      f: seq<nat>, desc: Desc, r: seq<nat>, opt1: int, stat1: int, opt0: int, stat0: int)
    requires DescOk(desc) && TreeFor(fc2, dl, fc, fc1, f, desc, r)
    requires opt1 == opt0 - |f| && stat1 == stat0 - if desc.stat != [] then StatSum(desc.stat, f) else 0
    requires BitLengths.Lengths(dl, bl, opt, stat, fc2, desc, r, opt1, stat1)
    requires forall x :: 0 <= x < desc.elems && fc1[x] != 0 && f != [] ==> dl[x] == 1
    ensures Gained(opt, stat, opt0, stat0, fc, dl[..desc.elems], desc)
  {
    hide SumAt, Dot, Kraft, Pow2, StatSum, CountsOf, BitsTable, StatTable, BitCosts;
    OptDone(fc2, dl, fc, fc1, f, desc, r);
    StatDone(fc2, dl, fc, fc1, f, desc, r);
  }

  lemma ForcedOnes(dl: seq<nat>, fc: seq<nat>, fc1: seq<nat>, f: seq<nat>, desc: Desc, r: seq<nat>)
    requires DescOk(desc) && desc.elems <= |fc1| == |fc| && Shaped(r, Used(fc1, desc.elems), desc.elems) &&
        desc.elems <= |dl|
    requires |r| == 2 * |Used(fc1, desc.elems)| - 2 && (|r| == 2 ==> LenRel(dl, r, desc.elems, desc.maxLength))
    requires f != [] ==> |Used(fc1, desc.elems)| == 2
    ensures forall x :: 0 <= x < desc.elems && fc1[x] != 0 && f != [] ==> dl[x] == 1
  {
    hide Used, Shaped, LenRel;
    forall x | 0 <= x < desc.elems && fc1[x] != 0 && f != [] ensures dl[x] == 1 {
      TwoOnes(dl, fc1, desc, r, x);
    }
  }

  lemma {:induction false} ForcedCount(fc: seq<nat>, fc': seq<nat>, f: seq<nat>, n: nat)
    requires ForcedBy(fc, fc', f) && 3 <= n <= |fc|
    ensures |fc'| == |fc| && |Used(fc', n)| == |Used(fc, n)| + |f|
    decreases |f|
  {
    if f != [] {
      UsedPut(fc, n, f[0], 1);
      ForcedCount(fc[f[0] := 1], fc', f[1..], n);
    }
  }

  // facts about the tree that MakeTree has made
  lemma MadeFacts(h: seq<nat>, max: nat, fc2: seq<nat>, dl: seq<nat>, desc: Desc, maxCode: int, fc: seq<nat>,
      fc1: seq<nat>, f: seq<nat>, r: seq<nat>)
    requires DescOk(desc) && Made(h, max, fc2, dl, desc, maxCode, fc, fc1, f, r) && forall i :: 0 <= i < |f| ==>
        f[i] < 3
    ensures desc.elems <= |fc1| && Built(h, max, fc2, dl, r, Used(fc1, desc.elems), desc.elems)
    ensures MaxUsed(fc1, desc.elems, maxCode) && AtLeastTwo(fc, fc1, desc.elems)
    ensures forall dl': seq<nat> :: |dl'| == |dl| ==> TreeFor(fc2, dl', fc, fc1, f, desc, r)
    ensures |r| == 2 * |Used(fc1, desc.elems)| - 2 && (f != [] ==> |Used(fc1, desc.elems)| == 2)
    ensures forall x :: 0 <= x < desc.elems && fc1[x] == 0 ==> dl[x] == 0
  {
    hide Used, Shaped, ForcedBy, MaxUsed, HuffCost, Sum, Weights, Weighted, Tail, Dads;
    ForcedTwo(fc, fc1, f, desc.elems);
    ForcedCount(fc, fc1, f, desc.elems);
    SonsInside(r, Used(fc1, desc.elems), desc.elems, |dl|);
  }

  lemma SonsInside(r: seq<nat>, leaves: seq<nat>, elems: nat, size: nat)
    requires Shaped(r, leaves, elems) && |r| == 2 * |leaves| - 2 && size == 2 * elems + 1
    ensures |r| >= 2 && Below(r, size) && Root(r, elems) < size
  {
    IncreasingShort(leaves, elems);
  }

  // a code of nothing but allowed lengths for the symbols in use, at least two
  ghost predicate TreeBuilt(tfc: seq<nat>, lens: seq<nat>, fc: seq<nat>, fc1: seq<nat>, desc: Desc, maxCode: int) {
    && desc.elems <= |fc| && AtLeastTwo(fc, fc1, desc.elems) && MaxUsed(fc1, desc.elems, maxCode) && maxCode >= 1
    && GoodLens(lens, fc1, desc) && Coded(tfc, lens)
  }

  // the codes of the symbols s in the tree
  ghost function OwnCodes(tfc: seq<nat>, lens: seq<nat>, s: seq<nat>): (cs: seq<seq<Bit>>)
    requires Below(s, |tfc|) && Below(s, |lens|)
    ensures |cs| == |s| && forall i :: 0 <= i < |s| ==> cs[i] == BitsOf(tfc[s[i]], lens[s[i]])
  {
    seq(|s|, i requires 0 <= i < |s| => BitsOf(tfc[s[i]], lens[s[i]]))
  }

  // the tree itself is a prefix code with these lengths, so the minimum is attained
  lemma Attained(tfc: seq<nat>, lens: seq<nat>, fc: seq<nat>, fc1: seq<nat>, desc: Desc, maxCode: int)
    requires TreeBuilt(tfc, lens, fc, fc1, desc, maxCode) && desc.maxLength <= 15
    ensures var s := Used(fc1, desc.elems);
            && Below(s, |tfc|) && Below(s, |lens|)
            && Optimal.PrefixFree(OwnCodes(tfc, lens, s)) && Optimal.Lengths(OwnCodes(tfc, lens, s)) == Weights(lens, s)
  {
    hide Used, BitsOf, Codeword, Complete, AtLeastTwo, MaxUsed, Coded, Decodable, Pow2;
    CodedSize(tfc, lens);
    var n, s := desc.elems, Used(fc1, desc.elems);
    UsedSymbols(fc1, n);
    GoodFacts(lens, fc1, desc, maxCode);
    var cs := OwnCodes(tfc, lens, s);
    forall i, j | 0 <= i < |s| && 0 <= j < |s| && i != j ensures !(cs[i] <= cs[j]) {
      assert s[i] != s[j];
      UsedIn(fc1, n, s[i]);
      UsedIn(fc1, n, s[j]);
      OwnPair(tfc, lens, s[i], s[j]);
    }
  }

  lemma CodedSize(tfc: seq<nat>, lens: seq<nat>)
    requires Coded(tfc, lens)
    ensures |tfc| >= |lens|
  {
  }

  lemma OwnPair(tfc: seq<nat>, lens: seq<nat>, a: nat, b: nat)
    requires Coded(tfc, lens) && Decodable(lens) && a < |lens| && b < |lens| && a != b && 1 <= lens[a] <= 15 &&
        1 <= lens[b] <= 15
    ensures !(BitsOf(tfc[a], lens[a]) <= BitsOf(tfc[b], lens[b]))
  {
    hide BitsOf, Codeword, Decodable, Pow2;
    assert CodeSet(tfc, lens, a) && CodeSet(tfc, lens, b);
    if lens[a] <= lens[b] { Canonical.PrefixFree(lens, a, b); }
  }

  lemma MaxAtLeastOne(fc1: seq<nat>, n: nat, maxCode: int)
    requires n <= |fc1| && MaxUsed(fc1, n, maxCode) && |Used(fc1, n)| >= 2
    ensures maxCode >= 1
  {
    UsedSymbols(fc1, n);
    var s := Used(fc1, n);
    assert s[0] in s && s[1] in s;
    UsedIn(fc1, n, s[0]);
    UsedIn(fc1, n, s[1]);
  }

  // the tree behind the lengths: the weights of its nodes, the nodes in the order in which they are merged,
  // their depths up to the maximum, and how many are cut off there
  datatype Cut = Cut(weights: seq<nat>, order: seq<nat>, depths: seq<nat>, overflow: nat)

  // the nodes are merged by weight, and the lengths dl are what gen_bitlen makes of the depths
  ghost predicate CutFrom(cut: Cut, fc1: seq<nat>, dl: seq<nat>, desc: Desc) {
    var n := desc.elems;
    && n <= |fc1| && n <= |cut.weights| && cut.weights[..n] == fc1[..n]
    && Weighted(cut.weights, cut.order, n) && Rising(cut.weights, cut.order)
    && CutOff(cut.depths, dl, desc, cut.order, Used(fc1, n), cut.overflow)
  }

  // after a repair, too, a rarer symbol has no shorter code
  lemma RarerNoShorter(cut: Cut, fc1: seq<nat>, dl: seq<nat>, desc: Desc, x: nat, y: nat)
    requires CutFrom(cut, fc1, dl, desc) && cut.overflow > 0
    requires x in Used(fc1, desc.elems) && y in Used(fc1, desc.elems) && fc1[x] < fc1[y]
    ensures x < |dl| && y < |dl| && dl[x] >= dl[y]
  {
    hide Used, Over, SumAt, Weighted, KraftTable, Pow2;
    var r, n := cut.order, desc.elems;
    var i := LeafAt(r, Used(fc1, n), n, x);
    var j := LeafAt(r, Used(fc1, n), n, y);
    assert cut.weights[x] == cut.weights[..n][x] == fc1[..n][x] && cut.weights[y] == cut.weights[..n][y] == fc1[..n][y];
  }

  // every symbol in use is merged
  lemma LeafAt(r: seq<nat>, leaves: seq<nat>, elems: nat, x: nat) returns (i: nat)
    requires Shaped(r, leaves, elems) && x in leaves
    ensures x < elems && i < |r| && r[i] == x
  {
    var k :| 0 <= k < |leaves| && leaves[k] == x;
    var root := Root(r, elems);
    assert x in multiset(leaves);
    assert x in NodeBag(leaves, elems, |r| / 2);
    assert x in multiset(r) + multiset([root]);
    assert x != root;
    assert x in multiset(r);
    i :| 0 <= i < |r| && r[i] == x;
  }

  method BuildTree(ws: Work, tree: Tree, desc: Desc, ghost fc: seq<nat>)
    returns (maxCode: int, ghost fc1: seq<nat>, ghost cut: Cut)
    requires Apart(ws, tree) && DescOk(desc) && tree.fc[..] == fc && |fc| == 2 * desc.elems + 1 &&
        Sum(fc[..desc.elems]) <= 0xfffd
    modifies ws, ws.heap, ws.depth, ws.blCount, tree.fc, tree.dl
    ensures TreeBuilt(tree.fc[..], tree.dl[..desc.elems], fc, fc1, desc, maxCode)
    ensures Gained(ws.optLen, ws.staticLen, old(ws.optLen), old(ws.staticLen), fc, tree.dl[..desc.elems], desc)
    ensures CutFrom(cut, fc1, tree.dl[..], desc)
    ensures cut.overflow == 0 ==> Minimal(fc1, tree.dl[..desc.elems], Used(fc1, desc.elems))
    ensures ((forall x :: 0 <= x < desc.elems ==> tree.dl[..desc.elems][x] < desc.maxLength) ||
             Sum(fc[..desc.elems]) < Fib(desc.maxLength + 3))
            ==> Minimal(fc1, tree.dl[..desc.elems], Used(fc1, desc.elems))
  {
    hide Made, Used, DescOk, Built, MaxUsed, AtLeastTwo, TreeFor, BitLengths.Lengths, Gained, CheapestFor, GoodLens,
        Sum, LenRel, Over, StatSum, CountedBy, Lensed, SameUnused, Decodable, Coded, CutOff, Minimal, Fib, Weighted,
        Rising, Shaped;
    ghost var f, r, first, overflow;
    ghost var n, opt0, stat0 := desc.elems, ws.optLen, ws.staticLen;
    maxCode, fc1, f, r := MakeTree(ws, tree, desc, fc);
    ghost var fc2, dl1, opt1, stat1, h, max := tree.fc[..], tree.dl[..], ws.optLen, ws.staticLen, ws.heap[..],
        ws.heapMax;
    MadeFacts(h, max, fc2, dl1, desc, maxCode, fc, fc1, f, r);
    var over;
    ghost var trail;
    over, first, trail := GenBitlen(ws, tree, desc, maxCode, fc2, fc1, r);
    overflow := over;
    ghost var dl := tree.dl[..];
    CutFacts(first, dl, desc, r, Used(fc1, n), overflow);
    MadeLight(h, max, fc2, dl1, desc, maxCode, fc, fc1, f, r);
    cut := Cut(fc2, r, first, overflow);
    LensedIntro(h, max, fc2, dl1, dl, ws.blCount[..], ws.optLen, ws.staticLen, desc, maxCode, fc, fc1, f, r, opt1,
        stat1, overflow);
    FinishGain(fc2, dl, ws.blCount[..], ws.optLen, ws.staticLen, desc, fc, fc1, f, r, opt1, stat1, opt0, stat0,
        overflow);
    FinishLens(fc2, dl, ws.blCount[..], ws.optLen, ws.staticLen, desc, maxCode, fc, fc1, f, r, opt1, stat1, overflow);
    if overflow == 0 {
      FinishCost(h, max, fc2, dl1, dl, desc, maxCode, fc, fc1, f, r);
      Cheapest(fc1, dl[..n], Used(fc1, n));
    } else {
      TooHeavy(h, max, fc2, dl1, first, dl, desc, maxCode, fc, fc1, f, r, overflow);
    }
    assert tree.dl[..n] == dl[..n];
    MadeFacts(h, max, fc2, dl1, desc, maxCode, fc, fc1, f, r);
    AtLeastSome(fc, fc1, n);
    MaxAtLeastOne(fc1, n, maxCode);
    MaxBelow(fc1, n, maxCode);
    GenCodes(tree.fc, tree.dl, ws.blCount, maxCode, dl[..n]);
  }

  lemma CutFacts(first: seq<nat>, dl: seq<nat>, desc: Desc, r: seq<nat>, leaves: seq<nat>, overflow: nat)
    requires DescOk(desc) && CutOff(first, dl, desc, r, leaves, overflow)
    ensures overflow == 0 ==>
        |r| % 2 == 0 && |dl| >= desc.elems + |r| / 2 && LenRel(dl, r, desc.elems, desc.maxLength) &&
        Over(dl, r, desc.elems, desc.maxLength, 0) == 0
    ensures |r| == 2 ==> overflow == 0
    ensures overflow > 0 ==> exists q :: 0 <= q < |r| && r[q] < desc.elems && r[q] < |dl| && dl[r[q]] == desc.maxLength
  {
    hide Shaped, Over, LenRel, KraftTable, SumAt;
    OnePair(first, r, leaves, desc.elems, desc.maxLength, desc);
  }

  // a tree in which something is cut off weighs a lot, and leaves a symbol of the greatest length
  lemma TooHeavy(h: seq<nat>, max: nat, fc2: seq<nat>, dl1: seq<nat>, first: seq<nat>, dl: seq<nat>, desc: Desc,
      maxCode: int,
                 fc: seq<nat>, fc1: seq<nat>, f: seq<nat>, r: seq<nat>, overflow: nat)
    requires DescOk(desc) && Made(h, max, fc2, dl1, desc, maxCode, fc, fc1, f, r) &&
        (forall i :: 0 <= i < |f| ==> f[i] < 3)
    requires CutOff(first, dl, desc, r, Used(fc1, desc.elems), overflow) && overflow > 0 && |dl| == |dl1|
    ensures Sum(fc[..desc.elems]) >= Fib(desc.maxLength + 3)
    ensures exists x :: 0 <= x < desc.elems && desc.elems <= |dl| && dl[..desc.elems][x] == desc.maxLength
  {
    hide Shaped, Over, LenRel, KraftTable, SumAt, Sum, Fib, HuffCost, Made, Used, Built, Weights, Below, AtLeastTwo,
        MaxUsed, TreeFor;
    MadeFacts(h, max, fc2, dl1, desc, maxCode, fc, fc1, f, r);
    CutFacts(first, dl, desc, r, Used(fc1, desc.elems), overflow);
    TreeForParts(fc2, dl, fc, fc1, f, desc, r);
    HeavySum(h, max, fc2, dl1, first, desc, maxCode, fc, fc1, f, r);
    var q :| 0 <= q < |r| && r[q] < desc.elems && r[q] < |dl| && dl[r[q]] == desc.maxLength;
    assert dl[..desc.elems][r[q]] == desc.maxLength;
  }

  lemma HeavySum(h: seq<nat>, max: nat, fc2: seq<nat>, dl1: seq<nat>, first: seq<nat>, desc: Desc, maxCode: int,
                 fc: seq<nat>, fc1: seq<nat>, f: seq<nat>, r: seq<nat>)
    requires DescOk(desc) && Made(h, max, fc2, dl1, desc, maxCode, fc, fc1, f, r) &&
        (forall i :: 0 <= i < |f| ==> f[i] < 3)
    requires desc.elems <= |fc1| && Ready(first, r, Used(fc1, desc.elems), desc.elems, desc.maxLength) && |r| > 2
    requires |r| % 2 == 0 && |first| >= desc.elems + |r| / 2 && Over(first, r, desc.elems, desc.maxLength, 0) > 0
    ensures desc.elems <= |fc| && Sum(fc[..desc.elems]) >= Fib(desc.maxLength + 3)
  {
    hide Ready, Made, Over, Sum, Fib, Used, MaxUsed, TreeFor, Rising, Weighted, Built, DescOk;
    var n := desc.elems;
    MadeLight(h, max, fc2, dl1, desc, maxCode, fc, fc1, f, r);
    NodeWeights(fc2, fc1, r, n, maxCode);
    if fc2[Root(r, n)] < Fib(desc.maxLength + 3) {
      LightTree(fc2, first, r, Used(fc1, n), n, desc.maxLength);
    }
  }

  lemma MadeLight(h: seq<nat>, max: nat, fc2: seq<nat>, dl1: seq<nat>, desc: Desc, maxCode: int, fc: seq<nat>,
      fc1: seq<nat>, f: seq<nat>, r: seq<nat>)
    requires DescOk(desc) && Made(h, max, fc2, dl1, desc, maxCode, fc, fc1, f, r) &&
        (forall i :: 0 <= i < |f| ==> f[i] < 3)
    ensures var n := desc.elems;
            && n <= |fc| && n <= |fc1| && n <= |fc2| && fc2[..n] == fc1[..n] && Below(r, |fc2|) &&
                (|r| > 2 ==> fc1[..n] == fc[..n])
            && Shaped(r, Used(fc1, n), n) && Weighted(fc2, r, n) && MaxUsed(fc1, n, maxCode) &&
                InOrder(fc2, r, n, Sum(fc1[..n]))
  {
    hide Shaped, Sum, HuffCost, Used, Weights, MaxUsed, TreeFor, Weighted, Tail, Dads, ForcedBy;
    MadeFacts(h, max, fc2, dl1, desc, maxCode, fc, fc1, f, r);
  }

  lemma NodeWeights(fc2: seq<nat>, fc1: seq<nat>, r: seq<nat>, n: nat, maxCode: int)
    requires n <= |fc1| && n <= |fc2| && fc2[..n] == fc1[..n] && Below(r, |fc2|) && Shaped(r, Used(fc1, n), n) &&
        MaxUsed(fc1, n, maxCode)
    ensures forall q :: 0 <= q < |r| && r[q] < n ==> fc2[r[q]] >= 1
  {
    hide Shaped, Used, MaxUsed;
    forall q | 0 <= q < |r| && r[q] < n ensures fc2[r[q]] >= 1 {
      LeafTest(fc1, r, n, maxCode, q);
      UsedIn(fc1, n, r[q]);
      assert fc2[..n][r[q]] == fc1[..n][r[q]];
    }
  }

  lemma AtLeastSome(fc: seq<nat>, fc1: seq<nat>, n: nat)
    requires AtLeastTwo(fc, fc1, n)
    ensures n <= |fc| == |fc1| && |Used(fc1, n)| >= 2
  {
  }

  lemma ZeroUnused(dl1: seq<nat>, dl: seq<nat>, fc1: seq<nat>, n: nat)
    requires n <= |fc1| && n <= |dl1| && SameUnused(dl1, dl, Used(fc1, n), n)
    requires forall x :: 0 <= x < n && fc1[x] == 0 ==> dl1[x] == 0
    ensures |dl| == |dl1| && forall x :: 0 <= x < n && fc1[x] == 0 ==> dl[x] == 0
  {
    hide Used;
    forall x | 0 <= x < n && fc1[x] == 0 ensures dl[x] == 0 { UsedIn(fc1, n, x); }
  }

  lemma GoodFacts(lens: seq<nat>, fc1: seq<nat>, desc: Desc, maxCode: int)
    requires GoodLens(lens, fc1, desc) && MaxUsed(fc1, desc.elems, maxCode)
    ensures Decodable(lens) && forall x :: maxCode < x < desc.elems && x >= 0 ==> lens[x] == 0
  {
  }

  lemma BuiltParts(h: seq<nat>, max: nat, fc2: seq<nat>, dl: seq<nat>, r: seq<nat>, leaves: seq<nat>, elems: nat)
    requires Built(h, max, fc2, dl, r, leaves, elems)
    ensures Shaped(r, leaves, elems) && Weighted(fc2, r, elems) && |r| == 2 * |leaves| - 2
    ensures |fc2| == |dl| == 2 * elems + 1 && |r| >= 2
  {
  }

  lemma TreeForParts(fc2: seq<nat>, dl: seq<nat>, fc: seq<nat>, fc1: seq<nat>, f: seq<nat>, desc: Desc, r: seq<nat>)
    requires TreeFor(fc2, dl, fc, fc1, f, desc, r)
    ensures desc.elems <= |fc| == |fc1| && desc.elems <= |fc2| == |dl| && fc2[..desc.elems] == fc1[..desc.elems]
    ensures |r| >= 2 && Root(r, desc.elems) < |dl| && Below(r, |dl|)
  {
  }

  // what is known between gen_bitlen and gen_codes
  ghost predicate Lensed(fc2: seq<nat>, dl: seq<nat>, bl: seq<nat>, opt: int, stat: int, desc: Desc,
                         fc: seq<nat>, fc1: seq<nat>, f: seq<nat>, r: seq<nat>, opt1: int, stat1: int, overflow: nat)
    requires DescOk(desc)
  {
    && TreeFor(fc2, dl, fc, fc1, f, desc, r) && BitLengths.Lengths(dl, bl, opt, stat, fc2, desc, r, opt1, stat1)
    && Shaped(r, Used(fc1, desc.elems), desc.elems) && |r| == 2 * |Used(fc1, desc.elems)| - 2 &&
        (f != [] ==> |Used(fc1, desc.elems)| == 2)
    && (forall x :: 0 <= x < desc.elems && fc1[x] == 0 ==> dl[x] == 0)
    && (overflow == 0 ==> |r| % 2 == 0 && |dl| >= desc.elems + |r| / 2 && LenRel(dl, r, desc.elems, desc.maxLength)
                          && Over(dl, r, desc.elems, desc.maxLength, 0) == 0)
    && (|r| == 2 ==> overflow == 0)
  }

  lemma FinishGain(fc2: seq<nat>, dl: seq<nat>, bl: seq<nat>, opt: int, stat: int, desc: Desc,
                   fc: seq<nat>, fc1: seq<nat>, f: seq<nat>, r: seq<nat>, opt1: int, stat1: int, opt0: int, stat0: int,
                       overflow: nat)
    requires DescOk(desc) && Lensed(fc2, dl, bl, opt, stat, desc, fc, fc1, f, r, opt1, stat1, overflow)
    requires (forall i :: 0 <= i < |f| ==> f[i] < 3)
    requires opt1 == opt0 - |f| && stat1 == stat0 - if desc.stat != [] then StatSum(desc.stat, f) else 0
    ensures desc.elems <= |dl| && desc.elems <= |fc| && Gained(opt, stat, opt0, stat0, fc, dl[..desc.elems], desc)
  {
    hide Used, Shaped, TreeFor, BitLengths.Lengths, LenRel, Over, Gained, StatSum, DescOk;
    TreeForParts(fc2, dl, fc, fc1, f, desc, r);
    ForcedOnes(dl, fc, fc1, f, desc, r);
    GainDone(dl, bl, opt, stat, fc2, fc, fc1, f, desc, r, opt1, stat1, opt0, stat0);
  }

  lemma FinishLens(fc2: seq<nat>, dl: seq<nat>, bl: seq<nat>, opt: int, stat: int, desc: Desc, maxCode: int,
                   fc: seq<nat>, fc1: seq<nat>, f: seq<nat>, r: seq<nat>, opt1: int, stat1: int, overflow: nat)
    requires DescOk(desc) && Lensed(fc2, dl, bl, opt, stat, desc, fc, fc1, f, r, opt1, stat1, overflow)
    requires desc.elems <= |fc1| && MaxUsed(fc1, desc.elems, maxCode)
    ensures desc.elems <= |dl| && GoodLens(dl[..desc.elems], fc1, desc) && CountedBy(bl, dl[..desc.elems]) &&
        Decodable(dl[..desc.elems])
    ensures forall x :: maxCode < x < desc.elems && x >= 0 ==> dl[x] == 0
  {
    hide Used, Shaped, TreeFor, BitLengths.Lengths, LenRel, Over, CountedBy, GoodLens, DescOk, Decodable, MaxUsed;
    TreeForParts(fc2, dl, fc, fc1, f, desc, r);
    LensDone(dl, bl, opt, stat, fc2, fc1, desc, r, opt1, stat1);
    GoodFacts(dl[..desc.elems], fc1, desc, maxCode);
  }

  lemma LensedIntro(h: seq<nat>, max: nat, fc2: seq<nat>, dl1: seq<nat>, dl: seq<nat>, bl: seq<nat>, opt: int,
      stat: int, desc: Desc, maxCode: int,
                    fc: seq<nat>, fc1: seq<nat>, f: seq<nat>, r: seq<nat>, opt1: int, stat1: int, overflow: nat)
    requires DescOk(desc) && Made(h, max, fc2, dl1, desc, maxCode, fc, fc1, f, r) &&
        (forall i :: 0 <= i < |f| ==> f[i] < 3)
    requires SameUnused(dl1, dl, Used(fc1, desc.elems), desc.elems)
    requires BitLengths.Lengths(dl, bl, opt, stat, fc2, desc, r, opt1, stat1)
    requires overflow == 0 ==>
        |r| % 2 == 0 && |dl| >= desc.elems + |r| / 2 && LenRel(dl, r, desc.elems, desc.maxLength) &&
        Over(dl, r, desc.elems, desc.maxLength, 0) == 0
    requires |r| == 2 ==> overflow == 0
    ensures Lensed(fc2, dl, bl, opt, stat, desc, fc, fc1, f, r, opt1, stat1, overflow)
    ensures desc.elems <= |fc1| && MaxUsed(fc1, desc.elems, maxCode)
  {
    hide Used, Shaped, TreeFor, BitLengths.Lengths, LenRel, Over, DescOk, MaxUsed, Made, Built, Weighted, AtLeastTwo;
    MadeFacts(h, max, fc2, dl1, desc, maxCode, fc, fc1, f, r);
    BuiltParts(h, max, fc2, dl1, r, Used(fc1, desc.elems), desc.elems);
    ZeroUnused(dl1, dl, fc1, desc.elems);
  }

  lemma FinishCost(h: seq<nat>, max: nat, fc2: seq<nat>, dl1: seq<nat>, dl: seq<nat>, desc: Desc, maxCode: int,
      fc: seq<nat>, fc1: seq<nat>, f: seq<nat>, r: seq<nat>)
    requires DescOk(desc) && Made(h, max, fc2, dl1, desc, maxCode, fc, fc1, f, r) &&
        (forall i :: 0 <= i < |f| ==> f[i] < 3) && |dl| == |dl1|
    requires |r| % 2 == 0 && |dl| >= desc.elems + |r| / 2 && LenRel(dl, r, desc.elems, desc.maxLength) &&
        Over(dl, r, desc.elems, desc.maxLength, 0) == 0
    ensures desc.elems <= |dl| && CheapestFor(fc1, dl[..desc.elems], Used(fc1, desc.elems))
  {
    hide Used, Shaped, LenRel, Over, DescOk, Made, Built, CheapestFor, Weighted, HuffCost, Sum, Weights, Below;
    MadeCost(h, max, fc2, dl1, desc, maxCode, fc, fc1, f, r);
    BuiltParts(h, max, fc2, dl1, r, Used(fc1, desc.elems), desc.elems);
    TreeCost(fc2, dl, fc1, desc.elems, desc.maxLength, r);
  }

  lemma MaxBelow(fc1: seq<nat>, n: nat, maxCode: int)
    requires n <= |fc1| && MaxUsed(fc1, n, maxCode)
    ensures maxCode < n
  {
  }

  lemma MadeCost(h: seq<nat>, max: nat, fc2: seq<nat>, dl: seq<nat>, desc: Desc, maxCode: int, fc: seq<nat>,
      fc1: seq<nat>, f: seq<nat>, r: seq<nat>)
    requires DescOk(desc) && Made(h, max, fc2, dl, desc, maxCode, fc, fc1, f, r)
    ensures desc.elems <= |fc1| && desc.elems <= |fc2| && fc2[..desc.elems] == fc1[..desc.elems] &&
        |Used(fc1, desc.elems)| >= 2
    ensures Built(h, max, fc2, dl, r, Used(fc1, desc.elems), desc.elems)
    ensures |r| >= 2 && desc.elems + |r| / 2 <= |fc2| && Below(Used(fc1, desc.elems), |fc1|)
    ensures HuffCost(multiset(Weights(fc1, Used(fc1, desc.elems)))) == Sum(fc2[desc.elems..desc.elems + |r| / 2])
  {
    hide Used, Shaped, ForcedBy, MaxUsed, HuffCost, Sum, Weights, Tail, Dads;
    UsedSymbols(fc1, desc.elems);
    IncreasingShort(Used(fc1, desc.elems), desc.elems);
  }
}
