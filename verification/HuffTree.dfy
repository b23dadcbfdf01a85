/**
 The shape of a Huffman tree as build_tree leaves it behind, and what follows for
 code lengths that count levels from the root and stop at a limit.
 */
module HuffTree {
  import opened Bits
  import opened Sums

  // r: the nodes in the order in which they were combined, so that r[2s] and r[2s+1]
  // are the sons of internal node elems + s; the last internal node is the root
  ghost predicate Shaped(r: seq<nat>, leaves: seq<nat>, elems: nat) {
    && |r| >= 2 && |r| % 2 == 0
    && (forall q :: 0 <= q < |r| ==> r[q] < elems + q / 2)
    && Symbols(leaves, elems)
    && multiset(r) + multiset([Root(r, elems)]) == NodeBag(leaves, elems, |r| / 2)
  }

  function Root(r: seq<nat>, elems: nat): (n: nat)
    requires |r| >= 2
    ensures n == elems + |r| / 2 - 1
  {
    elems + |r| / 2 - 1
  }

  // --- Every node occurs once ---

  lemma TwiceIn(s: seq<nat>, i: nat, j: nat)
    requires i < j < |s| && s[i] == s[j]
    ensures multiset(s)[s[i]] >= 2
  {
    var a, b := s[..i + 1], s[i + 1..];
    assert s == a + b;
    assert a[i] == s[i] && b[j - i - 1] == s[i];
    assert s[i] in multiset(a) && s[i] in multiset(b);
  }

  lemma {:induction false} IncreasingOnce(s: seq<nat>, x: nat)
    requires forall i, j :: 0 <= i < j < |s| ==> s[i] < s[j]
    ensures multiset(s)[x] <= 1
    decreases |s|
  {
    if s != [] {
      var n := |s| - 1;
      IncreasingOnce(s[..n], x);
      assert s == s[..n] + [s[n]];
      if x in multiset(s[..n]) {
        var i :| 0 <= i < n && s[..n][i] == x;
        assert x < s[n];
      }
    }
  }

  ghost predicate Symbols(leaves: seq<nat>, elems: nat) {
    && (forall i :: 0 <= i < |leaves| ==> leaves[i] < elems)
    && (forall i, j :: 0 <= i < j < |leaves| ==> leaves[i] < leaves[j])
  }

  // the nodes of a forest with k internal nodes
  ghost function NodeBag(leaves: seq<nat>, elems: nat, k: nat): (m: multiset<nat>) {
    multiset(leaves) + multiset(Ids(elems, elems + k))
  }

  lemma NodeOnce(leaves: seq<nat>, elems: nat, k: nat, x: nat)
    requires Symbols(leaves, elems)
    ensures NodeBag(leaves, elems, k)[x] <= 1
    ensures x in NodeBag(leaves, elems, k) ==> x < elems + k
  {
    IncreasingOnce(leaves, x);
    IncreasingOnce(Ids(elems, elems + k), x);
    if x in multiset(leaves) {
      var i :| 0 <= i < |leaves| && leaves[i] == x;
      assert x !in Ids(elems, elems + k);
    }
  }

  lemma SonsDistinct(r: seq<nat>, leaves: seq<nat>, elems: nat, i: nat, j: nat)
    requires Shaped(r, leaves, elems) && i < j < |r|
    ensures r[i] != r[j]
  {
    NodeOnce(leaves, elems, |r| / 2, r[i]);
    if r[i] == r[j] { TwiceIn(r, i, j); }
  }

  // every internal node but the root is some node's son
  lemma InternalSon(r: seq<nat>, leaves: seq<nat>, elems: nat, n: nat) returns (q: nat)
    requires Shaped(r, leaves, elems) && elems <= n < Root(r, elems)
    ensures q < |r| && r[q] == n
  {
    assert Ids(elems, elems + |r| / 2)[n - elems] == n;
    assert n in multiset(r) + multiset([Root(r, elems)]);
    assert n in multiset(r);
    q :| 0 <= q < |r| && r[q] == n;
  }

  // --- Scanning from the root: the sons r[q] with q >= p have been seen ---

  ghost predicate Scanned(r: seq<nat>, elems: nat, n: nat, p: nat)
    requires |r| >= 2 && p <= |r|
  {
    n == Root(r, elems) || n in r[p..]
  }

  // a father comes before its sons
  lemma FatherFirst(r: seq<nat>, leaves: seq<nat>, elems: nat, p: nat)
    requires Shaped(r, leaves, elems) && p < |r|
    ensures Scanned(r, elems, elems + p / 2, p + 1)
  {
    var k := elems + p / 2;
    if k != Root(r, elems) {
      var q := InternalSon(r, leaves, elems, k);
      assert k < elems + q / 2;
      assert q >= p + 1;
      assert r[p + 1..][q - p - 1] == k;
    }
  }

  lemma NotYet(r: seq<nat>, leaves: seq<nat>, elems: nat, p: nat)
    requires Shaped(r, leaves, elems) && p < |r|
    ensures !Scanned(r, elems, r[p], p + 1) && Scanned(r, elems, r[p], p)
  {
    assert r[p..][0] == r[p];
    if r[p] in r[p + 1..] {
      var i :| 0 <= i < |r| - p - 1 && r[p + 1..][i] == r[p];
      SonsDistinct(r, leaves, elems, p, p + 1 + i);
    }
  }

  lemma ScanStep(r: seq<nat>, elems: nat, n: nat, p: nat)
    requires |r| >= 2 && p < |r|
    ensures Scanned(r, elems, n, p) <==> n == r[p] || Scanned(r, elems, n, p + 1)
  {
    assert r[p..] == [r[p]] + r[p + 1..];
  }

  // sons of node elems + s that have not been seen
  function Kids(s: nat, p: nat): (k: nat) {
    if p <= 2 * s then 0 else if p == 2 * s + 1 then 1 else 2
  }

  // a quantity u(s, p) for each internal node that has been seen
  ghost function Pot(r: seq<nat>, elems: nat, u: (nat, nat) -> nat, p: nat): (v: seq<nat>)
    requires |r| >= 2 && p <= |r|
    ensures |v| == |r| / 2
    ensures forall s :: 0 <= s < |v| ==> v[s] == if Scanned(r, elems, elems + s, p) then u(s, p) else 0
  {
    seq(|r| / 2, s requires 0 <= s => if Scanned(r, elems, elems + s, p) then u(s, p) else 0)
  }

  // seeing r[p]: its father gives up its share, and it gets its own if it is internal
  lemma PotStep(r: seq<nat>, leaves: seq<nat>, elems: nat, u: (nat, nat) -> nat, p: nat)
    requires Shaped(r, leaves, elems) && p < |r|
    requires forall s: nat :: s < |r| / 2 && s != p / 2 ==> u(s, p) == u(s, p + 1)
    ensures Sum(Pot(r, elems, u, p)) + u(p / 2, p + 1)
         == Sum(Pot(r, elems, u, p + 1)) + u(p / 2, p) + (if r[p] >= elems then u(r[p] - elems, p) else 0)
  {
    var n, k := r[p], p / 2;
    var a, b := Pot(r, elems, u, p + 1), Pot(r, elems, u, p);
    FatherFirst(r, leaves, elems, p);
    NotYet(r, leaves, elems, p);
    forall s | 0 <= s < |a| ensures b[s] == if s == k then u(k, p) else if elems + s == n then u(s, p) else a[s] {
      ScanStep(r, elems, elems + s, p);
    }
    SumPut(a, k, u(k, p));
    var c := a[k := u(k, p)];
    if n >= elems {
      SumPut(c, n - elems, u(n - elems, p));
      assert b == c[n - elems := u(n - elems, p)];
    } else {
      assert b == c;
    }
  }

  lemma PotStart(r: seq<nat>, elems: nat, u: (nat, nat) -> nat)
    requires |r| >= 2 && |r| % 2 == 0
    ensures Sum(Pot(r, elems, u, |r|)) == u(|r| / 2 - 1, |r|)
  {
    var m := |r| / 2;
    var v := Pot(r, elems, u, |r|);
    var z := seq(m, _ => 0);
    assert v == z[m - 1 := u(m - 1, |r|)];
    SumZero(z);
    SumPut(z, m - 1, u(m - 1, |r|));
  }

  lemma PotEnd(r: seq<nat>, elems: nat, u: (nat, nat) -> nat)
    requires |r| >= 2 && forall s: nat :: s < |r| / 2 ==> u(s, 0) == 0
    ensures Sum(Pot(r, elems, u, 0)) == 0
  {
    SumZero(Pot(r, elems, u, 0));
  }

  // --- Code lengths ---

  // one more than the father's, but no more than max
  ghost predicate LenRel(len: seq<nat>, r: seq<nat>, elems: nat, max: nat) {
    && |r| >= 2 && |r| % 2 == 0 && |len| >= elems + |r| / 2 && len[Root(r, elems)] == 0
    && forall q :: 0 <= q < |r| ==>
         r[q] < |len| && len[r[q]] == if len[elems + q / 2] + 1 > max then max else len[elems + q / 2] + 1
  }

  lemma {:induction false} LenBound(len: seq<nat>, r: seq<nat>, leaves: seq<nat>, elems: nat, max: nat, n: nat)
    requires Shaped(r, leaves, elems) && LenRel(len, r, elems, max) && n < |len|
    requires n in r || elems <= n <= Root(r, elems)
    ensures len[n] <= max
  {
    if n != Root(r, elems) {
      if n !in r { var q := InternalSon(r, leaves, elems, n); }
      var q :| 0 <= q < |r| && r[q] == n;
    }
  }

  // 2^(max - length)
  ghost function Unit(len: seq<nat>, max: nat, n: nat): (v: nat)
    requires n < |len|
  {
    if len[n] <= max then Pow2(max - len[n]) else 0
  }

  // nodes cut off at max
  ghost function Over(len: seq<nat>, r: seq<nat>, elems: nat, max: nat, p: nat): (c: nat)
    requires p <= |r| && |r| % 2 == 0 && |len| >= elems + |r| / 2
    decreases |r| - p
  {
    if p == |r| then 0 else Over(len, r, elems, max, p + 1) + if len[elems + p / 2] >= max then 1 else 0
  }

  // tables that are zero on internal nodes
  ghost function KraftTable(len: seq<nat>, elems: nat, max: nat): (g: seq<nat>)
    ensures |g| == |len| && forall n :: 0 <= n < |len| ==> g[n] == if n < elems then Unit(len, max, n) else 0
  {
    seq(|len|, n requires 0 <= n < |len| => if n < elems then Unit(len, max, n) else 0)
  }

  ghost predicate Ready(len: seq<nat>, r: seq<nat>, leaves: seq<nat>, elems: nat, max: nat) {
    Shaped(r, leaves, elems) && LenRel(len, r, elems, max)
  }

  lemma ReadyBelow(len: seq<nat>, r: seq<nat>, leaves: seq<nat>, elems: nat, max: nat, p: nat)
    requires Ready(len, r, leaves, elems, max) && p <= |r|
    ensures Below(r[p..], |len|)
    ensures p < |r| ==> r[p..][0] == r[p] && r[p..][1..] == r[p + 1..]
  {
  }

  // what open places below internal node elems + s are worth
  ghost function KraftShare(len: seq<nat>, elems: nat, max: nat): (u: (nat, nat) -> nat) {
    (s: nat, p: nat) => if elems + s < |len| then Kids(s, p) * Unit(len, max, elems + s) else 0
  }

  // two sons take the place of their father, unless they are cut off
  lemma UnitStep(len: seq<nat>, r: seq<nat>, leaves: seq<nat>, elems: nat, max: nat, p: nat)
    requires Ready(len, r, leaves, elems, max) && p < |r|
    ensures 2 * Unit(len, max, r[p]) == Unit(len, max, elems + p / 2) + if len[elems + p / 2] >= max then 1 else 0
  {
    var k := elems + p / 2;
    LenBound(len, r, leaves, elems, max, k);
    if len[k] < max {
      assert Pow2(max - len[k]) == 2 * Pow2(max - len[k] - 1);
    } else {
      assert Pow2(0) == 1;
    }
  }

  lemma ShareStep(len: seq<nat>, elems: nat, max: nat, p: nat)
    requires elems + p / 2 < |len|
    ensures var u := KraftShare(len, elems, max); u(p / 2, p + 1) == u(p / 2, p) + Unit(len, max, elems + p / 2)
    ensures forall s: nat :: s != p / 2 ==> KraftShare(len, elems, max)(s, p) == KraftShare(len, elems, max)(s, p + 1)
    ensures forall s: nat :: s < p / 2 && elems + s < |len| ==>
        KraftShare(len, elems, max)(s, p) == 2 * Unit(len, max, elems + s)
  {
    hide Unit;
    var k := p / 2;
    assert Kids(k, p + 1) == Kids(k, p) + 1;
  }

  // the leaves seen so far and the open places below nodes seen fill the code space,
  // but for what was cut off
  lemma {:induction false} KraftPotential(len: seq<nat>, r: seq<nat>, leaves: seq<nat>, elems: nat, max: nat, p: nat)
    requires Ready(len, r, leaves, elems, max) && p <= |r|
    ensures Below(r[p..], |len|)
    ensures 2 * SumAt(KraftTable(len, elems, max), r[p..]) + Sum(Pot(r, elems, KraftShare(len, elems, max), p))
         == 2 * Pow2(max) + Over(len, r, elems, max, p)
    decreases |r| - p
  {
    hide Pow2, Kids, Shaped;
    ReadyBelow(len, r, leaves, elems, max, p);
    ReadyShape(len, r, leaves, elems, max);
    var u := KraftShare(len, elems, max);
    if p == |r| {
      PotStart(r, elems, u);
      RootShare(len, elems, max, |r|);
    } else {
      KraftPotential(len, r, leaves, elems, max, p + 1);
      ShareStep(len, elems, max, p);
      PotStep(r, leaves, elems, u, p);
      UnitStep(len, r, leaves, elems, max, p);
      SonBelow(r, leaves, elems, p);
    }
  }

  lemma SonBelow(r: seq<nat>, leaves: seq<nat>, elems: nat, p: nat)
    requires Shaped(r, leaves, elems) && p < |r|
    ensures r[p] < elems + p / 2
  {
  }

  lemma ReadyShape(len: seq<nat>, r: seq<nat>, leaves: seq<nat>, elems: nat, max: nat)
    requires Ready(len, r, leaves, elems, max)
    ensures |r| >= 2 && |r| % 2 == 0 && |len| >= elems + |r| / 2
  {
  }

  lemma RootShare(len: seq<nat>, elems: nat, max: nat, n: nat)
    requires n >= 2 && n % 2 == 0 && elems + n / 2 <= |len| && len[elems + n / 2 - 1] == 0
    ensures KraftShare(len, elems, max)(n / 2 - 1, n) == 2 * Pow2(max)
  {
    assert Kids(n / 2 - 1, n) == 2;
  }

  lemma NoShare(len: seq<nat>, elems: nat, max: nat)
    ensures forall s: nat :: KraftShare(len, elems, max)(s, 0) == 0
    ensures forall s: nat :: LimitShare(len, elems, max)(s, 0) == 0
  {
    forall s: nat ensures KraftShare(len, elems, max)(s, 0) == 0 && LimitShare(len, elems, max)(s, 0) == 0 {
      assert Kids(s, 0) == 0;
    }
  }

  // the Kraft sum of the leaves, in units of 2^-max, exceeds 2^max by half the number
  // of nodes cut off
  lemma KraftExcess(len: seq<nat>, r: seq<nat>, leaves: seq<nat>, elems: nat, max: nat)
    requires Ready(len, r, leaves, elems, max)
    ensures Below(r, |len|)
    ensures 2 * SumAt(KraftTable(len, elems, max), r) == 2 * Pow2(max) + Over(len, r, elems, max, 0)
  {
    hide Pow2, Shaped, LenRel, Pot, Over, KraftTable, KraftShare;
    ReadyShape(len, r, leaves, elems, max);
    KraftPotential(len, r, leaves, elems, max, 0);
    assert r[0..] == r;
    NoShare(len, elems, max);
    PotEnd(r, elems, KraftShare(len, elems, max));
  }

  // --- Leaves at the limit ---

  // 1 for leaves of length k
  ghost function CountTable(len: seq<nat>, elems: nat, k: nat): (g: seq<nat>)
    ensures |g| == |len| && forall n :: 0 <= n < |len| ==> g[n] == if n < elems && len[n] == k then 1 else 0
  {
    seq(|len|, n requires 0 <= n < |len| => if n < elems && len[n] == k then 1 else 0)
  }

  // open places below internal nodes at the limit
  ghost function LimitShare(len: seq<nat>, elems: nat, max: nat): (u: (nat, nat) -> nat) {
    (s: nat, p: nat) => if elems + s < |len| && len[elems + s] >= max then Kids(s, p) else 0
  }

  lemma LimitStep(len: seq<nat>, elems: nat, max: nat, p: nat)
    requires elems + p / 2 < |len|
    ensures var u := LimitShare(len, elems, max);
            u(p / 2, p + 1) == u(p / 2, p) + if len[elems + p / 2] >= max then 1 else 0
    ensures forall s: nat :: s != p / 2 ==> LimitShare(len, elems, max)(s, p) == LimitShare(len, elems, max)(s, p + 1)
    ensures forall s: nat :: s < p / 2 && elems + s < |len| ==>
              LimitShare(len, elems, max)(s, p) == if len[elems + s] >= max then 2 else 0
  {
    var k := p / 2;
    assert Kids(k, p + 1) == Kids(k, p) + 1;
  }

  // an internal node at the limit has been seen
  ghost predicate AtLimit(len: seq<nat>, r: seq<nat>, elems: nat, max: nat, p: nat)
    requires |r| >= 2 && p <= |r| && |len| >= elems + |r| / 2
  {
    exists s :: 0 <= s < |r| / 2 && InnerAtLimit(len, r, elems, max, p, s)
  }

  ghost predicate InnerAtLimit(len: seq<nat>, r: seq<nat>, elems: nat, max: nat, p: nat, s: nat)
    requires |r| >= 2 && p <= |r| && |len| >= elems + |r| / 2 && s < |r| / 2
  {
    Scanned(r, elems, elems + s, p) && len[elems + s] >= max
  }

  // twice the leaves at the limit, with open places below nodes at the limit counted as
  // half a leaf, exceed the number of nodes cut off by two as soon as there is such a node
  lemma {:induction false} LimitPotential(len: seq<nat>, r: seq<nat>, leaves: seq<nat>, elems: nat, max: nat, p: nat)
    requires Ready(len, r, leaves, elems, max) && p <= |r| && max >= 1
    ensures Below(r[p..], |len|)
    ensures var x := 2 * SumAt(CountTable(len, elems, max), r[p..]) +
        Sum(Pot(r, elems, LimitShare(len, elems, max), p));
            x >= Over(len, r, elems, max, p) + if AtLimit(len, r, elems, max, p) then 2 else 0
    ensures AtLimit(len, r, elems, max, p) || Over(len, r, elems, max, p) == 0
    decreases |r| - p
  {
    hide Shaped, Kids, Pot, LenRel, AtLimit, CountTable, Sum, LimitShare;
    ReadyBelow(len, r, leaves, elems, max, p);
    ReadyShape(len, r, leaves, elems, max);
    var u := LimitShare(len, elems, max);
    if p == |r| {
      NothingAtLimit(len, r, elems, max);
    } else {
      LimitPotential(len, r, leaves, elems, max, p + 1);
      LimitStep(len, elems, max, p);
      PotStep(r, leaves, elems, u, p);
      SonBelow(r, leaves, elems, p);
      SonLen(len, r, leaves, elems, max, p);
      LimitSeen(len, r, leaves, elems, max, p);
    }
  }

  lemma SonLen(len: seq<nat>, r: seq<nat>, leaves: seq<nat>, elems: nat, max: nat, p: nat)
    requires Ready(len, r, leaves, elems, max) && p < |r|
    ensures r[p] < |len| && len[r[p]] <= max && len[elems + p / 2] <= max
    ensures len[r[p]] == if len[elems + p / 2] >= max then max else len[elems + p / 2] + 1
  {
    LenBound(len, r, leaves, elems, max, elems + p / 2);
  }

  lemma NothingAtLimit(len: seq<nat>, r: seq<nat>, elems: nat, max: nat)
    requires LenRel(len, r, elems, max) && max >= 1
    ensures !AtLimit(len, r, elems, max, |r|)
  {
    forall s | 0 <= s < |r| / 2 ensures !InnerAtLimit(len, r, elems, max, |r|, s) {
    }
  }

  // which nodes at the limit are seen by seeing r[p]
  lemma LimitSeen(len: seq<nat>, r: seq<nat>, leaves: seq<nat>, elems: nat, max: nat, p: nat)
    requires Ready(len, r, leaves, elems, max) && p < |r|
    ensures AtLimit(len, r, elems, max, p + 1) ==> AtLimit(len, r, elems, max, p)
    ensures len[elems + p / 2] >= max ==> AtLimit(len, r, elems, max, p + 1)
    ensures AtLimit(len, r, elems, max, p) && !AtLimit(len, r, elems, max, p + 1) ==> r[p] >= elems && len[r[p]] >= max
  {
    if AtLimit(len, r, elems, max, p + 1) {
      var s :| 0 <= s < |r| / 2 && InnerAtLimit(len, r, elems, max, p + 1, s);
      ScanStep(r, elems, elems + s, p);
      assert InnerAtLimit(len, r, elems, max, p, s);
    } else if AtLimit(len, r, elems, max, p) {
      var s :| 0 <= s < |r| / 2 && InnerAtLimit(len, r, elems, max, p, s);
      ScanStep(r, elems, elems + s, p);
      assert !InnerAtLimit(len, r, elems, max, p + 1, s);
    }
    if len[elems + p / 2] >= max {
      FatherFirst(r, leaves, elems, p);
      assert InnerAtLimit(len, r, elems, max, p + 1, p / 2);
    }
  }

  // if anything was cut off, more leaves are at the limit than the Kraft sum is over
  lemma LimitLeaves(len: seq<nat>, r: seq<nat>, leaves: seq<nat>, elems: nat, max: nat)
    requires Ready(len, r, leaves, elems, max) && max >= 1
    ensures Below(r, |len|)
    ensures Over(len, r, elems, max, 0) > 0 ==>
        2 * SumAt(CountTable(len, elems, max), r) >= Over(len, r, elems, max, 0) + 2
  {
    hide Shaped, LenRel, Pot, Over, CountTable, LimitShare, AtLimit;
    ReadyShape(len, r, leaves, elems, max);
    LimitPotential(len, r, leaves, elems, max, 0);
    assert r[0..] == r;
    NoShare(len, elems, max);
    PotEnd(r, elems, LimitShare(len, elems, max));
  }

  // --- Cost ---

  // weight times length, for leaves
  ghost function CostTable(fc: seq<nat>, len: seq<nat>, elems: nat): (g: seq<nat>)
    requires |fc| == |len|
    ensures |g| == |len| && forall n :: 0 <= n < |len| ==> g[n] == if n < elems then fc[n] * len[n] else 0
  {
    seq(|len|, n requires 0 <= n < |len| => if n < elems then fc[n] * len[n] else 0)
  }

  // internal nodes weigh as much as their sons
  ghost predicate Weighted(fc: seq<nat>, r: seq<nat>, elems: nat) {
    && |r| % 2 == 0 && |fc| >= elems + |r| / 2 && (forall q :: 0 <= q < |r| ==> r[q] < |fc|)
    && forall s :: 0 <= s < |r| / 2 ==> fc[elems + s] == fc[r[2 * s]] + fc[r[2 * s + 1]]
  }

  // weight of the sons of elems + s that have not been seen
  ghost function KidWeight(fc: seq<nat>, r: seq<nat>, s: nat, p: nat): (w: nat)
    requires 2 * s + 1 < |r| && forall q :: 0 <= q < |r| ==> r[q] < |fc|
  {
    if p <= 2 * s then 0 else if p == 2 * s + 1 then fc[r[2 * s]] else fc[r[2 * s]] + fc[r[2 * s + 1]]
  }

  ghost function CostShare(fc: seq<nat>, len: seq<nat>, r: seq<nat>, elems: nat): (u: (nat, nat) -> nat)
    requires forall q :: 0 <= q < |r| ==> r[q] < |fc|
  {
    (s: nat, p: nat) => if 2 * s + 1 < |r| && elems + s < |len| then KidWeight(fc, r, s, p) * len[elems + s] else 0
  }

  lemma CostStep(fc: seq<nat>, len: seq<nat>, r: seq<nat>, leaves: seq<nat>, elems: nat, p: nat)
    requires Shaped(r, leaves, elems) && Weighted(fc, r, elems) && |fc| == |len| && p < |r|
    ensures var u := CostShare(fc, len, r, elems);
            u(p / 2, p + 1) == u(p / 2, p) + fc[r[p]] * len[elems + p / 2]
    ensures forall s: nat :: s != p / 2 ==> CostShare(fc, len, r, elems)(s, p) == CostShare(fc, len, r, elems)(s, p + 1)
    ensures r[p] >= elems ==> CostShare(fc, len, r, elems)(r[p] - elems, p) == fc[r[p]] * len[r[p]]
  {
    hide Shaped, Weighted, KidWeight;
    WeightedShape(fc, r, elems);
    SonBelow(r, leaves, elems, p);
    var k := p / 2;
    KidStep(fc, r, k, p);
    Distribute(KidWeight(fc, r, k, p), fc[r[p]], len[elems + k]);
    CostOthers(fc, len, r, elems, p);
    if r[p] >= elems { KidFull(fc, r, elems, r[p] - elems, p); }
  }

  lemma CostOthers(fc: seq<nat>, len: seq<nat>, r: seq<nat>, elems: nat, p: nat)
    requires (forall q :: 0 <= q < |r| ==> r[q] < |fc|) && p < |r|
    ensures forall s: nat :: s != p / 2 ==> CostShare(fc, len, r, elems)(s, p) == CostShare(fc, len, r, elems)(s, p + 1)
  {
    hide KidWeight;
    forall s: nat | s != p / 2 ensures CostShare(fc, len, r, elems)(s, p) == CostShare(fc, len, r, elems)(s, p + 1) {
      if 2 * s + 1 < |r| { KidStep(fc, r, s, p); }
    }
  }

  lemma KidStep(fc: seq<nat>, r: seq<nat>, s: nat, p: nat)
    requires 2 * s + 1 < |r| && (forall q :: 0 <= q < |r| ==> r[q] < |fc|) && p < |r|
    ensures KidWeight(fc, r, s, p + 1) == KidWeight(fc, r, s, p) + if s == p / 2 then fc[r[p]] else 0
  {
  }

  lemma KidFull(fc: seq<nat>, r: seq<nat>, elems: nat, s: nat, p: nat)
    requires Weighted(fc, r, elems) && s < p / 2 && p < |r|
    ensures KidWeight(fc, r, s, p) == fc[elems + s]
  {
    assert 2 * s + 2 <= p;
  }

  lemma {:induction false} CostPotential(fc: seq<nat>, len: seq<nat>, r: seq<nat>, leaves: seq<nat>, elems: nat,
      max: nat, p: nat)
    requires Ready(len, r, leaves, elems, max) && Weighted(fc, r, elems) && |fc| == |len| && p <= |r|
    requires Over(len, r, elems, max, p) == 0
    ensures Below(r[p..], |len|)
    ensures SumAt(CostTable(fc, len, elems), r[p..]) + Sum(Pot(r, elems, CostShare(fc, len, r, elems), p)) ==
        SumAt(fc, r[p..])
    decreases |r| - p
  {
    hide Shaped, Pot, Weighted, LenRel, CostShare, CostTable;
    ReadyBelow(len, r, leaves, elems, max, p);
    ReadyShape(len, r, leaves, elems, max);
    WeightedShape(fc, r, elems);
    var u := CostShare(fc, len, r, elems);
    if p == |r| {
      PotStart(r, elems, u);
      RootCost(fc, len, r, elems, max);
    } else {
      CostPotential(fc, len, r, leaves, elems, max, p + 1);
      CostStep(fc, len, r, leaves, elems, p);
      PotStep(r, leaves, elems, u, p);
      SonLen(len, r, leaves, elems, max, p);
      OneLonger(fc[r[p]], len[elems + p / 2]);
    }
  }

  lemma OneLonger(w: nat, l: nat)
    ensures w * (l + 1) == w * l + w
  {
  }

  lemma RootCost(fc: seq<nat>, len: seq<nat>, r: seq<nat>, elems: nat, max: nat)
    requires LenRel(len, r, elems, max) && Weighted(fc, r, elems)
    ensures CostShare(fc, len, r, elems)(|r| / 2 - 1, |r|) == 0
  {
  }

  lemma WeightedShape(fc: seq<nat>, r: seq<nat>, elems: nat)
    requires Weighted(fc, r, elems)
    ensures |fc| >= elems + |r| / 2 && |r| % 2 == 0 && forall q :: 0 <= q < |r| ==> r[q] < |fc|
  {
  }

  lemma {:induction false} PairSum(fc: seq<nat>, r: seq<nat>, elems: nat, s: nat)
    requires Weighted(fc, r, elems) && s <= |r| / 2
    ensures Below(r[2 * s..], |fc|) && SumAt(fc, r[2 * s..]) == Sum(fc[elems + s..elems + |r| / 2])
    decreases |r| / 2 - s
  {
    if s < |r| / 2 {
      PairSum(fc, r, elems, s + 1);
      var t := r[2 * s..];
      assert t[0] == r[2 * s] && t[1..][0] == r[2 * s + 1] && t[1..][1..] == r[2 * (s + 1)..];
      assert fc[elems + s..elems + |r| / 2][1..] == fc[elems + (s + 1)..elems + |r| / 2];
    } else {
      assert r[2 * s..] == [];
    }
  }

  lemma KidNone(fc: seq<nat>, len: seq<nat>, r: seq<nat>, elems: nat)
    requires Weighted(fc, r, elems)
    ensures forall s: nat :: CostShare(fc, len, r, elems)(s, 0) == 0
  {
    forall s: nat ensures CostShare(fc, len, r, elems)(s, 0) == 0 {
      if 2 * s + 1 < |r| { assert KidWeight(fc, r, s, 0) == 0; }
    }
  }

  // if nothing was cut off, the leaves cost as much as the internal nodes weigh
  lemma LeafCost(fc: seq<nat>, len: seq<nat>, r: seq<nat>, leaves: seq<nat>, elems: nat, max: nat)
    requires Ready(len, r, leaves, elems, max) && Weighted(fc, r, elems) && |fc| == |len|
    requires Over(len, r, elems, max, 0) == 0
    ensures Below(r, |len|) && SumAt(CostTable(fc, len, elems), r) == Sum(fc[elems..elems + |r| / 2])
  {
    hide Shaped, LenRel, Weighted, Pot, CostTable, CostShare, Over;
    ReadyShape(len, r, leaves, elems, max);
    WeightedShape(fc, r, elems);
    CostPotential(fc, len, r, leaves, elems, max, 0);
    assert r[0..] == r;
    KidNone(fc, len, r, elems);
    PotEnd(r, elems, CostShare(fc, len, r, elems));
    PairSum(fc, r, elems, 0);
    assert r[2 * 0..] == r;
  }
}
