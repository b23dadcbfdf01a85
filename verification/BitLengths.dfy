/**
 gen_bitlen: code lengths from the tree, the repair when some of them are too
 long, and the running totals of the block's size.
 */
module BitLengths {
  import opened Bits
  import opened Canonical
  import opened Sums
  import opened HuffTree
  import opened TreeMerge
  import opened TreeBuild

  function Clamp(x: nat, max: nat): (r: nat) { if x > max then max else x }

  // --- The first pass ---

  // the nodes r[q] with q >= p have their length, the others still have their father
  ghost predicate Passing(dl: seq<nat>, r: seq<nat>, elems: nat, max: nat, p: nat) {
    && |r| >= 2 && |r| % 2 == 0 && p <= |r| && elems + |r| / 2 <= |dl| && dl[Root(r, elems)] == 0
    && (forall q :: 0 <= q < p ==> r[q] < |dl| && dl[r[q]] == elems + q / 2)
    && (forall q :: p <= q < |r| ==> r[q] < |dl| && dl[r[q]] == Clamp(dl[elems + q / 2] + 1, max))
  }

  lemma PassStart(dl: seq<nat>, r: seq<nat>, leaves: seq<nat>, elems: nat, max: nat)
    requires Shaped(r, leaves, elems) && Dads(dl, r, elems) && elems + |r| / 2 <= |dl|
    ensures Passing(dl[Root(r, elems) := 0], r, elems, max, |r|)
  {
    var dl' := dl[Root(r, elems) := 0];
    forall q | 0 <= q < |r| ensures r[q] < |dl'| && dl'[r[q]] == elems + q / 2 {
      assert r[q] < Root(r, elems);
    }
  }

  // the node that gets its length is not yet seen, nor is it the father of one that is
  lemma PassApart(r: seq<nat>, leaves: seq<nat>, elems: nat, p: nat, q: nat)
    requires Shaped(r, leaves, elems) && 1 <= p <= |r| && q < |r|
    ensures q != p - 1 ==> r[q] != r[p - 1]
    ensures q >= p - 1 ==> r[p - 1] != elems + q / 2
    ensures r[p - 1] != Root(r, elems)
  {
    if q < p - 1 { SonsDistinct(r, leaves, elems, q, p - 1); }
    if q > p - 1 { SonsDistinct(r, leaves, elems, p - 1, q); }
  }

  lemma PassStep(dl: seq<nat>, r: seq<nat>, leaves: seq<nat>, elems: nat, max: nat, p: nat)
    requires Shaped(r, leaves, elems) && Passing(dl, r, elems, max, p) && p >= 1
    ensures r[p - 1] < |dl| && dl[r[p - 1]] == elems + (p - 1) / 2 < |dl|
    ensures Passing(dl[r[p - 1] := Clamp(dl[elems + (p - 1) / 2] + 1, max)], r, elems, max, p - 1)
  {
    hide Shaped;
    var n, k := r[p - 1], elems + (p - 1) / 2;
    var dl' := dl[n := Clamp(dl[k] + 1, max)];
    forall q | 0 <= q < |r|
        ensures (q != p - 1 ==> r[q] != n) && (q >= p - 1 ==> n != elems + q / 2) && n != Root(r, elems) {
      PassApart(r, leaves, elems, p, q);
    }
    assert r[p - 1] == n;
    forall q | p - 1 <= q < |r| ensures r[q] < |dl'| && dl'[r[q]] == Clamp(dl'[elems + q / 2] + 1, max) {
      assert dl'[elems + q / 2] == dl[elems + q / 2];
    }
  }

  lemma PassDone(dl: seq<nat>, r: seq<nat>, elems: nat, max: nat)
    requires Passing(dl, r, elems, max, 0)
    ensures LenRel(dl, r, elems, max)
  {
    forall q | 0 <= q < |r|
        ensures r[q] < |dl| && dl[r[q]] == if dl[elems + q / 2] + 1 > max then max else dl[elems + q / 2] + 1 {
    }
  }

  // cut-off nodes seen so far
  lemma {:induction false} OverSame(dl: seq<nat>, r: seq<nat>, leaves: seq<nat>, elems: nat, max: nat, p: nat, v: nat,
      q: nat)
    requires Shaped(r, leaves, elems) && 1 <= p <= q <= |r| && elems + |r| / 2 <= |dl|
    ensures r[p - 1] < |dl| && Over(dl[r[p - 1] := v], r, elems, max, q) == Over(dl, r, elems, max, q)
    decreases |r| - q
  {
    hide Shaped;
    SonBelow(r, leaves, elems, p - 1);
    ShapedEven(r, leaves, elems);
    if q < |r| {
      OverSame(dl, r, leaves, elems, max, p, v, q + 1);
      PassApart(r, leaves, elems, p, q);
    }
  }

  lemma ShapedEven(r: seq<nat>, leaves: seq<nat>, elems: nat)
    requires Shaped(r, leaves, elems)
    ensures |r| >= 2 && |r| % 2 == 0
  {
  }

  // a sum over the nodes seen, after the next one
  lemma TableStep(g: seq<nat>, g': seq<nat>, r: seq<nat>, leaves: seq<nat>, elems: nat, p: nat)
    requires Shaped(r, leaves, elems) && 1 <= p <= |r| && |g| == |g'| && Below(r, |g|)
    requires forall x :: 0 <= x < |g| && x != r[p - 1] ==> g'[x] == g[x]
    ensures Below(r[p..], |g|) && Below(r[p - 1..], |g'|)
    ensures SumAt(g', r[p - 1..]) == g'[r[p - 1]] + SumAt(g, r[p..])
  {
    hide Shaped;
    assert r[p - 1..][0] == r[p - 1] && r[p - 1..][1..] == r[p..];
    forall i | 0 <= i < |r[p..]| ensures g[r[p..][i]] == g'[r[p..][i]] {
      PassApart(r, leaves, elems, p, p + i);
    }
    SumAtSame(g, g', r[p..]);
  }

  function XBits(desc: Desc, n: nat): (x: nat)
    requires desc.base + |desc.extra| >= desc.elems > n
  {
    if n >= desc.base then desc.extra[n - desc.base] else 0
  }

  // contribution of a leaf to opt_len
  ghost function BitsTable(fc: seq<nat>, dl: seq<nat>, desc: Desc): (g: seq<nat>)
    requires |fc| == |dl| && desc.base + |desc.extra| >= desc.elems
    ensures |g| == |dl| && forall n :: 0 <= n < |dl| ==>
        g[n] == if n < desc.elems then fc[n] * (dl[n] + XBits(desc, n)) else 0
  {
    seq(|dl|, n requires 0 <= n < |dl| => if n < desc.elems then fc[n] * (dl[n] + XBits(desc, n)) else 0)
  }

  // and to static_len
  ghost function StatTable(fc: seq<nat>, desc: Desc): (g: seq<nat>)
    requires desc.base + |desc.extra| >= desc.elems && (desc.stat == [] || |desc.stat| >= desc.elems)
    ensures |g| == |fc|
    ensures forall n :: 0 <= n < |fc| ==>
        g[n] == if n < desc.elems && desc.stat != [] then fc[n] * (desc.stat[n] + XBits(desc, n)) else 0
  {
    seq(|fc|, n requires 0 <= n < |fc| => if n < desc.elems && desc.stat != []
        then fc[n] * (desc.stat[n] + XBits(desc, n)) else 0)
  }

  // the totals over the nodes seen
  datatype Totals = Totals(bl: seq<nat>, overflow: nat, opt: int, stat: int)

  ghost predicate Counted(dl: seq<nat>, t: Totals, desc: Desc, r: seq<nat>, p: nat)
    requires Below(r, |dl|) && p <= |r|
  {
    |t.bl| == 16 && forall k :: 0 <= k <= 15 ==> t.bl[k] == SumAt(CountTable(dl, desc.elems, k), r[p..])
  }

  ghost predicate Passed(dl: seq<nat>, t: Totals, fc: seq<nat>, desc: Desc, r: seq<nat>, leaves: seq<nat>, p: nat,
      opt0: int, stat0: int)
    requires DescOk(desc)
  {
    && Shaped(r, leaves, desc.elems) && Passing(dl, r, desc.elems, desc.maxLength, p)
    && |fc| == |dl| && |t.bl| == 16 && Below(r, |dl|) && Counted(dl, t, desc, r, p)
    && t.overflow == Over(dl, r, desc.elems, desc.maxLength, p)
    && t.opt == opt0 + SumAt(BitsTable(fc, dl, desc), r[p..])
    && t.stat == stat0 + SumAt(StatTable(fc, desc), r[p..])
  }

  // what seeing node n with length b adds
  ghost function Added(t: Totals, n: nat, b: nat, cut: bool, fc: seq<nat>, desc: Desc): (t': Totals)
    requires DescOk(desc) && |t.bl| == 16 && b <= 15 && n < |fc|
  {
    var leaf := n < desc.elems;
    Totals(if leaf then t.bl[b := t.bl[b] + 1] else t.bl,
           if cut then t.overflow + 1 else t.overflow,
           if leaf then t.opt + fc[n] * (b + XBits(desc, n)) else t.opt,
           if leaf && desc.stat != [] then t.stat + fc[n] * (desc.stat[n] + XBits(desc, n)) else t.stat)
  }

  lemma CountedStep(dl: seq<nat>, t: Totals, desc: Desc, r: seq<nat>, leaves: seq<nat>, p: nat, b: nat, bl': seq<nat>)
    requires Shaped(r, leaves, desc.elems) && Below(r, |dl|) && 1 <= p <= |r| && Counted(dl, t, desc, r, p) && b <= 15
    requires bl' == if r[p - 1] < desc.elems then t.bl[b := t.bl[b] + 1] else t.bl
    ensures Counted(dl[r[p - 1] := b], t.(bl := bl'), desc, r, p - 1)
  {
    hide Shaped, SumAt;
    var n := r[p - 1];
    var dl' := dl[n := b];
    forall k | 0 <= k <= 15 ensures bl'[k] == SumAt(CountTable(dl', desc.elems, k), r[p - 1..]) {
      TableStep(CountTable(dl, desc.elems, k), CountTable(dl', desc.elems, k), r, leaves, desc.elems, p);
    }
  }

  lemma OverStep(dl: seq<nat>, r: seq<nat>, leaves: seq<nat>, elems: nat, max: nat, p: nat, v: nat)
    requires Shaped(r, leaves, elems) && 1 <= p <= |r| && elems + |r| / 2 <= |dl| && |r| % 2 == 0
    ensures r[p - 1] < |dl| && Over(dl[r[p - 1] := v], r, elems, max, p - 1)
         == Over(dl, r, elems, max, p) + if dl[elems + (p - 1) / 2] >= max then 1 else 0
  {
    hide Shaped;
    OverSame(dl, r, leaves, elems, max, p, v, p);
    PassApart(r, leaves, elems, p, p - 1);
  }

  lemma PassedStep(dl: seq<nat>, t: Totals, fc: seq<nat>, desc: Desc, r: seq<nat>, leaves: seq<nat>, p: nat, opt0: int,
      stat0: int)
    requires DescOk(desc) && Passed(dl, t, fc, desc, r, leaves, p, opt0, stat0) && p >= 1
    ensures r[p - 1] < |dl| && dl[r[p - 1]] == desc.elems + (p - 1) / 2 < |dl|
    ensures var n, l := r[p - 1], dl[desc.elems + (p - 1) / 2] + 1;
            var b := Clamp(l, desc.maxLength);
            Passed(dl[n := b], Added(t, n, b, l > desc.maxLength, fc, desc), fc, desc, r, leaves, p - 1, opt0, stat0)
  {
    hide Shaped, SumAt, Passing, Counted, BitsTable, StatTable, Over;
    PassingShape(dl, r, desc.elems, desc.maxLength, p);
    PassStep(dl, r, leaves, desc.elems, desc.maxLength, p);
    var n, l := r[p - 1], dl[desc.elems + (p - 1) / 2] + 1;
    var b := Clamp(l, desc.maxLength);
    var dl' := dl[n := b];
    CountedStep(dl, t, desc, r, leaves, p, b, Added(t, n, b, l > desc.maxLength, fc, desc).bl);
    CountedBl(dl', t.(bl := Added(t, n, b, l > desc.maxLength, fc, desc).bl),
        Added(t, n, b, l > desc.maxLength, fc, desc), desc, r, p - 1);
    OverStep(dl, r, leaves, desc.elems, desc.maxLength, p, b);
    TableStep(BitsTable(fc, dl, desc), BitsTable(fc, dl', desc), r, leaves, desc.elems, p);
    TableStep(StatTable(fc, desc), StatTable(fc, desc), r, leaves, desc.elems, p);
  }

  lemma CountedBl(dl: seq<nat>, t: Totals, t': Totals, desc: Desc, r: seq<nat>, p: nat)
    requires Below(r, |dl|) && p <= |r| && Counted(dl, t, desc, r, p) && t'.bl == t.bl
    ensures Counted(dl, t', desc, r, p)
  {
  }

  lemma PassingShape(dl: seq<nat>, r: seq<nat>, elems: nat, max: nat, p: nat)
    requires Passing(dl, r, elems, max, p)
    ensures |r| >= 2 && |r| % 2 == 0 && p <= |r| && elems + |r| / 2 <= |dl|
  {
  }

  // symbols in use are leaves, everything above max_code in the tree is internal
  lemma LeafTest(fc1: seq<nat>, r: seq<nat>, elems: nat, maxCode: int, p: nat)
    requires elems <= |fc1| && Shaped(r, Used(fc1, elems), elems) && MaxUsed(fc1, elems, maxCode) && p < |r|
    ensures r[p] > maxCode <==> r[p] >= elems
    ensures r[p] < elems ==> r[p] in Used(fc1, elems)
  {
    hide Used;
    var leaves := Used(fc1, elems);
    if r[p] < elems {
      assert r[p] in multiset(r);
      assert r[p] in NodeBag(leaves, elems, |r| / 2);
      assert r[p] !in Ids(elems, elems + |r| / 2);
      assert r[p] in leaves;
      UsedIn(fc1, elems, r[p]);
    }
  }

  lemma PassedStart(dl: seq<nat>, fc: seq<nat>, desc: Desc, r: seq<nat>, leaves: seq<nat>, opt0: int, stat0: int)
    requires DescOk(desc) && Shaped(r, leaves, desc.elems) && Dads(dl, r, desc.elems) &&
        |fc| == |dl| >= desc.elems + |r| / 2
    ensures Passed(dl[Root(r, desc.elems) := 0], Totals(seq(16, _ => 0), 0, opt0, stat0), fc, desc, r, leaves, |r|,
        opt0, stat0)
  {
    PassStart(dl, r, leaves, desc.elems, desc.maxLength);
    assert r[|r|..] == [];
  }

  method ClearCounts(bl: array<nat>)
    requires bl.Length == 16
    modifies bl
    ensures bl[..] == seq(16, _ => 0)
  {
    var bits := 0;
    while bits <= 15
      invariant bits <= 16 && forall k :: 0 <= k < bits ==> bl[k] == 0
    {
      bl[bits] := 0;
      bits := bits + 1;
    }
  }

  // one node of the first pass
  method PassNode(ws: Work, tree: Tree, desc: Desc, maxCode: int, h: nat, overflow: nat, ghost t: Totals,
      ghost fc: seq<nat>, ghost dl: seq<nat>, ghost r: seq<nat>, ghost p: nat)
    returns (overflow': nat)
    requires Apart(ws, tree) && DescOk(desc) && tree.fc[..] == fc && tree.dl[..] == dl && h < HEAP_SIZE
    requires ws.heap[h] < |dl| && dl[ws.heap[h]] < |dl| && (ws.heap[h] > maxCode <==> ws.heap[h] >= desc.elems)
    requires t == Totals(ws.blCount[..], overflow, ws.optLen, ws.staticLen)
    modifies ws.blCount, tree.dl, ws`optLen, ws`staticLen
    ensures var n := ws.heap[h];
            var l := dl[dl[n]] + 1;
            var b := Clamp(l, desc.maxLength);
            && tree.dl[..] == dl[n := b]
            && Totals(ws.blCount[..], overflow', ws.optLen, ws.staticLen) ==
                Added(t, n, b, l > desc.maxLength, fc, desc)
  {
    var n := ws.heap[h];
    var bits := tree.dl[tree.dl[n]] + 1;
    overflow' := overflow;
    if bits > desc.maxLength {
      bits := desc.maxLength;
      overflow' := overflow' + 1;
    }
    tree.dl[n] := bits;
    if n > maxCode { return; }
    ws.blCount[bits] := ws.blCount[bits] + 1;
    var xbits := 0;
    if n >= desc.base { xbits := desc.extra[n - desc.base]; }
    var f := tree.fc[n];
    ws.optLen := ws.optLen + f * (bits + xbits);
    if desc.stat != [] { ws.staticLen := ws.staticLen + f * (desc.stat[n] + xbits); }
  }

  lemma RootUnused(dl: seq<nat>, leaves: seq<nat>, elems: nat, x: nat)
    requires elems <= x < |dl|
    ensures SameUnused(dl, dl[x := 0], leaves, elems)
  {
  }

  lemma StillUnused(dl0: seq<nat>, dl: seq<nat>, leaves: seq<nat>, elems: nat, x: nat, v: nat)
    requires SameUnused(dl0, dl, leaves, elems) && x < |dl| && (x < elems ==> x in leaves)
    ensures SameUnused(dl0, dl[x := v], leaves, elems)
  {
  }

  method FirstPass(ws: Work, tree: Tree, desc: Desc, maxCode: int, ghost fc: seq<nat>, ghost fc1: seq<nat>,
      ghost r: seq<nat>) returns (overflow: nat)
    requires Apart(ws, tree) && DescOk(desc) && tree.fc[..] == fc && desc.elems <= |fc1|
    requires Built(ws.heap[..], ws.heapMax, fc, tree.dl[..], r, Used(fc1, desc.elems), desc.elems)
    requires MaxUsed(fc1, desc.elems, maxCode)
    modifies ws.blCount, tree.dl, ws`optLen, ws`staticLen
    ensures Passed(tree.dl[..], Totals(ws.blCount[..], overflow, ws.optLen, ws.staticLen), fc, desc, r,
        Used(fc1, desc.elems), 0,
                   old(ws.optLen), old(ws.staticLen))
    ensures SameUnused(old(tree.dl[..]), tree.dl[..], Used(fc1, desc.elems), desc.elems)
  {
    hide Used, Shaped, MaxUsed, Weighted, Passed, SameUnused, DescOk, Dads, Added;
    ghost var n, leaves := desc.elems, Used(fc1, desc.elems);
    ghost var opt0, stat0, dl0 := ws.optLen, ws.staticLen, tree.dl[..];
    ShapedEven(r, leaves, n);
    ClearCounts(ws.blCount);
    PassedStart(dl0, fc, desc, r, leaves, opt0, stat0);
    RootUnused(dl0, leaves, n, Root(r, n));
    tree.dl[ws.heap[ws.heapMax]] := 0;
    overflow := 0;
    var h := ws.heapMax + 1;
    ghost var p := |r|;
    while h < HEAP_SIZE
      invariant h == HEAP_SIZE - p && 0 <= p <= |r|
      invariant Passed(tree.dl[..], Totals(ws.blCount[..], overflow, ws.optLen, ws.staticLen), fc, desc, r, leaves, p,
          opt0, stat0)
      invariant SameUnused(dl0, tree.dl[..], leaves, n)
    {
      ghost var t, dl := Totals(ws.blCount[..], overflow, ws.optLen, ws.staticLen), tree.dl[..];
      PassedStep(dl, t, fc, desc, r, leaves, p, opt0, stat0);
      assert ws.heap[h] == r[p - 1];
      LeafTest(fc1, r, n, maxCode, p - 1);
      StillUnused(dl0, dl, leaves, n, r[p - 1], Clamp(dl[n + (p - 1) / 2] + 1, desc.maxLength));
      overflow := PassNode(ws, tree, desc, maxCode, h, overflow, t, fc, dl, r, p);
      h := h + 1;
      p := p - 1;
    }
  }

  // --- Kraft sums of the counts ---

  lemma {:induction false} KraftPut(c: seq<nat>, k: nat, v: nat, n: nat)
    requires 1 <= k < |c| && n < |c|
    ensures Kraft(c[k := v], n) == Kraft(c, n) + if k <= n then (v - c[k]) * Pow2(n - k) else 0
    decreases n
  {
    if n > 0 {
      KraftPut(c, k, v, n - 1);
      if k < n { Double(v - c[k], Pow2(n - 1 - k)); }
    }
  }

  // how many leaves of each length there are in a list of nodes
  ghost function CountsOf(dl: seq<nat>, elems: nat, s: seq<nat>): (c: seq<nat>)
    requires Below(s, |dl|)
    ensures |c| == 16 && forall k :: 0 <= k < 16 ==> c[k] == SumAt(CountTable(dl, elems, k), s)
  {
    seq(16, k requires 0 <= k => SumAt(CountTable(dl, elems, k), s))
  }

  ghost predicate LeafLens(dl: seq<nat>, elems: nat, s: seq<nat>, max: nat) {
    Below(s, |dl|) && forall i :: 0 <= i < |s| && s[i] < elems ==> 1 <= dl[s[i]] <= max
  }

  // 1 for every leaf
  ghost function LeafTable(size: nat, elems: nat): (g: seq<nat>)
    ensures |g| == size && forall n :: 0 <= n < size ==> g[n] == if n < elems then 1 else 0
  {
    seq(size, n requires 0 <= n => if n < elems then 1 else 0)
  }

  lemma CountsFront(dl: seq<nat>, elems: nat, s: seq<nat>)
    requires Below(s, |dl|) && s != [] && (s[0] < elems ==> dl[s[0]] <= 15)
    ensures Below(s[1..], |dl|)
    ensures var c := CountsOf(dl, elems, s[1..]);
            CountsOf(dl, elems, s) == if s[0] < elems then c[dl[s[0]] := c[dl[s[0]]] + 1] else c
  {
    var a, b := CountsOf(dl, elems, s), CountsOf(dl, elems, s[1..]);
    forall k | 0 <= k < 16 ensures a[k] == b[k] + if s[0] < elems && dl[s[0]] == k then 1 else 0 {
    }
  }

  lemma {:induction false} KraftCounts(dl: seq<nat>, elems: nat, s: seq<nat>, max: nat)
    requires LeafLens(dl, elems, s, max) && 1 <= max <= 15
    ensures Kraft(CountsOf(dl, elems, s), max) == SumAt(KraftTable(dl, elems, max), s)
    ensures Sum(CountsOf(dl, elems, s)) == SumAt(LeafTable(|dl|, elems), s)
    ensures forall k :: 0 <= k <= 15 && (k == 0 || k > max) ==> CountsOf(dl, elems, s)[k] == 0
    decreases |s|
  {
    hide Kraft, Pow2, Sum;
    if s == [] {
      NoCounts(dl, elems, max);
    } else {
      CountsFront(dl, elems, s);
      forall i | 0 <= i < |s| - 1 && s[1..][i] < elems ensures 1 <= dl[s[1..][i]] <= max {
        assert s[1..][i] == s[i + 1];
      }
      KraftCounts(dl, elems, s[1..], max);
      var c := CountsOf(dl, elems, s[1..]);
      if s[0] < elems {
        var k := dl[s[0]];
        KraftPut(c, k, c[k] + 1, max);
        SumPut(c, k, c[k] + 1);
      }
    }
  }

  lemma NoCounts(dl: seq<nat>, elems: nat, max: nat)
    requires max <= 15
    ensures Kraft(CountsOf(dl, elems, []), max) == 0 && Sum(CountsOf(dl, elems, [])) == 0
  {
    var c := CountsOf(dl, elems, []);
    SumZero(c);
    KraftNone(c, max);
  }

  lemma {:induction false} KraftNone(c: seq<nat>, n: nat)
    requires n < |c| && forall k :: 1 <= k <= n ==> c[k] == 0
    ensures Kraft(c, n) == 0
    decreases n
  {
    if n > 0 { KraftNone(c, n - 1); }
  }

  // --- The repair of too long codes ---

  // bl counts n codes of 1 to max bits, and 2^-max times over of them are too many
  ghost predicate Excess(bl: seq<nat>, max: nat, n: nat, over: nat) {
    && |bl| == 16 && 1 <= max <= 15 && n <= Pow2(max) && bl[0] == 0 && (forall k :: max < k <= 15 ==> bl[k] == 0)
    && Sum(bl) == n && Kraft(bl, max) == Pow2(max) + over && (over > 0 ==> bl[max] >= over + 1)
  }

  // some code is shorter than max bits
  lemma ShorterCode(bl: seq<nat>, max: nat, n: nat, over: nat) returns (k: nat)
    requires Excess(bl, max, n, over) && over > 0
    ensures 1 <= k < max && bl[k] > 0
  {
    if forall k :: 1 <= k < max ==> bl[k] == 0 {
      KraftNone(bl, max - 1);
      SumAtLeast(bl, max);
    }
    k :| 1 <= k < max && bl[k] > 0;
  }

  lemma RepairStep(bl: seq<nat>, max: nat, n: nat, over: nat, k: nat)
    requires Excess(bl, max, n, over) && over > 0 && 1 <= k < max && bl[k] > 0
    ensures var b1 := bl[k := bl[k] - 1];
            var b2 := b1[k + 1 := b1[k + 1] + 2];
            b2[max] >= 2 && Excess(b2[max := b2[max] - 1], max, n, over - 1)
  {
    hide Kraft, Sum, Pow2;
    var b1 := bl[k := bl[k] - 1];
    var b2 := b1[k + 1 := b1[k + 1] + 2];
    KraftPut(bl, k, bl[k] - 1, max);
    KraftPut(b1, k + 1, b1[k + 1] + 2, max);
    KraftPut(b2, max, b2[max] - 1, max);
    SumPut(bl, k, bl[k] - 1);
    SumPut(b1, k + 1, b1[k + 1] + 2);
    SumPut(b2, max, b2[max] - 1);
    Pow2Half(max - k);
  }

  lemma Pow2Half(n: nat)
    requires n >= 1
    ensures Pow2(n) == 2 * Pow2(n - 1) && Pow2(0) == 1
  {
  }

  // a leaf of the deepest level above the last one moves down, with a leaf of the last level as its brother
  ghost predicate Moved(bl: seq<nat>, bl': seq<nat>, max: nat, k: nat) {
    && |bl| == |bl'| && 1 <= k < max < |bl| && bl[k] > 0 && (forall j :: k < j < max ==> bl[j] == 0)
    && forall j :: 0 <= j < |bl| ==>
           bl'[j] + (if j == k then 1 else 0) + (if j == max then 1 else 0) == bl[j] + if j == k + 1 then 2 else 0
  }

  ghost predicate MovedDown(bl: seq<nat>, bl': seq<nat>, max: nat) { exists k :: Moved(bl, bl', max, k) }

  // from the first to the last of trail, move after move
  ghost predicate Moves(trail: seq<seq<nat>>, max: nat) {
    forall i :: 0 <= i < |trail| - 1 ==> MovedDown(trail[i], trail[i + 1], max)
  }

  lemma MovesMore(trail: seq<seq<nat>>, bl: seq<nat>, max: nat, k: nat)
    requires trail != [] && Moves(trail, max) && Moved(trail[|trail| - 1], bl, max, k)
    ensures Moves(trail + [bl], max)
  {
    hide Moved;
    var t := trail + [bl];
    assert MovedDown(trail[|trail| - 1], bl, max);
    forall i | 0 <= i < |t| - 1 ensures MovedDown(t[i], t[i + 1], max) {
      assert i < |trail| - 1 ==> t[i + 1] == trail[i + 1];
    }
  }

  method Repair(bl: array<nat>, max: nat, overflow0: nat, ghost n: nat) returns (ghost trail: seq<seq<nat>>)
    requires bl.Length == 16 && overflow0 % 2 == 0 && overflow0 > 0 && Excess(bl[..], max, n, overflow0 / 2)
    modifies bl
    ensures Excess(bl[..], max, n, 0) && bl[max] >= 1
    ensures |trail| == overflow0 / 2 + 1 && trail[0] == old(bl[..]) && trail[|trail| - 1] == bl[..]
    ensures Moves(trail, max)
  {
    hide Kraft, Sum, Pow2, Moves;
    var overflow: nat := overflow0;
    trail := [bl[..]];
    NoMoves(trail, max);
    while overflow > 0
      invariant overflow % 2 == 0 && Excess(bl[..], max, n, overflow / 2) && bl[max] >= 1
      invariant |trail| == (overflow0 - overflow) / 2 + 1 && trail[0] == old(bl[..]) && trail[|trail| - 1] == bl[..]
      invariant Moves(trail, max)
    {
      ghost var k := ShorterCode(bl[..], max, n, overflow / 2);
      var bits := max - 1;
      while bl[bits] == 0
        invariant k <= bits < max && forall j :: bits < j < max ==> bl[j] == 0
        decreases bits
      {
        bits := bits - 1;
      }
      ghost var b0 := bl[..];
      RepairStep(b0, max, n, overflow / 2, bits);
      bl[bits] := bl[bits] - 1;
      bl[bits + 1] := bl[bits + 1] + 2;
      bl[max] := bl[max] - 1;
      assert Moved(b0, bl[..], max, bits);
      MovesMore(trail, bl[..], max, bits);
      trail := trail + [bl[..]];
      overflow := overflow - 2;
    }
  }

  lemma NoMoves(trail: seq<seq<nat>>, max: nat)
    requires |trail| == 1
    ensures Moves(trail, max)
  {
  }

  // --- The second pass ---

  // a sum over all nodes after changing one entry of the table
  lemma TablePut(g: seq<nat>, g': seq<nat>, r: seq<nat>, leaves: seq<nat>, elems: nat, p: nat)
    requires Shaped(r, leaves, elems) && p < |r| && |g| == |g'| && Below(r, |g|)
    requires forall x :: 0 <= x < |g| && x != r[p] ==> g'[x] == g[x]
    ensures SumAt(g', r) - g'[r[p]] == SumAt(g, r) - g[r[p]]
  {
    hide Shaped;
    SumAtTake(g, r, p);
    SumAtTake(g', r, p);
    var rest := r[..p] + r[p + 1..];
    forall i | 0 <= i < |rest| ensures g[rest[i]] == g'[rest[i]] {
      PassApart(r, leaves, elems, p + 1, if i < p then i else i + 1);
    }
    SumAtSame(g, g', rest);
  }

  // ... and over the nodes up to it
  lemma TakePut(g: seq<nat>, g': seq<nat>, r: seq<nat>, leaves: seq<nat>, elems: nat, p: nat)
    requires Shaped(r, leaves, elems) && p < |r| && |g| == |g'| && Below(r, |g|)
    requires forall x :: 0 <= x < |g| && x != r[p] ==> g'[x] == g[x]
    ensures Below(r[..p], |g|) && Below(r[..p + 1], |g'|)
    ensures SumAt(g', r[..p + 1]) == SumAt(g, r[..p]) + g'[r[p]]
  {
    hide Shaped;
    assert r[..p + 1] == r[..p] + [r[p]];
    SumAtSnoc(g', r[..p], r[p]);
    forall i | 0 <= i < |r[..p]| ensures g[r[..p][i]] == g'[r[..p][i]] {
      PassApart(r, leaves, elems, p + 1, i);
    }
    SumAtSame(g, g', r[..p]);
  }

  ghost function Given(bl: seq<nat>, bits: nat, n: nat, k: nat): (c: nat)
    requires |bl| == 16 && bits <= 15 && n <= bl[bits] && k <= 15
  {
    if k > bits then bl[k] else if k == bits then bl[k] - n else 0
  }

  // leaves among the first p nodes have their new length: all bl[k] of the lengths above
  // bits have been given out, and of length bits all but n
  ghost predicate GivenOut(dl: seq<nat>, bl: seq<nat>, elems: nat, r: seq<nat>, p: nat, bits: nat, n: nat) {
    && |bl| == 16 && bits <= 15 && p <= |r| && Below(r, |dl|) && n <= bl[bits] && Below(r[..p], |dl|)
    && forall k :: 0 <= k <= 15 ==> CountsOf(dl, elems, r[..p])[k] == Given(bl, bits, n, k)
  }

  ghost predicate Settling(dl: seq<nat>, opt: int, fc: seq<nat>, desc: Desc, r: seq<nat>, leaves: seq<nat>, opt0: int)
    requires DescOk(desc)
  {
    && Shaped(r, leaves, desc.elems) && |fc| == |dl| && Below(r, |dl|)
    && (forall q :: 0 <= q < |r| && r[q] < desc.elems ==> 1 <= dl[r[q]] <= desc.maxLength)
    && opt == opt0 + SumAt(BitsTable(fc, dl, desc), r)
  }

  // leaf r[p] gets length bits
  lemma SettleStep(dl: seq<nat>, opt: int, fc: seq<nat>, desc: Desc, r: seq<nat>, leaves: seq<nat>, opt0: int, p: nat,
      bits: nat)
    requires DescOk(desc) && Settling(dl, opt, fc, desc, r, leaves, opt0) && p < |r| && r[p] < desc.elems &&
        1 <= bits <= desc.maxLength
    ensures Settling(dl[r[p] := bits], opt + (bits - dl[r[p]]) * fc[r[p]], fc, desc, r, leaves, opt0)
  {
    hide Shaped, SumAt;
    var m := r[p];
    var dl' := dl[m := bits];
    TablePut(BitsTable(fc, dl, desc), BitsTable(fc, dl', desc), r, leaves, desc.elems, p);
    Regain(fc[m], dl[m], bits, XBits(desc, m));
  }

  lemma Regain(f: nat, a: nat, b: nat, x: nat)
    ensures f * (b + x) - f * (a + x) == (b - a) * f
  {
  }

  lemma GiveStep(dl: seq<nat>, bl: seq<nat>, elems: nat, r: seq<nat>, leaves: seq<nat>, p: nat, bits: nat, n: nat)
    requires Shaped(r, leaves, elems) && GivenOut(dl, bl, elems, r, p, bits, n) && p < |r| && r[p] < elems && n >= 1
    ensures GivenOut(dl[r[p] := bits], bl, elems, r, p + 1, bits, n - 1)
  {
    hide Shaped, SumAt;
    var dl' := dl[r[p] := bits];
    BelowTake(r, |dl|, p + 1);
    var c, n' := CountsOf(dl', elems, r[..p + 1]), n - 1;
    forall k | 0 <= k <= 15 ensures c[k] == Given(bl, bits, n', k) {
      assert CountsOf(dl, elems, r[..p])[k] == Given(bl, bits, n, k);
      TakePut(CountTable(dl, elems, k), CountTable(dl', elems, k), r, leaves, elems, p);
    }
  }

  lemma BelowTake(r: seq<nat>, k: nat, p: nat)
    requires Below(r, k) && p <= |r|
    ensures Below(r[..p], k)
  {
  }

  // an internal node is passed over
  lemma SkipStep(dl: seq<nat>, bl: seq<nat>, elems: nat, r: seq<nat>, leaves: seq<nat>, p: nat, bits: nat, n: nat)
    requires Shaped(r, leaves, elems) && GivenOut(dl, bl, elems, r, p, bits, n) && p < |r| && r[p] >= elems
    ensures GivenOut(dl, bl, elems, r, p + 1, bits, n)
  {
    hide Shaped, SumAt;
    BelowTake(r, |dl|, p + 1);
    var c := CountsOf(dl, elems, r[..p + 1]);
    forall k | 0 <= k <= 15 ensures c[k] == Given(bl, bits, n, k) {
      assert CountsOf(dl, elems, r[..p])[k] == Given(bl, bits, n, k);
      TakePut(CountTable(dl, elems, k), CountTable(dl, elems, k), r, leaves, elems, p);
    }
  }

  lemma {:induction false} TailLeaves(size: nat, elems: nat, r: seq<nat>, p: nat)
    requires Below(r, size) && p <= |r|
    ensures Below(r[..p], size) && SumAt(LeafTable(size, elems), r[..p]) <= SumAt(LeafTable(size, elems), r)
    ensures SumAt(LeafTable(size, elems), r[..p]) == SumAt(LeafTable(size, elems), r) ==> forall q :: p <= q < |r| ==>
        r[q] >= elems
    decreases |r| - p
  {
    if p == |r| {
      assert r[..p] == r;
    } else {
      TailLeaves(size, elems, r, p + 1);
      assert r[..p + 1] == r[..p] + [r[p]];
      SumAtSnoc(LeafTable(size, elems), r[..p], r[p]);
    }
  }

  // while lengths are left, leaves are left
  lemma LeavesLeft(dl: seq<nat>, bl: seq<nat>, elems: nat, r: seq<nat>, max: nat, p: nat, bits: nat, n: nat)
    requires GivenOut(dl, bl, elems, r, p, bits, n) && LeafLens(dl, elems, r, max) && 1 <= max <= 15 && bits <= max
    requires Sum(bl) == SumAt(LeafTable(|dl|, elems), r) && n > 0
    ensures p < |r|
  {
    hide SumAt, Sum, Kraft;
    BelowTake(r, |dl|, p);
    KraftCounts(dl, elems, r[..p], max);
    SumLess(CountsOf(dl, elems, r[..p]), bl, bits);
    assert r[..|r|] == r;
  }

  lemma {:induction false} SumLess(a: seq<nat>, b: seq<nat>, k: nat)
    requires |a| == |b| && k < |a| && a[k] < b[k] && forall i :: 0 <= i < |a| ==> a[i] <= b[i]
    ensures Sum(a) < Sum(b)
    decreases |a|
  {
    if k == 0 {
      SumMore(a[1..], b[1..]);
    } else {
      SumLess(a[1..], b[1..], k - 1);
    }
  }

  lemma {:induction false} SumMore(a: seq<nat>, b: seq<nat>)
    requires |a| == |b| && forall i :: 0 <= i < |a| ==> a[i] <= b[i]
    ensures Sum(a) <= Sum(b)
    decreases |a|
  {
    if a != [] { SumMore(a[1..], b[1..]); }
  }

  lemma GiveStart(dl: seq<nat>, bl: seq<nat>, elems: nat, r: seq<nat>, max: nat)
    requires |bl| == 16 && 1 <= max <= 15 && Below(r, |dl|) && forall k :: max < k <= 15 ==> bl[k] == 0
    ensures GivenOut(dl, bl, elems, r, 0, max, bl[max])
  {
    assert r[..0] == [];
  }

  // on to the next shorter length
  lemma GiveNext(dl: seq<nat>, bl: seq<nat>, elems: nat, r: seq<nat>, p: nat, bits: nat)
    requires GivenOut(dl, bl, elems, r, p, bits, 0) && bits >= 1
    ensures GivenOut(dl, bl, elems, r, p, bits - 1, bl[bits - 1])
  {
    forall k | 0 <= k <= 15 ensures Given(bl, bits, 0, k) == Given(bl, bits - 1, bl[bits - 1], k) {
    }
  }

  // every leaf has a length, and there are bl[k] of each
  lemma GiveDone(dl: seq<nat>, bl: seq<nat>, elems: nat, r: seq<nat>, max: nat, p: nat)
    requires |bl| == 16 && GivenOut(dl, bl, elems, r, p, 0, bl[0]) && bl[0] == 0 && LeafLens(dl, elems, r, max) &&
        1 <= max <= 15
    requires Sum(bl) == SumAt(LeafTable(|dl|, elems), r)
    ensures CountsOf(dl, elems, r) == bl && p <= |r| && forall q :: p <= q < |r| ==> r[q] >= elems
  {
    hide SumAt, Sum, Kraft;
    BelowTake(r, |dl|, p);
    assert CountsOf(dl, elems, r[..p]) == bl;
    KraftCounts(dl, elems, r[..p], max);
    TailLeaves(|dl|, elems, r, p);
    NoMore(dl, elems, r, p);
  }

  lemma {:induction false} NoMore(dl: seq<nat>, elems: nat, r: seq<nat>, p: nat)
    requires Below(r, |dl|) && p <= |r| && forall q :: p <= q < |r| ==> r[q] >= elems
    ensures Below(r[..p], |dl|) && CountsOf(dl, elems, r) == CountsOf(dl, elems, r[..p])
    decreases |r| - p
  {
    if p == |r| {
      assert r[..p] == r;
    } else {
      NoMore(dl, elems, r, p + 1);
      assert r[..p + 1] == r[..p] + [r[p]];
      var a, b := CountsOf(dl, elems, r[..p + 1]), CountsOf(dl, elems, r[..p]);
      forall k | 0 <= k < 16 ensures a[k] == b[k] { SumAtSnoc(CountTable(dl, elems, k), r[..p], r[p]); }
    }
  }

  // all that the second pass keeps
  ghost predicate Second(dl: seq<nat>, opt: int, bl: seq<nat>, fc: seq<nat>, desc: Desc, r: seq<nat>, leaves: seq<nat>,
      opt0: int, p: nat, bits: nat, n: nat)
    requires DescOk(desc)
  {
    && Settling(dl, opt, fc, desc, r, leaves, opt0) && GivenOut(dl, bl, desc.elems, r, p, bits, n) &&
        bits <= desc.maxLength
    && Sum(bl) == SumAt(LeafTable(|dl|, desc.elems), r)
  }

  lemma SecondLeft(dl: seq<nat>, opt: int, bl: seq<nat>, fc: seq<nat>, desc: Desc, r: seq<nat>, leaves: seq<nat>,
      opt0: int, p: nat, bits: nat, n: nat)
    requires DescOk(desc) && Second(dl, opt, bl, fc, desc, r, leaves, opt0, p, bits, n) && n > 0
    ensures p < |r|
  {
    hide SumAt, Sum, GivenOut, Shaped;
    LeavesLeft(dl, bl, desc.elems, r, desc.maxLength, p, bits, n);
  }

  lemma SecondLeaf(dl: seq<nat>, opt: int, bl: seq<nat>, fc: seq<nat>, desc: Desc, r: seq<nat>, leaves: seq<nat>,
      opt0: int, p: nat, bits: nat, n: nat)
    requires DescOk(desc) && Second(dl, opt, bl, fc, desc, r, leaves, opt0, p, bits, n) && n > 0 && bits >= 1 &&
        p < |r| && r[p] < desc.elems
    ensures Second(dl[r[p] := bits], opt + (bits - dl[r[p]]) * fc[r[p]], bl, fc, desc, r, leaves, opt0, p + 1, bits,
        n - 1)
  {
    hide SumAt, Sum, GivenOut, Shaped, Settling;
    SettlingShape(dl, opt, fc, desc, r, leaves, opt0);
    SettleStep(dl, opt, fc, desc, r, leaves, opt0, p, bits);
    GiveStep(dl, bl, desc.elems, r, leaves, p, bits, n);
  }

  lemma SettlingShape(dl: seq<nat>, opt: int, fc: seq<nat>, desc: Desc, r: seq<nat>, leaves: seq<nat>, opt0: int)
    requires DescOk(desc) && Settling(dl, opt, fc, desc, r, leaves, opt0)
    ensures Shaped(r, leaves, desc.elems) && |fc| == |dl| && Below(r, |dl|)
  {
  }

  lemma SecondSkip(dl: seq<nat>, opt: int, bl: seq<nat>, fc: seq<nat>, desc: Desc, r: seq<nat>, leaves: seq<nat>,
      opt0: int, p: nat, bits: nat, n: nat)
    requires DescOk(desc) && Second(dl, opt, bl, fc, desc, r, leaves, opt0, p, bits, n) && p < |r| && r[p] >= desc.elems
    ensures Second(dl, opt, bl, fc, desc, r, leaves, opt0, p + 1, bits, n)
  {
    hide SumAt, Sum, GivenOut, Shaped, Settling;
    SettlingShape(dl, opt, fc, desc, r, leaves, opt0);
    SkipStep(dl, bl, desc.elems, r, leaves, p, bits, n);
  }

  // what does not change during the second pass
  ghost predicate Fixed(ws: Work, tree: Tree, desc: Desc, maxCode: int, fc: seq<nat>, fc1: seq<nat>, bl: seq<nat>,
      r: seq<nat>)
    reads ws.heap, ws.blCount, tree.fc
  {
    && ws.heap.Length == HEAP_SIZE && Tail(ws.heap[..], r) && ws.blCount[..] == bl && tree.fc[..] == fc && |bl| == 16
    && desc.elems <= |fc1| && MaxUsed(fc1, desc.elems, maxCode)
  }

  // the first p nodes: a leaf merged later has no longer a code, and none is below bits
  ghost predicate Falling(dl: seq<nat>, elems: nat, r: seq<nat>, p: nat, bits: nat) {
    && p <= |r| && Below(r, |dl|)
    && (forall i :: 0 <= i < p && r[i] < elems ==> dl[r[i]] >= bits)
    && forall i, j :: 0 <= i < j < p && r[i] < elems && r[j] < elems ==> dl[r[i]] >= dl[r[j]]
  }

  lemma FallingLeaf(dl: seq<nat>, elems: nat, r: seq<nat>, leaves: seq<nat>, p: nat, bits: nat)
    requires Falling(dl, elems, r, p, bits) && p < |r| && Shaped(r, leaves, elems)
    ensures Falling(dl[r[p] := bits], elems, r, p + 1, bits)
  {
    hide Shaped;
    forall i | 0 <= i < p ensures r[i] != r[p] { PassApart(r, leaves, elems, p + 1, i); }
  }

  lemma FallingSkip(dl: seq<nat>, elems: nat, r: seq<nat>, p: nat, bits: nat)
    requires Falling(dl, elems, r, p, bits) && p < |r| && r[p] >= elems
    ensures Falling(dl, elems, r, p + 1, bits)
  {
  }

  lemma FallingNext(dl: seq<nat>, elems: nat, r: seq<nat>, p: nat, bits: nat)
    requires Falling(dl, elems, r, p, bits) && bits >= 1
    ensures Falling(dl, elems, r, p, bits - 1)
  {
  }

  // give out the n codes of length bits
  method GiveLength(ws: Work, tree: Tree, desc: Desc, maxCode: int, bits: nat, h0: nat, ghost fc: seq<nat>,
      ghost fc1: seq<nat>, ghost bl: seq<nat>, ghost r: seq<nat>, ghost opt0: int)
    returns (h: nat)
    requires Apart(ws, tree) && DescOk(desc) && Fixed(ws, tree, desc, maxCode, fc, fc1, bl, r) && 1 <= bits <= 15 &&
        h0 <= HEAP_SIZE
    requires Second(tree.dl[..], ws.optLen, bl, fc, desc, r, Used(fc1, desc.elems), opt0, HEAP_SIZE - h0, bits,
        bl[bits])
    requires Falling(tree.dl[..], desc.elems, r, HEAP_SIZE - h0, bits)
    modifies tree.dl, ws`optLen
    ensures h <= h0 && Second(tree.dl[..], ws.optLen, bl, fc, desc, r, Used(fc1, desc.elems), opt0, HEAP_SIZE - h, bits,
        0)
    ensures Falling(tree.dl[..], desc.elems, r, HEAP_SIZE - h, bits)
    ensures SameUnused(old(tree.dl[..]), tree.dl[..], Used(fc1, desc.elems), desc.elems)
  {
    hide Second, Used, DescOk, SameUnused, MaxUsed, Shaped, Falling;
    h := h0;
    ghost var leaves, dl0 := Used(fc1, desc.elems), tree.dl[..];
    SameStart(dl0, leaves, desc.elems);
    var n := ws.blCount[bits];
    while n != 0
      invariant h <= h0 && Fixed(ws, tree, desc, maxCode, fc, fc1, bl, r)
      invariant Second(tree.dl[..], ws.optLen, bl, fc, desc, r, leaves, opt0, HEAP_SIZE - h, bits, n)
      invariant Falling(tree.dl[..], desc.elems, r, HEAP_SIZE - h, bits)
      invariant SameUnused(dl0, tree.dl[..], leaves, desc.elems)
      decreases h
    {
      ghost var p, dl := HEAP_SIZE - h, tree.dl[..];
      SecondLeft(dl, ws.optLen, bl, fc, desc, r, leaves, opt0, p, bits, n);
      SecondShape(dl, ws.optLen, bl, fc, desc, r, leaves, opt0, p, bits, n);
      h := h - 1;
      var m := ws.heap[h];
      assert m == r[p];
      LeafTest(fc1, r, desc.elems, maxCode, p);
      if m <= maxCode {
        SecondLeaf(dl, ws.optLen, bl, fc, desc, r, leaves, opt0, p, bits, n);
        FallingLeaf(dl, desc.elems, r, leaves, p, bits);
        StillUnused(dl0, dl, leaves, desc.elems, m, bits);
        if tree.dl[m] != bits {
          ws.optLen := ws.optLen + (bits - tree.dl[m]) * tree.fc[m];
          tree.dl[m] := bits;
        } else {
          assert dl[m := bits] == dl;
        }
        n := n - 1;
      } else {
        SecondSkip(dl, ws.optLen, bl, fc, desc, r, leaves, opt0, p, bits, n);
        FallingSkip(dl, desc.elems, r, p, bits);
      }
    }
  }

  lemma SecondShape(dl: seq<nat>, opt: int, bl: seq<nat>, fc: seq<nat>, desc: Desc, r: seq<nat>, leaves: seq<nat>,
      opt0: int, p: nat, bits: nat, n: nat)
    requires DescOk(desc) && Second(dl, opt, bl, fc, desc, r, leaves, opt0, p, bits, n)
    ensures Shaped(r, leaves, desc.elems) && |fc| == |dl| && Below(r, |dl|) && |bl| == 16 && bits <= 15 && n <= bl[bits]
  {
  }

  lemma SecondNext(dl: seq<nat>, opt: int, bl: seq<nat>, fc: seq<nat>, desc: Desc, r: seq<nat>, leaves: seq<nat>,
      opt0: int, p: nat, bits: nat)
    requires DescOk(desc) && Second(dl, opt, bl, fc, desc, r, leaves, opt0, p, bits, 0) && bits >= 1
    ensures |bl| == 16 && bits <= 15 && Second(dl, opt, bl, fc, desc, r, leaves, opt0, p, bits - 1, bl[bits - 1])
  {
    hide SumAt, Sum, Settling;
    GiveNext(dl, bl, desc.elems, r, p, bits);
  }

  // code lengths as gen_bitlen leaves them: no longer than allowed, exactly filling the
  // code space, counted in bl, and accounted for in opt and stat
  ghost predicate Lengths(dl: seq<nat>, bl: seq<nat>, opt: int, stat: int, fc: seq<nat>, desc: Desc, r: seq<nat>,
      opt0: int, stat0: int)
    requires DescOk(desc)
  {
    && |fc| == |dl| && LeafLens(dl, desc.elems, r, desc.maxLength) && CountsOf(dl, desc.elems, r) == bl
    && |bl| == 16 && Kraft(bl, desc.maxLength) == Pow2(desc.maxLength)
    && opt == opt0 + SumAt(BitsTable(fc, dl, desc), r) && stat == stat0 + SumAt(StatTable(fc, desc), r)
  }

  // recompute all lengths from the counts, scanning in increasing frequency
  method SecondPass(ws: Work, tree: Tree, desc: Desc, maxCode: int, ghost fc: seq<nat>, ghost fc1: seq<nat>,
      ghost bl: seq<nat>, ghost r: seq<nat>, ghost opt0: int)
    requires Apart(ws, tree) && DescOk(desc) && Fixed(ws, tree, desc, maxCode, fc, fc1, bl, r)
    requires Excess(bl, desc.maxLength, SumAtLeaves(tree.dl.Length, desc.elems, r), 0)
    requires Settling(tree.dl[..], ws.optLen, fc, desc, r, Used(fc1, desc.elems), opt0)
    modifies tree.dl, ws`optLen
    ensures Settling(tree.dl[..], ws.optLen, fc, desc, r, Used(fc1, desc.elems), opt0)
    ensures Below(r, tree.dl.Length) && CountsOf(tree.dl[..], desc.elems, r) == bl
    ensures Falling(tree.dl[..], desc.elems, r, |r|, 0)
    ensures SameUnused(old(tree.dl[..]), tree.dl[..], Used(fc1, desc.elems), desc.elems)
  {
    hide Used, DescOk, SameUnused, MaxUsed, Second, Settling, Falling;
    ghost var leaves, dl0 := Used(fc1, desc.elems), tree.dl[..];
    SameStart(dl0, leaves, desc.elems);
    SecondStart(dl0, ws.optLen, bl, fc, desc, r, leaves, opt0);
    SettlingShape(dl0, ws.optLen, fc, desc, r, leaves, opt0);
    FallingNone(dl0, desc.elems, r, desc.maxLength);
    var h: nat, bits: nat := HEAP_SIZE, desc.maxLength;
    while bits != 0
      invariant h <= HEAP_SIZE && bits <= desc.maxLength <= 15 && Fixed(ws, tree, desc, maxCode, fc, fc1, bl, r)
      invariant Second(tree.dl[..], ws.optLen, bl, fc, desc, r, leaves, opt0, HEAP_SIZE - h, bits, bl[bits])
      invariant Falling(tree.dl[..], desc.elems, r, HEAP_SIZE - h, bits)
      invariant SameUnused(dl0, tree.dl[..], leaves, desc.elems)
    {
      ghost var dl := tree.dl[..];
      h := GiveLength(ws, tree, desc, maxCode, bits, h, fc, fc1, bl, r, opt0);
      SameTwice(dl0, dl, tree.dl[..], leaves, desc.elems);
      SecondNext(tree.dl[..], ws.optLen, bl, fc, desc, r, leaves, opt0, HEAP_SIZE - h, bits);
      FallingNext(tree.dl[..], desc.elems, r, HEAP_SIZE - h, bits);
      bits := bits - 1;
    }
    SecondDone(tree.dl[..], ws.optLen, bl, fc, desc, r, leaves, opt0, HEAP_SIZE - h);
  }

  // the number of leaves
  ghost function SumAtLeaves(size: nat, elems: nat, r: seq<nat>): (n: nat) {
    if Below(r, size) then SumAt(LeafTable(size, elems), r) else 0
  }

  lemma SecondStart(dl: seq<nat>, opt: int, bl: seq<nat>, fc: seq<nat>, desc: Desc, r: seq<nat>, leaves: seq<nat>,
      opt0: int)
    requires DescOk(desc) && Settling(dl, opt, fc, desc, r, leaves, opt0)
    requires Excess(bl, desc.maxLength, SumAtLeaves(|dl|, desc.elems, r), 0)
    ensures desc.maxLength <= 15 && |bl| == 16 &&
        Second(dl, opt, bl, fc, desc, r, leaves, opt0, 0, desc.maxLength, bl[desc.maxLength])
  {
    hide SumAt, Sum, Kraft, Pow2;
    GiveStart(dl, bl, desc.elems, r, desc.maxLength);
  }

  lemma SecondDone(dl: seq<nat>, opt: int, bl: seq<nat>, fc: seq<nat>, desc: Desc, r: seq<nat>, leaves: seq<nat>,
      opt0: int, p: nat)
    requires DescOk(desc) && |bl| == 16 && Second(dl, opt, bl, fc, desc, r, leaves, opt0, p, 0, bl[0]) && bl[0] == 0
    ensures Settling(dl, opt, fc, desc, r, leaves, opt0) && Below(r, |dl|) && CountsOf(dl, desc.elems, r) == bl
    ensures Falling(dl, desc.elems, r, p, 0) ==> Falling(dl, desc.elems, r, |r|, 0)
  {
    hide SumAt, Sum;
    GiveDone(dl, bl, desc.elems, r, desc.maxLength, p);
  }

  lemma FallingNone(dl: seq<nat>, elems: nat, r: seq<nat>, bits: nat)
    requires Below(r, |dl|)
    ensures Falling(dl, elems, r, 0, bits)
  {
  }

  // the state after the first pass
  lemma FirstDone(dl: seq<nat>, t: Totals, fc: seq<nat>, desc: Desc, r: seq<nat>, leaves: seq<nat>, opt0: int,
      stat0: int)
    requires DescOk(desc) && Passed(dl, t, fc, desc, r, leaves, 0, opt0, stat0)
    ensures Below(r, |dl|) && Ready(dl, r, leaves, desc.elems, desc.maxLength)
    ensures CountsOf(dl, desc.elems, r) == t.bl && LeafLens(dl, desc.elems, r, desc.maxLength)
    ensures t.stat == stat0 + SumAt(StatTable(fc, desc), r) && |fc| == |dl|
    ensures t.overflow == Over(dl, r, desc.elems, desc.maxLength, 0)
    ensures Settling(dl, t.opt, fc, desc, r, leaves, opt0)
  {
    hide SumAt, Shaped;
    assert r[0..] == r;
    PassDone(dl, r, desc.elems, desc.maxLength);
    forall q | 0 <= q < |r| ensures 1 <= dl[r[q]] <= desc.maxLength {
      SonLen(dl, r, leaves, desc.elems, desc.maxLength, q);
    }
  }

  // what is too much after the first pass
  lemma FirstExcess(dl: seq<nat>, bl: seq<nat>, overflow: nat, desc: Desc, r: seq<nat>, leaves: seq<nat>)
    requires DescOk(desc) && Ready(dl, r, leaves, desc.elems, desc.maxLength) &&
        LeafLens(dl, desc.elems, r, desc.maxLength)
    requires CountsOf(dl, desc.elems, r) == bl && overflow == Over(dl, r, desc.elems, desc.maxLength, 0)
    ensures overflow % 2 == 0 && Excess(bl, desc.maxLength, SumAtLeaves(|dl|, desc.elems, r), overflow / 2)
  {
    hide SumAt, Shaped, Sum, Kraft, Pow2, Over;
    KraftCounts(dl, desc.elems, r, desc.maxLength);
    KraftExcess(dl, r, leaves, desc.elems, desc.maxLength);
    LimitLeaves(dl, r, leaves, desc.elems, desc.maxLength);
    FewLeaves(|dl|, r, leaves, desc.elems);
  }

  // no more leaves than symbols
  lemma FewLeaves(size: nat, r: seq<nat>, leaves: seq<nat>, elems: nat)
    requires Shaped(r, leaves, elems) && Below(r, size) && Root(r, elems) < size
    ensures SumAt(LeafTable(size, elems), r) == |leaves| <= elems
  {
    hide SumAt;
    var g := LeafTable(size, elems);
    LeafSum(g, r, leaves, elems);
    OnesSum(g, leaves, elems);
    IncreasingShort(leaves, elems);
  }

  lemma {:induction false} OnesSum(g: seq<nat>, s: seq<nat>, elems: nat)
    requires Below(s, elems) && elems <= |g| && forall x :: 0 <= x < elems ==> g[x] == 1
    ensures Below(s, |g|) && SumAt(g, s) == |s|
  {
    if s != [] { OnesSum(g, s[1..], elems); }
  }

  lemma {:induction false} IncreasingShort(s: seq<nat>, n: nat)
    requires Symbols(s, n)
    ensures |s| <= n
    decreases |s|
  {
    if s != [] {
      var k := |s| - 1;
      IncreasingShort(s[..k], s[k]);
    }
  }

  // a table that is zero on internal nodes adds up the same over nodes and over symbols
  lemma LeafSum(g: seq<nat>, r: seq<nat>, leaves: seq<nat>, elems: nat)
    requires Shaped(r, leaves, elems) && Below(r, |g|) && Root(r, elems) < |g| && elems <= |g|
    requires forall n :: elems <= n < |g| ==> g[n] == 0
    ensures Below(leaves, |g|) && SumAt(g, r) == SumAt(g, leaves)
  {
    hide SumAt;
    var root := Root(r, elems);
    var ids := Ids(elems, elems + |r| / 2);
    SumAtSnoc(g, r, root);
    SumAtConcat(g, leaves, ids);
    assert multiset(r + [root]) == multiset(r) + multiset([root]);
    assert multiset(leaves + ids) == multiset(leaves) + multiset(ids);
    SumAtPerm(g, r + [root], leaves + ids);
    ZeroSum(g, ids);
  }

  lemma {:induction false} ZeroSum(g: seq<nat>, s: seq<nat>)
    requires Below(s, |g|) && forall i :: 0 <= i < |s| ==> g[s[i]] == 0
    ensures SumAt(g, s) == 0
  {
    if s != [] { ZeroSum(g, s[1..]); }
  }

  // --- The whole of gen_bitlen ---

  // what gen_bitlen makes of the lengths first of its first pass: overflow nodes are cut off, which
  // is twice what the Kraft sum is over; without any the lengths are final, otherwise some symbol
  // has the greatest length
  ghost predicate CutOff(first: seq<nat>, dl: seq<nat>, desc: Desc, r: seq<nat>, leaves: seq<nat>, overflow: nat) {
    && Ready(first, r, leaves, desc.elems, desc.maxLength) && |r| % 2 == 0 && |first| >= desc.elems + |r| / 2 &&
        Below(r, |first|) && Below(r, |dl|)
    && overflow == Over(first, r, desc.elems, desc.maxLength, 0)
    && 2 * SumAt(KraftTable(first, desc.elems, desc.maxLength), r) == 2 * Pow2(desc.maxLength) + overflow
    && (overflow == 0 ==> dl == first)
    && (overflow > 0 ==> exists q :: 0 <= q < |r| && r[q] < desc.elems && dl[r[q]] == desc.maxLength)
    && (overflow > 0 ==> Falling(dl, desc.elems, r, |r|, 0))
  }

  method GenBitlen(ws: Work, tree: Tree, desc: Desc, maxCode: int, ghost fc: seq<nat>, ghost fc1: seq<nat>,
      ghost r: seq<nat>)
    returns (overflow: nat, ghost first: seq<nat>, ghost trail: seq<seq<nat>>)
    requires Apart(ws, tree) && DescOk(desc) && tree.fc[..] == fc && desc.elems <= |fc1|
    requires Built(ws.heap[..], ws.heapMax, fc, tree.dl[..], r, Used(fc1, desc.elems), desc.elems)
    requires MaxUsed(fc1, desc.elems, maxCode)
    modifies ws.blCount, tree.dl, ws`optLen, ws`staticLen
    ensures Lengths(tree.dl[..], ws.blCount[..], ws.optLen, ws.staticLen, fc, desc, r, old(ws.optLen),
        old(ws.staticLen))
    ensures SameUnused(old(tree.dl[..]), tree.dl[..], Used(fc1, desc.elems), desc.elems)
    ensures overflow % 2 == 0 && CutOff(first, tree.dl[..], desc, r, Used(fc1, desc.elems), overflow)
    ensures overflow > 0 ==> Repaired(first, ws.blCount[..], desc, r, overflow, trail)
  {
    hide Used, Shaped, MaxUsed, Weighted, Passed, SameUnused, DescOk, Dads, Excess, Settling, Lengths, Over, CutOff,
        Falling, Moves;
    trail := [];
    ghost var leaves, dl0, opt0, stat0 := Used(fc1, desc.elems), tree.dl[..], ws.optLen, ws.staticLen;
    overflow := FirstPass(ws, tree, desc, maxCode, fc, fc1, r);
    first := tree.dl[..];
    ghost var t := Totals(ws.blCount[..], overflow, ws.optLen, ws.staticLen);
    FirstDone(first, t, fc, desc, r, leaves, opt0, stat0);
    FirstExcess(first, t.bl, overflow, desc, r, leaves);
    if overflow != 0 {
      trail := Repair(ws.blCount, desc.maxLength, overflow, SumAtLeaves(|first|, desc.elems, r));
      ghost var bl := ws.blCount[..];
      LimitOf(desc);
      assert bl[desc.maxLength] >= 1;
      SecondPass(ws, tree, desc, maxCode, fc, fc1, bl, r, opt0);
      SameTwice(dl0, first, tree.dl[..], leaves, desc.elems);
      Longest(tree.dl[..], desc.elems, r, desc.maxLength);
    }
    AllLengths(tree.dl[..], ws.blCount[..], ws.optLen, ws.staticLen, fc, desc, r, leaves, opt0, stat0);
    CutOffIntro(first, tree.dl[..], desc, r, leaves, overflow);
  }

  // the counts are those of the first pass, moved down the tree overflow / 2 times
  ghost predicate Repaired(first: seq<nat>, bl: seq<nat>, desc: Desc, r: seq<nat>, overflow: nat,
      trail: seq<seq<nat>>) {
    && |trail| == overflow / 2 + 1 && Below(r, |first|) && trail[0] == CountsOf(first, desc.elems, r) &&
        trail[|trail| - 1] == bl
    && Moves(trail, desc.maxLength)
  }

  lemma LimitOf(desc: Desc)
    requires DescOk(desc)
    ensures 1 <= desc.maxLength <= 15
  {
  }

  lemma Longest(dl: seq<nat>, elems: nat, r: seq<nat>, max: nat)
    requires Below(r, |dl|) && max <= 15 && CountsOf(dl, elems, r)[max] >= 1
    ensures exists q :: 0 <= q < |r| && r[q] < elems && dl[r[q]] == max
  {
    if forall q :: 0 <= q < |r| && r[q] < elems ==> dl[r[q]] != max {
      ZeroSum(CountTable(dl, elems, max), r);
    }
  }

  lemma CutOffIntro(first: seq<nat>, dl: seq<nat>, desc: Desc, r: seq<nat>, leaves: seq<nat>, overflow: nat)
    requires Ready(first, r, leaves, desc.elems, desc.maxLength) && Below(r, |first|) && Below(r, |dl|)
    requires |r| % 2 == 0 && |first| >= desc.elems + |r| / 2 &&
        overflow == Over(first, r, desc.elems, desc.maxLength, 0)
    requires overflow == 0 ==> dl == first
    requires overflow > 0 ==> exists q :: 0 <= q < |r| && r[q] < desc.elems && dl[r[q]] == desc.maxLength
    requires overflow > 0 ==> Falling(dl, desc.elems, r, |r|, 0)
    ensures CutOff(first, dl, desc, r, leaves, overflow)
  {
    hide Ready, Over, SumAt, Pow2, KraftTable;
    KraftExcess(first, r, leaves, desc.elems, desc.maxLength);
  }

  lemma OnePair(dl: seq<nat>, r: seq<nat>, leaves: seq<nat>, elems: nat, max: nat, desc: Desc)
    requires Ready(dl, r, leaves, elems, max) && DescOk(desc) && max == desc.maxLength
    ensures LenRel(dl, r, elems, max) && |r| % 2 == 0 && |dl| >= elems + |r| / 2
    ensures |r| == 2 ==> Over(dl, r, elems, max, 0) == 0
  {
    if |r| == 2 {
      assert Root(r, elems) == elems;
      assert Over(dl, r, elems, max, 2) == 0;
      assert Over(dl, r, elems, max, 1) == 0;
    }
  }

  lemma AllLengths(dl: seq<nat>, bl: seq<nat>, opt: int, stat: int, fc: seq<nat>, desc: Desc, r: seq<nat>,
      leaves: seq<nat>, opt0: int, stat0: int)
    requires DescOk(desc) && Settling(dl, opt, fc, desc, r, leaves, opt0) && Below(r, |dl|) &&
        CountsOf(dl, desc.elems, r) == bl
    requires exists n: nat :: Excess(bl, desc.maxLength, n, 0)
    requires |fc| == |dl| && stat == stat0 + SumAt(StatTable(fc, desc), r)
    ensures Lengths(dl, bl, opt, stat, fc, desc, r, opt0, stat0)
  {
    hide SumAt, Shaped, Kraft, Pow2, Sum;
  }
}
