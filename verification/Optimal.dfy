/**
 Minimum-redundancy codes: what repeatedly combining the two least weights
 costs, and that no prefix code costs less.
 */
module Optimal {
  import opened Bits

  // --- Costs and Kraft sums ---

  // total length of a text with weights w under lengths l
  function Dot(w: seq<nat>, l: seq<nat>): (r: nat)
    requires |w| == |l|
  {
    if w == [] then 0 else Dot(w[..|w| - 1], l[..|w| - 1]) + w[|w| - 1] * l[|w| - 1]
  }

  // Kraft sum in units of 2^-top
  function KraftSum(l: seq<nat>, top: nat): (r: nat)
    requires forall i :: 0 <= i < |l| ==> l[i] <= top
  {
    if l == [] then 0 else KraftSum(l[..|l| - 1], top) + Pow2(top - l[|l| - 1])
  }

  ghost predicate Feasible(l: seq<nat>, top: nat) {
    (forall i :: 0 <= i < |l| ==> l[i] <= top) && KraftSum(l, top) <= Pow2(top)
  }

  // --- The least weight of a multiset ---

  ghost predicate IsMin(m: multiset<nat>, x: nat) {
    x in m && forall y :: y in m ==> x <= y
  }

  lemma {:induction false} MinExists(m: multiset<nat>)
    requires m != multiset{}
    ensures exists x: nat :: IsMin(m, x)
    decreases |m|
  {
    var a :| a in m;
    var rest := m - multiset{a};
    if rest == multiset{} {
      assert m == multiset{a};
      assert IsMin(m, a);
    } else {
      MinExists(rest);
      var b: nat :| IsMin(rest, b);
      assert m == rest + multiset{a};
      assert IsMin(m, if a <= b then a else b);
    }
  }

  ghost function MinOf(m: multiset<nat>): (x: nat)
    requires m != multiset{}
    ensures IsMin(m, x)
  {
    MinExists(m);
    var x: nat :| IsMin(m, x);
    x
  }

  lemma MinUnique(m: multiset<nat>, x: nat)
    requires m != multiset{} && IsMin(m, x)
    ensures MinOf(m) == x
  {
  }

  // m with a and b combined into one weight
  ghost function Merged(m: multiset<nat>, a: nat, b: nat): (r: multiset<nat>)
    requires a in m && b in m - multiset{a}
    ensures |r| == |m| - 1
  {
    var c: nat := a + b;
    m - multiset{a} - multiset{b} + multiset{c}
  }

  // combine the two least weights, and again, until one is left
  ghost function HuffCost(m: multiset<nat>): (c: nat)
    decreases |m|
  {
    if |m| < 2 then 0
    else
      var a := MinOf(m);
      assert |m - multiset{a}| == |m| - 1;
      var b := MinOf(m - multiset{a});
      a + b + HuffCost(Merged(m, a, b))
  }

  // whichever of several least weights are picked
  lemma HuffStep(m: multiset<nat>, a: nat, b: nat)
    requires IsMin(m, a) && IsMin(m - multiset{a}, b)
    ensures HuffCost(m) == a + b + HuffCost(Merged(m, a, b))
  {
    MinUnique(m, a);
    MinUnique(m - multiset{a}, b);
  }

  // --- No lengths do better ---

  lemma DotSnoc(w: seq<nat>, l: seq<nat>, x: nat, y: nat)
    requires |w| == |l|
    ensures Dot(w + [x], l + [y]) == Dot(w, l) + x * y
  {
    assert (w + [x])[..|w|] == w && (l + [y])[..|w|] == l;
  }

  lemma KraftSnoc(l: seq<nat>, y: nat, top: nat)
    requires (forall i :: 0 <= i < |l| ==> l[i] <= top) && y <= top
    ensures KraftSum(l + [y], top) == KraftSum(l, top) + Pow2(top - y)
  {
    assert (l + [y])[..|l|] == l;
  }

  lemma {:induction false} DotPut(w: seq<nat>, l: seq<nat>, i: nat, x: nat, y: nat)
    requires |w| == |l| && i < |w|
    ensures Dot(w[i := x], l[i := y]) == Dot(w, l) - w[i] * l[i] + x * y
    decreases |w|
  {
    var n := |w| - 1;
    if i < n {
      DotPut(w[..n], l[..n], i, x, y);
      assert w[i := x][..n] == w[..n][i := x] && l[i := y][..n] == l[..n][i := y];
    } else {
      assert w[i := x][..n] == w[..n] && l[i := y][..n] == l[..n];
    }
  }

  lemma {:induction false} KraftPut(l: seq<nat>, i: nat, y: nat, top: nat)
    requires (forall k :: 0 <= k < |l| ==> l[k] <= top) && i < |l| && y <= top
    ensures KraftSum(l[i := y], top) == KraftSum(l, top) - Pow2(top - l[i]) + Pow2(top - y)
    decreases |l|
  {
    var n := |l| - 1;
    if i < n {
      KraftPut(l[..n], i, y, top);
      assert l[i := y][..n] == l[..n][i := y];
    } else {
      assert l[i := y][..n] == l[..n];
    }
  }

  function Swap(s: seq<nat>, i: nat, j: nat): (r: seq<nat>)
    requires i < |s| && j < |s|
    ensures |r| == |s| && multiset(r) == multiset(s)
  {
    s[i := s[j]][j := s[i]]
  }

  // exchanging two symbols with their lengths changes nothing
  lemma SwapBoth(w: seq<nat>, l: seq<nat>, i: nat, j: nat, top: nat)
    requires |w| == |l| && i < |w| && j < |w| && Feasible(l, top)
    ensures Dot(Swap(w, i, j), Swap(l, i, j)) == Dot(w, l)
    ensures Feasible(Swap(l, i, j), top) && Total(Swap(l, i, j)) == Total(l)
  {
    hide Dot, KraftSum, Pow2, Total;
    if i != j {
      SwapDot(w, l, i, j);
      SwapKraft(l, i, j, top);
    } else {
      assert Swap(w, i, j) == w && Swap(l, i, j) == l;
    }
  }

  lemma SwapDot(w: seq<nat>, l: seq<nat>, i: nat, j: nat)
    requires |w| == |l| && i < |w| && j < |w| && i != j
    ensures Dot(Swap(w, i, j), Swap(l, i, j)) == Dot(w, l)
  {
    hide Dot;
    DotPut(w, l, i, w[j], l[j]);
    DotPut(w[i := w[j]], l[i := l[j]], j, w[i], l[i]);
  }

  lemma SwapKraft(l: seq<nat>, i: nat, j: nat, top: nat)
    requires (forall k :: 0 <= k < |l| ==> l[k] <= top) && i < |l| && j < |l| && i != j
    ensures KraftSum(Swap(l, i, j), top) == KraftSum(l, top) && Total(Swap(l, i, j)) == Total(l)
  {
    hide KraftSum, Pow2, Total;
    var m := l[i := l[j]];
    KraftPut(l, i, l[j], top);
    KraftPut(m, j, l[i], top);
    TotalPut(l, i, l[j]);
    TotalPut(m, j, l[i]);
  }

  function Total(l: seq<nat>): (r: nat) {
    if l == [] then 0 else Total(l[..|l| - 1]) + l[|l| - 1]
  }

  lemma {:induction false} TotalPut(l: seq<nat>, i: nat, y: nat)
    requires i < |l|
    ensures Total(l[i := y]) == Total(l) - l[i] + y
    decreases |l|
  {
    var n := |l| - 1;
    if i < n {
      TotalPut(l[..n], i, y);
      assert l[i := y][..n] == l[..n][i := y];
    } else {
      assert l[i := y][..n] == l[..n];
    }
  }

  // giving the smaller weight the longer code does no harm
  lemma SwapWeights(w: seq<nat>, l: seq<nat>, i: nat, j: nat)
    requires |w| == |l| && i < |w| && j < |w| && w[i] <= w[j] && l[i] <= l[j]
    ensures Dot(Swap(w, i, j), l) <= Dot(w, l)
  {
    if i != j {
      DotPut(w, l, i, w[j], l[i]);
      DotPut(w[i := w[j]], l, j, w[i], l[j]);
      assert l[i := l[i]] == l && l[j := l[j]] == l;
      Exchange(w[i], w[j], l[i], l[j]);
    } else {
      assert Swap(w, i, j) == w;
    }
  }

  lemma Exchange(a: nat, b: nat, x: nat, y: nat)
    requires a <= b && x <= y
    ensures b * x + a * y <= a * x + b * y
  {
    assert (b - a) * (y - x) >= 0;
    assert (b - a) * (y - x) == b * y - b * x - a * y + a * x;
  }

  lemma {:induction false} MaxAt(l: seq<nat>) returns (p: nat)
    requires l != []
    ensures p < |l| && forall i :: 0 <= i < |l| ==> l[i] <= l[p]
    decreases |l|
  {
    p := |l| - 1;
    if |l| > 1 {
      var q := MaxAt(l[..p]);
      if l[q] > l[p] { p := q; }
    }
  }

  lemma {:induction false} MinAt(w: seq<nat>) returns (p: nat)
    requires w != []
    ensures p < |w| && forall i :: 0 <= i < |w| ==> w[p] <= w[i]
    decreases |w|
  {
    p := |w| - 1;
    if |w| > 1 {
      var q := MinAt(w[..p]);
      if w[q] < w[p] { p := q; }
    }
  }

  lemma {:induction false} KraftScale(l: seq<nat>, a: nat, b: nat)
    requires a <= b && forall i :: 0 <= i < |l| ==> l[i] <= a
    ensures KraftSum(l, b) == KraftSum(l, a) * Pow2(b - a)
    decreases |l|
  {
    hide Pow2;
    if l != [] {
      var n := |l| - 1;
      KraftScale(l[..n], a, b);
      Pow2Add(a - l[n], b - a);
      assert (a - l[n]) + (b - a) == b - l[n];
      Distribute(KraftSum(l[..n], a), Pow2(a - l[n]), Pow2(b - a));
    }
  }

  // a single longest code is longer than it has to be
  lemma Shorten(t: seq<nat>, y: nat, top: nat)
    requires y >= 1 && Feasible(t + [y], top) && forall i :: 0 <= i < |t| ==> t[i] < y
    ensures Feasible(t + [y - 1], top)
  {
    hide Pow2, KraftSum;
    assert (t + [y])[|t|] == y;
    forall i | 0 <= i < |t| ensures t[i] <= y - 1 && t[i] <= top { assert (t + [y])[i] == t[i]; }
    var x, p := KraftSum(t, y - 1), Pow2(top - y);
    KraftScale(t, y - 1, top);
    KraftSnoc(t, y, top);
    KraftSnoc(t, y - 1, top);
    Pow2Next(top - y);
    Pow2Add(y - 1, top - (y - 1));
    assert (y - 1) + (top - (y - 1)) == top;
    Parity(x, p, Pow2(y - 1));
  }

  lemma Pow2Next(n: nat)
    ensures Pow2(n + 1) == 2 * Pow2(n)
  {
  }

  lemma Parity(x: nat, p: nat, q: nat)
    requires p > 0 && x * (2 * p) + p <= q * (2 * p)
    ensures x * (2 * p) + 2 * p <= q * (2 * p)
  {
    if x >= q { MulMono(q, x, 2 * p); }
    MulMono(x + 1, q, 2 * p);
    assert (x + 1) * (2 * p) == x * (2 * p) + 2 * p;
  }

  // two codes take at least one bit each
  lemma PairLong(t: seq<nat>, y: nat, top: nat)
    requires Feasible(t + [y, y], top)
    ensures y >= 1 && (forall i :: 0 <= i < |t| ==> t[i] <= top)
    ensures y <= top && KraftSum(t + [y, y], top) == KraftSum(t, top) + Pow2(top - y) + Pow2(top - y)
  {
    hide Pow2, KraftSum;
    var s := t + [y, y];
    assert s[|t|] == y;
    forall i | 0 <= i < |t| ensures t[i] <= top { assert s[i] == t[i]; }
    assert s == t + [y] + [y];
    KraftSnoc(t, y, top);
    KraftSnoc(t + [y], y, top);
  }

  // two longest codes give way to one a bit shorter
  lemma MergeKraft(t: seq<nat>, y: nat, top: nat)
    requires y >= 1 && Feasible(t + [y, y], top)
    ensures Feasible(t + [y - 1], top)
  {
    hide Pow2, KraftSum;
    PairLong(t, y, top);
    KraftSnoc(t, y - 1, top);
    Pow2Next(top - y);
  }

  lemma MergeDot(v: seq<nat>, t: seq<nat>, a: nat, b: nat, y: nat)
    requires |v| == |t| && y >= 1
    ensures Dot(v + [b, a], t + [y, y]) == Dot(v + [a + b], t + [y - 1]) + (a + b)
  {
    hide Dot;
    assert v + [b, a] == v + [b] + [a] && t + [y, y] == t + [y] + [y];
    DotSnoc(v, t, b, y);
    DotSnoc(v + [b], t + [y], a, y);
    DotSnoc(v, t, a + b, y - 1);
    MergeArith(a, b, y);
  }

  lemma MergeArith(a: nat, b: nat, y: nat)
    requires y >= 1
    ensures b * y + a * y == (a + b) * (y - 1) + (a + b)
  {
  }

  ghost predicate LeastAt(w: seq<nat>, i: nat) {
    i < |w| && forall x :: 0 <= x < |w| ==> w[i] <= w[x]
  }

  lemma LeastIsMin(w: seq<nat>, i: nat)
    requires LeastAt(w, i)
    ensures IsMin(multiset(w), w[i])
  {
    assert w[i] in multiset(w);
    forall y | y in multiset(w) ensures w[i] <= y { var x :| 0 <= x < |w| && w[x] == y; }
  }

  lemma SwapLast(w: seq<nat>, i: nat) returns (v: seq<nat>, a: nat)
    requires i < |w|
    ensures Swap(w, i, |w| - 1) == v + [a] && a == w[i] && |v| == |w| - 1
    ensures multiset(v + [a]) == multiset(w) && multiset(w) - multiset{a} == multiset(v)
  {
    var w1 := Swap(w, i, |w| - 1);
    v, a := w1[..|w| - 1], w1[|w| - 1];
    assert w1 == v + [a];
  }

  // move a least weight to the last, longest code
  lemma ToLast(w: seq<nat>, l: seq<nat>) returns (v: seq<nat>, a: nat)
    requires |w| == |l| >= 1 && forall i :: 0 <= i < |l| ==> l[i] <= l[|l| - 1]
    ensures |v| == |w| - 1 && Dot(v + [a], l) <= Dot(w, l)
    ensures multiset(w) - multiset{a} == multiset(v) && IsMin(multiset(w), a)
  {
    hide Dot, IsMin, Swap;
    var i := MinAt(w);
    LeastIsMin(w, i);
    SwapWeights(w, l, i, |w| - 1);
    v, a := SwapLast(w, i);
  }

  // the two least weights can be moved to the two longest codes
  lemma Arrange(w: seq<nat>, t: seq<nat>, y: nat) returns (v: seq<nat>, a: nat, b: nat)
    requires |w| == |t| + 2 && forall i :: 0 <= i < |t| ==> t[i] <= y
    ensures |v| == |t| && Dot(v + [b, a], t + [y, y]) <= Dot(w, t + [y, y])
    ensures IsMin(multiset(w), a) && IsMin(multiset(w) - multiset{a}, b)
    ensures var c: nat := a + b; Merged(multiset(w), a, b) == multiset(v + [c])
  {
    hide Dot, IsMin;
    var v1;
    v1, a := ToLast(w, t + [y, y]);
    v, b := ToLast(v1, t + [y]);
    DotSnoc(v1, t + [y], a, y);
    DotSnoc(v + [b], t + [y], a, y);
    assert t + [y, y] == t + [y] + [y] && v + [b, a] == v + [b] + [a];
    MergedAs(w, v1, v, a, b);
  }

  lemma MergedAs(w: seq<nat>, v1: seq<nat>, v: seq<nat>, a: nat, b: nat)
    requires multiset(w) - multiset{a} == multiset(v1) && multiset(v1) - multiset{b} == multiset(v)
    requires IsMin(multiset(w), a) && IsMin(multiset(v1), b)
    ensures IsMin(multiset(w) - multiset{a}, b)
    ensures var c: nat := a + b; Merged(multiset(w), a, b) == multiset(v + [c])
  {
    hide IsMin;
    var c: nat := a + b;
    InBoth(multiset(w), a, b);
    assert multiset(v + [c]) == multiset(v) + multiset{c};
  }

  lemma InBoth(m: multiset<nat>, a: nat, b: nat)
    requires IsMin(m, a) && IsMin(m - multiset{a}, b)
    ensures a in m && b in m - multiset{a}
  {
  }

  // no lengths that satisfy the Kraft inequality cost less
  lemma {:induction false} HuffLeast(w: seq<nat>, l: seq<nat>, top: nat)
    requires |w| == |l| && Feasible(l, top)
    ensures HuffCost(multiset(w)) <= Dot(w, l)
    decreases |w|, Total(l), 2
  {
    hide Dot, Feasible, Total, HuffCost;
    if |w| < 2 {
      FewCost(multiset(w));
    } else {
      var n := |w|;
      var p := MaxAt(l);
      SwapBoth(w, l, p, n - 1, top);
      var w1, l1 := Swap(w, p, n - 1), Swap(l, p, n - 1);
      var t, y := l1[..n - 1], l1[n - 1];
      assert l1 == t + [y];
      SortedCost(w1, t, y, top);
    }
  }

  // the same with a longest code at the end
  lemma {:induction false} SortedCost(w: seq<nat>, t: seq<nat>, y: nat, top: nat)
    requires |w| == |t| + 1 >= 2 && Feasible(t + [y], top) && forall i :: 0 <= i < |t| ==> t[i] <= y
    ensures HuffCost(multiset(w)) <= Dot(w, t + [y])
    decreases |w|, Total(t + [y]), 1
  {
    hide Dot, Feasible, Total, HuffCost;
    if q :| 0 <= q < |t| && t[q] == y {
      PairUp(w, t, y, q, top);
    } else {
      assert t[0] < y;
      Shorten(t, y, top);
      ShorterCost(w, t, y);
      HuffLeast(w, t + [y - 1], top);
    }
  }

  lemma FewCost(m: multiset<nat>)
    requires |m| < 2
    ensures HuffCost(m) == 0
  {
  }

  lemma ShorterCost(w: seq<nat>, t: seq<nat>, y: nat)
    requires |w| == |t| + 1 && y >= 1
    ensures Dot(w, t + [y - 1]) <= Dot(w, t + [y]) && Total(t + [y - 1]) < Total(t + [y])
  {
    hide Dot, Total;
    var n := |t|;
    DotPut(w, t + [y], n, w[n], y - 1);
    TotalPut(t + [y], n, y - 1);
    assert w[n := w[n]] == w && (t + [y])[n := y - 1] == t + [y - 1];
    MulMono(y - 1, y, w[n]);
  }

  lemma {:induction false} PairUp(w: seq<nat>, t: seq<nat>, y: nat, q: nat, top: nat)
    requires |w| == |t| + 1 >= 2 && Feasible(t + [y], top) && q < |t| && t[q] == y
    requires forall i :: 0 <= i < |t| ==> t[i] <= y
    ensures HuffCost(multiset(w)) <= Dot(w, t + [y])
    decreases |w|, 0, 0
  {
    hide Dot, Feasible, Total, HuffCost, IsMin, Merged, Swap;
    var n := |t|;
    SwapBoth(w, t + [y], q, n - 1, top);
    var w1 := Swap(w, q, n - 1);
    var u := TwoLast(t, y, q);
    var v, a, b := Arrange(w1, u, y);
    PairLong(u, y, top);
    MergeKraft(u, y, top);
    MergeDot(v, u, a, b, y);
    var c: nat := a + b;
    InBoth(multiset(w1), a, b);
    HuffStep(multiset(w1), a, b);
    HuffLeast(v + [c], u + [y - 1], top);
  }

  lemma TwoLast(t: seq<nat>, y: nat, q: nat) returns (u: seq<nat>)
    requires q < |t| && t[q] == y && forall i :: 0 <= i < |t| ==> t[i] <= y
    ensures |u| == |t| - 1 && Swap(t + [y], q, |t| - 1) == u + [y, y] && forall i :: 0 <= i < |u| ==> u[i] <= y
  {
    var r := Swap(t + [y], q, |t| - 1);
    u := r[..|t| - 1];
    assert r == u + [y, y];
  }

  // --- Prefix codes ---

  ghost predicate PrefixFree(cs: seq<seq<Bit>>) {
    forall i, j :: 0 <= i < |cs| && 0 <= j < |cs| && i != j ==> !(cs[i] <= cs[j])
  }

  function Lengths(cs: seq<seq<Bit>>): (l: seq<nat>)
    ensures |l| == |cs| && forall i :: 0 <= i < |cs| ==> l[i] == |cs[i]|
  {
    seq(|cs|, i requires 0 <= i < |cs| => |cs[i]|)
  }

  // the codewords that start with bit b, without it
  function After(cs: seq<seq<Bit>>, b: Bit): (r: seq<seq<Bit>>)
    ensures forall i :: 0 <= i < |r| ==> [b] + r[i] in cs
  {
    if cs == [] then []
    else
      var n := |cs| - 1;
      var front := After(cs[..n], b);
      if cs[n] != [] && cs[n][0] == b then
        assert cs[n] == [b] + cs[n][1..];
        front + [cs[n][1..]]
      else front
  }

  lemma {:induction false} AfterFree(cs: seq<seq<Bit>>, b: Bit)
    requires PrefixFree(cs)
    ensures PrefixFree(After(cs, b))
    decreases |cs|
  {
    if cs != [] {
      var n := |cs| - 1;
      AfterFree(cs[..n], b);
      var front := After(cs[..n], b);
      if cs[n] != [] && cs[n][0] == b {
        var tail := cs[n][1..];
        forall i | 0 <= i < |front| ensures !(front[i] <= tail) && !(tail <= front[i]) {
          TailApart(cs, n, b, front[i], tail);
        }
      }
    }
  }

  lemma PrefixCons(b: Bit, x: seq<Bit>, y: seq<Bit>)
    ensures [b] + x <= [b] + y <==> x <= y
  {
    if [b] + x <= [b] + y {
      assert x == ([b] + x)[1..] && y == ([b] + y)[1..];
    }
  }

  lemma TailApart(cs: seq<seq<Bit>>, n: nat, b: Bit, x: seq<Bit>, tail: seq<Bit>)
    requires PrefixFree(cs) && n < |cs| && cs[n] == [b] + tail && [b] + x in cs[..n]
    ensures !(x <= tail) && !(tail <= x)
  {
    var k :| 0 <= k < n && cs[..n][k] == [b] + x;
    assert cs[k] == [b] + x;
    PrefixCons(b, x, tail);
    PrefixCons(b, tail, x);
  }

  lemma LengthsSnoc(r: seq<seq<Bit>>, x: seq<Bit>, top: nat)
    requires (forall i :: 0 <= i < |r| ==> |r[i]| <= top) && |x| <= top
    ensures KraftSum(Lengths(r + [x]), top) == KraftSum(Lengths(r), top) + Pow2(top - |x|)
  {
    hide KraftSum, Pow2;
    assert Lengths(r + [x]) == Lengths(r) + [|x|];
    KraftSnoc(Lengths(r), |x|, top);
  }

  ghost predicate Short(cs: seq<seq<Bit>>, top: nat) {
    forall i :: 0 <= i < |cs| ==> |cs[i]| <= top
  }

  lemma {:induction false} AfterShort(cs: seq<seq<Bit>>, b: Bit, top: nat)
    requires top >= 1 && Short(cs, top)
    ensures Short(After(cs, b), top - 1)
    decreases |cs|
  {
    if cs != [] { AfterShort(cs[..|cs| - 1], b, top); }
  }

  lemma {:induction false} KraftSplit(cs: seq<seq<Bit>>, top: nat)
    requires top >= 1 && Short(cs, top) && forall i :: 0 <= i < |cs| ==> |cs[i]| >= 1
    ensures Short(After(cs, 0), top - 1) && Short(After(cs, 1), top - 1)
    ensures KraftSum(Lengths(cs), top)
         == KraftSum(Lengths(After(cs, 0)), top - 1) + KraftSum(Lengths(After(cs, 1)), top - 1)
    decreases |cs|
  {
    hide Pow2, KraftSum, After;
    AfterShort(cs, 0, top);
    AfterShort(cs, 1, top);
    if cs == [] {
      NoWords(top);
      NoWords(top - 1);
      AfterNone();
    } else {
      var n := |cs| - 1;
      var b := cs[n][0];
      KraftSplit(cs[..n], top);
      assert cs == cs[..n] + [cs[n]];
      LengthsSnoc(cs[..n], cs[n], top);
      AfterShort(cs[..n], b, top);
      LengthsSnoc(After(cs[..n], b), cs[n][1..], top - 1);
      AfterLast(cs, b);
    }
  }

  lemma AfterNone()
    ensures After([], 0) == [] && After([], 1) == []
  {
  }

  lemma AfterLast(cs: seq<seq<Bit>>, b: Bit)
    requires cs != [] && cs[|cs| - 1] != [] && cs[|cs| - 1][0] == b
    ensures After(cs, b) == After(cs[..|cs| - 1], b) + [cs[|cs| - 1][1..]]
    ensures After(cs, 1 - b) == After(cs[..|cs| - 1], 1 - b)
  {
  }

  lemma NoWords(top: nat)
    ensures KraftSum(Lengths([]), top) == 0
  {
  }

  // Kraft's inequality
  lemma {:induction false} KraftPrefix(cs: seq<seq<Bit>>, top: nat)
    requires PrefixFree(cs) && Short(cs, top)
    ensures Feasible(Lengths(cs), top)
    decreases top
  {
    hide Pow2, KraftSum, After;
    if k :| 0 <= k < |cs| && cs[k] == [] {
      EmptyWord(cs, k);
      OneWord(cs, top);
    } else if cs == [] {
      NoWords(top);
    } else {
      assert |cs[0]| >= 1;
      KraftSplit(cs, top);
      AfterFree(cs, 0);
      AfterFree(cs, 1);
      KraftPrefix(After(cs, 0), top - 1);
      KraftPrefix(After(cs, 1), top - 1);
      Pow2Next(top - 1);
    }
  }

  lemma EmptyWord(cs: seq<seq<Bit>>, k: nat)
    requires PrefixFree(cs) && k < |cs| && cs[k] == []
    ensures |cs| == 1
  {
    assert cs[k] <= cs[0];
    assert cs[k] <= cs[|cs| - 1];
  }

  lemma OneWord(cs: seq<seq<Bit>>, top: nat)
    requires |cs| == 1 && cs[0] == []
    ensures Feasible(Lengths(cs), top)
  {
    assert Lengths(cs) == [0];
    assert [0][..0] == [];
  }

  // no prefix code for symbols of weights w costs less than combining least weights does
  lemma PrefixCost(w: seq<nat>, cs: seq<seq<Bit>>)
    requires |w| == |cs| && PrefixFree(cs)
    ensures HuffCost(multiset(w)) <= Dot(w, Lengths(cs))
  {
    var top := 0;
    if cs != [] {
      var p := MaxAt(Lengths(cs));
      top := |cs[p]|;
      forall i | 0 <= i < |cs| ensures |cs[i]| <= top { assert Lengths(cs)[i] <= Lengths(cs)[p]; }
    }
    KraftPrefix(cs, top);
    HuffLeast(w, Lengths(cs), top);
  }
}
