/**
 Sums over lists of table indices, which do not depend on the order of the list.
 */
module Sums {

  function Sum(s: seq<nat>): (r: nat) {
    if s == [] then 0 else s[0] + Sum(s[1..])
  }

  ghost predicate Below(s: seq<nat>, n: nat) {
    forall i :: 0 <= i < |s| ==> s[i] < n
  }

  // the entries of g at the indices in s, added up
  ghost function SumAt(g: seq<nat>, s: seq<nat>): (r: nat)
    requires Below(s, |g|)
  {
    if s == [] then 0 else g[s[0]] + SumAt(g, s[1..])
  }

  lemma {:induction false} SumConcat(a: seq<nat>, b: seq<nat>)
    ensures Sum(a + b) == Sum(a) + Sum(b)
  {
    if a == [] {
      assert a + b == b;
    } else {
      SumConcat(a[1..], b);
      assert (a + b)[1..] == a[1..] + b;
    }
  }

  lemma {:induction false} SumPut(s: seq<nat>, i: nat, v: nat)
    requires i < |s|
    ensures Sum(s[i := v]) == Sum(s) - s[i] + v
  {
    if i > 0 {
      SumPut(s[1..], i - 1, v);
      assert s[i := v][1..] == s[1..][i - 1 := v];
    } else {
      assert s[i := v][1..] == s[1..];
    }
  }

  lemma {:induction false} SumZero(s: seq<nat>)
    requires forall i :: 0 <= i < |s| ==> s[i] == 0
    ensures Sum(s) == 0
  {
    if s != [] { SumZero(s[1..]); }
  }

  lemma {:induction false} SumAtLeast(s: seq<nat>, i: nat)
    requires i < |s|
    ensures s[i] <= Sum(s)
  {
    if i > 0 { SumAtLeast(s[1..], i - 1); }
  }

  lemma {:induction false} SumAtConcat(g: seq<nat>, a: seq<nat>, b: seq<nat>)
    requires Below(a, |g|) && Below(b, |g|)
    ensures Below(a + b, |g|) && SumAt(g, a + b) == SumAt(g, a) + SumAt(g, b)
  {
    if a == [] {
      assert a + b == b;
    } else {
      SumAtConcat(g, a[1..], b);
      assert (a + b)[1..] == a[1..] + b;
    }
  }

  lemma SumAtSnoc(g: seq<nat>, a: seq<nat>, x: nat)
    requires Below(a, |g|) && x < |g|
    ensures Below(a + [x], |g|) && SumAt(g, a + [x]) == SumAt(g, a) + g[x]
  {
    SumAtConcat(g, a, [x]);
    assert [x][1..] == [];
  }

  // only the entries at the listed indices matter
  lemma {:induction false} SumAtSame(g: seq<nat>, g': seq<nat>, s: seq<nat>)
    requires Below(s, |g|) && Below(s, |g'|) && forall i :: 0 <= i < |s| ==> g[s[i]] == g'[s[i]]
    ensures SumAt(g, s) == SumAt(g', s)
  {
    if s != [] { SumAtSame(g, g', s[1..]); }
  }

  lemma SumAtTake(g: seq<nat>, s: seq<nat>, j: nat)
    requires Below(s, |g|) && j < |s|
    ensures Below(s[..j] + s[j + 1..], |g|) && SumAt(g, s) == g[s[j]] + SumAt(g, s[..j] + s[j + 1..])
  {
    SumAtConcat(g, s[..j], s[j..]);
    SumAtConcat(g, s[..j], s[j + 1..]);
    assert s == s[..j] + s[j..] && s[j..][1..] == s[j + 1..];
  }

  lemma TakeOut(s: seq<nat>, x: nat) returns (j: nat)
    requires x in s
    ensures j < |s| && s[j] == x && multiset(s[..j] + s[j + 1..]) == multiset(s) - multiset{x}
  {
    j :| 0 <= j < |s| && s[j] == x;
    assert s == s[..j] + [x] + s[j + 1..];
  }

  lemma TailBag(a: seq<nat>)
    requires a != []
    ensures multiset(a[1..]) == multiset(a) - multiset{a[0]}
  {
    assert a == [a[0]] + a[1..];
  }

  // the order does not matter
  lemma {:induction false} SumAtPerm(g: seq<nat>, a: seq<nat>, b: seq<nat>)
    requires Below(a, |g|) && Below(b, |g|) && multiset(a) == multiset(b)
    ensures SumAt(g, a) == SumAt(g, b)
    decreases |a|
  {
    if a == [] {
      assert |multiset(b)| == 0;
      assert b == [];
    } else {
      var x := a[0];
      assert x in multiset(a);
      var j := TakeOut(b, x);
      SumAtTake(g, b, j);
      TailBag(a);
      SumAtPerm(g, a[1..], b[..j] + b[j + 1..]);
    }
  }

  // the numbers from a up to b
  function Ids(a: nat, b: nat): (s: seq<nat>)
    requires a <= b
    ensures |s| == b - a && forall i :: 0 <= i < |s| ==> s[i] == a + i
  {
    seq(b - a, i requires 0 <= i => a + i)
  }

  lemma {:induction false} SumAtIds(g: seq<nat>, a: nat, b: nat)
    requires a <= b <= |g|
    ensures SumAt(g, Ids(a, b)) == Sum(g[a..b])
    decreases b - a
  {
    if a < b {
      SumAtIds(g, a + 1, b);
      assert Ids(a, b)[1..] == Ids(a + 1, b);
      assert g[a..b][1..] == g[a + 1..b];
    }
  }

  // the weights of the listed nodes
  function Weights(g: seq<nat>, s: seq<nat>): (r: seq<nat>)
    requires Below(s, |g|)
    ensures |r| == |s| && forall i :: 0 <= i < |s| ==> r[i] == g[s[i]]
  {
    seq(|s|, i requires 0 <= i < |s| => g[s[i]])
  }

  lemma WeightsTake(g: seq<nat>, s: seq<nat>, j: nat)
    requires Below(s, |g|) && j < |s|
    ensures Below(s[..j] + s[j + 1..], |g|)
    ensures multiset(Weights(g, s)) == multiset(Weights(g, s[..j] + s[j + 1..])) + multiset{g[s[j]]}
  {
    var a, b := Weights(g, s[..j]), Weights(g, s[j + 1..]);
    assert Weights(g, s) == a + [g[s[j]]] + b;
    assert Weights(g, s[..j] + s[j + 1..]) == a + b;
  }

  lemma {:induction false} WeightsPerm(g: seq<nat>, a: seq<nat>, b: seq<nat>)
    requires Below(a, |g|) && Below(b, |g|) && multiset(a) == multiset(b)
    ensures multiset(Weights(g, a)) == multiset(Weights(g, b))
    decreases |a|
  {
    if a == [] {
      assert |multiset(b)| == 0;
      assert b == [];
    } else {
      var x := a[0];
      assert x in multiset(a);
      var j := TakeOut(b, x);
      WeightsTake(g, b, j);
      WeightsTake(g, a, 0);
      assert a[..0] + a[0 + 1..] == a[1..] && a == [x] + a[1..];
      WeightsPerm(g, a[1..], b[..j] + b[j + 1..]);
    }
  }

  lemma {:induction false} WeightsSum(g: seq<nat>, s: seq<nat>)
    requires Below(s, |g|)
    ensures SumAt(g, s) == Sum(Weights(g, s))
  {
    if s != [] {
      WeightsSum(g, s[1..]);
      assert Weights(g, s)[1..] == Weights(g, s[1..]);
    }
  }
}
