/**
 The main part of huft_build: from counted code lengths to multi-level lookup tables.
 */
module HuftTables {
  import opened Bits
  import opened Canonical
  import opened Huft

  // --- Arithmetic of codes and their prefixes ---

  lemma DivMono(a: nat, b: nat, n: nat)
    requires a <= b
    ensures a / Pow2(n) <= b / Pow2(n)
  {
    var d := Pow2(n);
    assert a == a / d * d + a % d;
    DivAtLeast(b, d, a / d);
  }

  // along the canonical order the first w bits never decrease
  lemma OrderTop(c: seq<nat>, n1: nat, q1: nat, n2: nat, q2: nat, w: nat)
    requires w <= n1 <= n2 < |c| && IsCode(c, n1, q1) && (n1 == n2 ==> q1 <= q2)
    requires n1 < n2 ==> First(c, n2) <= q2
    ensures q1 / Pow2(n1 - w) <= q2 / Pow2(n2 - w)
  {
    if n1 == n2 {
      DivMono(q1, q2, n1 - w);
    } else {
      PrefixBeyond(c, q2, n2, n1);
      DivMono(q1, q2 / Pow2(n2 - n1), n1 - w);
      DivDiv(q2, n2 - n1, n1 - w);
    }
  }

  // having a path as prefix is having its value in the top bits
  lemma PathTop(q: nat, n: nat, path: seq<Bit>)
    requires |path| <= n && q < Pow2(n)
    ensures path <= CodeBits(q, n) <==> q / Pow2(n - |path|) == Msb(path)
    ensures path <= CodeBits(q, n) <==> CodeBits(q, n)[..|path|] == path
  {
    var w := |path|;
    MsbTop(q, n, w);
    CodeMsb(CodeBits(q, n)[..w]);
    CodeMsb(path);
    if path <= CodeBits(q, n) { PrefixIsTake(path, CodeBits(q, n)); }
  }

  // a code that passes through a narrow table ends in it
  lemma NarrowTable(x: Ctx, f: Info, k: nat, q: nat)
    requires CtxOk(x) && Filled(x, f) && f.nb < x.l
    requires k <= x.g && IsCode(x.c, k, q) && |f.path| < k && f.path <= CodeBits(q, k)
    ensures k <= |f.path| + f.nb
  {
    var m := |f.path| + f.nb;
    if k > m {
      IsCodeFits(x.c, x.g, k, q);
      BeyondAll(x.c, k, q, m);
      var bound := (Msb(f.path) + 1) * Pow2(f.nb);
      assert Kraft(x.c, m) >= bound;
      hide *;
      PathTop(q, k, f.path);
      BelowBlock(q, k, m, f.nb, Msb(f.path));
    }
  }

  lemma BeyondAll(c: seq<nat>, k: nat, q: nat, m: nat)
    requires m < k < |c| && IsCode(c, k, q)
    ensures Kraft(c, m) <= q / Pow2(k - m)
  {
    if m > 0 { PrefixBeyond(c, q, k, m); }
  }

  lemma BelowBlock(q: nat, k: nat, m: nat, n: nat, v: nat)
    requires n <= m <= k && q / Pow2(k - (m - n)) == v
    ensures q / Pow2(k - m) < (v + 1) * Pow2(n)
  {
    hide *;
    DivDiv(q, k - m, n);
    assert k - m + n == k - (m - n);
    BelowNext(q / Pow2(k - m), Pow2(n), v);
  }

  lemma BelowNext(x: nat, d: nat, m: nat)
    requires d > 0 && x / d == m
    ensures x < (m + 1) * d
  {
    assert (m + 1) * d == m * d + d;
  }

  // a code with zero tail has the value of its first w bits
  lemma {:induction false} ZeroTail(q: nat, k: nat, w: nat)
    requires w <= k && q % Pow2(k - w) == 0
    ensures Val(CodeBits(q, k)) == Val(CodeBits(q, k)[..w])
    decreases k
  {
    if w == k {
      assert CodeBits(q, k)[..w] == CodeBits(q, k);
    } else {
      DivPow2Step(q, k - 1 - w);
      ZeroTail(q / 2, k - 1, w);
      ValAppend(CodeBits(q / 2, k - 1), [0]);
      assert Val([0]) == 0;
      assert CodeBits(q, k)[..w] == CodeBits(q / 2, k - 1)[..w];
    }
  }

  lemma ZeroTailSegment(q: nat, k: nat, w: nat, w2: nat)
    requires w <= w2 <= k && q % Pow2(k - w2) == 0
    ensures Shr(Val(CodeBits(q, k)), w) == Val(CodeBits(q, k)[w..w2])
  {
    ZeroTail(q, k, w2);
    var s := CodeBits(q, k)[..w2];
    ShrVal(s, w);
    assert s[w..] == CodeBits(q, k)[w..w2];
  }

  lemma {:induction false} ShrVal(s: seq<Bit>, w: nat)
    requires w <= |s|
    ensures Shr(Val(s), w) == Val(s[w..])
    decreases w
  {
    if w == 0 {
      assert s[0..] == s;
    } else {
      ShrVal(s[1..], w - 1);
      assert s[1..][w - 1..] == s[w..];
    }
  }

  lemma ModVal(s: seq<Bit>, w: nat)
    requires w <= |s|
    ensures Val(s) % Pow2(w) == Val(s[..w])
  {
    hide *;
    var a, b := s[..w], s[w..];
    assert s == a + b;
    ValAppend(a, b);
    SplitAt(Val(a), Val(b), w);
  }

  // --- Counting codes ---

  function SumFrom(c: seq<nat>, k: nat, g: nat): (r: nat)
    requires g < |c|
    decreases g + 1 - k
  {
    if k > g then 0 else c[k] + SumFrom(c, k + 1, g)
  }

  // what the codes of length k and more have to cover needs that many codes
  lemma {:induction false} TailCount(c: seq<nat>, k: nat, g: nat)
    requires 1 <= k <= g + 1 <= |c| && Kraft(c, g) == Pow2(g)
    ensures First(c, k) + SumFrom(c, k, g) >= Pow2(k) || k == g + 1
    ensures Kraft(c, k - 1) <= Pow2(k - 1)
    decreases g + 1 - k
  {
    KraftBelow(c, k - 1, g);
    if k <= g {
      TailCount(c, k + 1, g);
    }
  }

  // few enough codes, or few enough levels, for subtables of at most l bits
  ghost predicate Roomy(c: seq<nat>, g: nat, l: nat)
    requires g < |c|
  {
    g <= 2 * l || SumFrom(c, 1, g) < Pow2(l)
  }

  lemma {:induction false} SumSplit(c: seq<nat>, j: nat, k: nat, g: nat)
    requires j <= k <= g < |c|
    ensures SumFrom(c, k, g) <= SumFrom(c, j, g)
    decreases k - j
  {
    if j < k { SumSplit(c, j + 1, k, g); }
  }

  // a subtable that starts with a k-bit code needs at most l bits for it, and no
  // more than that many codes of that length are left over
  lemma RoomyWidth(c: seq<nat>, g: nat, l: nat, k: nat, q: nat, w: nat)
    requires 1 <= l <= w < k <= g < |c| && Kraft(c, g) == Pow2(g) && IsCode(c, k, q)
    requires q % Pow2(k - w) == 0 && Roomy(c, g, l)
    ensures k - w < l || (k - w == l && k == g)
  {
    if g > 2 * l {
      TailCount(c, k, g);
      SumSplit(c, 1, k, g);
      IsCodeFits(c, g, k, q);
      BlockInside(q, k, w);
      if k - w >= l { Pow2Mono(l, k - w); }
    }
  }

  // a block of codes with the same first w bits ends within the k-bit codes
  lemma BlockInside(q: nat, k: nat, w: nat)
    requires w <= k && q < Pow2(k) && q % Pow2(k - w) == 0
    ensures q == q / Pow2(k - w) * Pow2(k - w)
    ensures q / Pow2(k - w) < Pow2(w)
    ensures q + Pow2(k - w) <= Pow2(k)
  {
    Pow2Add(w, k - w);
    MultipleBelow(q, Pow2(k - w), Pow2(w));
  }

  lemma MultipleBelow(q: int, d: int, m: int)
    requires d > 0 && q % d == 0 && q < m * d
    ensures q == q / d * d && q / d < m && q + d <= m * d
  {
    var r := q / d;
    assert q == r * d;
    assert (r + 1) * d == r * d + d;
    DivBelow(q, d, m);
    MulMono(r + 1, m, d);
  }

  // --- The parts of huft_build ---

  // the width of a new table for the codes of the block that starts with the current
  // k-bit code; a + 1 codes of k bits are left, and the block ends at p * 2^(k - w)
  method TableBits(c: seq<nat>, k: nat, a: nat, w: nat, l: nat, g: nat, ghost p: nat) returns (j: nat)
    requires w < k <= g < |c| && l >= 1 && p <= Pow2(w)
    requires Kraft(c, g) == Pow2(g) && Kraft(c, k) - (a + 1) == p * Pow2(k - w) - Pow2(k - w)
    ensures j >= k - w
    ensures j < l ==> w + j <= g && Kraft(c, w + j) >= p * Pow2(j)
    ensures k - w < l || (k - w == l && k == g) ==> j <= l
    ensures k - w >= l && Pow2(k - w) > a + 1 ==> j == k - w + 1
  {
    LastLevel(c, g, w, p);
    var z := if g - w > l then l else g - w;
    j := k - w;
    var f := Shl(1, j);
    if f > a + 1 {
      f := f - (a + 1);
      var xp := k;
      j := j + 1;
      while j < z
        invariant k - w < j <= (if z > k - w then z else k - w + 1)
        invariant xp == w + j - 1
        invariant 1 <= f == p * Pow2(j - 1) - Kraft(c, w + j - 1)
      {
        f := f * 2;
        xp := xp + 1;
        Double(p, Pow2(j - 1));
        if f <= c[xp] {
          break;
        }
        f := f - c[xp];
        j := j + 1;
      }
    }
  }

  lemma LastLevel(c: seq<nat>, g: nat, w: nat, p: nat)
    requires w <= g < |c| && Kraft(c, g) == Pow2(g) && p <= Pow2(w)
    ensures Kraft(c, g) >= p * Pow2(g - w)
  {
    Pow2Add(w, g - w);
    MulMono(p, Pow2(w), Pow2(g - w));
  }

  // the backwards increment of a k-bit code
  method Increment(i0: nat, k: nat, ghost q: nat) returns (i: nat)
    requires k >= 1 && i0 == Val(CodeBits(q, k))
    ensures i == Val(CodeBits(q + 1, k))
  {
    i := i0;
    var j := Shl(1, k - 1);
    ghost var r: nat, n: nat := q, k;
    ghost var goal := Val(CodeBits(q + 1, k));
    while And(i, j) != 0
      invariant i == Val(CodeBits(r, n)) && goal == Val(CodeBits(r + 1, n))
      invariant j == if n == 0 then 0 else Pow2(n - 1)
      decreases n
    {
      assert n > 0;
      IncStep(r, n);
      i := Xor(i, j);
      j := Shr(j, 1);
      r, n := r / 2, n - 1;
    }
    if n > 0 {
      IncStep(r, n);
    }
    i := Xor(i, j);
  }

  // one turn of the increment: a trailing one is cleared, the last zero is set
  lemma IncStep(r: nat, n: nat)
    requires n >= 1
    ensures var i := Val(CodeBits(r, n)); var j := Pow2(n - 1);
            && (And(i, j) != 0 ==> Xor(i, j) == Val(CodeBits(r / 2, n - 1))
                                   && Val(CodeBits(r + 1, n)) == Val(CodeBits(r / 2 + 1, n - 1)))
            && (And(i, j) == 0 ==> Xor(i, j) == Val(CodeBits(r + 1, n)))
            && Shr(j, 1) == (if n == 1 then 0 else Pow2(n - 2))
  {
    hide *;
    HalfPow(n - 1);
    CodeLast(r, n);
    CodeLast(r + 1, n);
    TopBit(Val(CodeBits(r / 2, n - 1)), r % 2, n - 1);
    Successor(r);
  }

  lemma Successor(r: nat)
    ensures r % 2 == 1 ==> (r + 1) / 2 == r / 2 + 1 && (r + 1) % 2 == 0
    ensures r % 2 == 0 ==> (r + 1) / 2 == r / 2 && (r + 1) % 2 == 1
  {
  }

  lemma HalfPow(n: nat)
    ensures Shr(Pow2(n), 1) == if n == 0 then 0 else Pow2(n - 1)
  {
    assert Shr(Pow2(n), 1) == Shr(Pow2(n) / 2, 0);
  }

  lemma TopBit(a: nat, b: nat, n: nat)
    requires a < Pow2(n) && b <= 1
    ensures And(a + b * Pow2(n), Pow2(n)) != 0 <==> b == 1
    ensures Xor(a + b * Pow2(n), Pow2(n)) == a + (1 - b) * Pow2(n)
  {
    hide *;
    OneBit(a + b * Pow2(n), n);
    SplitAt(a, b, n);
    assert b == 0 || b == 1;
  }

  // the last bit of an n-bit code is the top bit of its reversed value
  lemma CodeLast(r: nat, n: nat)
    requires n >= 1
    ensures Val(CodeBits(r, n)) == Val(CodeBits(r / 2, n - 1)) + (r % 2) * Pow2(n - 1)
  {
    ValAppend(CodeBits(r / 2, n - 1), [r % 2]);
    assert Val([r % 2]) == r % 2 by { assert [r % 2][1..] == []; }
  }

  // q[j] = r for j = j0, j0 + f, ...
  method FillEntries(table: seq<Huft>, ghost code: seq<Bit>, j0: nat, f: nat, r: Huft) returns (res: seq<Huft>)
    requires j0 == Val(code) && f == Pow2(|code|)
    ensures Overwritten(table, res, code, r)
  {
    res := table;
    var j := j0;
    ghost var m := 0;
    forall idx | 0 <= idx < j0
      ensures BitsOf(idx, |code|) != code
    {
      DivModUnique(idx, f, 0, idx);
      ModBits(idx, code);
    }
    while j < |table|
      invariant j == m * f + j0
      invariant |res| == |table|
      invariant forall idx :: 0 <= idx < |table| ==>
        res[idx] == if idx < j && BitsOf(idx, |code|) == code then r else table[idx]
      decreases |table| - j
    {
      DivModUnique(j, f, m, j0);
      ModBits(j, code);
      forall idx | j < idx < j + f
        ensures BitsOf(idx, |code|) != code
      {
        Between(idx, j, f, m, j0);
        ModBits(idx, code);
      }
      res := res[j := r];
      j := j + f;
      m := m + 1;
    }
  }

  lemma Between(idx: nat, j: nat, f: nat, m: nat, j0: nat)
    requires j0 < f && j == m * f + j0 && j < idx < j + f
    ensures idx % f != j0
  {
    assert idx == idx / f * f + idx % f;
    if idx % f == j0 {
      var d := idx / f - m;
      assert d * f == idx / f * f - m * f;
      MulBound(d, f);
    }
  }

  // --- The state of the construction before the k-bit code q ---

  // what the leaves hold: symbols in canonical order, then the caller's lists
  datatype Payload = Payload(v: seq<nat>, n: nat, s: nat, d: seq<nat>, e: seq<nat>)

  function LeafE(pl: Payload, o: nat): (r: nat) {
    if o >= pl.n || o >= |pl.v| then 99
    else if pl.v[o] < pl.s then if pl.v[o] < 256 then 16 else 15
    else if pl.v[o] - pl.s < |pl.e| then pl.e[pl.v[o] - pl.s] else 99
  }

  function LeafV(pl: Payload, o: nat): (r: nat) {
    if o >= pl.n || o >= |pl.v| then 0
    else if pl.v[o] < pl.s then pl.v[o]
    else if pl.v[o] - pl.s < |pl.d| then pl.d[pl.v[o] - pl.s] else 0
  }

  // codes of a length below k
  function OffTo(c: seq<nat>, k: nat): (r: nat)
    requires k <= |c|
  {
    if k <= 1 then 0 else OffTo(c, k - 1) + c[k - 1]
  }

  // number of a code in canonical order
  function Ord(c: seq<nat>, n: nat, p: nat): (r: nat)
    requires 1 <= n <= |c| && First(c, n) <= p
  {
    OffTo(c, n) + p - First(c, n)
  }

  // the tables decode the n-bit code p
  ghost predicate Decoded(x: Ctx, pl: Payload, tables: seq<seq<Huft>>, info: seq<Info>, n: nat, p: nat) {
    && |info| == |tables| && IsCode(x.c, n, p)
    && var o := Ord(x.c, n, p);
       Placed(x, tables, info, n, p, LeafE(pl, o), LeafV(pl, o))
  }

  ghost predicate AllPlaced(x: Ctx, pl: Payload, tables: seq<seq<Huft>>, info: seq<Info>, k: nat, q: nat)
    requires CtxOk(x)
  {
    forall n: nat, p: nat :: Done(x, k, q, n, p) ==> Decoded(x, pl, tables, info, n, p)
  }

  ghost predicate Building(x: Ctx, pl: Payload, tables: seq<seq<Huft>>, info: seq<Info>, k: nat, q: nat) {
    Shape(x, tables, info, k, q) && AllPlaced(x, pl, tables, info, k, q)
  }

  // the tables that the current code passes through, outermost first
  ghost predicate Chain(info: seq<Info>, u: seq<nat>) {
    && (|u| > 0 ==> u[0] == 0)
    && (forall j :: 0 <= j < |u| ==> u[j] < |info|)
    && (forall j :: 0 < j < |u| ==> u[j] > 0 && info[u[j]].par == u[j - 1])
    && (forall i, j :: 0 <= i < j < |u| ==> |info[u[i]].path| < |info[u[j]].path|)
  }

  ghost predicate Along(info: seq<Info>, u: seq<nat>, xs: seq<nat>, cur: seq<Bit>) {
    && |xs| == |u|
    && (forall j :: 0 <= j < |u| ==> u[j] < |info|)
    && (forall j :: 0 <= j < |u| ==> info[u[j]].path <= cur && xs[j] == Val(info[u[j]].path))
  }

  ghost predicate Covers(info: seq<Info>, u: seq<nat>, cur: seq<Bit>) {
    forall t :: 0 <= t < |info| && info[t].path <= cur ==> t in u
  }

  ghost predicate Stack(info: seq<Info>, u: seq<nat>, xs: seq<nat>, cur: seq<Bit>) {
    Chain(info, u) && Along(info, u, xs, cur) && Covers(info, u, cur)
  }

  ghost function Level(x: Ctx, info: seq<Info>, u: seq<nat>): (w: int)
    requires forall j :: 0 <= j < |u| ==> u[j] < |info|
  {
    if u == [] then 0 - x.l else |info[u[|u| - 1]].path|
  }

  // where a table would have to be made next, the code has only zeros below it
  ghost predicate ZeroBelow(l: nat, w: int, k: nat, q: nat) {
    0 <= w + l && (w + l <= k ==> q % Pow2(k - (w + l)) == 0)
  }

  // --- A new table ---

  lemma RootStep(x: Ctx, pl: Payload, blank: seq<Huft>, k: nat, q: nat)
    requires CtxOk(x) && k <= x.g && IsCode(x.c, k, q) && Pow2(x.l) <= |blank|
    requires forall n: nat, p: nat :: !Done(x, k, q, n, p)
    ensures var f := Info([], x.l, 0, k, q);
            Building(x, pl, [blank], [f], k, q) && Stack([f], [0], [0], CodeBits(q, k))
  {
    var f := Info([], x.l, 0, k, q);
    assert InfoOk(x, [blank], [f], 0);
    assert Witnessed(x, f, k, q);
  }

  ghost predicate NewBelow(x: Ctx, tables: seq<seq<Huft>>, info: seq<Info>, f: Info, blank: seq<Huft>, k: nat, q: nat) {
    && CtxOk(x) && |info| == |tables|
    && f.par < |info| && |f.path| == |info[f.par].path| + x.l && info[f.par].path <= f.path
    && info[f.par].nb >= x.l && Pow2(x.l) <= |tables[f.par]|
    && Val(f.path[|f.path| - x.l..]) < |tables[f.par]|
    && k <= x.g && IsCode(x.c, k, q) && f.path <= CodeBits(q, k) && |f.path| < k
    && f.wn == k && f.wq == q && f.nb >= 1 && (x.roomy ==> f.nb <= x.l) && Filled(x, f)
    && Pow2(f.nb) <= |blank|
  }

  function Hang(x: Ctx, tables: seq<seq<Huft>>, f: Info, blank: seq<Huft>): (r: seq<seq<Huft>>)
    requires f.par < |tables| && |f.path| >= x.l && Val(f.path[|f.path| - x.l..]) < |tables[f.par]|
    ensures |r| == |tables| + 1
  {
    WithLink(tables, f.par, Val(f.path[|f.path| - x.l..]), Huft(16 + f.nb, x.l, |tables|), blank)
  }

  lemma TableLinks(x: Ctx, tables: seq<seq<Huft>>, info: seq<Info>, f: Info, blank: seq<Huft>, k: nat, q: nat)
    requires Linked(x, tables, info) && NewBelow(x, tables, info, f, blank, k, q)
    requires forall t :: 0 <= t < |info| ==> info[t].path != f.path
    ensures Linked(x, Hang(x, tables, f, blank), info + [f])
  {
    var tables', info' := Hang(x, tables, f, blank), info + [f];
    assert InfoOk(x, tables', info', |info|);
    forall t | 0 <= t < |info|
      ensures InfoOk(x, tables', info', t)
    {
      LinkKeepsLink(x, tables, info, f, blank, t);
    }
  }

  lemma TableShape(x: Ctx, tables: seq<seq<Huft>>, info: seq<Info>, f: Info, blank: seq<Huft>, k: nat, q: nat)
    requires Shape(x, tables, info, k, q) && NewBelow(x, tables, info, f, blank, k, q)
    requires forall t :: 0 <= t < |info| ==> info[t].path != f.path
    ensures Shape(x, Hang(x, tables, f, blank), info + [f], k, q)
  {
    TableLinks(x, tables, info, f, blank, k, q);
    assert Witnessed(x, f, k, q);
  }

  lemma TablePlaced(x: Ctx, pl: Payload, tables: seq<seq<Huft>>, info: seq<Info>, f: Info, blank: seq<Huft>, k: nat,
      q: nat, n: nat, p: nat)
    requires NewBelow(x, tables, info, f, blank, k, q)
    requires Done(x, k, q, n, p) && Decoded(x, pl, tables, info, n, p)
    ensures Decoded(x, pl, Hang(x, tables, f, blank), info + [f], n, p)
  {
    var o := Ord(x.c, n, p);
    LinkKeepsPlaced(x, tables, info, f, blank, k, q, n, p, LeafE(pl, o), LeafV(pl, o));
  }

  lemma TableStep(x: Ctx, pl: Payload, tables: seq<seq<Huft>>, info: seq<Info>, f: Info, blank: seq<Huft>, k: nat,
      q: nat)
    requires Building(x, pl, tables, info, k, q) && NewBelow(x, tables, info, f, blank, k, q)
    requires forall t :: 0 <= t < |info| ==> info[t].path != f.path
    ensures Building(x, pl, Hang(x, tables, f, blank), info + [f], k, q)
  {
    TableShape(x, tables, info, f, blank, k, q);
    forall n: nat, p: nat | Done(x, k, q, n, p)
      ensures Decoded(x, pl, Hang(x, tables, f, blank), info + [f], n, p)
    {
      TablePlaced(x, pl, tables, info, f, blank, k, q, n, p);
    }
  }

  // the new table's path is new
  lemma PushNew(info: seq<Info>, u: seq<nat>, xs: seq<nat>, f: Info, cur: seq<Bit>, t: nat)
    requires Stack(info, u, xs, cur) && u != [] && f.path <= cur
    requires f.par == u[|u| - 1] && |f.path| > |info[f.par].path| && t < |info|
    ensures info[t].path != f.path
  {
    if info[t].path == f.path {
      var j :| 0 <= j < |u| && u[j] == t;
    }
  }

  lemma PushChain(info: seq<Info>, u: seq<nat>, f: Info)
    requires Chain(info, u) && u != [] && f.par == u[|u| - 1] && |f.path| > |info[f.par].path|
    ensures Chain(info + [f], u + [|info|])
  {
    var info', u' := info + [f], u + [|info|];
    assert forall j :: 0 <= j < |u| ==> info'[u'[j]] == info[u[j]];
    forall i, j | 0 <= i < j < |u'|
      ensures |info'[u'[i]].path| < |info'[u'[j]].path|
    {
      assert i == |u| - 1 || |info[u[i]].path| < |info[u[|u| - 1]].path|;
    }
  }

  lemma PushStep(info: seq<Info>, u: seq<nat>, xs: seq<nat>, f: Info, cur: seq<Bit>)
    requires Stack(info, u, xs, cur) && u != [] && f.path <= cur
    requires f.par == u[|u| - 1] && |f.path| > |info[f.par].path|
    ensures Stack(info + [f], u + [|info|], xs + [Val(f.path)], cur)
  {
    PushChain(info, u, f);
    var info', u', xs' := info + [f], u + [|info|], xs + [Val(f.path)];
    assert u'[|u|] == |info|;
    forall t | 0 <= t < |info'| && info'[t].path <= cur
      ensures t in u'
    {
      assert t < |info| ==> t in u;
    }
    assert Along(info', u', xs', cur);
  }

  // --- A leaf ---

  lemma WitnessLater(x: Ctx, f: Info, k: nat, q: nat)
    requires CtxOk(x) && Witnessed(x, f, k, q)
    ensures Witnessed(x, f, k, q + 1)
  {
  }

  lemma LeafLinks(x: Ctx, tables: seq<seq<Huft>>, info: seq<Info>, t: nat, table: seq<Huft>, k: nat, q: nat, r: Huft)
    requires Shape(x, tables, info, k, q) && t < |info|
    requires k <= x.g && IsCode(x.c, k, q)
    requires info[t].path <= CodeBits(q, k) && |info[t].path| < k <= |info[t].path| + x.l
    requires Overwritten(tables[t], table, CodeBits(q, k)[|info[t].path|..], r)
    ensures Shape(x, tables[t := table], info, k, q + 1)
  {
    var tables', q' := tables[t := table], q + 1;
    forall c | 0 <= c < |info|
      ensures InfoOk(x, tables', info, c)
    {
      LeafKeepsLink(x, tables, info, t, table, k, q, r, c);
    }
    forall c | 0 <= c < |info|
      ensures Witnessed(x, info[c], k, q')
    {
      WitnessLater(x, info[c], k, q);
    }
  }

  lemma LeafPlaced(x: Ctx, pl: Payload, tables: seq<seq<Huft>>, info: seq<Info>, t: nat, table: seq<Huft>, k: nat,
      q: nat, r: Huft, n: nat, p: nat)
    requires CtxOk(x) && |info| == |tables| && t < |info|
    requires k <= x.g && IsCode(x.c, k, q)
    requires info[t].path <= CodeBits(q, k) && |info[t].path| < k
    requires Overwritten(tables[t], table, CodeBits(q, k)[|info[t].path|..], r)
    requires Done(x, k, q, n, p) && Decoded(x, pl, tables, info, n, p)
    ensures Decoded(x, pl, tables[t := table], info, n, p)
  {
    var o := Ord(x.c, n, p);
    LeafKeepsPlaced(x, tables, info, t, table, k, q, r, n, p, LeafE(pl, o), LeafV(pl, o));
  }

  lemma LeafStep(x: Ctx, pl: Payload, tables: seq<seq<Huft>>, info: seq<Info>, t: nat, table: seq<Huft>, k: nat, q: nat)
    requires Building(x, pl, tables, info, k, q) && t < |info|
    requires k <= x.g && IsCode(x.c, k, q)
    requires info[t].path <= CodeBits(q, k) && |info[t].path| < k <= |info[t].path| + x.l
    requires k <= |info[t].path| + info[t].nb
    requires var o := Ord(x.c, k, q);
             Overwritten(tables[t], table, CodeBits(q, k)[|info[t].path|..],
                 Huft(LeafE(pl, o), k - |info[t].path|, LeafV(pl, o)))
    ensures Building(x, pl, tables[t := table], info, k, q + 1)
  {
    var o := Ord(x.c, k, q);
    var r := Huft(LeafE(pl, o), k - |info[t].path|, LeafV(pl, o));
    LeafLinks(x, tables, info, t, table, k, q, r);
    assert InfoOk(x, tables, info, t);
    LeafPlaces(x, tables, info, t, table, k, q, LeafE(pl, o), LeafV(pl, o));
    var tables', q' := tables[t := table], q + 1;
    forall n: nat, p: nat | Done(x, k, q', n, p)
      ensures Decoded(x, pl, tables', info, n, p)
    {
      if !(n == k && p == q) {
        LeafPlaced(x, pl, tables, info, t, table, k, q, r, n, p);
      }
    }
  }

  // --- The next length ---

  lemma LengthDone(x: Ctx, k: nat, q: nat, n: nat, p: nat)
    requires CtxOk(x) && 1 <= k < x.g && q == Kraft(x.c, k)
    ensures Done(x, k, q, n, p) <==> Done(x, k + 1, 2 * q, n, p)
  {
  }

  lemma LengthStep(x: Ctx, pl: Payload, tables: seq<seq<Huft>>, info: seq<Info>, k: nat, q: nat)
    requires Building(x, pl, tables, info, k, q)
    requires 1 <= k < x.g && q == Kraft(x.c, k)
    ensures Building(x, pl, tables, info, k + 1, 2 * q)
  {
    var k', q' := k + 1, 2 * q;
    forall n: nat, p: nat | Done(x, k', q', n, p)
      ensures Decoded(x, pl, tables, info, n, p)
    {
      LengthDone(x, k, q, n, p);
    }
    forall t | 0 <= t < |info|
      ensures Witnessed(x, info[t], k', q')
    {
      LengthDone(x, k, q, info[t].wn, info[t].wq);
      assert Witnessed(x, info[t], k, q);
    }
  }

  lemma LengthStack(x: Ctx, tables: seq<seq<Huft>>, info: seq<Info>, u: seq<nat>, xs: seq<nat>, k: nat, q: nat)
    requires Shape(x, tables, info, k, q) && Stack(info, u, xs, CodeBits(q, k))
    ensures Stack(info, u, xs, CodeBits(2 * q, k + 1))
  {
    var cur, cur' := CodeBits(q, k), CodeBits(2 * q, k + 1);
    assert cur' == cur + [0];
    forall t | 0 <= t < |info| && info[t].path <= cur'
      ensures t in u
    {
      assert Witnessed(x, info[t], k, q);
      assert info[t].path <= cur;
    }
    assert Along(info, u, xs, cur');
  }

  // --- Backing up over finished tables ---

  // a table on the way to the next code was on the way to this one
  lemma StillOpen(x: Ctx, f: Info, k: nat, q: nat)
    requires CtxOk(x) && Witnessed(x, f, k, q) && 1 <= k <= x.g && IsCode(x.c, k, q)
    requires q + 1 < Pow2(k) && f.path <= CodeBits(q + 1, k)
    ensures f.path <= CodeBits(q, k)
  {
    hide *;
    WitnessOrder(x, f, k, q);
    PathTop(f.wq, f.wn, f.path);
    PathTop(q + 1, k, f.path);
    PathTop(q, k, f.path);
    OrderTop(x.c, f.wn, f.wq, k, q, |f.path|);
    DivMono(q, q + 1, k - |f.path|);
  }

  lemma WitnessOrder(x: Ctx, f: Info, k: nat, q: nat)
    requires CtxOk(x) && Witnessed(x, f, k, q) && 1 <= k <= x.g && IsCode(x.c, k, q)
    ensures |f.path| < f.wn <= k < |x.c| && IsCode(x.c, f.wn, f.wq) && f.path <= CodeBits(f.wq, f.wn)
    ensures f.wq < Pow2(f.wn) && (f.wn == k ==> f.wq <= q) && First(x.c, k) <= q
  {
    IsCodeFits(x.c, x.g, f.wn, f.wq);
  }

  // a code whose first w bits change in the increment has only zeros after them
  lemma CarryZero(q: nat, k: nat, w: nat)
    requires w <= k && CodeBits(q, k)[..w] != CodeBits(q + 1, k)[..w]
    ensures (q + 1) % Pow2(k - w) == 0
  {
    CodeTop(q, k, w);
    CodeTop(q + 1, k, w);
    CarryDiv(q, Pow2(k - w));
  }

  lemma CarryDiv(q: nat, d: nat)
    requires d > 0 && q / d != (q + 1) / d
    ensures (q + 1) % d == 0
  {
    if q % d + 1 < d {
      DivModUnique(q + 1, d, q / d, q % d + 1);
    } else {
      assert q + 1 == (q / d + 1) * d + 0 by { assert (q / d + 1) * d == q / d * d + d; }
      DivModUnique(q + 1, d, q / d + 1, 0);
    }
  }

  // the levels from h up do not start the next code
  ghost predicate Popped(info: seq<Info>, u: seq<nat>, h: nat, next: seq<Bit>) {
    && h <= |u|
    && (forall j :: h <= j < |u| ==> u[j] < |info| && !(info[u[j]].path <= next))
  }

  lemma RewoundAlong(info: seq<Info>, u: seq<nat>, xs: seq<nat>, h: nat, cur: seq<Bit>, next: seq<Bit>)
    requires Chain(info, u) && Along(info, u, xs, cur) && 0 < h <= |u|
    requires info[u[h - 1]].path <= next
    ensures Chain(info, u[..h]) && Along(info, u[..h], xs[..h], next)
  {
    var top := info[u[h - 1]].path;
    forall j | 0 <= j < h
      ensures info[u[j]].path <= next
    {
      assert info[u[j]].path <= cur && |info[u[j]].path| <= |top|;
    }
  }

  lemma Rewound(x: Ctx, tables: seq<seq<Huft>>, info: seq<Info>, u: seq<nat>, xs: seq<nat>, h: nat, k: nat, q: nat)
    requires Shape(x, tables, info, k, q) && Stack(info, u, xs, CodeBits(q, k))
    requires 1 <= k <= x.g && IsCode(x.c, k, q) && q + 1 < Pow2(k)
    requires h > 0 && Popped(info, u, h, CodeBits(q + 1, k))
    requires info[u[h - 1]].path <= CodeBits(q + 1, k)
    ensures Stack(info, u[..h], xs[..h], CodeBits(q + 1, k))
  {
    hide CodeBits, Val, Pow2, Linked, IsCode;
    var next, top := CodeBits(q + 1, k), u[..h];
    RewoundAlong(info, u, xs, h, CodeBits(q, k), next);
    forall t | 0 <= t < |info| && info[t].path <= next
      ensures t in top
    {
      assert Witnessed(x, info[t], k, q);
      StillOpen(x, info[t], k, q);
      var j :| 0 <= j < |u| && u[j] == t;
      assert top[j] == t;
    }
  }

  // --- The main loop ---

  // the variables of the main loop; u and xs are the table and code stacks up to level h,
  // cur and z the current table and its size, w the bits decoded before it
  datatype State = State(tables: seq<seq<Huft>>, u: seq<nat>, xs: seq<nat>, w: int, cur: nat, z: nat, i: nat)

  ghost predicate NoneDone(x: Ctx, k: nat, q: nat)
    requires CtxOk(x)
  {
    forall n: nat, p: nat :: !Done(x, k, q, n, p)
  }

  ghost predicate Ready(x: Ctx, pl: Payload, st: State, info: seq<Info>, k: nat, q: nat) {
    && Building(x, pl, st.tables, info, k, q)
    && st.i == Val(CodeBits(q, k))
    && Chain(info, st.u)
    && st.w == Level(x, info, st.u)
    && (q < Pow2(k) ==> Stack(info, st.u, st.xs, CodeBits(q, k)) && ZeroBelow(x.l, st.w, k, q))
    && (k > st.w + x.l || (st.u != [] && st.cur == st.u[|st.u| - 1] && st.z == |st.tables[st.cur]|))
    && (st.u == [] ==> info == [] && NoneDone(x, k, q))
  }

  // while ((i & ((1 << w) - 1)) != x[h]) back up one level
  method BackUp(i: nat, u: seq<nat>, xs: seq<nat>, w0: nat, l: nat,
                ghost x: Ctx, ghost tables: seq<seq<Huft>>, ghost info: seq<Info>, ghost k: nat, ghost q: nat)
    returns (h: nat, w: nat)
    requires Linked(x, tables, info) && Chain(info, u) && Along(info, u, xs, CodeBits(q, k)) && u != []
    requires w0 == |info[u[|u| - 1]].path| && l == x.l && w0 < k <= w0 + l && i == Val(CodeBits(q + 1, k))
    ensures 0 < h <= |u| && Popped(info, u, h, CodeBits(q + 1, k))
    ensures w == |info[u[h - 1]].path| && info[u[h - 1]].path <= CodeBits(q + 1, k)
    ensures ZeroBelow(l, w, k, q + 1)
    ensures h == |u| || w + l < k
  {
    hide CodeBits, Val, Pow2, Linked, Chain, ZeroBelow;
    h, w := |u|, w0;
    ZeroAtTop(l, w, k, q + 1);
    ghost var next := CodeBits(q + 1, k);
    var low := LowBits(i, w, next);
    while low != xs[h - 1]
      invariant 0 < h <= |u| && Popped(info, u, h, next)
      invariant w == |info[u[h - 1]].path| < k && low == Val(next[..w])
      invariant ZeroBelow(l, w, k, q + 1)
      invariant h == |u| || w + l <= w0
      decreases h
    {
      OneLevel(info[u[h - 1]].path, k, q, l);
      PopOne(x, tables, info, u, h, next);
      h, w := h - 1, w - l;
      low := LowBits(i, w, next);
    }
    ValInjective(next[..w], info[u[h - 1]].path);
  }

  // i & ((1 << w) - 1)
  method LowBits(i: nat, w: nat, ghost s: seq<Bit>) returns (low: nat)
    requires i == Val(s) && w <= |s|
    ensures low == Val(s[..w])
  {
    AndMask(i, w);
    ModVal(s, w);
    low := And(i, Shl(1, w) - 1);
  }

  // the table that is left did not start the next code
  lemma OneLevel(path: seq<Bit>, k: nat, q: nat, l: nat)
    requires path <= CodeBits(q, k) && Val(CodeBits(q + 1, k)[..|path|]) != Val(path)
    ensures path != [] && !(path <= CodeBits(q + 1, k))
    ensures ZeroBelow(l, |path| - l, k, q + 1)
  {
    hide CodeBits, Val, Pow2;
    PrefixIsTake(path, CodeBits(q, k));
    CarryZero(q, k, |path|);
  }

  lemma ZeroAtTop(l: nat, w: nat, k: nat, q: nat)
    requires k <= w + l
    ensures ZeroBelow(l, w, k, q)
  {
    assert Pow2(0) == 1;
  }

  lemma PopOne(x: Ctx, tables: seq<seq<Huft>>, info: seq<Info>, u: seq<nat>, h: nat, next: seq<Bit>)
    requires Linked(x, tables, info) && Chain(info, u) && 0 < h <= |u|
    requires Popped(info, u, h, next) && !(info[u[h - 1]].path <= next)
    ensures h > 1 && Popped(info, u, h - 1, next)
    ensures |info[u[h - 2]].path| == |info[u[h - 1]].path| - x.l
  {
    assert InfoOk(x, tables, info, u[h - 1]);
  }

  // what the construction of one code may assume
  ghost predicate AtCode(x: Ctx, pl: Payload, st: State, info: seq<Info>, k: nat, q: nat) {
    Ready(x, pl, st, info, k, q) && 1 <= k <= x.g && IsCode(x.c, k, q) && (x.roomy ==> Roomy(x.c, x.g, x.l))
  }

  lemma AtCodeElim(x: Ctx, pl: Payload, st: State, info: seq<Info>, k: nat, q: nat)
    requires AtCode(x, pl, st, info, k, q)
    ensures CtxOk(x) && 1 <= k <= x.g && IsCode(x.c, k, q) && (x.roomy ==> Roomy(x.c, x.g, x.l))
    ensures Building(x, pl, st.tables, info, k, q) && Shape(x, st.tables, info, k, q)
    ensures st.i == Val(CodeBits(q, k)) && q < Pow2(k)
    ensures Stack(info, st.u, st.xs, CodeBits(q, k)) && ZeroBelow(x.l, st.w, k, q)
  {
    IsCodeFits(x.c, x.g, k, q);
  }

  lemma StackTop(x: Ctx, pl: Payload, st: State, info: seq<Info>, k: nat, q: nat)
    requires AtCode(x, pl, st, info, k, q) && st.u != []
    ensures |info| == |st.tables| && st.u[|st.u| - 1] < |info|
    ensures info[st.u[|st.u| - 1]].path <= CodeBits(q, k) && st.w == |info[st.u[|st.u| - 1]].path|
  {
    AtCodeElim(x, pl, st, info, k, q);
    hide CodeBits, Val, Pow2, AllPlaced, Covers;
  }

  lemma AtCodeIntro(x: Ctx, pl: Payload, st: State, info: seq<Info>, k: nat, q: nat)
    requires Building(x, pl, st.tables, info, k, q) && 1 <= k <= x.g && IsCode(x.c, k, q)
    requires x.roomy ==> Roomy(x.c, x.g, x.l)
    requires st.i == Val(CodeBits(q, k)) && Stack(info, st.u, st.xs, CodeBits(q, k)) && st.u != []
    requires st.w == |info[st.u[|st.u| - 1]].path| && ZeroBelow(x.l, st.w, k, q)
    requires st.cur == st.u[|st.u| - 1] && st.cur < |st.tables| && st.z == |st.tables[st.cur]|
    ensures AtCode(x, pl, st, info, k, q)
  {
  }

  // the top table is wide enough to hang another one below it
  lemma TopIsWide(x: Ctx, tables: seq<seq<Huft>>, info: seq<Info>, t: nat, k: nat, q: nat)
    requires Shape(x, tables, info, k, q) && t < |info| && 1 <= k <= x.g && IsCode(x.c, k, q)
    requires info[t].path <= CodeBits(q, k) && |info[t].path| + x.l < k
    ensures info[t].nb >= x.l && Pow2(x.l) <= |tables[t]|
  {
    assert InfoOk(x, tables, info, t);
    if info[t].nb < x.l {
      assert Filled(x, info[t]);
      NarrowTable(x, info[t], k, q);
    }
    Pow2Mono(x.l, info[t].nb);
  }

  // j bits are enough for the codes from the k-bit code q on that share its first w bits
  ghost predicate Enough(x: Ctx, k: nat, q: nat, w: nat, j: nat)
    requires CtxOk(x) && w <= k
  {
    && j >= 1 && (x.roomy ==> j <= x.l)
    && (j < x.l ==> w + j <= x.g && Kraft(x.c, w + j) >= (q / Pow2(k - w) + 1) * Pow2(j))
  }

  lemma NewFilled(x: Ctx, k: nat, q: nat, w: nat, j: nat, f: Info)
    requires CtxOk(x) && w <= k && q < Pow2(k) && Enough(x, k, q, w, j)
    requires f.path == CodeBits(q, k)[..w] && f.nb == j
    ensures Filled(x, f)
  {
    MsbTop(q, k, w);
  }

  lemma NewInfo(x: Ctx, tables: seq<seq<Huft>>, info: seq<Info>, t: nat, k: nat, q: nat, w: nat, j: nat,
      blank: seq<Huft>)
    requires Shape(x, tables, info, k, q) && t < |info| && 1 <= k <= x.g && IsCode(x.c, k, q)
    requires info[t].path <= CodeBits(q, k) && w == |info[t].path| + x.l < k
    requires q < Pow2(k) && Enough(x, k, q, w, j) && Pow2(j) <= |blank|
    ensures NewBelow(x, tables, info, Info(CodeBits(q, k)[..w], j, t, k, q), blank, k, q)
    ensures Val(CodeBits(q, k)[..w][w - x.l..]) < |tables[t]|
  {
    TopIsWide(x, tables, info, t, k, q);
    var f := Info(CodeBits(q, k)[..w], j, t, k, q);
    NewFilled(x, k, q, w, j, f);
    assert |f.path[w - x.l..]| == x.l;
    PrefixOfTake(info[t].path, CodeBits(q, k), w);
  }

  lemma PrefixOfTake(a: seq<Bit>, s: seq<Bit>, w: nat)
    requires a <= s && |a| <= w <= |s|
    ensures a <= s[..w] && s[..w] <= s
  {
  }

  // the new table is linked where the code has its bits w - l to w, and its pattern is i
  lemma NewPattern(q: nat, k: nat, w: nat, l: nat)
    requires l <= w <= k && q % Pow2(k - w) == 0
    ensures var path := CodeBits(q, k)[..w];
            Val(path) == Val(CodeBits(q, k)) && Val(path[w - l..]) == Shr(Val(CodeBits(q, k)), w - l)
  {
    ZeroTail(q, k, w);
    ZeroTailSegment(q, k, w - l, w);
    assert CodeBits(q, k)[..w][w - l..] == CodeBits(q, k)[w - l..w];
  }

  // the state after a new table of j bits has been linked in
  function Grown(st: State, l: nat, j: nat, blank: seq<Huft>): (r: State)
    requires st.u != [] && st.w >= 0 && st.u[|st.u| - 1] < |st.tables|
    requires Shr(st.i, st.w) < |st.tables[st.u[|st.u| - 1]]|
  {
    var par, t := st.u[|st.u| - 1], |st.tables|;
    State(WithLink(st.tables, par, Shr(st.i, st.w), Huft(16 + j, l, t), blank),
          st.u + [t], st.xs + [st.i], st.w + l, t, |blank|, st.i)
  }

  lemma GrownReady(x: Ctx, pl: Payload, st: State, info: seq<Info>, k: nat, q: nat, w: nat, j: nat, blank: seq<Huft>)
    requires AtCode(x, pl, st, info, k, q) && st.u != [] && q < Pow2(k)
    requires w == st.w + x.l < k && q % Pow2(k - w) == 0
    requires Enough(x, k, q, w, j) && Pow2(j) <= |blank|
    ensures st.u[|st.u| - 1] < |st.tables| && Shr(st.i, st.w) < |st.tables[st.u[|st.u| - 1]]|
    ensures AtCode(x, pl, Grown(st, x.l, j, blank), info + [Info(CodeBits(q, k)[..w], j, st.u[|st.u| - 1], k, q)], k, q)
  {
    hide AtCode, Building, Shape, Stack, CtxOk, IsCode, Roomy, Enough, ZeroBelow, CodeBits, Val, Shr, Pow2, Kraft;
    AtCodeElim(x, pl, st, info, k, q);
    StackTop(x, pl, st, info, k, q);
    GrownParts(x, pl, st.tables, info, st.u, st.xs, k, q, w, j, blank);
    var r, f := Grown(st, x.l, j, blank), Info(CodeBits(q, k)[..w], j, st.u[|st.u| - 1], k, q);
    AtCodeIntro(x, pl, r, info + [f], k, q);
  }

  lemma GrownParts(x: Ctx, pl: Payload, tables: seq<seq<Huft>>, info: seq<Info>, u: seq<nat>, xs: seq<nat>,
                   k: nat, q: nat, w: nat, j: nat, blank: seq<Huft>)
    requires Building(x, pl, tables, info, k, q) && Stack(info, u, xs, CodeBits(q, k)) && u != []
    requires 1 <= k <= x.g && IsCode(x.c, k, q) && q < Pow2(k) && |info| == |tables|
    requires u[|u| - 1] < |info| && info[u[|u| - 1]].path <= CodeBits(q, k)
    requires w == |info[u[|u| - 1]].path| + x.l < k && q % Pow2(k - w) == 0
    requires Enough(x, k, q, w, j) && Pow2(j) <= |blank|
    ensures var par, i, f := u[|u| - 1], Val(CodeBits(q, k)), Info(CodeBits(q, k)[..w], j, u[|u| - 1], k, q);
            && Shr(i, w - x.l) < |tables[par]|
            && Building(x, pl, WithLink(tables, par, Shr(i, w - x.l), Huft(16 + j, x.l, |tables|), blank), info + [f],
                k, q)
            && Stack(info + [f], u + [|tables|], xs + [i], CodeBits(q, k))
            && ZeroBelow(x.l, w, k, q)
  {
    hide Building, Shape, Stack, CtxOk, IsCode, NewBelow, Enough, ZeroBelow, CodeBits, Val, Shr, Pow2, Kraft, WithLink;
    ShapeOf(x, pl, tables, info, k, q);
    var f := Info(CodeBits(q, k)[..w], j, u[|u| - 1], k, q);
    NewInfo(x, tables, info, u[|u| - 1], k, q, w, j, blank);
    NewPattern(q, k, w, x.l);
    assert |f.path| == w;
    GrownBuilding(x, pl, tables, info, u, xs, k, q, f, blank);
    ZeroFurther(q, k, w, x.l);
  }

  lemma ShapeOf(x: Ctx, pl: Payload, tables: seq<seq<Huft>>, info: seq<Info>, k: nat, q: nat)
    requires Building(x, pl, tables, info, k, q)
    ensures CtxOk(x) && Shape(x, tables, info, k, q) && |info| == |tables|
  {
  }

  lemma GrownBuilding(x: Ctx, pl: Payload, tables: seq<seq<Huft>>, info: seq<Info>, u: seq<nat>, xs: seq<nat>,
                      k: nat, q: nat, f: Info, blank: seq<Huft>)
    requires Building(x, pl, tables, info, k, q) && Stack(info, u, xs, CodeBits(q, k)) && u != []
    requires NewBelow(x, tables, info, f, blank, k, q) && f.par == u[|u| - 1]
    ensures Building(x, pl, Hang(x, tables, f, blank), info + [f], k, q)
    ensures Stack(info + [f], u + [|info|], xs + [Val(f.path)], CodeBits(q, k))
  {
    PushStep(info, u, xs, f, CodeBits(q, k));
    forall t | 0 <= t < |info| ensures info[t].path != f.path { PushNew(info, u, xs, f, CodeBits(q, k), t); }
    TableStep(x, pl, tables, info, f, blank, k, q);
  }

  // allocate and link in a subtable
  method SubTable(st: State, c: seq<nat>, k: nat, a: nat, l: nat, g: nat, alloc: (nat, nat) -> Huft,
                  ghost x: Ctx, ghost pl: Payload, ghost info: seq<Info>, ghost q: nat)
    returns (r: State, ghost info': seq<Info>)
    requires AtCode(x, pl, st, info, k, q) && c == x.c && l == x.l && g == x.g
    requires Kraft(c, k) == q + a + 1 && st.u != [] && k > st.w + l
    ensures AtCode(x, pl, r, info', k, q) && r.u != [] && r.w == st.w + l && r.i == st.i
    ensures r.cur == r.u[|r.u| - 1] && r.cur < |r.tables| && r.z == |r.tables[r.cur]|
  {
    hide AtCode, Building, Shape, Stack, CtxOk, IsCode, Roomy, Enough, CodeBits, Val, Shr, Pow2, Kraft;
    AtCodeElim(x, pl, st, info, k, q);
    StackTop(x, pl, st, info, k, q);
    var w := st.w + l;
    var z, j := TableSize(c, k, a, w, l, g, x, q);
    var blank := seq(z, idx requires 0 <= idx => alloc(|st.tables|, idx));
    GrownReady(x, pl, st, info, k, q, w, j, blank);
    info' := info + [Info(CodeBits(q, k)[..w], j, st.u[|st.u| - 1], k, q)];
    r := Grown(st, l, j, blank);
  }

  method TableSize(c: seq<nat>, k: nat, a: nat, w: nat, l: nat, g: nat, ghost x: Ctx, ghost q: nat)
    returns (z: nat, j: nat)
    requires CtxOk(x) && c == x.c && l == x.l && g == x.g && w < k <= g && IsCode(c, k, q)
    requires Kraft(c, k) == q + a + 1 && q % Pow2(k - w) == 0 && (x.roomy ==> Roomy(c, g, l))
    ensures z == Pow2(j)
    ensures w >= l ==> Enough(x, k, q, w, j)
    ensures w == 0 ==> j >= l
  {
    hide *;
    SizeBefore(x, k, q, w, a);
    j := TableBits(c, k, a, w, l, g, q / Pow2(k - w) + 1);
    SizeAfter(x, k, q, w, j);
    z := Shl(1, j);
    ShlOne(j);
  }

  lemma ShlOne(j: nat)
    ensures Shl(1, j) == Pow2(j)
  {
  }

  lemma SizeBefore(x: Ctx, k: nat, q: nat, w: nat, a: nat)
    requires CtxOk(x) && w < k <= x.g && IsCode(x.c, k, q)
    requires Kraft(x.c, k) == q + a + 1 && q % Pow2(k - w) == 0 && (x.roomy ==> Roomy(x.c, x.g, x.l))
    ensures k <= x.g < |x.c| && x.l >= 1 && Kraft(x.c, x.g) == Pow2(x.g)
    ensures q / Pow2(k - w) + 1 <= Pow2(w)
    ensures Kraft(x.c, k) - (a + 1) == (q / Pow2(k - w) + 1) * Pow2(k - w) - Pow2(k - w)
    ensures x.roomy && w >= x.l ==> k - w < x.l || (k - w == x.l && k == x.g)
  {
    IsCodeFits(x.c, x.g, k, q);
    BlockUnits(q, k, w, Kraft(x.c, k), a);
    if x.roomy && w >= x.l { RoomyWidth(x.c, x.g, x.l, k, q, w); }
  }

  lemma SizeAfter(x: Ctx, k: nat, q: nat, w: nat, j: nat)
    requires CtxOk(x) && w < k <= x.g && q / Pow2(k - w) + 1 <= Pow2(w) && j >= k - w
    requires j < x.l ==> w + j <= x.g && Kraft(x.c, w + j) >= (q / Pow2(k - w) + 1) * Pow2(j)
    requires x.roomy && w >= x.l ==> j <= x.l
    ensures w >= x.l ==> Enough(x, k, q, w, j)
    ensures w == 0 ==> j >= x.l
  {
    if w == 0 && j < x.l {
      assert Pow2(0) == 1;
      AtRoot(q, k, j, Kraft(x.c, j));
      RootWide(x, j);
    }
  }

  lemma AtRoot(q: nat, k: nat, j: nat, kraft: nat)
    requires q / Pow2(k) < Pow2(0) && kraft >= (q / Pow2(k) + 1) * Pow2(j)
    ensures kraft >= Pow2(j)
  {
    hide *;
    MulMono(1, q / Pow2(k) + 1, Pow2(j));
  }

  // the first table is never narrower than l bits
  lemma LastStep(x: Ctx)
    requires CtxOk(x)
    ensures x.g >= 1 && Kraft(x.c, x.g - 1) < Pow2(x.g - 1)
  {
  }

  lemma RootWide(x: Ctx, j: nat)
    requires CtxOk(x) && j <= x.g && Kraft(x.c, j) >= Pow2(j)
    ensures j >= x.g
  {
    hide Kraft;
    if j < x.g {
      LastStep(x);
      KraftGrow(x.c, j, x.g - 1);
      Pow2Add(j, x.g - 1 - j);
      MulMono(Pow2(j), Kraft(x.c, j), Pow2(x.g - 1 - j));
    }
  }

  lemma BlockUnits(q: nat, k: nat, w: nat, kraft: nat, a: nat)
    requires w <= k && q < Pow2(k) && q % Pow2(k - w) == 0 && kraft == q + a + 1
    ensures q / Pow2(k - w) + 1 <= Pow2(w)
    ensures kraft - (a + 1) == (q / Pow2(k - w) + 1) * Pow2(k - w) - Pow2(k - w)
  {
    BlockInside(q, k, w);
    var d := Pow2(k - w);
    assert (q / d + 1) * d == q / d * d + d;
  }

  lemma ZeroFurther(q: nat, k: nat, w: nat, l: nat)
    requires w <= k && q % Pow2(k - w) == 0
    ensures ZeroBelow(l, w, k, q)
  {
    if w + l <= k {
      Pow2Add(k - (w + l), l);
      ModFactor(q, Pow2(k - (w + l)), Pow2(l));
    }
  }

  lemma ModFactor(q: nat, a: nat, b: nat)
    requires a > 0 && b > 0 && q % (a * b) == 0
    ensures q % a == 0
  {
    var m := q / (a * b);
    assert q == m * (a * b);
    assert m * (a * b) == (m * b) * a + 0;
    DivModUnique(q, a, m * b, 0);
  }

  // the first table
  method RootTable(st: State, c: seq<nat>, k: nat, a: nat, l: nat, g: nat, alloc: (nat, nat) -> Huft,
                   ghost x: Ctx, ghost pl: Payload, ghost info: seq<Info>, ghost q: nat)
    returns (r: State, ghost info': seq<Info>)
    requires AtCode(x, pl, st, info, k, q) && c == x.c && l == x.l && g == x.g
    requires Kraft(c, k) == q + a + 1 && st.u == []
    ensures AtCode(x, pl, r, info', k, q) && r.u != [] && r.w == 0 && r.i == st.i
    ensures r.cur == r.u[|r.u| - 1] && r.cur < |r.tables| && r.z == |r.tables[r.cur]|
  {
    hide AtCode, Building, Shape, Stack, CtxOk, IsCode, Roomy, CodeBits, Val, Pow2, Kraft, Done;
    AtCodeElim(x, pl, st, info, k, q);
    AtStart(x, pl, st, info, k, q);
    var z, j := TableSize(c, k, a, 0, l, g, x, q);
    var blank := seq(z, idx requires 0 <= idx => alloc(0, idx));
    Pow2Mono(l, j);
    RootStep(x, pl, blank, k, q);
    info' := [Info([], x.l, 0, k, q)];
    r := State([blank], [0], [0], 0, 0, z, st.i);
    ZeroFurther(q, k, 0, l);
    AtCodeIntro(x, pl, r, info', k, q);
  }

  lemma AtStart(x: Ctx, pl: Payload, st: State, info: seq<Info>, k: nat, q: nat)
    requires AtCode(x, pl, st, info, k, q) && st.u == []
    ensures st.w == 0 - x.l && q % Pow2(k) == 0
    ensures CtxOk(x) && forall n: nat, p: nat :: !Done(x, k, q, n, p)
  {
    AtCodeElim(x, pl, st, info, k, q);
    assert NoneDone(x, k, q);
  }

  // make tables up to the required level
  method MakeTables(st: State, c: seq<nat>, k: nat, a: nat, l: nat, g: nat, alloc: (nat, nat) -> Huft,
                    ghost x: Ctx, ghost pl: Payload, ghost info: seq<Info>, ghost q: nat)
    returns (r: State, ghost info': seq<Info>)
    requires AtCode(x, pl, st, info, k, q) && c == x.c && l == x.l && g == x.g
    requires Kraft(c, k) == q + a + 1 && l >= 1 && st.w < k
    ensures AtCode(x, pl, r, info', k, q) && r.w < k <= r.w + l && r.i == st.i
    ensures r.u != [] && r.cur == r.u[|r.u| - 1] && r.cur < |r.tables| && r.z == |r.tables[r.cur]|
  {
    hide AtCode, Kraft;
    AtCodeCurrent(x, pl, st, info, k, q);
    r, info' := st, info;
    while k > r.w + l
      invariant AtCode(x, pl, r, info', k, q) && r.i == st.i && r.w < k
      invariant k > r.w + l || (r.u != [] && r.cur == r.u[|r.u| - 1] && r.cur < |r.tables| && r.z == |r.tables[r.cur]|)
      decreases k - r.w
    {
      if r.u == [] {
        AtStart(x, pl, r, info', k, q);
        r, info' := RootTable(r, c, k, a, l, g, alloc, x, pl, info', q);
      } else {
        r, info' := SubTable(r, c, k, a, l, g, alloc, x, pl, info', q);
      }
    }
  }

  lemma AtCodeCurrent(x: Ctx, pl: Payload, st: State, info: seq<Info>, k: nat, q: nat)
    requires AtCode(x, pl, st, info, k, q)
    ensures k > st.w + x.l || (st.u != [] && st.cur == st.u[|st.u| - 1] && st.cur < |st.tables| &&
        st.z == |st.tables[st.cur]|)
  {
    AtCodeElim(x, pl, st, info, k, q);
    hide CodeBits, Val, Pow2, AllPlaced, Covers, Along;
  }

  // --- One code ---

  function Min(a: nat, b: nat): (r: nat) { if a < b then a else b }

  // the entry for the value at p, and p moved on
  method LeafEntry(pl: Payload, p: nat, bits: nat, ghost o: nat) returns (r: Huft, p': nat)
    requires p == Min(o, pl.n) && pl.n <= |pl.v|
    ensures r == Huft(LeafE(pl, o), bits, LeafV(pl, o)) && p' == Min(o + 1, pl.n)
  {
    if p >= pl.n {
      return Huft(99, bits, 0), p;
    }
    var v := pl.v[p];
    p' := p + 1;
    if v < pl.s {
      r := Huft(if v < 256 then 16 else 15, bits, v);
    } else {
      r := Huft(if v - pl.s < |pl.e| then pl.e[v - pl.s] else 99, bits, if v - pl.s < |pl.d| then pl.d[v - pl.s]
          else 0);
    }
  }

  // the entries of the current code in the current table
  method WriteCode(st: State, k: nat, entry: Huft, ghost x: Ctx, ghost pl: Payload, ghost info: seq<Info>, ghost q: nat)
    returns (tables: seq<seq<Huft>>)
    requires AtCode(x, pl, st, info, k, q) && 0 <= st.w < k <= st.w + x.l
    requires st.u != [] && st.cur == st.u[|st.u| - 1] && st.cur < |st.tables| && st.z == |st.tables[st.cur]|
    requires IsCode(x.c, k, q) && var o := Ord(x.c, k, q); entry == Huft(LeafE(pl, o), k - st.w, LeafV(pl, o))
    ensures Building(x, pl, tables, info, k, q + 1) && |tables| == |st.tables|
    ensures |tables[st.cur]| == |st.tables[st.cur]|
  {
    hide AtCode, Building, Shape, Stack, CtxOk, IsCode, Roomy, CodeBits, Val, Pow2, Kraft, Ord, LeafE, LeafV, ZeroBelow,
        Shr;
    AtCodeElim(x, pl, st, info, k, q);
    StackTop(x, pl, st, info, k, q);
    ghost var cur := CodeBits(q, k);
    ShrVal(cur, st.w);
    var table := FillEntries(st.tables[st.cur], cur[st.w..], Shr(st.i, st.w), Shl(1, k - st.w), entry);
    tables := st.tables[st.cur := table];
    FitsTable(x, st.tables, info, st.cur, k, q);
    LeafStep(x, pl, st.tables, info, st.cur, table, k, q);
  }

  lemma FitsTable(x: Ctx, tables: seq<seq<Huft>>, info: seq<Info>, t: nat, k: nat, q: nat)
    requires Shape(x, tables, info, k, q) && t < |info| && 1 <= k <= x.g && IsCode(x.c, k, q)
    requires info[t].path <= CodeBits(q, k) && |info[t].path| < k <= |info[t].path| + x.l
    ensures k <= |info[t].path| + info[t].nb
  {
    hide CodeBits, Pow2, Kraft, IsCode;
    if info[t].nb < x.l {
      assert Filled(x, info[t]);
      NarrowTable(x, info[t], k, q);
    }
  }

  // after the code has been written: increment it and back up
  method NextCode(st: State, tables: seq<seq<Huft>>, k: nat, l: nat, ghost x: Ctx, ghost pl: Payload,
      ghost info: seq<Info>, ghost q: nat)
    returns (r: State)
    requires AtCode(x, pl, st, info, k, q) && l == x.l && 0 <= st.w < k <= st.w + l
    requires st.u != [] && st.cur == st.u[|st.u| - 1] && st.cur < |st.tables| && st.z == |st.tables[st.cur]|
    requires Building(x, pl, tables, info, k, q + 1) && |tables| == |st.tables| && |tables[st.cur]| == st.z
    ensures Ready(x, pl, r, info, k, q + 1) && r.w < k
  {
    hide AtCode, Ready, Building, Shape, Stack, CtxOk, IsCode, Roomy, CodeBits, Val, Pow2, Kraft, ZeroBelow, Linked,
        Chain, Along, Popped;
    AtCodeElim(x, pl, st, info, k, q);
    StackTop(x, pl, st, info, k, q);
    StackParts(x, st.tables, info, st.u, st.xs, k, q);
    var i := Increment(st.i, k, q);
    var h, w := BackUp(i, st.u, st.xs, st.w, l, x, st.tables, info, k, q);
    r := State(tables, st.u[..h], st.xs[..h], w, st.cur, st.z, i);
    Advanced(x, pl, st, r, info, k, q, h);
  }

  lemma StackParts(x: Ctx, tables: seq<seq<Huft>>, info: seq<Info>, u: seq<nat>, xs: seq<nat>, k: nat, q: nat)
    requires Shape(x, tables, info, k, q) && Stack(info, u, xs, CodeBits(q, k))
    ensures Linked(x, tables, info) && Chain(info, u) && Along(info, u, xs, CodeBits(q, k))
    ensures |u| == |xs|
  {
  }

  lemma Advanced(x: Ctx, pl: Payload, st: State, r: State, info: seq<Info>, k: nat, q: nat, h: nat)
    requires Shape(x, st.tables, info, k, q) && Stack(info, st.u, st.xs, CodeBits(q, k))
    requires 1 <= k <= x.g && IsCode(x.c, k, q) && st.u != []
    requires Building(x, pl, r.tables, info, k, q + 1) && r.i == Val(CodeBits(q + 1, k))
    requires 0 < h <= |st.u| && Popped(info, st.u, h, CodeBits(q + 1, k)) && st.u[h - 1] < |info|
    requires info[st.u[h - 1]].path <= CodeBits(q + 1, k)
    requires r.u == st.u[..h] && r.xs == st.xs[..h] && r.w == |info[st.u[h - 1]].path| && ZeroBelow(x.l, r.w, k, q + 1)
    requires (h == |st.u| && r.cur == st.u[|st.u| - 1] && r.cur < |r.tables| && r.z == |r.tables[r.cur]|) ||
        r.w + x.l < k
    ensures Ready(x, pl, r, info, k, q + 1)
  {
    hide Building, Shape, IsCode, CodeBits, Val, Pow2, ZeroBelow, Popped, Chain, Along, Covers;
    StackParts(x, st.tables, info, st.u, st.xs, k, q);
    RewoundAlong(info, st.u, st.xs, h, CodeBits(q, k), CodeBits(q + 1, k));
    if q + 1 < Pow2(k) {
      Rewound(x, st.tables, info, st.u, st.xs, h, k, q);
    }
    TopLevel(x, info, r.u);
    ShapeOf(x, pl, r.tables, info, k, q + 1);
  }

  lemma TopLevel(x: Ctx, info: seq<Info>, u: seq<nat>)
    requires Chain(info, u) && u != []
    ensures u[|u| - 1] < |info| && Level(x, info, u) == |info[u[|u| - 1]].path|
  {
  }

  // --- All codes ---

  lemma LengthReady(x: Ctx, pl: Payload, st: State, info: seq<Info>, k: nat, q: nat)
    requires Ready(x, pl, st, info, k, q) && 1 <= k < x.g && q == Kraft(x.c, k)
    ensures Ready(x, pl, st, info, k + 1, 2 * q)
  {
    hide Building, Shape, CtxOk, Stack, Chain, Along, Covers, ZeroBelow, CodeBits, Val, Kraft, Level, NoneDone, Pow2;
    PowStep(k);
    ShapeOf(x, pl, st.tables, info, k, q);
    LengthStep(x, pl, st.tables, info, k, q);
    CodeLast(2 * q, k + 1);
    assert 2 * q / 2 == q && 2 * q % 2 == 0;
    if q < Pow2(k) {
      LengthStack(x, st.tables, info, st.u, st.xs, k, q);
      LengthZero(x.l, st.w, k, q);
    }
    LengthNone(x, k, q);
  }

  lemma PowStep(k: nat)
    ensures Pow2(k + 1) == 2 * Pow2(k)
  {
  }

  lemma LengthNone(x: Ctx, k: nat, q: nat)
    requires CtxOk(x) && 1 <= k < x.g && q == Kraft(x.c, k)
    ensures NoneDone(x, k, q) ==> NoneDone(x, k + 1, 2 * q)
  {
    var k', q' := k + 1, 2 * q;
    forall n: nat, p: nat
      ensures Done(x, k', q', n, p) ==> Done(x, k, q, n, p)
    {
      LengthDone(x, k, q, n, p);
    }
  }

  lemma LengthZero(l: nat, w: int, k: nat, q: nat)
    requires ZeroBelow(l, w, k, q)
    ensures ZeroBelow(l, w, k + 1, 2 * q)
  {
    if w + l <= k {
      var n := k - (w + l);
      DivPow2Step(2 * q, n);
    }
  }

  lemma NothingYet(x: Ctx, k: nat)
    requires CtxOk(x) && 1 <= k <= x.g && forall j :: 1 <= j < k ==> x.c[j] == 0
    ensures Kraft(x.c, k - 1) == 0 && OffTo(x.c, k) == 0 && NoneDone(x, k, 0)
  {
    NoShorter(x.c, k - 1);
    forall n: nat, p: nat ensures !Done(x, k, 0, n, p) {
      if 1 <= n < k { NoShorter(x.c, n); }
    }
  }

  lemma {:induction false} NoShorter(c: seq<nat>, k: nat)
    requires k < |c| && forall j :: 1 <= j <= k ==> c[j] == 0
    ensures Kraft(c, k) == 0 && OffTo(c, k + 1) == 0
  {
    if k > 0 { NoShorter(c, k - 1); }
  }

  lemma {:induction false} CodeZero(n: nat)
    ensures Val(CodeBits(0, n)) == 0
  {
    if n > 0 {
      CodeZero(n - 1);
      CodeLast(0, n);
    }
  }

  lemma StartReady(x: Ctx, pl: Payload, k: nat)
    requires CtxOk(x) && 1 <= k <= x.g && forall j :: 1 <= j < k ==> x.c[j] == 0
    ensures Ready(x, pl, State([], [], [], 0 - x.l, 0, 0, 0), [], k, 0)
  {
    hide NoneDone, CtxOk, CodeBits, Val, Pow2, Kraft, Building, Stack, Chain;
    NothingYet(x, k);
    EmptyBuilding(x, pl, k);
    CodeZero(k);
    ModZero(k);
  }

  lemma EmptyBuilding(x: Ctx, pl: Payload, k: nat)
    requires CtxOk(x) && NoneDone(x, k, 0)
    ensures Building(x, pl, [], [], k, 0) && Chain([], []) && Stack([], [], [], CodeBits(0, k))
  {
  }

  lemma ModZero(k: nat)
    ensures 0 % Pow2(k) == 0
  {
    DivModUnique(0, Pow2(k), 0, 0);
  }

  lemma CtxFacts(x: Ctx)
    requires CtxOk(x)
    ensures |x.c| == BMAX + 1 && 1 <= x.l <= x.g <= BMAX && Kraft(x.c, x.g) == Pow2(x.g)
  {
  }

  // the loop over lengths and codes
  method BuildTables(c: seq<nat>, kmin: nat, g: nat, l: nat, pl: Payload, alloc: (nat, nat) -> Huft, ghost x: Ctx)
    returns (tables: seq<seq<Huft>>, ghost info: seq<Info>)
    requires CtxOk(x) && c == x.c && g == x.g && l == x.l && (x.roomy ==> Roomy(c, g, l))
    requires 1 <= kmin <= g && (forall j :: 1 <= j < kmin ==> c[j] == 0) && pl.n <= |pl.v|
    ensures Building(x, pl, tables, info, g, Pow2(g))
  {
    hide CtxOk, Ready, Building, Roomy, Kraft, Pow2, OffTo, NoneDone;
    CtxFacts(x);
    StartReady(x, pl, kmin);
    NothingYet(x, kmin);
    var st := State([], [], [], 0 - l, 0, 0, 0);
    info := [];
    var k, p := kmin, 0;
    ghost var q := 0;
    while k <= g
      invariant kmin <= k <= g + 1
      invariant k <= g ==> Ready(x, pl, st, info, k, q) && q == First(c, k) && p == Min(OffTo(c, k), pl.n) && st.w < k
      invariant k > g ==> Building(x, pl, st.tables, info, g, Pow2(g))
    {
      st, p, info, q := CodesOfLength(st, c, k, c[k], l, g, pl, p, alloc, x, info, q);
      if k < g {
        LengthReady(x, pl, st, info, k, q);
        q := 2 * q;
      }
      k := k + 1;
    }
    tables := st.tables;
  }

  // the codes of one length
  method CodesOfLength(st0: State, c: seq<nat>, k: nat, count: nat, l: nat, g: nat, pl: Payload, p0: nat,
                       alloc: (nat, nat) -> Huft, ghost x: Ctx, ghost info0: seq<Info>, ghost q0: nat)
    returns (st: State, p: nat, ghost info: seq<Info>, ghost q: nat)
    requires CtxOk(x) && c == x.c && l == x.l && g == x.g && 1 <= k <= g && (x.roomy ==> Roomy(c, g, l))
    requires Ready(x, pl, st0, info0, k, q0) && q0 == First(c, k) && count == c[k] && st0.w < k
    requires p0 == Min(OffTo(c, k), pl.n) && pl.n <= |pl.v|
    ensures Ready(x, pl, st, info, k, q) && q == Kraft(c, k) && st.w < k
    ensures Building(x, pl, st.tables, info, k, q)
    ensures p == Min(OffTo(c, k + 1), pl.n)
  {
    hide CtxOk, Ready, AtCode, Building, Roomy, Kraft, OffTo;
    CtxFacts(x);
    KraftStep(c, k);
    st, p, info, q := st0, p0, info0, q0;
    var a: nat := count;
    while a > 0
      invariant a <= count && q + a == Kraft(c, k) && q >= First(c, k) && st.w < k
      invariant Ready(x, pl, st, info, k, q) && p == Min(Ord(c, k, q), pl.n)
    {
      a := a - 1;
      AtCodeOf(x, pl, st, info, k, q);
      st, p, info := OneCode(st, c, k, a, l, g, pl, p, alloc, x, info, q);
      q := q + 1;
    }
    ReadyBuilding(x, pl, st, info, k, q);
  }

  lemma AtCodeOf(x: Ctx, pl: Payload, st: State, info: seq<Info>, k: nat, q: nat)
    requires Ready(x, pl, st, info, k, q) && 1 <= k <= x.g && k < |x.c| &&
        (x.roomy ==> x.g < |x.c| && Roomy(x.c, x.g, x.l))
    requires First(x.c, k) <= q < Kraft(x.c, k)
    ensures AtCode(x, pl, st, info, k, q)
  {
  }

  method OneCode(st: State, c: seq<nat>, k: nat, a: nat, l: nat, g: nat, pl: Payload, p: nat,
                 alloc: (nat, nat) -> Huft, ghost x: Ctx, ghost info: seq<Info>, ghost q: nat)
    returns (r: State, p': nat, ghost info': seq<Info>)
    requires AtCode(x, pl, st, info, k, q) && c == x.c && l == x.l && g == x.g && l >= 1
    requires k < |c| && Kraft(c, k) == q + a + 1 && st.w < k && q >= First(c, k)
    requires p == Min(Ord(c, k, q), pl.n) && pl.n <= |pl.v|
    ensures Ready(x, pl, r, info', k, q + 1) && r.w < k
    ensures p' == Min(Ord(c, k, q) + 1, pl.n)
  {
    hide AtCode, Ready, Building, Kraft, LeafE, LeafV, Ord, CodeBits;
    AtCodeElim(x, pl, st, info, k, q);
    var s: State;
    s, info' := MakeTables(st, c, k, a, l, g, alloc, x, pl, info, q);
    StackTop(x, pl, s, info', k, q);
    var entry: Huft;
    entry, p' := LeafEntry(pl, p, k - s.w, Ord(c, k, q));
    var tables := WriteCode(s, k, entry, x, pl, info', q);
    r := NextCode(s, tables, k, l, x, pl, info', q);
  }

  lemma KraftStep(c: seq<nat>, k: nat)
    requires 1 <= k < |c|
    ensures Kraft(c, k) == First(c, k) + c[k] && OffTo(c, k + 1) == OffTo(c, k) + c[k]
  {
  }

  lemma ReadyBuilding(x: Ctx, pl: Payload, st: State, info: seq<Info>, k: nat, q: nat)
    requires Ready(x, pl, st, info, k, q)
    ensures Building(x, pl, st.tables, info, k, q)
  {
  }
}
