/**
 The lookup tables of inflate.c: how they are walked, and the invariant under
 which walking them decodes a canonical code.
 */
module Huft {
  import opened Bits
  import opened Canonical

  // e: extra bits, or 15 end of block, 16 literal, 16 + n subtable of n bits, 99 invalid;
  // b: bits to dump; v: base value, or the number of the subtable
  datatype Huft = Huft(e: nat, b: nat, v: nat)

  // a decoded entry and the number of bits it took in all
  datatype Found = Found(e: nat, v: nat, bits: nat)

  // the lookup loop of inflate_codes from table t, indexed by nb bits
  function Walk(tables: seq<seq<Huft>>, t: nat, nb: nat, s: seq<Bit>): (r: Option<Found>)
    decreases |tables| - t
  {
    if t >= |tables| || |s| < nb || Val(s[..nb]) >= |tables[t]| then None
    else
      var q := tables[t][Val(s[..nb])];
      if q.e == 99 || q.b > |s| then None
      else if q.e <= 16 then Some(Found(q.e, q.v, q.b))
      else if q.v <= t then None
      else Bump(Walk(tables, q.v, q.e - 16, s[q.b..]), q.b)
  }

  function Bump(r: Option<Found>, n: nat): (r': Option<Found>) {
    match r
    case None => None
    case Some(Found(e, v, bits)) => Some(Found(e, v, n + bits))
  }

  // the walk stays inside the tables, asks for at most w bits at a time and never dumps more bits than it has asked
  // for;
  // a link uses up all the bits of its index
  predicate WalkOk(tables: seq<seq<Huft>>, w: nat, t: nat, nb: nat, s: seq<Bit>)
    decreases |tables| - t
  {
    nb <= w && (|s| < nb || (
      && t < |tables| && Val(s[..nb]) < |tables[t]|
      && var q := tables[t][Val(s[..nb])];
         1 <= q.b <= nb && (q.e == 99 || q.e <= 16 ||
             (q.b == nb && t < q.v < |tables| && WalkOk(tables, w, q.v, q.e - 16, s[q.b..])))))
  }

  // what is known of a table: the bits that lead to it, the bits that index it,
  // the table it hangs from, and a code that passes through it
  datatype Info = Info(path: seq<Bit>, nb: nat, par: nat, wn: nat, wq: nat)

  // the fixed data of one construction: code counts, longest length, table width
  datatype Ctx = Ctx(c: seq<nat>, g: nat, l: nat, roomy: bool)

  ghost predicate CtxOk(x: Ctx) {
    && |x.c| == BMAX + 1 && 1 <= x.l <= x.g <= BMAX
    && Kraft(x.c, x.g) == Pow2(x.g) && x.c[x.g] >= 1
  }

  // the codes before the k-bit code q in canonical order
  ghost predicate Done(x: Ctx, k: nat, q: nat, n: nat, p: nat)
    requires CtxOk(x)
  {
    n <= x.g && IsCode(x.c, n, p) && (n < k || (n == k && p < q))
  }

  // --- The tables and their shape ---

  ghost predicate InfoOk(x: Ctx, tables: seq<seq<Huft>>, info: seq<Info>, t: nat)
    requires t < |info| == |tables|
  {
    var f := info[t];
    && f.nb >= 1
    && |tables[t]| >= Pow2(f.nb)
    && (x.roomy ==> f.nb <= x.l)
    && (t == 0 ==> f.path == [] && f.nb == x.l)
    && (t > 0 ==>
          && f.par < t
          && |f.path| == |info[f.par].path| + x.l
          && info[f.par].path <= f.path
          && info[f.par].nb >= x.l
          && Pow2(x.l) <= |tables[f.par]|
          && tables[f.par][Val(f.path[|f.path| - x.l..])] == Huft(16 + f.nb, x.l, t))
  }

  // a table narrower than l bits holds every code under its path
  ghost predicate Filled(x: Ctx, f: Info)
    requires CtxOk(x)
  {
    f.nb < x.l ==> |f.path| + f.nb <= x.g && Kraft(x.c, |f.path| + f.nb) >= (Msb(f.path) + 1) * Pow2(f.nb)
  }

  // the witness code has the path as a proper prefix and is not after (k, q)
  ghost predicate Witnessed(x: Ctx, f: Info, k: nat, q: nat)
    requires CtxOk(x)
  {
    && (Done(x, k, q, f.wn, f.wq) || (f.wn == k && f.wq == q && k <= x.g && IsCode(x.c, k, q)))
    && |f.path| < f.wn
    && f.path <= CodeBits(f.wq, f.wn)
  }

  ghost predicate Linked(x: Ctx, tables: seq<seq<Huft>>, info: seq<Info>) {
    && |info| == |tables|
    && forall t :: 0 <= t < |info| ==> InfoOk(x, tables, info, t)
  }

  ghost predicate Shape(x: Ctx, tables: seq<seq<Huft>>, info: seq<Info>, k: nat, q: nat) {
    && CtxOk(x)
    && Linked(x, tables, info)
    && (forall t :: 0 <= t < |info| ==> Filled(x, info[t]))
    && (forall t :: 0 <= t < |info| ==> Witnessed(x, info[t], k, q))
  }

  // every entry whose index starts with code is r
  ghost predicate Leaves(table: seq<Huft>, nb: nat, code: seq<Bit>, r: Huft) {
    && Pow2(nb) <= |table|
    && forall idx :: 0 <= idx < Pow2(nb) && BitsOf(idx, |code|) == code ==> table[idx] == r
  }

  // table t decodes the n-bit code p to e and v
  ghost predicate PlacedIn(x: Ctx, tables: seq<seq<Huft>>, info: seq<Info>, t: nat, n: nat, p: nat, e: nat, v: nat)
    requires |info| == |tables| && t < |info|
  {
    var w := |info[t].path|;
    && w < n <= w + info[t].nb
    && n <= w + x.l
    && info[t].path <= CodeBits(p, n)
    && Leaves(tables[t], info[t].nb, CodeBits(p, n)[w..], Huft(e, n - w, v))
  }

  ghost predicate Placed(x: Ctx, tables: seq<seq<Huft>>, info: seq<Info>, n: nat, p: nat, e: nat, v: nat)
    requires |info| == |tables|
  {
    exists t :: 0 <= t < |info| && PlacedIn(x, tables, info, t, n, p, e, v)
  }

  // --- Walking ---

  lemma WalkLink(tables: seq<seq<Huft>>, t: nat, nb: nat, s: seq<Bit>, m: nat, b: nat, t': nat)
    requires t < t' && t < |tables| && nb <= |s| && b <= |s| && m <= 16 && m >= 1
    requires Val(s[..nb]) < |tables[t]| && tables[t][Val(s[..nb])] == Huft(16 + m, b, t')
    ensures Walk(tables, t, nb, s) == Bump(Walk(tables, t', m, s[b..]), b)
  {
  }

  // the walk from the root along a table's path arrives at that table
  lemma {:induction false} Reach(x: Ctx, tables: seq<seq<Huft>>, info: seq<Info>, t: nat, s: seq<Bit>)
    requires Linked(x, tables, info) && x.roomy && x.l <= 16 && t < |info|
    requires info[t].path <= s
    ensures Walk(tables, 0, x.l, s) == Bump(Walk(tables, t, info[t].nb, s[|info[t].path|..]), |info[t].path|)
    decreases t
  {
    if t == 0 {
      assert InfoOk(x, tables, info, t);
      assert s[0..] == s;
    } else {
      var par := info[t].par;
      StepTo(x, tables, info, t, s);
      Reach(x, tables, info, par, s);
      BumpBump(Walk(tables, t, info[t].nb, s[|info[t].path|..]), x.l, |info[par].path|);
    }
  }

  lemma StepTo(x: Ctx, tables: seq<seq<Huft>>, info: seq<Info>, t: nat, s: seq<Bit>)
    requires Linked(x, tables, info) && x.roomy && x.l <= 16 && 0 < t < |info|
    requires info[t].path <= s
    ensures info[t].par < t && info[info[t].par].nb == x.l && info[info[t].par].path <= s
    ensures |info[t].path| == |info[info[t].par].path| + x.l
    ensures Walk(tables, info[t].par, x.l, s[|info[info[t].par].path|..])
         == Bump(Walk(tables, t, info[t].nb, s[|info[t].path|..]), x.l)
  {
    assert InfoOk(x, tables, info, t);
    var f := info[t];
    assert InfoOk(x, tables, info, f.par);
    var w := |info[f.par].path|;
    var rest := s[w..];
    assert rest[..x.l] == f.path[w..];
    assert rest[x.l..] == s[|f.path|..];
    WalkLink(tables, f.par, x.l, rest, f.nb, x.l, t);
  }

  lemma BumpBump(r: Option<Found>, a: nat, b: nat)
    ensures Bump(Bump(r, a), b) == Bump(r, a + b)
  {
  }

  // a placed code is found, whatever follows it
  lemma WalkFinds(x: Ctx, tables: seq<seq<Huft>>, info: seq<Info>,
                  n: nat, p: nat, e: nat, v: nat, s: seq<Bit>)
    requires Linked(x, tables, info) && x.roomy && x.l <= 16
    requires Placed(x, tables, info, n, p, e, v) && e <= 16
    requires CodeBits(p, n) <= s && |s| >= n + x.l
    ensures Walk(tables, 0, x.l, s) == Some(Found(e, v, n))
  {
    var t :| 0 <= t < |info| && PlacedIn(x, tables, info, t, n, p, e, v);
    assert InfoOk(x, tables, info, t);
    var w := |info[t].path|;
    Reach(x, tables, info, t, s);
    LeafOfCode(tables, t, info[t], n, p, e, v, s);
    BumpFound(e, v, n, w);
  }

  // a code whose entry is marked invalid is refused
  lemma WalkRefused(x: Ctx, tables: seq<seq<Huft>>, info: seq<Info>, n: nat, p: nat, v: nat, s: seq<Bit>)
    requires Linked(x, tables, info) && x.roomy && x.l <= 16
    requires Placed(x, tables, info, n, p, 99, v)
    requires CodeBits(p, n) <= s && |s| >= n + x.l
    ensures Walk(tables, 0, x.l, s).None?
  {
    var t :| 0 <= t < |info| && PlacedIn(x, tables, info, t, n, p, 99, v);
    assert InfoOk(x, tables, info, t);
    var w, nb := |info[t].path|, info[t].nb;
    Reach(x, tables, info, t, s);
    var code := CodeBits(p, n)[w..];
    assert code <= s[w..];
    LeafAt(tables[t], nb, code, s[w..], Huft(99, n - w, v));
  }

  // likewise for staying inside the tables
  lemma {:induction false} ReachOk(x: Ctx, tables: seq<seq<Huft>>, info: seq<Info>, t: nat, s: seq<Bit>)
    requires Linked(x, tables, info) && x.roomy && 1 <= x.l <= 16 && t < |info|
    requires info[t].path <= s && WalkOk(tables, x.l, t, info[t].nb, s[|info[t].path|..])
    ensures WalkOk(tables, x.l, 0, x.l, s)
    decreases t
  {
    if t == 0 {
      assert InfoOk(x, tables, info, t);
      assert s[0..] == s;
    } else {
      StepOk(x, tables, info, t, s);
      ReachOk(x, tables, info, info[t].par, s);
    }
  }

  lemma StepOk(x: Ctx, tables: seq<seq<Huft>>, info: seq<Info>, t: nat, s: seq<Bit>)
    requires Linked(x, tables, info) && x.roomy && 1 <= x.l <= 16 && 0 < t < |info|
    requires info[t].path <= s && WalkOk(tables, x.l, t, info[t].nb, s[|info[t].path|..])
    ensures info[t].par < t && info[info[t].par].path <= s
    ensures WalkOk(tables, x.l, info[t].par, info[info[t].par].nb, s[|info[info[t].par].path|..])
  {
    assert InfoOk(x, tables, info, t);
    var f := info[t];
    assert InfoOk(x, tables, info, f.par);
    var w := |info[f.par].path|;
    var rest := s[w..];
    assert rest[..x.l] == f.path[w..];
    assert rest[x.l..] == s[|f.path|..];
    WalkOkLink(tables, x.l, f.par, x.l, rest, f.nb, t);
  }

  lemma WalkOkLink(tables: seq<seq<Huft>>, w: nat, t: nat, nb: nat, s: seq<Bit>, m: nat, t': nat)
    requires t < t' < |tables| && 1 <= nb <= |s| && nb <= w && 1 <= m <= 16
    requires Val(s[..nb]) < |tables[t]| && tables[t][Val(s[..nb])] == Huft(16 + m, nb, t')
    requires WalkOk(tables, w, t', m, s[nb..])
    ensures WalkOk(tables, w, t, nb, s)
  {
  }

  lemma WalkSane(x: Ctx, tables: seq<seq<Huft>>, info: seq<Info>, n: nat, p: nat, e: nat, v: nat, s: seq<Bit>)
    requires Linked(x, tables, info) && x.roomy && 1 <= x.l <= 16
    requires Placed(x, tables, info, n, p, e, v) && (e <= 16 || e == 99)
    requires CodeBits(p, n) <= s && |s| >= n + x.l
    ensures WalkOk(tables, x.l, 0, x.l, s)
  {
    var t :| 0 <= t < |info| && PlacedIn(x, tables, info, t, n, p, e, v);
    assert InfoOk(x, tables, info, t);
    var w, nb := |info[t].path|, info[t].nb;
    var code := CodeBits(p, n)[w..];
    assert code <= s[w..];
    LeafAt(tables[t], nb, code, s[w..], Huft(e, n - w, v));
    ReachOk(x, tables, info, t, s);
  }

  // what happens with more bits at hand happens with fewer, if they suffice
  lemma {:induction false} WalkOkShort(tables: seq<seq<Huft>>, w: nat, t: nat, nb: nat, s: seq<Bit>, x: seq<Bit>)
    requires WalkOk(tables, w, t, nb, s + x)
    ensures WalkOk(tables, w, t, nb, s)
    decreases |tables| - t
  {
    if |s| >= nb {
      assert (s + x)[..nb] == s[..nb];
      var q := tables[t][Val(s[..nb])];
      if q.e != 99 && q.e > 16 {
        assert (s + x)[q.b..] == s[q.b..] + x;
        WalkOkShort(tables, w, q.v, q.e - 16, s[q.b..], x);
      }
    }
  }

  lemma {:induction false} WalkLonger(tables: seq<seq<Huft>>, t: nat, nb: nat, s: seq<Bit>, x: seq<Bit>)
    requires Walk(tables, t, nb, s).Some?
    ensures Walk(tables, t, nb, s + x) == Walk(tables, t, nb, s)
    ensures Walk(tables, t, nb, s).value.bits <= |s|
    decreases |tables| - t
  {
    assert (s + x)[..nb] == s[..nb];
    var q := tables[t][Val(s[..nb])];
    if q.e > 16 {
      assert (s + x)[q.b..] == s[q.b..] + x;
      WalkLonger(tables, q.v, q.e - 16, s[q.b..], x);
    }
  }

  lemma BumpFound(e: nat, v: nat, n: nat, w: nat)
    requires w <= n
    ensures Bump(Some(Found(e, v, n - w)), w) == Some(Found(e, v, n))
  {
  }

  lemma LeafOfCode(tables: seq<seq<Huft>>, t: nat, f: Info, n: nat, p: nat, e: nat, v: nat, s: seq<Bit>)
    requires t < |tables| && |f.path| < n <= |f.path| + f.nb && e <= 16
    requires Leaves(tables[t], f.nb, CodeBits(p, n)[|f.path|..], Huft(e, n - |f.path|, v))
    requires CodeBits(p, n) <= s && |f.path| + f.nb <= |s|
    ensures Walk(tables, t, f.nb, s[|f.path|..]) == Some(Found(e, v, n - |f.path|))
  {
    hide CodeBits, Leaves, Walk, Pow2, Val;
    var w := |f.path|;
    assert CodeBits(p, n)[w..] <= s[w..];
    WalkLeaf(tables, t, f.nb, CodeBits(p, n)[w..], s[w..], Huft(e, n - w, v));
  }

  lemma WalkLeaf(tables: seq<seq<Huft>>, t: nat, nb: nat, code: seq<Bit>, s: seq<Bit>, r: Huft)
    requires t < |tables| && Leaves(tables[t], nb, code, r)
    requires |code| <= nb <= |s| && code <= s && r.e <= 16 && r.b <= |s|
    ensures Walk(tables, t, nb, s) == Some(Found(r.e, r.v, r.b))
  {
    LeafAt(tables[t], nb, code, s, r);
  }

  lemma LeafAt(table: seq<Huft>, nb: nat, code: seq<Bit>, s: seq<Bit>, r: Huft)
    requires Leaves(table, nb, code, r) && |code| <= nb <= |s| && code <= s
    ensures Val(s[..nb]) < |table| && table[Val(s[..nb])] == r
  {
    var idx := Val(s[..nb]);
    BitsVal(s[..nb]);
    BitsTake(idx, nb, |code|);
    assert s[..nb][..|code|] == code;
  }

  lemma BitsTake(v: nat, n: nat, m: nat)
    requires m <= n
    ensures BitsOf(v, n)[..m] == BitsOf(v, m)
  {
    BitsSplit(v, m, n - m);
  }

  // --- Changing the tables ---

  lemma ValInjective(a: seq<Bit>, b: seq<Bit>)
    requires |a| == |b| && Val(a) == Val(b)
    ensures a == b
  {
    BitsVal(a);
    BitsVal(b);
  }

  // the table with a link to a new table of width nb below par
  function WithLink(tables: seq<seq<Huft>>, par: nat, idx: nat, link: Huft, blank: seq<Huft>): (r: seq<seq<Huft>>)
    requires par < |tables| && idx < |tables[par]|
    ensures |r| == |tables| + 1 && r[|tables|] == blank
    ensures forall t :: 0 <= t < |tables| ==> |r[t]| == |tables[t]|
    ensures r[par][idx] == link
  {
    tables[par := tables[par][idx := link]] + [blank]
  }

  lemma SamePath(p: seq<Bit>, a: seq<Bit>, b: seq<Bit>, l: nat)
    requires |a| == |b| == |p| + l && p <= a && p <= b && Val(a[|a| - l..]) == Val(b[|b| - l..])
    ensures a == b
  {
    ValInjective(a[|p|..], b[|p|..]);
    assert a == p + a[|p|..] && b == p + b[|p|..];
  }

  // the other links survive, since no other table has the new table's path
  lemma LinkKeepsLink(x: Ctx, tables: seq<seq<Huft>>, info: seq<Info>, f: Info, blank: seq<Huft>, t: nat)
    requires Linked(x, tables, info) && t < |info|
    requires f.par < |info| && |f.path| == |info[f.par].path| + x.l && info[f.par].path <= f.path
    requires Val(f.path[|f.path| - x.l..]) < |tables[f.par]|
    requires info[t].path != f.path
    ensures InfoOk(x, WithLink(tables, f.par, Val(f.path[|f.path| - x.l..]), Huft(16 + f.nb, x.l, |tables|), blank),
        info + [f], t)
  {
    assert InfoOk(x, tables, info, t);
    var o := info[t];
    if t > 0 && o.par == f.par && Val(o.path[|o.path| - x.l..]) == Val(f.path[|f.path| - x.l..]) {
      SamePath(info[f.par].path, o.path, f.path, x.l);
    }
  }

  // a leaf of another code does not sit where the link goes
  lemma LinkKeepsPlaced(x: Ctx, tables: seq<seq<Huft>>, info: seq<Info>, f: Info, blank: seq<Huft>,
                        k: nat, q: nat, n: nat, p: nat, e: nat, v: nat)
    requires CtxOk(x) && |info| == |tables|
    requires f.par < |info| && |f.path| == |info[f.par].path| + x.l && info[f.par].path <= f.path
    requires Val(f.path[|f.path| - x.l..]) < |tables[f.par]|
    requires k <= x.g && IsCode(x.c, k, q) && f.path <= CodeBits(q, k) && |f.path| < k
    requires Done(x, k, q, n, p) && Placed(x, tables, info, n, p, e, v)
    ensures Placed(x, WithLink(tables, f.par, Val(f.path[|f.path| - x.l..]), Huft(16 + f.nb, x.l, |tables|), blank),
        info + [f], n, p, e, v)
  {
    hide CodeBits, Walk, WalkOk, Val, Kraft, Pow2;
    var idx, link := Val(f.path[|f.path| - x.l..]), Huft(16 + f.nb, x.l, |tables|);
    var t' := WithLink(tables, f.par, idx, link, blank);
    var t :| 0 <= t < |info| && PlacedIn(x, tables, info, t, n, p, e, v);
    var w := |info[t].path|;
    if t == f.par && BitsOf(idx, n - w) == CodeBits(p, n)[w..] {
      LinkConflict(x, f, w, k, q, n, p);
    }
    assert PlacedIn(x, t', info + [f], t, n, p, e, v);
  }

  lemma LinkConflict(x: Ctx, f: Info, w: nat, k: nat, q: nat, n: nat, p: nat)
    requires CtxOk(x) && |f.path| == w + x.l && w < n <= w + x.l
    requires k <= x.g && IsCode(x.c, k, q) && f.path <= CodeBits(q, k)
    requires n <= x.g && IsCode(x.c, n, p)
    requires f.path[..w] <= CodeBits(p, n)
    requires BitsOf(Val(f.path[w..]), n - w) == CodeBits(p, n)[w..]
    ensures n == k && p == q
  {
    BitsVal(f.path[w..]);
    BitsTake(Val(f.path[w..]), x.l, n - w);
    assert f.path[w..][..n - w] == f.path[w..n];
    assert CodeBits(p, n) == f.path[..n];
    PrefixFreeCodes(x.c, x.g, n, p, k, q);
  }

  // --- Writing the entries of one code ---

  lemma ModBits(idx: nat, code: seq<Bit>)
    ensures BitsOf(idx, |code|) == code <==> idx % Pow2(|code|) == Val(code)
  {
    ValBits(idx, |code|);
    BitsVal(code);
    if BitsOf(idx, |code|) != code && Val(BitsOf(idx, |code|)) == Val(code) {
      ValInjective(BitsOf(idx, |code|), code);
    }
  }

  // new is old with r in every entry whose index starts with code
  ghost predicate Overwritten(old_: seq<Huft>, new_: seq<Huft>, code: seq<Bit>, r: Huft) {
    && |new_| == |old_|
    && forall idx :: 0 <= idx < |old_| ==>
         new_[idx] == if BitsOf(idx, |code|) == code then r else old_[idx]
  }

  // no table hangs below this one yet: its codes would be longer than k bits
  lemma LeafKeepsLink(x: Ctx, tables: seq<seq<Huft>>, info: seq<Info>, t: nat, table: seq<Huft>,
                      k: nat, q: nat, r: Huft, c: nat)
    requires CtxOk(x) && Linked(x, tables, info) && t < |info| && c < |info|
    requires k <= x.g && IsCode(x.c, k, q) && Witnessed(x, info[c], k, q)
    requires info[t].path <= CodeBits(q, k) && |info[t].path| < k <= |info[t].path| + x.l
    requires Overwritten(tables[t], table, CodeBits(q, k)[|info[t].path|..], r)
    ensures InfoOk(x, tables[t := table], info, c)
  {
    assert InfoOk(x, tables, info, c);
    assert c > 0 ==> info[c].par != t;
  }

  // leaves of other codes survive
  lemma LeafKeepsPlaced(x: Ctx, tables: seq<seq<Huft>>, info: seq<Info>, t: nat, table: seq<Huft>,
                        k: nat, q: nat, r: Huft, n: nat, p: nat, e: nat, v: nat)
    requires CtxOk(x) && |info| == |tables| && t < |info|
    requires k <= x.g && IsCode(x.c, k, q)
    requires info[t].path <= CodeBits(q, k) && |info[t].path| < k
    requires Overwritten(tables[t], table, CodeBits(q, k)[|info[t].path|..], r)
    requires Done(x, k, q, n, p) && Placed(x, tables, info, n, p, e, v)
    ensures Placed(x, tables[t := table], info, n, p, e, v)
  {
    var s :| 0 <= s < |info| && PlacedIn(x, tables, info, s, n, p, e, v);
    if s == t {
      LeafKeepsLeaves(x, info[t].path, info[t].nb, tables[t], table, k, q, r, n, p, Huft(e, n - |info[t].path|, v));
    }
    assert PlacedIn(x, tables[t := table], info, s, n, p, e, v);
  }

  lemma LeafKeepsLeaves(x: Ctx, path: seq<Bit>, nb: nat, old_: seq<Huft>, new_: seq<Huft>,
                        k: nat, q: nat, r: Huft, n: nat, p: nat, o: Huft)
    requires CtxOk(x) && k <= x.g && IsCode(x.c, k, q) && Done(x, k, q, n, p)
    requires |path| < n && path <= CodeBits(q, k) && path <= CodeBits(p, n)
    requires Overwritten(old_, new_, CodeBits(q, k)[|path|..], r)
    requires Leaves(old_, nb, CodeBits(p, n)[|path|..], o)
    ensures Leaves(new_, nb, CodeBits(p, n)[|path|..], o)
  {
    var a, b := CodeBits(p, n)[|path|..], CodeBits(q, k)[|path|..];
    forall idx | 0 <= idx < Pow2(nb) && BitsOf(idx, |a|) == a
      ensures new_[idx] == o
    {
      if BitsOf(idx, |b|) == b {
        assert |a| == n - |path| && |b| == k - |path|;
        TwoLeaves(x, path, k, q, n, p, idx);
      }
    }
  }

  lemma TwoLeaves(x: Ctx, path: seq<Bit>, k: nat, q: nat, n: nat, p: nat, idx: nat)
    requires CtxOk(x) && n <= k <= x.g && IsCode(x.c, k, q) && IsCode(x.c, n, p)
    requires |path| < n && path <= CodeBits(q, k) && path <= CodeBits(p, n)
    requires BitsOf(idx, k - |path|) == CodeBits(q, k)[|path|..]
    requires BitsOf(idx, n - |path|) == CodeBits(p, n)[|path|..]
    ensures n == k && p == q
  {
    var w := |path|;
    BitsTake(idx, k - w, n - w);
    assert CodeBits(p, n) == path + CodeBits(p, n)[w..];
    assert CodeBits(q, k) == path + CodeBits(q, k)[w..];
    PrefixFreeCodes(x.c, x.g, n, p, k, q);
  }

  // and the code itself is now decoded
  lemma LeafPlaces(x: Ctx, tables: seq<seq<Huft>>, info: seq<Info>, t: nat, table: seq<Huft>,
                   k: nat, q: nat, e: nat, v: nat)
    requires |info| == |tables| && t < |info| && Pow2(info[t].nb) <= |tables[t]|
    requires info[t].path <= CodeBits(q, k) && |info[t].path| < k <= |info[t].path| + x.l &&
        k <= |info[t].path| + info[t].nb
    requires Overwritten(tables[t], table, CodeBits(q, k)[|info[t].path|..], Huft(e, k - |info[t].path|, v))
    ensures Placed(x, tables[t := table], info, k, q, e, v)
  {
    assert PlacedIn(x, tables[t := table], info, t, k, q, e, v);
  }
}
