/**
 The front of huft_build: counting lengths, bounding the table size, filling up
 the code set and sorting the symbols; and what the finished tables decode.
 */
module HuftBuild {
  import opened Bits
  import opened Canonical
  import opened Huft
  import opened HuftTables

  const N_MAX := 288

  // what the leaf of a symbol holds, from the caller's lists
  function SymE(s: nat, e: seq<nat>, sym: nat): (r: nat) {
    if sym < s then if sym < 256 then 16 else 15
    else if sym - s < |e| then e[sym - s] else 99
  }

  function SymV(s: nat, d: seq<nat>, sym: nat): (r: nat) {
    if sym < s then sym else if sym - s < |d| then d[sym - s] else 0
  }

  // walking the tables decodes every codeword, whatever follows it
  ghost predicate Decodes(tables: seq<seq<Huft>>, l: nat, b: seq<nat>, s: nat, d: seq<nat>, e: seq<nat>) {
    forall sym: nat, str: seq<Bit> ::
      sym < |b| && 1 <= b[sym] <= BMAX && SymE(s, e, sym) <= 16
      && Codeword(b, sym) <= str && |str| >= b[sym] + l ==>
        Walk(tables, 0, l, str) == Some(Found(SymE(s, e, sym), SymV(s, d, sym), b[sym]))
  }

  // what decoding one bit at a time would find
  function Lookup(b: seq<nat>, s: nat, d: seq<nat>, e: seq<nat>, str: seq<Bit>): (r: Option<Found>) {
    match DecodeSym(b, str)
    case None => None
    case Some((sym, n)) => if SymE(s, e, sym) <= 16 then Some(Found(SymE(s, e, sym), SymV(s, d, sym), n)) else None
  }

  // where decoding one bit at a time fails, so does walking the tables
  ghost predicate Refuses(tables: seq<seq<Huft>>, l: nat, b: seq<nat>, s: nat, d: seq<nat>, e: seq<nat>) {
    forall str: seq<Bit> :: |str| >= BMAX + l && Lookup(b, s, d, e, str).None? ==> Walk(tables, 0, l, str).None?
  }

  ghost predicate Sane(tables: seq<seq<Huft>>, l: nat) {
    forall str: seq<Bit> :: WalkOk(tables, l, 0, l, str)
  }

  // what is found is some symbol's entry, even where the symbol came out of unset memory
  ghost predicate Known(tables: seq<seq<Huft>>, l: nat, s: nat, d: seq<nat>, e: seq<nat>) {
    forall str: seq<Bit> :: Walk(tables, 0, l, str).Some? ==> IsEntry(s, d, e, Walk(tables, 0, l, str).value)
  }

  ghost predicate IsEntry(s: nat, d: seq<nat>, e: seq<nat>, f: Found) {
    exists sym: nat :: f.e == SymE(s, e, sym) && f.v == SymV(s, d, sym)
  }

  // every pattern belongs to a symbol, or every symbol has a pattern
  ghost predicate Regular(b: seq<nat>) { LensOk(b) && (Exact(b) || forall i :: 0 <= i < |b| ==> b[i] > 0) }

  // one code of one bit, and symbols without a code: the other bit leads to an entry made from unset memory
  predicate Stray(b: seq<nat>) { SingleBit(b) && |b| > 1 }

  ghost predicate Oversubscribed(b: seq<nat>) { Kraft(Counts(b), BMAX) > Pow2(BMAX) }

  ghost predicate Exact(b: seq<nat>) { Kraft(Counts(b), BMAX) == Pow2(BMAX) }

  // subtables of l bits suffice
  ghost predicate RoomyLens(b: seq<nat>, l: nat) {
    (forall i :: 0 <= i < |b| ==> b[i] <= 2 * l) || (Exact(b) && |b| < Pow2(l))
  }

  // --- Counting ---

  function CountVec(b: seq<nat>, n: nat): (c: seq<nat>)
    requires n <= |b|
    ensures |c| == BMAX + 1
    ensures forall k :: 0 <= k <= BMAX ==> c[k] == CountTo(b, n, k)
  {
    seq(BMAX + 1, k requires 0 <= k => CountTo(b, n, k))
  }

  method CountLengths(b: seq<nat>) returns (c: seq<nat>)
    requires forall i :: 0 <= i < |b| ==> b[i] <= BMAX
    ensures c == Counts(b)
  {
    c := seq(BMAX + 1, _ => 0);
    var i := 0;
    while i < |b|
      invariant i <= |b| && |c| == BMAX + 1
      invariant forall k :: 0 <= k <= BMAX ==> c[k] == CountTo(b, i, k)
    {
      c := c[b[i] := c[b[i]] + 1];
      i := i + 1;
    }
  }

  lemma {:induction false} ZeroCount(b: seq<nat>, n: nat)
    requires n <= |b|
    ensures CountTo(b, n, 0) == n <==> forall i :: 0 <= i < n ==> b[i] == 0
  {
    if n > 0 { ZeroCount(b, n - 1); }
  }

  lemma CountPositive(b: seq<nat>, sym: nat, k: nat)
    requires sym < |b| && b[sym] == k
    ensures CountTo(b, |b|, k) > 0
  {
    CountMono(b, sym + 1, |b|, k);
  }

  lemma {:induction false} CountWitness(b: seq<nat>, n: nat, k: nat) returns (sym: nat)
    requires n <= |b| && CountTo(b, n, k) > 0
    ensures sym < n && b[sym] == k
  {
    if b[n - 1] == k {
      sym := n - 1;
    } else {
      sym := CountWitness(b, n - 1, k);
    }
  }

  // the shortest and the longest length in use
  method MinMax(c: seq<nat>) returns (j: nat, g: nat)
    requires |c| == BMAX + 1 && exists k :: 1 <= k <= BMAX && c[k] > 0
    ensures 1 <= j <= g <= BMAX && c[j] > 0 && c[g] > 0
    ensures forall k :: 1 <= k < j ==> c[k] == 0
    ensures forall k :: g < k <= BMAX ==> c[k] == 0
  {
    j := 1;
    while c[j] == 0
      invariant 1 <= j <= BMAX && forall k :: 1 <= k < j ==> c[k] == 0
      decreases BMAX - j
    {
      j := j + 1;
    }
    g := BMAX;
    while c[g] == 0
      invariant j <= g <= BMAX && forall k :: g < k <= BMAX ==> c[k] == 0
      decreases g
    {
      g := g - 1;
    }
  }

  // --- Filling up the code set ---

  lemma {:induction false} KraftZeros(c: seq<nat>, k: nat, n: nat)
    requires k <= n < |c| && forall i :: k < i <= n ==> c[i] == 0
    ensures Kraft(c, n) == Kraft(c, k) * Pow2(n - k)
    decreases n
  {
    if k < n {
      KraftZeros(c, k, n - 1);
      Double(Kraft(c, k), Pow2(n - 1 - k));
    }
  }

  lemma MulCancel(a: int, b: int, d: int)
    requires d > 0
    ensures a * d > b * d <==> a > b
    ensures a * d == b * d <==> a == b
  {
    if a > b { MulMono(b + 1, a, d); assert (b + 1) * d == b * d + d; }
    if a < b { MulMono(a + 1, b, d); assert (a + 1) * d == a * d + d; }
  }

  lemma KraftAtMax(c: seq<nat>, g: nat)
    requires g <= BMAX && |c| == BMAX + 1 && forall k :: g < k <= BMAX ==> c[k] == 0
    ensures Kraft(c, BMAX) > Pow2(BMAX) <==> Kraft(c, g) > Pow2(g)
    ensures Kraft(c, BMAX) == Pow2(BMAX) <==> Kraft(c, g) == Pow2(g)
  {
    hide *;
    KraftZeros(c, g, BMAX);
    Pow2Add(g, BMAX - g);
    MulCancel(Kraft(c, g), Pow2(g), Pow2(BMAX - g));
  }

  // y: codes of the longest length that are missing, or nothing if there are too many codes
  method Missing(c: seq<nat>, kmin: nat, g: nat) returns (over: bool, y: nat)
    requires 1 <= kmin <= g <= BMAX && |c| == BMAX + 1 && forall k :: 1 <= k < kmin ==> c[k] == 0
    ensures over <==> Kraft(c, g) > Pow2(g)
    ensures !over ==> y == Pow2(g) - Kraft(c, g)
  {
    NoShorter(c, kmin - 1);
    y := 0;
    var r: int := Shl(1, kmin);
    var j := kmin;
    while j < g
      invariant kmin <= j <= g && r == Pow2(j) - 2 * Kraft(c, j - 1)
    {
      r := r - c[j];
      if r < 0 {
        TooMany(c, j, g);
        return true, 0;
      }
      j := j + 1;
      r := 2 * r;
    }
    r := r - c[g];
    if r < 0 {
      return true, 0;
    }
    over, y := false, r;
  }

  lemma TooMany(c: seq<nat>, j: nat, g: nat)
    requires j <= g < |c| && Kraft(c, j) > Pow2(j)
    ensures Kraft(c, g) > Pow2(g)
  {
    if Kraft(c, g) <= Pow2(g) { KraftBelow(c, j, g); }
  }

  lemma {:induction false} FilledKraft(c: seq<nat>, g: nat, y: nat, k: nat)
    requires k <= g < |c| && g >= 1
    ensures Kraft(c[g := c[g] + y], k) == Kraft(c, k) + if k == g then y else 0
    ensures k < g ==> OffTo(c[g := c[g] + y], k + 1) == OffTo(c, k + 1)
    decreases k
  {
    var c' := c[g := c[g] + y];
    if k > 0 {
      FilledKraft(c, g, y, k - 1);
      assert k < g ==> OffTo(c', k + 1) == OffTo(c', k) + c'[k] && c'[k] == c[k];
    }
  }

  // --- Sorting the symbols by length ---

  lemma {:induction false} OffMono(c: seq<nat>, a: nat, b: nat)
    requires 1 <= a < b <= |c|
    ensures OffTo(c, a) + c[a] <= OffTo(c, b)
    decreases b
  {
    if a + 1 < b { OffMono(c, a, b - 1); }
  }

  // place of a symbol in canonical order
  function Place(b: seq<nat>, sym: nat): (r: nat)
    requires sym < |b| && 1 <= b[sym] <= BMAX
  {
    OffTo(Counts(b), b[sym]) + CountTo(b, sym, b[sym])
  }

  lemma PlaceBefore(b: seq<nat>, i: nat, j: nat)
    requires i < |b| && j < |b| && 1 <= b[i] <= BMAX && 1 <= b[j] <= BMAX
    requires b[i] < b[j] || (b[i] == b[j] && i < j)
    ensures Place(b, i) < Place(b, j)
  {
    CountMono(b, i + 1, |b|, b[i]);
    if b[i] < b[j] {
      OffMono(Counts(b), b[i], b[j]);
    } else {
      CountMono(b, i + 1, j, b[i]);
    }
  }

  // the symbols of the shorter lengths, plus those of length k below n, are at most n in all
  lemma {:induction false} PlaceBelow(b: seq<nat>, k: nat)
    requires 1 <= k <= BMAX + 1
    ensures OffTo(Counts(b), k) <= SumFrom(Counts(b), 1, k - 1)
    decreases k
  {
    if k > 1 {
      PlaceBelow(b, k - 1);
      SumLast(Counts(b), 1, k - 1);
    }
  }

  lemma {:induction false} SumLast(c: seq<nat>, j: nat, k: nat)
    requires j <= k < |c|
    ensures SumFrom(c, j, k) == (if k > 0 then SumFrom(c, j, k - 1) else 0) + c[k]
    decreases k - j
  {
    if j < k { SumLast(c, j + 1, k); }
  }

  // adding one symbol adds at most one code
  lemma {:induction false} SumBump(b: seq<nat>, n: nat, j: nat, g: nat)
    requires n < |b| && g <= BMAX && 1 <= j
    ensures SumFrom(CountVec(b, n + 1), j, g)
         == SumFrom(CountVec(b, n), j, g) + if j <= b[n] <= g then 1 else 0
    decreases g + 1 - j
  {
    if j <= g { SumBump(b, n, j + 1, g); }
  }

  lemma {:induction false} SumAtMost(b: seq<nat>, n: nat, g: nat)
    requires n <= |b| && g <= BMAX
    ensures SumFrom(CountVec(b, n), 1, g) <= n
    decreases n
  {
    if n > 0 {
      SumAtMost(b, n - 1, g);
      SumBump(b, n - 1, 1, g);
    } else {
      SumNone(b, 1, g);
    }
  }

  lemma {:induction false} SumNone(b: seq<nat>, j: nat, g: nat)
    requires g <= BMAX
    ensures SumFrom(CountVec(b, 0), j, g) == 0
    decreases g + 1 - j
  {
    if j <= g { SumNone(b, j + 1, g); }
  }

  lemma PlaceInRange(b: seq<nat>, sym: nat)
    requires sym < |b| && 1 <= b[sym] <= BMAX
    ensures Place(b, sym) < |b|
  {
    var k := b[sym];
    CountMono(b, sym + 1, |b|, k);
    PlaceBelow(b, k);
    SumLast(Counts(b), 1, k);
    assert Counts(b) == CountVec(b, |b|);
    SumAtMost(b, |b|, k);
  }

  // starting offsets into the value table for each length
  method Offsets(c: seq<nat>, g: nat) returns (x: seq<nat>)
    requires |c| == BMAX + 1 && 1 <= g <= BMAX
    ensures |x| == BMAX + 1 && forall i :: 1 <= i <= g ==> x[i] == OffTo(c, i)
  {
    x := seq(BMAX + 1, _ => 0);
    var j, k := 0, 1;
    while k < g
      invariant 1 <= k <= g && |x| == BMAX + 1 && j == OffTo(c, k)
      invariant forall i :: 1 <= i <= k ==> x[i] == OffTo(c, i)
    {
      j := j + c[k];
      k := k + 1;
      x := x[k := j];
    }
  }

  ghost predicate Sorted(b: seq<nat>, n: nat, v: seq<nat>) {
    n <= |b| <= |v| && forall sym :: 0 <= sym < n && 1 <= b[sym] <= BMAX ==>
        Place(b, sym) < |b| && v[Place(b, sym)] == sym
  }

  lemma SortedStep(b: seq<nat>, i: nat, v: seq<nat>)
    requires i < |b| && Sorted(b, i, v) && 1 <= b[i] <= BMAX
    ensures Place(b, i) < |b| && Sorted(b, i + 1, v[Place(b, i) := i])
  {
    PlaceInRange(b, i);
    forall sym | 0 <= sym < i && 1 <= b[sym] <= BMAX
      ensures Place(b, sym) != Place(b, i)
    {
      if b[sym] <= b[i] { PlaceBefore(b, sym, i); } else { PlaceBefore(b, i, sym); }
    }
  }

  // the symbol with the only code comes first
  lemma OnlyOne(b: seq<nat>, i: nat)
    requires SingleBit(b) && i < |b| && b[i] != 0
    ensures b[i] == 1 && OffTo(Counts(b), 1) + CountTo(b, i, 1) == 0
  {
    CountRise(b, i + 1, |b|, 1);
  }

  lemma {:induction false} CountRise(b: seq<nat>, i: nat, n: nat, k: nat)
    requires i <= n <= |b|
    ensures CountTo(b, i, k) <= CountTo(b, n, k)
    decreases n
  {
    if i < n { CountRise(b, i, n - 1, k); }
  }

  // the symbols in order of length; v comes in with arbitrary contents
  method SortValues(b: seq<nat>, g: nat, x0: seq<nat>, v0: seq<nat>) returns (v: seq<nat>)
    requires g <= BMAX && (forall i :: 0 <= i < |b| ==> b[i] <= g) && |v0| == |b|
    requires |x0| == BMAX + 1 && forall i :: 1 <= i <= g ==> x0[i] == OffTo(Counts(b), i)
    ensures Sorted(b, |b|, v) && |v| == |b|
    ensures Stray(b) ==> v[1] == v0[1]
  {
    hide Sorted, Counts, OffTo;
    v := v0;
    var i, x := 0, x0;
    SortedNone(b, v);
    while i < |b|
      invariant i <= |b| && |x| == BMAX + 1 && |v| == |b|
      invariant forall n :: 1 <= n <= g ==> x[n] == OffTo(Counts(b), n) + CountTo(b, i, n)
      invariant Sorted(b, i, v) && (Stray(b) ==> v[1] == v0[1])
    {
      var n := b[i];
      if n != 0 {
        SortedStep(b, i, v);
        if Stray(b) { OnlyOne(b, i); }
        v := v[x[n] := i];
        x := x[n := x[n] + 1];
      } else {
        SortedSkip(b, i, v);
      }
      i := i + 1;
    }
  }

  lemma SortedNone(b: seq<nat>, v: seq<nat>)
    requires |v| == |b|
    ensures Sorted(b, 0, v)
  {
  }

  lemma SortedSkip(b: seq<nat>, i: nat, v: seq<nat>)
    requires i < |b| && Sorted(b, i, v) && b[i] == 0
    ensures Sorted(b, i + 1, v)
  {
  }

  // --- The whole of huft_build ---

  // the completed code set: the counts with y codes of the longest length added
  ghost predicate Completed(x: Ctx, b: seq<nat>, y: nat) {
    && 1 <= x.g <= BMAX && x.c == Counts(b)[x.g := Counts(b)[x.g] + y]
    && forall i :: 0 <= i < |b| ==> b[i] <= x.g
  }

  // a symbol's code is one of the completed set, in the same place
  lemma SymbolCode(x: Ctx, b: seq<nat>, y: nat, sym: nat)
    requires CtxOk(x) && Completed(x, b, y) && sym < |b| && b[sym] >= 1
    ensures IsCode(x.c, b[sym], Code(b, sym)) && Ord(x.c, b[sym], Code(b, sym)) == Place(b, sym)
    ensures Done(x, x.g, Pow2(x.g), b[sym], Code(b, sym))
  {
    var n := b[sym];
    CodeRange(b, sym);
    FilledKraft(Counts(b), x.g, y, n - 1);
    FilledKraft(Counts(b), x.g, y, n);
    IsCodeFits(x.c, x.g, n, Code(b, sym));
  }

  lemma SymbolFound(x: Ctx, pl: Payload, tables: seq<seq<Huft>>, info: seq<Info>, b: seq<nat>, y: nat, sym: nat,
      str: seq<Bit>)
    requires Building(x, pl, tables, info, x.g, Pow2(x.g)) && x.roomy && Completed(x, b, y)
    requires pl.n == |b| == |pl.v| && Sorted(b, |b|, pl.v)
    requires sym < |b| && b[sym] >= 1 && SymE(pl.s, pl.e, sym) <= 16
    requires Codeword(b, sym) <= str && |str| >= b[sym] + x.l
    ensures Walk(tables, 0, x.l, str) == Some(Found(SymE(pl.s, pl.e, sym), SymV(pl.s, pl.d, sym), b[sym]))
  {
    hide CodeBits, Pow2, Kraft, Walk, Linked, Filled, Witnessed, Counts, CountTo, OffTo;
    SymbolCode(x, b, y, sym);
    var n, p := b[sym], Code(b, sym);
    assert Decoded(x, pl, tables, info, n, p);
    var o := Place(b, sym);
    assert pl.v[o] == sym;
    WalkFinds(x, tables, info, n, p, LeafE(pl, o), LeafV(pl, o), str);
  }

  lemma TablesDecode(x: Ctx, pl: Payload, tables: seq<seq<Huft>>, info: seq<Info>, b: seq<nat>, y: nat)
    requires Building(x, pl, tables, info, x.g, Pow2(x.g)) && x.roomy && Completed(x, b, y)
    requires pl.n == |b| == |pl.v| && Sorted(b, |b|, pl.v)
    ensures Decodes(tables, x.l, b, pl.s, pl.d, pl.e)
  {
    hide Building, Completed, Sorted, SymE, SymV, Walk, Codeword;
    forall sym: nat, str: seq<Bit> |
      sym < |b| && 1 <= b[sym] <= BMAX && SymE(pl.s, pl.e, sym) <= 16
      && Codeword(b, sym) <= str && |str| >= b[sym] + x.l
      ensures Walk(tables, 0, x.l, str) == Some(Found(SymE(pl.s, pl.e, sym), SymV(pl.s, pl.d, sym), b[sym]))
    {
      SymbolFound(x, pl, tables, info, b, y, sym, str);
    }
  }

  // some code of a completed set starts every long enough bit string
  lemma {:induction false} CodeExists(x: Ctx, str: seq<Bit>, k: nat) returns (n: nat, p: nat)
    requires CtxOk(x) && k < x.g <= |str| && Kraft(x.c, k) <= Msb(str[..k])
    ensures n <= x.g && IsCode(x.c, n, p) && CodeBits(p, n) <= str
    decreases x.g - k
  {
    n, p := k + 1, Msb(str[..k + 1]);
    assert str[..k + 1][..k] == str[..k];
    if p < Kraft(x.c, n) {
      CodeMsb(str[..n]);
    } else {
      n, p := CodeExists(x, str, n);
    }
  }

  lemma {:induction false} SumAll(b: seq<nat>, n: nat, g: nat)
    requires n <= |b| && g <= BMAX && forall i :: 0 <= i < n ==> 1 <= b[i] <= g
    ensures SumFrom(CountVec(b, n), 1, g) == n
    decreases n
  {
    if n > 0 {
      SumAll(b, n - 1, g);
      SumBump(b, n - 1, 1, g);
    } else {
      SumNone(b, 1, g);
    }
  }

  lemma {:induction false} OffSum(c: seq<nat>, k: nat)
    requires 1 <= k < |c|
    ensures OffTo(c, k) + c[k] == SumFrom(c, 1, k)
    decreases k
  {
    SumLast(c, 1, k);
    if k > 1 { OffSum(c, k - 1); }
  }

  // a code of the completed set is a symbol's or has been made up
  lemma CodeOwner(x: Ctx, b: seq<nat>, y: nat, n: nat, p: nat) returns (own: bool, sym: nat)
    requires CtxOk(x) && Completed(x, b, y) && n <= x.g && IsCode(x.c, n, p)
    ensures own ==> sym < |b| && b[sym] == n && Code(b, sym) == p
    ensures !own ==> y > 0 && Ord(x.c, n, p) >= OffTo(Counts(b), x.g) + Counts(b)[x.g]
  {
    hide CountTo, Pow2, Code;
    var c := Counts(b);
    FilledKraft(c, x.g, y, n - 1);
    FilledKraft(c, x.g, y, n);
    own := p < Kraft(c, n);
    if own {
      sym := OwnSymbol(b, n, p);
    } else {
      sym := 0;
      assert n == x.g;
    }
  }

  lemma OwnSymbol(b: seq<nat>, n: nat, p: nat) returns (sym: nat)
    requires 1 <= n <= BMAX && First(Counts(b), n) <= p < Kraft(Counts(b), n)
    ensures sym < |b| && b[sym] == n && Code(b, sym) == p
  {
    hide CountTo;
    sym := SymbolAt(b, |b|, n, p - First(Counts(b), n));
  }

  // a made-up code leads to an entry marked invalid
  lemma MadeUp(x: Ctx, b: seq<nat>, y: nat, pl: Payload, n: nat, p: nat)
    requires CtxOk(x) && Completed(x, b, y) && n <= x.g && IsCode(x.c, n, p) && pl.n == |b|
    requires forall i :: 0 <= i < |b| ==> b[i] > 0
    requires Ord(x.c, n, p) >= OffTo(Counts(b), x.g) + Counts(b)[x.g]
    ensures LeafE(pl, Ord(x.c, n, p)) == 99
  {
    OffSum(Counts(b), x.g);
    SumAll(b, |b|, x.g);
    assert Counts(b) == CountVec(b, |b|);
  }

  lemma StrRefused(x: Ctx, pl: Payload, tables: seq<seq<Huft>>, info: seq<Info>, b: seq<nat>, y: nat, str: seq<Bit>)
    requires Building(x, pl, tables, info, x.g, Pow2(x.g)) && x.roomy && Completed(x, b, y)
    requires pl.n == |b| == |pl.v| && Sorted(b, |b|, pl.v)
    requires Decodable(b) && (y == 0 || forall i :: 0 <= i < |b| ==> b[i] > 0)
    requires forall i :: 0 <= i < |pl.e| ==> pl.e[i] <= 16 || pl.e[i] == 99
    requires |str| >= BMAX + x.l && Lookup(b, pl.s, pl.d, pl.e, str).None?
    ensures Walk(tables, 0, x.l, str).None?
  {
    hide CodeBits, Pow2, Kraft, Walk, Linked, Filled, Witnessed, Counts, CountTo, OffTo, DecodeSym, Decodable, Sorted;
    StartKraft(x, str);
    var n, p := CodeExists(x, str, 0);
    IsCodeFits(x.c, x.g, n, p);
    assert Done(x, x.g, Pow2(x.g), n, p);
    assert Decoded(x, pl, tables, info, n, p);
    var o := Ord(x.c, n, p);
    var own, sym := CodeOwner(x, b, y, n, p);
    if own {
      DecodeCode(b, sym, str);
      SymbolCode(x, b, y, sym);
      SortedAt(b, pl.v, sym);
    } else {
      MadeUp(x, b, y, pl, n, p);
    }
    WalkRefused(x, tables, info, n, p, LeafV(pl, o), str);
  }

  // the leaf that a bit string leads to has a proper mark, whoever owns its code
  lemma StrSane(x: Ctx, pl: Payload, tables: seq<seq<Huft>>, info: seq<Info>, b: seq<nat>, y: nat, str: seq<Bit>)
    requires Building(x, pl, tables, info, x.g, Pow2(x.g)) && x.roomy && Completed(x, b, y)
    requires forall i :: 0 <= i < |pl.e| ==> pl.e[i] <= 16 || pl.e[i] == 99
    ensures WalkOk(tables, x.l, 0, x.l, str)
    ensures Walk(tables, 0, x.l, str).Some? ==> IsEntry(pl.s, pl.d, pl.e, Walk(tables, 0, x.l, str).value)
  {
    hide CodeBits, Pow2, Kraft, Walk, WalkOk, Linked, Filled, Witnessed, Counts, CountTo, OffTo, IsEntry;
    var more: seq<Bit> := seq(BMAX + x.l, _ => 0);
    var long := str + more;
    StartKraft(x, long);
    var n, p := CodeExists(x, long, 0);
    IsCodeFits(x.c, x.g, n, p);
    assert Done(x, x.g, Pow2(x.g), n, p);
    assert Decoded(x, pl, tables, info, n, p);
    var o := Ord(x.c, n, p);
    WalkSane(x, tables, info, n, p, LeafE(pl, o), LeafV(pl, o), long);
    WalkOkShort(tables, x.l, 0, x.l, str, more);
    if Walk(tables, 0, x.l, str).Some? {
      WalkLonger(tables, 0, x.l, str, more);
      LeafFound(x, pl, tables, info, n, p, long);
    }
  }

  lemma LeafFound(x: Ctx, pl: Payload, tables: seq<seq<Huft>>, info: seq<Info>, n: nat, p: nat, str: seq<Bit>)
    requires CtxOk(x) && Linked(x, tables, info) && x.roomy && n <= x.g && Decoded(x, pl, tables, info, n, p)
    requires forall i :: 0 <= i < |pl.e| ==> pl.e[i] <= 16 || pl.e[i] == 99
    requires CodeBits(p, n) <= str && |str| >= BMAX + x.l && Walk(tables, 0, x.l, str).Some?
    ensures IsEntry(pl.s, pl.d, pl.e, Walk(tables, 0, x.l, str).value)
  {
    hide CodeBits, Walk, Linked, Placed, Kraft, OffTo;
    var o := Ord(x.c, n, p);
    if LeafE(pl, o) == 99 {
      WalkRefused(x, tables, info, n, p, LeafV(pl, o), str);
    } else {
      WalkFinds(x, tables, info, n, p, LeafE(pl, o), LeafV(pl, o), str);
      assert LeafE(pl, o) == SymE(pl.s, pl.e, pl.v[o]) && LeafV(pl, o) == SymV(pl.s, pl.d, pl.v[o]);
    }
  }

  lemma TablesSane(x: Ctx, pl: Payload, tables: seq<seq<Huft>>, info: seq<Info>, b: seq<nat>, y: nat)
    requires Building(x, pl, tables, info, x.g, Pow2(x.g)) && x.roomy && Completed(x, b, y)
    requires forall i :: 0 <= i < |pl.e| ==> pl.e[i] <= 16 || pl.e[i] == 99
    ensures Sane(tables, x.l) && Known(tables, x.l, pl.s, pl.d, pl.e)
  {
    hide Building, Completed, WalkOk, Walk, IsEntry;
    forall str: seq<Bit>
      ensures WalkOk(tables, x.l, 0, x.l, str)
      ensures Walk(tables, 0, x.l, str).Some? ==> IsEntry(pl.s, pl.d, pl.e, Walk(tables, 0, x.l, str).value)
    {
      StrSane(x, pl, tables, info, b, y, str);
    }
  }

  lemma SortedAt(b: seq<nat>, v: seq<nat>, sym: nat)
    requires Sorted(b, |b|, v) && sym < |b| && 1 <= b[sym] <= BMAX
    ensures Place(b, sym) < |b| && v[Place(b, sym)] == sym
  {
  }

  lemma StartKraft(x: Ctx, str: seq<Bit>)
    requires CtxOk(x)
    ensures Kraft(x.c, 0) <= Msb(str[..0])
  {
  }

  // what the tables make of the pattern that no symbol of a stray set has
  lemma StrayLeaf(x: Ctx, pl: Payload, tables: seq<seq<Huft>>, info: seq<Info>, b: seq<nat>, y: nat, str: seq<Bit>)
    requires Building(x, pl, tables, info, x.g, Pow2(x.g)) && x.roomy && Completed(x, b, y) && x.l <= x.g && y == 1 &&
        x.g == 1
    requires Stray(b) && pl.n == |b| == |pl.v| && str != [] && str[0] == 1 && |str| >= BMAX + x.l
    requires forall i :: 0 <= i < |pl.e| ==> pl.e[i] <= 16 || pl.e[i] == 99
    ensures Walk(tables, 0, x.l, str) == StrayEntry(pl.s, pl.d, pl.e, pl.v[1])
  {
    hide Walk, Linked, Filled, Witnessed, Placed, SingleBit;
    var c := Counts(b);
    assert c[1] == 1 by { OneCount(b); }
    assert x.c[1] == 2;
    assert Kraft(x.c, 0) == 0 && Kraft(x.c, 1) == 2;
    assert Pow2(1) == 2 && Pow2(0) == 1;
    assert IsCode(x.c, 1, 1);
    assert Done(x, x.g, Pow2(x.g), 1, 1);
    assert Decoded(x, pl, tables, info, 1, 1);
    assert Ord(x.c, 1, 1) == 1;
    OneBitCode(str);
    if LeafE(pl, 1) == 99 {
      WalkRefused(x, tables, info, 1, 1, LeafV(pl, 1), str);
    } else {
      WalkFinds(x, tables, info, 1, 1, LeafE(pl, 1), LeafV(pl, 1), str);
    }
  }

  lemma StrayTables(x: Ctx, pl: Payload, tables: seq<seq<Huft>>, info: seq<Info>, b: seq<nat>, y: nat, sym: nat)
    requires Building(x, pl, tables, info, x.g, Pow2(x.g)) && x.roomy == RoomyLens(b, x.l) && Completed(x, b, y) &&
        1 <= x.l <= x.g
    requires Counts(b)[x.g] > 0 && Kraft(Counts(b), x.g) + y == Pow2(x.g)
    requires Stray(b) && pl.n == |b| == |pl.v| && pl.v[1] == sym && ExtrasOk(pl.e)
    ensures forall str: seq<Bit> :: |str| >= BMAX + x.l && str[0] == 1 ==>
        Walk(tables, 0, x.l, str) == StrayEntry(pl.s, pl.d, pl.e, sym)
  {
    hide Building, Walk, StrayEntry;
    StrayShape(x, b, y);
    forall str: seq<Bit> | |str| >= BMAX + x.l && str[0] == 1
        ensures Walk(tables, 0, x.l, str) == StrayEntry(pl.s, pl.d, pl.e, sym) {
      StrayLeaf(x, pl, tables, info, b, y, str);
    }
  }

  lemma StrayShape(x: Ctx, b: seq<nat>, y: nat)
    requires Completed(x, b, y) && Stray(b) && Counts(b)[x.g] > 0 && Kraft(Counts(b), x.g) + y == Pow2(x.g) && x.l >= 1
    ensures x.g == 1 && y == 1 && RoomyLens(b, x.l)
  {
    var c := Counts(b);
    if x.g > 1 { var sym := CountWitness(b, |b|, x.g); }
    OneCount(b);
    assert Kraft(c, 0) == 0 && Kraft(c, 1) == 1 && Pow2(1) == 2;
  }

  lemma OneCount(b: seq<nat>)
    requires SingleBit(b)
    ensures Counts(b)[1] == 1
  {
  }

  lemma OneBitCode(str: seq<Bit>)
    requires str != [] && str[0] == 1
    ensures CodeBits(1, 1) <= str
  {
    assert CodeBits(1, 1) == [1];
  }

  // the entry for a symbol, if it is one that may occur
  function StrayEntry(s: nat, d: seq<nat>, e: seq<nat>, sym: nat): (r: Option<Found>) {
    if SymE(s, e, sym) == 99 then None else Some(Found(SymE(s, e, sym), SymV(s, d, sym), 1))
  }

  lemma TablesRefuse(x: Ctx, pl: Payload, tables: seq<seq<Huft>>, info: seq<Info>, b: seq<nat>, y: nat)
    requires Building(x, pl, tables, info, x.g, Pow2(x.g)) && x.roomy && Completed(x, b, y)
    requires pl.n == |b| == |pl.v| && Sorted(b, |b|, pl.v)
    requires Decodable(b) && (y == 0 || forall i :: 0 <= i < |b| ==> b[i] > 0)
    requires forall i :: 0 <= i < |pl.e| ==> pl.e[i] <= 16 || pl.e[i] == 99
    ensures Refuses(tables, x.l, b, pl.s, pl.d, pl.e)
  {
    hide Building, Completed, Sorted, SymE, SymV, Walk, Lookup, Decodable;
    forall str: seq<Bit> | |str| >= BMAX + x.l && Lookup(b, pl.s, pl.d, pl.e, str).None?
      ensures Walk(tables, 0, x.l, str).None?
    {
      StrRefused(x, pl, tables, info, b, y, str);
    }
  }

  lemma NotOverDecodable(b: seq<nat>)
    requires LensOk(b) && !Oversubscribed(b)
    ensures Decodable(b)
  {
    var c := Counts(b);
    if c[BMAX] > 0 { var sym := CountWitness(b, |b|, BMAX); }
    KraftAtMax(c, MAX_BITS);
  }

  lemma CompletedOk(x: Ctx, b: seq<nat>, y: nat)
    requires Completed(x, b, y) && 1 <= x.l <= x.g && Counts(b)[x.g] > 0 && Kraft(Counts(b), x.g) + y == Pow2(x.g)
    requires forall k :: x.g < k <= BMAX ==> Counts(b)[k] == 0
    requires x.roomy ==> RoomyLens(b, x.l)
    ensures CtxOk(x) && (x.roomy ==> Roomy(x.c, x.g, x.l))
    ensures !Oversubscribed(b)
    ensures Exact(b) <==> y == 0
  {
    var c := Counts(b);
    FilledKraft(c, x.g, y, x.g);
    KraftAtMax(c, x.g);
    if x.roomy && x.g > 2 * x.l {
      var sym := CountWitness(b, |b|, x.g);
      assert b[sym] > 2 * x.l;
      assert x.c == c == CountVec(b, |b|);
      SumAtMost(b, |b|, x.g);
    }
  }

  // extra bit counts as huft_build is given them; 99 marks a symbol that must not occur
  ghost predicate ExtrasOk(e: seq<nat>) { forall i :: 0 <= i < |e| ==> e[i] <= 16 || e[i] == 99 }

  method Build(b: seq<nat>, s: nat, d: seq<nat>, e: seq<nat>, m: nat, v0: seq<nat>, alloc: (nat, nat) -> Huft)
    returns (code: nat, tables: seq<seq<Huft>>, l: nat)
    requires 1 <= |b| <= N_MAX && (forall i :: 0 <= i < |b| ==> b[i] <= BMAX) && |v0| == |b|
    ensures code <= 2
    ensures AllZero(b) ==> code == 0 && tables == [] && l == 0
    ensures code == 2 <==> Oversubscribed(b)
    ensures code == 0 <==> AllZero(b) || Exact(b) || SingleBit(b)
    ensures !AllZero(b) && code != 2 && RoomyLens(b, l) ==> Decodes(tables, l, b, s, d, e)
    ensures !AllZero(b) && code != 2 && RoomyLens(b, l) && ExtrasOk(e) ==> Sane(tables, l) && Known(tables, l, s, d, e)
    ensures !AllZero(b) && code != 2 && RoomyLens(b, l) && Regular(b) && ExtrasOk(e) ==> Refuses(tables, l, b, s, d, e)
    ensures Stray(b) && ExtrasOk(e) ==>
              forall str: seq<Bit> :: |str| >= BMAX + l && str[0] == 1 ==>
                  Walk(tables, 0, l, str) == StrayEntry(s, d, e, v0[1])
    ensures !AllZero(b) && code != 2 ==> 1 <= l <= BMAX && (l >= m || forall i :: 0 <= i < |b| ==> b[i] <= l)
    ensures !AllZero(b) && code != 2 ==> l <= m || forall i :: 0 <= i < |b| ==> b[i] == 0 || b[i] >= l
  {
    hide CountTo, Kraft, Pow2, Walk, Building, Decodes, RoomyLens, Oversubscribed, Exact, CtxOk, Sorted, Roomy, OffTo;
    var c := CountLengths(b);
    ZeroCount(b, |b|);
    if c[0] == |b| {
      NotOver(b);
      return 0, [], 0;
    }
    SomeUsed(b);
    var j, g := MinMax(c);
    UsedRange(b, j, g);
    l := m;
    if l < j { l := j; }
    if l > g { l := g; }
    var over, y := Missing(c, j, g);
    OverIff(b, g);
    OneBitLeft(b, g);
    if over {
      return 2, [], l;
    }
    ghost var x := Ctx(c[g := c[g] + y], g, l, RoomyLens(b, l));
    CompletedOk(x, b, y);
    var offs := Offsets(c, g);
    var v := SortValues(b, g, offs, v0);
    ghost var info: seq<Info>;
    var pl := Payload(v, |b|, s, d, e);
    tables, info := BuildTables(c[g := c[g] + y], j, g, l, pl, alloc, x);
    if x.roomy {
      TablesDecode(x, pl, tables, info, b, y);
      if ExtrasOk(e) {
        TablesSane(x, pl, tables, info, b, y);
        if Regular(b) {
          NotOverDecodable(b);
          TablesRefuse(x, pl, tables, info, b, y);
        }
      }
    }
    if Stray(b) && ExtrasOk(e) {
      StrayTables(x, pl, tables, info, b, y, v0[1]);
    }
    code := if y != 0 && g != 1 then 1 else 0;
  }

  // a longest length of one bit leaves a single code, or two that are a complete set
  lemma OneBitLeft(b: seq<nat>, g: nat)
    requires 1 <= g <= BMAX && (forall i :: 0 <= i < |b| ==> b[i] <= g) && Counts(b)[g] > 0
    ensures SingleBit(b) <==> g == 1 && !Exact(b) && !Oversubscribed(b)
  {
    var c := Counts(b);
    if g == 1 {
      forall k | 1 < k <= BMAX ensures c[k] == 0 {
        if c[k] > 0 { var sym := CountWitness(b, |b|, k); }
      }
      KraftAtMax(c, 1);
      assert Kraft(c, 0) == 0 && Kraft(c, 1) == c[1] && Pow2(1) == 2;
    } else {
      var sym := CountWitness(b, |b|, g);
    }
  }

  lemma OverIff(b: seq<nat>, g: nat)
    requires g <= BMAX && forall k :: g < k <= BMAX ==> Counts(b)[k] == 0
    ensures Oversubscribed(b) <==> Kraft(Counts(b), g) > Pow2(g)
    ensures Oversubscribed(b) ==> !Exact(b)
  {
    KraftAtMax(Counts(b), g);
  }

  lemma NotOver(b: seq<nat>)
    requires AllZero(b)
    ensures !Oversubscribed(b) && !Exact(b) && !SingleBit(b)
  {
    var c := Counts(b);
    if SingleBit(b) { var sym := CountWitness(b, |b|, 1); }
    forall k | 1 <= k <= BMAX ensures c[k] == 0 {
      if c[k] > 0 { var sym := CountWitness(b, |b|, k); }
    }
    NoShorter(c, BMAX);
  }

  lemma SomeUsed(b: seq<nat>)
    requires !AllZero(b) && forall i :: 0 <= i < |b| ==> b[i] <= BMAX
    ensures exists k :: 1 <= k <= BMAX && Counts(b)[k] > 0
  {
    var i :| 0 <= i < |b| && b[i] != 0;
    CountPositive(b, i, b[i]);
    assert Counts(b)[b[i]] > 0;
  }

  lemma UsedRange(b: seq<nat>, j: nat, g: nat)
    requires (forall i :: 0 <= i < |b| ==> b[i] <= BMAX) && j <= g <= BMAX
    requires forall k :: 1 <= k < j ==> Counts(b)[k] == 0
    requires forall k :: g < k <= BMAX ==> Counts(b)[k] == 0
    ensures forall i :: 0 <= i < |b| ==> b[i] <= g && (b[i] == 0 || b[i] >= j)
  {
    forall i | 0 <= i < |b| ensures b[i] <= g && (b[i] == 0 || b[i] >= j) {
      CountPositive(b, i, b[i]);
      assert Counts(b)[b[i]] > 0;
    }
  }

  // --- Tables against decoding one bit at a time ---

  // what the tables find is what decoding one bit at a time finds
  lemma WalkSound(tables: seq<seq<Huft>>, l: nat, b: seq<nat>, s: nat, d: seq<nat>, e: seq<nat>, str: seq<Bit>)
    requires Decodes(tables, l, b, s, d, e) && Refuses(tables, l, b, s, d, e) && Decodable(b)
    requires Walk(tables, 0, l, str).Some?
    ensures Walk(tables, 0, l, str) == Lookup(b, s, d, e, str)
  {
    hide Walk, DecodeSym, Codeword, SymE, SymV, Decodable;
    var more: seq<Bit> := seq(BMAX + l, _ => 0);
    var long := str + more;
    WalkLonger(tables, 0, l, str, more);
    var (sym, n) := DecodeSym(b, long).value;
    DecodeSound(b, long);
    ShortLens(b, sym);
    assert Walk(tables, 0, l, long) == Some(Found(SymE(s, e, sym), SymV(s, d, sym), n));
    assert Codeword(b, sym) <= str;
    DecodeCode(b, sym, str);
  }

  // tables with made-up codes find nothing else than a symbol that is there
  lemma WalkLoose(tables: seq<seq<Huft>>, l: nat, b: seq<nat>, s: nat, d: seq<nat>, e: seq<nat>, str: seq<Bit>)
    requires Decodes(tables, l, b, s, d, e) && Decodable(b)
    requires Walk(tables, 0, l, str).Some? && Lookup(b, s, d, e, str).Some?
    ensures Walk(tables, 0, l, str) == Lookup(b, s, d, e, str)
  {
    hide Walk, DecodeSym, Codeword, SymE, SymV, Decodable;
    var more: seq<Bit> := seq(BMAX + l, _ => 0);
    WalkLonger(tables, 0, l, str, more);
    var (sym, n) := DecodeSym(b, str).value;
    DecodeSound(b, str);
    ShortLens(b, sym);
    assert Codeword(b, sym) <= str + more;
    assert Walk(tables, 0, l, str + more) == Some(Found(SymE(s, e, sym), SymV(s, d, sym), b[sym]));
  }

  lemma ShortLens(b: seq<nat>, sym: nat)
    requires Decodable(b) && sym < |b|
    ensures b[sym] <= MAX_BITS
  {
  }

  // and it finds it, if l more bits follow
  lemma WalkComplete(tables: seq<seq<Huft>>, l: nat, b: seq<nat>, s: nat, d: seq<nat>, e: seq<nat>, str: seq<Bit>)
    requires Decodes(tables, l, b, s, d, e) && Decodable(b)
    requires Lookup(b, s, d, e, str).Some? && |str| >= Lookup(b, s, d, e, str).value.bits + l
    ensures Walk(tables, 0, l, str) == Lookup(b, s, d, e, str)
  {
    hide Walk, DecodeSym, Codeword, SymE, SymV, Decodable;
    DecodeSound(b, str);
    ShortLens(b, DecodeSym(b, str).value.0);
  }

  // on every long enough bit string, walking the tables and decoding one bit at a time are the same
  lemma WalkIsLookup(tables: seq<seq<Huft>>, l: nat, b: seq<nat>, s: nat, d: seq<nat>, e: seq<nat>, str: seq<Bit>)
    requires Decodes(tables, l, b, s, d, e) && Refuses(tables, l, b, s, d, e) && Decodable(b) && |str| >= BMAX + l
    ensures Walk(tables, 0, l, str) == Lookup(b, s, d, e, str)
  {
    hide Walk, DecodeSym, Decodes, SymE, SymV, Decodable;
    if Lookup(b, s, d, e, str).Some? { WalkComplete(tables, l, b, s, d, e, str); }
  }
}
