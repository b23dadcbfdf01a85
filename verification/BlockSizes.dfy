/**
 Symbol frequencies of a block, and that frequencies times code lengths and extra
 bits add up to exactly the bits that are sent.
 */
module BlockSizes {
  import opened Bits
  import opened Canonical
  import opened Lz
  import opened Symbols
  import opened BlockData
  import opened CodeLengths
  import opened Stream
  import opened Sums
  import opened Optimal
  import opened TreeBuild
  import opened BitLengths
  import opened Trees
  import opened CodeRuns
  import opened TokenBuffer

  const L_DESC := Desc(EXTRA_LBITS, LITERALS + 1, L_CODES, 15, FixedLL())
  const D_DESC := Desc(EXTRA_DBITS, 0, D_CODES, 15, FixedDL())
  const BL_DESC := Desc(EXTRA_BLBITS, 0, BL_CODES, 7, [])

  lemma DescsOk()
    ensures DescOk(L_DESC) && DescOk(D_DESC) && DescOk(BL_DESC)
  {
    SmallPowers();
    assert Pow2(15) == 4 * Pow2(13);
  }

  // what each symbol costs under code lengths lens
  function LitCosts(lens: seq<nat>): (b: seq<nat>)
    requires |lens| >= L_CODES
    ensures |b| == L_CODES
  {
    BitCosts(lens, L_DESC)
  }

  function DistCosts(lens: seq<nat>): (b: seq<nat>)
    requires |lens| >= D_CODES
    ensures |b| == D_CODES
  {
    BitCosts(lens, D_DESC)
  }

  function BlCosts(lens: seq<nat>): (b: seq<nat>)
    requires |lens| >= BL_CODES
    ensures |b| == BL_CODES
  {
    BitCosts(lens, BL_DESC)
  }

  function Zeros(n: nat): (s: seq<nat>)
    ensures |s| == n && forall i :: 0 <= i < n ==> s[i] == 0
  {
    seq(n, _ => 0)
  }

  function Bump(s: seq<nat>, i: nat): (r: seq<nat>)
    requires i < |s|
    ensures |r| == |s|
  {
    s[i := s[i] + 1]
  }

  // the symbol of the literal and length alphabet that a token starts with
  function LitSym(t: Token): (s: nat)
    requires TokenFits(t)
    ensures s < L_CODES
  {
    match t
    case Literal(b) => b
    case Match(len, _) => LITERALS + 1 + LenCode(len - MIN_MATCH)
  }

  function DistSym(t: Token): (c: nat)
    requires TokenFits(t) && t.Match?
    ensures c < D_CODES
  {
    DistCode(t.dist - 1)
  }

  predicate AllFit(ts: seq<Token>) { forall i :: 0 <= i < |ts| ==> TokenFits(ts[i]) }

  // frequencies of a block: the end-of-block symbol occurs once
  function LitFreq(ts: seq<Token>): (f: seq<nat>)
    requires AllFit(ts)
    ensures |f| == L_CODES
  {
    if ts == [] then Zeros(L_CODES)[END_BLOCK := 1] else Bump(LitFreq(ts[..|ts| - 1]), LitSym(ts[|ts| - 1]))
  }

  function DistFreq(ts: seq<Token>): (f: seq<nat>)
    requires AllFit(ts)
    ensures |f| == D_CODES
  {
    if ts == [] then Zeros(D_CODES)
    else
      var t, f := ts[|ts| - 1], DistFreq(ts[..|ts| - 1]);
      if t.Match? then Bump(f, DistSym(t)) else f
  }

  lemma FreqSnoc(ts: seq<Token>, t: Token)
    requires AllFit(ts) && TokenFits(t)
    ensures AllFit(ts + [t]) && LitFreq(ts + [t]) == Bump(LitFreq(ts), LitSym(t))
    ensures DistFreq(ts + [t]) == if t.Match? then Bump(DistFreq(ts), DistSym(t)) else DistFreq(ts)
  {
    hide LitSym, DistSym, TokenFits;
    assert (ts + [t])[..|ts|] == ts && (ts + [t])[|ts|] == t;
  }

  lemma BumpSum(s: seq<nat>, i: nat)
    requires i < |s|
    ensures Sum(Bump(s, i)) == Sum(s) + 1
  {
    hide Sum;
    SumPut(s, i, s[i] + 1);
  }

  lemma {:induction false} FreqSum(ts: seq<Token>)
    requires AllFit(ts)
    ensures Sum(LitFreq(ts)) == |ts| + 1 && Sum(DistFreq(ts)) == Matches(ts, |ts|)
    decreases |ts|
  {
    hide LitSym, DistSym, TokenFits, Sum;
    if ts == [] {
      SumZero(Zeros(L_CODES));
      SumPut(Zeros(L_CODES), END_BLOCK, 1);
      SumZero(Zeros(D_CODES));
    } else {
      var n := |ts| - 1;
      var front, t := ts[..n], ts[n];
      FreqSum(front);
      assert ts == front + [t];
      FreqSnoc(front, t);
      MatchesSnoc(front, t, n);
      BumpSum(LitFreq(front), LitSym(t));
      if t.Match? { BumpSum(DistFreq(front), DistSym(t)); }
    }
  }

  // a symbol that occurs has a nonzero frequency
  lemma {:induction false} FreqUsed(ts: seq<Token>, i: nat)
    requires AllFit(ts) && i < |ts|
    ensures LitFreq(ts)[LitSym(ts[i])] > 0
    ensures ts[i].Match? ==> DistFreq(ts)[DistSym(ts[i])] > 0
    decreases |ts|
  {
    hide LitSym, DistSym, TokenFits;
    var n := |ts| - 1;
    FreqSnoc(ts[..n], ts[n]);
    assert ts == ts[..n] + [ts[n]];
    if i < n {
      FreqUsed(ts[..n], i);
      assert ts[..n][i] == ts[i];
    }
  }

  lemma {:induction false} EndUsed(ts: seq<Token>)
    requires AllFit(ts)
    ensures LitFreq(ts)[END_BLOCK] >= 1
    decreases |ts|
  {
    hide LitSym, TokenFits;
    if ts != [] { EndUsed(ts[..|ts| - 1]); }
  }

  // --- Bits sent for the data ---

  // what one more occurrence costs
  lemma BumpDot(f: seq<nat>, b: seq<nat>, i: nat)
    requires |f| == |b| && i < |f|
    ensures Dot(Bump(f, i), b) == Dot(f, b) + b[i]
  {
    hide Dot;
    DotPut(f, b, i, f[i] + 1, b[i]);
    assert b[i := b[i]] == b;
    assert (f[i] + 1) * b[i] == f[i] * b[i] + b[i];
  }

  lemma EndDot(b: seq<nat>)
    requires |b| == L_CODES
    ensures Dot(Zeros(L_CODES)[END_BLOCK := 1], b) == b[END_BLOCK]
  {
    ZeroDot(b);
    hide Dot;
    DotPut(Zeros(L_CODES), b, END_BLOCK, 1, b[END_BLOCK]);
    assert b[END_BLOCK := b[END_BLOCK]] == b;
  }

  lemma {:induction false} ZeroDot(b: seq<nat>)
    ensures Dot(Zeros(|b|), b) == 0
    decreases |b|
  {
    if b != [] {
      var n := |b| - 1;
      ZeroDot(b[..n]);
      assert Zeros(|b|)[..n] == Zeros(n);
    }
  }

  // code lengths of both codes as far as the header gives them
  ghost predicate SameLens(ll: seq<nat>, lens: seq<nat>) {
    |ll| <= |lens| && lens[..|ll|] == ll
  }

  lemma SameAt(ll: seq<nat>, lens: seq<nat>, i: nat)
    requires SameLens(ll, lens) && i < |ll|
    ensures lens[i] == ll[i]
  {
    assert lens[..|ll|][i] == ll[i];
  }

  lemma LenCost(ll: seq<nat>, lens: seq<nat>, len: nat)
    requires LenUsable(ll, len) && SameLens(ll, lens) && |lens| >= L_CODES
    ensures LitCosts(lens)[LITERALS + 1 + LenCode(len - MIN_MATCH)] == |LenBits(ll, len)|
  {
    var c := LenCode(len - MIN_MATCH);
    SameAt(ll, lens, LITERALS + 1 + c);
    SameExtraBits();
    assert CPLEXT[..LENGTH_CODES][c] == CPLEXT[c];
  }

  lemma DistCost(dl: seq<nat>, lens: seq<nat>, dist: nat)
    requires DistUsable(dl, dist) && SameLens(dl, lens) && |lens| >= D_CODES
    ensures DistCosts(lens)[DistCode(dist - 1)] == |DistBits(dl, dist)|
  {
    SameAt(dl, lens, DistCode(dist - 1));
    SameExtraBits();
  }

  lemma LiteralCost(ll: seq<nat>, dl: seq<nat>, lens: seq<nat>, b: Byte)
    requires Usable(ll, b) && SameLens(ll, lens) && |lens| >= L_CODES
    ensures |TokenBits(ll, dl, Literal(b))| == LitCosts(lens)[LitSym(Literal(b))]
  {
    hide Codeword;
    SameAt(ll, lens, b);
  }

  lemma MatchCost(ll: seq<nat>, dl: seq<nat>, lens: seq<nat>, dlens: seq<nat>, len: nat, dist: nat)
    requires LenUsable(ll, len) && DistUsable(dl, dist) && SameLens(ll, lens) && SameLens(dl, dlens) &&
        |lens| >= L_CODES && |dlens| >= D_CODES
    ensures TokenFits(Match(len, dist))
    ensures |TokenBits(ll, dl, Match(len, dist))| == LitCosts(lens)[LitSym(Match(len, dist))] +
        DistCosts(dlens)[DistSym(Match(len, dist))]
  {
    hide DistBits, LenBits, LitCosts, DistCosts, LitSym, DistSym, LenCode, DistCode, SameLens, CPLENS, CPLEXT, CPDIST,
        CPDEXT, Pow2;
    LenCost(ll, lens, len);
    DistCost(dl, dlens, dist);
    MatchSyms(len, dist);
  }

  lemma MatchSyms(len: nat, dist: nat)
    requires MIN_MATCH <= len <= MAX_MATCH && 1 <= dist <= WSIZE
    ensures TokenFits(Match(len, dist))
    ensures LitSym(Match(len, dist)) == LITERALS + 1 + LenCode(len - MIN_MATCH)
    ensures DistSym(Match(len, dist)) == DistCode(dist - 1)
  {
    hide CPLENS, CPLEXT, CPDIST, CPDEXT, Pow2, LenCode, DistCode;
  }

  lemma TokenCost(ll: seq<nat>, dl: seq<nat>, lens: seq<nat>, dlens: seq<nat>, t: Token)
    requires TokenFits(t) && TokenUsable(ll, dl, t) && SameLens(ll, lens) && SameLens(dl, dlens) && |lens| >= L_CODES &&
        |dlens| >= D_CODES
    ensures |TokenBits(ll, dl, t)| == LitCosts(lens)[LitSym(t)] + if t.Match? then DistCosts(dlens)[DistSym(t)] else 0
  {
    hide TokenBits, LitCosts, DistCosts, LitSym, DistSym, SameLens;
    match t
    case Literal(b) => LiteralCost(ll, dl, lens, b);
    case Match(len, dist) => MatchCost(ll, dl, lens, dlens, len, dist);
  }

  // frequency times length adds up to the bits sent for the data of the block
  lemma {:induction false} DataCost(ll: seq<nat>, dl: seq<nat>, lens: seq<nat>, dlens: seq<nat>, ts: seq<Token>)
    requires AllFit(ts) && TokensUsable(ll, dl, ts) && Usable(ll, END_BLOCK)
    requires SameLens(ll, lens) && SameLens(dl, dlens) && |lens| >= L_CODES && |dlens| >= D_CODES
    ensures |TokensBits(ll, dl, ts)| + ll[END_BLOCK]
         == Dot(LitFreq(ts), LitCosts(lens)) + Dot(DistFreq(ts), DistCosts(dlens))
    decreases |ts|
  {
    hide Dot, TokenBits, TokenUsable, LitCosts, DistCosts, TokensBits, LitSym, DistSym, TokenFits;
    var lb, db := LitCosts(lens), DistCosts(dlens);
    if ts == [] {
      EndDot(lb);
      ZeroDot(db);
      NothingSent(ll, dl, lens);
    } else {
      var n := |ts| - 1;
      var front, t := ts[..n], ts[n];
      DataCost(ll, dl, lens, dlens, front);
      assert ts == front + [t];
      TokensBitsAppend(ll, dl, front, t);
      FreqSnoc(front, t);
      TokenCost(ll, dl, lens, dlens, t);
      BumpDot(LitFreq(front), lb, LitSym(t));
      if t.Match? { BumpDot(DistFreq(front), db, DistSym(t)); }
    }
  }

  lemma NothingSent(ll: seq<nat>, dl: seq<nat>, lens: seq<nat>)
    requires Usable(ll, END_BLOCK) && SameLens(ll, lens) && |lens| >= L_CODES
    ensures TokensBits(ll, dl, []) == [] && LitCosts(lens)[END_BLOCK] == ll[END_BLOCK]
  {
    SameAt(ll, lens, END_BLOCK);
  }

  lemma CodedCost(ll: seq<nat>, dl: seq<nat>, lens: seq<nat>, dlens: seq<nat>, ts: seq<Token>)
    requires AllFit(ts) && CodesOk(ll, dl, ts)
    requires SameLens(ll, lens) && SameLens(dl, dlens) && |lens| >= L_CODES && |dlens| >= D_CODES
    ensures |CodedBits(ll, dl, ts)| == Dot(LitFreq(ts), LitCosts(lens)) + Dot(DistFreq(ts), DistCosts(dlens))
  {
    hide Dot, TokensBits, LitCosts, DistCosts, Decodable, TokensUsable;
    DataCost(ll, dl, lens, dlens, ts);
  }

  // --- Bits sent for the code lengths ---

  function OpFreq(ops: seq<Op>): (f: seq<nat>)
    requires OpsOk(ops)
    ensures |f| == BL_CODES && forall s :: 0 <= s < BL_CODES ==> f[s] == OpCount(ops, s)
  {
    seq(BL_CODES, s requires 0 <= s => OpCount(ops, s))
  }

  lemma OpCost(bl: seq<nat>, op: Op)
    requires OpOk(op) && |bl| == BL_CODES && Usable(bl, OpSym(op))
    ensures |OpBits(bl, op)| == BlCosts(bl)[OpSym(op)]
  {
    hide Codeword, BitsOf;
  }

  lemma {:induction false} OpsCost(bl: seq<nat>, ops: seq<Op>)
    requires |bl| == BL_CODES && OpsUsable(bl, ops)
    ensures |OpsBits(bl, ops)| == Dot(OpFreq(ops), BlCosts(bl))
    decreases |ops|
  {
    hide Dot, OpBits, BlCosts, OpSym, OpOk, Usable;
    var b := BlCosts(bl);
    if ops == [] {
      ZeroDot(b);
      assert OpFreq(ops) == Zeros(BL_CODES);
    } else {
      OpsCost(bl, ops[1..]);
      OpCost(bl, ops[0]);
      BumpDot(OpFreq(ops[1..]), b, OpSym(ops[0]));
      assert OpFreq(ops) == Bump(OpFreq(ops[1..]), OpSym(ops[0]));
    }
  }
}
