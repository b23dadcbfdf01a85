/**
 The counting half of ct_tally, and when it asks for the block to end.
 */
module Frequencies {
  import opened Bits
  import opened Canonical
  import opened Lz
  import opened Symbols
  import opened BlockData
  import opened Stream
  import opened Sums
  import opened Optimal
  import opened CodeRuns
  import opened CodeTables
  import opened TokenBuffer
  import opened BlockSend
  import opened BlockSizes
  import opened BlockTrees

  ghost function TabArrays(tab: Tables): (s: set<object>) {
    {tab.lengthCode, tab.baseLength, tab.distCode, tab.baseDist, tab.ltree.fc, tab.ltree.dl, tab.dtree.fc, tab.dtree.dl}
  }

  // whether ct_tally asks for the block to end after the tokens ts
  predicate EndsBlock(ts: seq<Token>, level: int, inLength: nat)
    requires AllFit(ts)
  {
    || (level > 2 && |ts| % 0x1000 == 0 && Matches(ts, |ts|) < |ts| / 2 && Estimate(ts) < inLength / 2)
    || |ts| == LIT_BUFSIZE - 1 || Matches(ts, |ts|) == DIST_BUFSIZE
  }

  // bytes for the block if every literal and length takes 8 bits and every distance code 5
  function Estimate(ts: seq<Token>): (n: nat)
    requires AllFit(ts)
  {
    (8 * |ts| + Dot(DistFreq(ts), FiveMore())) / 8
  }

  function FiveMore(): (b: seq<nat>)
    ensures |b| == D_CODES == |EXTRA_DBITS| && forall i :: 0 <= i < D_CODES ==> b[i] == 5 + EXTRA_DBITS[i]
  {
    seq(D_CODES, i requires 0 <= i < D_CODES => 5 + EXTRA_DBITS[i])
  }

  method Ends(lastLit: nat, lastDist: nat, fc: array<nat>, level: int, inLength: nat, ghost ts: seq<Token>,
      ghost lfc: seq<nat>, ghost bfc: seq<nat>)
    returns (flush: bool)
    requires FreqsOf(lfc, fc[..], bfc, ts) && lastLit == |ts| && lastDist == Matches(ts, |ts|)
    ensures flush == EndsBlock(ts, level, inLength)
  {
    hide Matches, Dot, DistFreq, LitFreq, EXTRA_DBITS, FiveMore;
    if level > 2 && lastLit % 0x1000 == 0 {
      var outLength := lastLit * 8;
      ghost var f, b := DistFreq(ts), FiveMore();
      var dcode := 0;
      NoDot(f, b);
      while dcode < D_CODES
        invariant dcode <= D_CODES && outLength == 8 * |ts| + Dot(f[..dcode], b[..dcode])
      {
        assert fc[..][..D_CODES][dcode] == fc[dcode];
        outLength := outLength + fc[dcode] * (5 + EXTRA_DBITS[dcode]);
        DotNext(f, b, dcode);
        dcode := dcode + 1;
      }
      assert f[..D_CODES] == f && b[..D_CODES] == b;
      outLength := outLength / 8;
      if lastDist < lastLit / 2 && outLength < inLength / 2 { return true; }
    }
    return lastLit == LIT_BUFSIZE - 1 || lastDist == DIST_BUFSIZE;
  }

  lemma NoDot(f: seq<nat>, b: seq<nat>)
    ensures Dot(f[..0], b[..0]) == 0
  {
  }

  lemma DotNext(f: seq<nat>, b: seq<nat>, i: nat)
    requires |f| == |b| && i < |f|
    ensures Dot(f[..i + 1], b[..i + 1]) == Dot(f[..i], b[..i]) + f[i] * b[i]
  {
    hide Dot;
    DotSnoc(f[..i], b[..i], f[i], b[i]);
    assert f[..i + 1] == f[..i] + [f[i]] && b[..i + 1] == b[..i] + [b[i]];
  }

  // the frequency counts of ct_tally; a 16-bit count does not wrap
  method Count(tab: Tables, lfc: array<nat>, dfc: array<nat>, dist: nat, lc: nat,
               ghost l0: seq<nat>, ghost d0: seq<nat>, ghost b0: seq<nat>, ghost ts: seq<Token>, ghost t: Token)
    requires tab.Valid() && lfc != dfc && TabArrays(tab) !! {lfc, dfc} && lfc[..] == l0 && dfc[..] == d0 &&
        FreqsOf(l0, d0, b0, ts)
    requires TokenFits(t) && Lc(t) == lc && DistOf(t) == dist && |ts| < LIT_BUFSIZE - 1
    modifies lfc, dfc
    ensures FreqsOf(lfc[..], dfc[..], b0, ts + [t])
  {
    hide FreqsOf, LengthTables, CodeTables.DistTables, HasCode, LitSym, DistSym;
    ghost var sym := LitSym(t);
    CountFits(l0, d0, b0, ts, t);
    if dist == 0 {
      lfc[lc] := (lfc[lc] + 1) % 0x10000;
    } else {
      var d := dist - 1;
      SymsOf(tab.lengthCode[..], tab.baseLength[..], tab.distCode[..], tab.baseDist[..], t);
      var c := tab.lengthCode[lc];
      lfc[c + LITERALS + 1] := (lfc[c + LITERALS + 1] + 1) % 0x10000;
      var dc := if d < 256 then tab.distCode[d] else tab.distCode[256 + d / 128];
      dfc[dc] := (dfc[dc] + 1) % 0x10000;
    }
    LitIs(t);
    assert lfc[..] == Bump(l0, sym);
    Counted(l0, d0, b0, ts, t, lfc[..], dfc[..]);
  }

  lemma LitIs(t: Token)
    requires TokenFits(t)
    ensures t.Literal? ==> LitSym(t) == Lc(t)
  {
    hide LenCode, DistCode, CPLENS, CPLEXT, CPDIST, CPDEXT, Pow2;
  }

  lemma CountFits(l: seq<nat>, d: seq<nat>, b: seq<nat>, ts: seq<Token>, t: Token)
    requires FreqsOf(l, d, b, ts) && TokenFits(t) && |ts| < LIT_BUFSIZE - 1
    ensures |l| == 2 * L_CODES + 1 && |d| == 2 * D_CODES + 1 && LitSym(t) < L_CODES && l[LitSym(t)] < 0xffff
    ensures t.Match? ==> DistSym(t) < D_CODES && d[DistSym(t)] < 0xffff
  {
    hide LitSym, DistSym, LitFreq, DistFreq, Sum, TokenFits;
    FreqSum(ts);
    SumAtLeast(LitFreq(ts), LitSym(t));
    assert l[..L_CODES][LitSym(t)] == l[LitSym(t)];
    if t.Match? {
      SumAtLeast(DistFreq(ts), DistSym(t));
      assert d[..D_CODES][DistSym(t)] == d[DistSym(t)];
    }
  }

  lemma SymsOf(lengthCode: seq<nat>, baseLength: seq<nat>, distCode: seq<nat>, baseDist: seq<nat>, t: Token)
    requires LengthTables(lengthCode, baseLength) && CodeTables.DistTables(distCode, baseDist) && TokenFits(t) &&
        t.Match?
    ensures |lengthCode| == 256 && |distCode| == 512
    ensures LitSym(t) == lengthCode[t.len - MIN_MATCH] + LITERALS + 1 && DistSym(t) == DCode(distCode, t.dist - 1)
  {
    hide LenCode, DistCode, CPLENS, CPLEXT, CPDIST, CPDEXT, Pow2;
  }

  lemma Counted(l0: seq<nat>, d0: seq<nat>, b0: seq<nat>, ts: seq<Token>, t: Token, l: seq<nat>, d: seq<nat>)
    requires FreqsOf(l0, d0, b0, ts) && TokenFits(t) && l == Bump(l0, LitSym(t)) && d == if t.Match?
        then Bump(d0, DistSym(t)) else d0
    ensures FreqsOf(l, d, b0, ts + [t])
  {
    hide LitSym, DistSym, LitFreq, DistFreq, TokenFits;
    FreqSnoc(ts, t);
    assert l[..L_CODES] == Bump(l0[..L_CODES], LitSym(t));
    if t.Match? { assert d[..D_CODES] == Bump(d0[..D_CODES], DistSym(t)); }
  }

  method ClearFreq(fc: array<nat>, n: nat)
    requires n <= fc.Length
    modifies fc
    ensures forall i :: 0 <= i < n ==> fc[i] == 0
  {
    var i := 0;
    while i < n
      invariant i <= n && forall k :: 0 <= k < i ==> fc[k] == 0
    {
      fc[i] := 0;
      i := i + 1;
    }
  }

  method ClearAll(lfc: array<nat>, dfc: array<nat>, bfc: array<nat>)
    requires lfc.Length == 2 * L_CODES + 1 && dfc.Length == 2 * D_CODES + 1 && bfc.Length == 2 * BL_CODES + 1
    requires lfc != dfc && lfc != bfc && dfc != bfc
    modifies lfc, dfc, bfc
    ensures FreqsOf(lfc[..], dfc[..], bfc[..], [])
  {
    hide FreqsOf;
    ClearFreq(lfc, L_CODES);
    ClearFreq(dfc, D_CODES);
    ClearFreq(bfc, BL_CODES);
    lfc[END_BLOCK] := 1;
    StartFreqs(lfc[..], dfc[..], bfc[..]);
  }

  lemma StartFreqs(lfc: seq<nat>, dfc: seq<nat>, bfc: seq<nat>)
    requires |lfc| == 2 * L_CODES + 1 && |dfc| == 2 * D_CODES + 1 && |bfc| == 2 * BL_CODES + 1
    requires forall i :: 0 <= i < L_CODES ==> lfc[i] == if i == END_BLOCK then 1 else 0
    requires (forall i :: 0 <= i < D_CODES ==> dfc[i] == 0) && (forall i :: 0 <= i < BL_CODES ==> bfc[i] == 0)
    ensures FreqsOf(lfc, dfc, bfc, [])
  {
    assert lfc[..L_CODES] == LitFreq([]);
    assert dfc[..D_CODES] == DistFreq([]);
    assert bfc[..BL_CODES] == BlockSizes.Zeros(BL_CODES);
  }
}
