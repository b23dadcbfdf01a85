/**
 The header of a dynamic block: the code lengths up to the last symbol in use
 determine the same code as all of them, and the run-length form of both vectors
 is decodable with the code length code built for it.
 */
module Headers {
  import opened Bits
  import opened Canonical
  import opened Lz
  import opened Symbols
  import opened BlockData
  import opened CodeLengths
  import opened Stream
  import opened Sums
  import opened Optimal
  import opened TreeBuild
  import opened Trees
  import opened TreeCodes
  import opened CodeRuns
  import opened TokenBuffer
  import opened BlockSizes

  // --- Leaving out unused symbols at the end ---

  ghost predicate TailZero(lens: seq<nat>, m: nat) {
    m <= |lens| && forall x :: m <= x < |lens| ==> lens[x] == 0
  }

  lemma {:induction false} CountFront(lens: seq<nat>, m: nat, j: nat, k: nat)
    requires j <= m <= |lens|
    ensures CountTo(lens[..m], j, k) == CountTo(lens, j, k)
    decreases j
  {
    if j > 0 { CountFront(lens, m, j - 1, k); }
  }

  lemma {:induction false} CountTail(lens: seq<nat>, m: nat, j: nat, k: nat)
    requires TailZero(lens, m) && m <= j <= |lens| && k >= 1
    ensures CountTo(lens, j, k) == CountTo(lens, m, k)
    decreases j
  {
    if j > m { CountTail(lens, m, j - 1, k); }
  }

  lemma CutCounts(lens: seq<nat>, m: nat, k: nat)
    requires TailZero(lens, m) && 1 <= k <= BMAX
    ensures Counts(lens[..m])[k] == Counts(lens)[k]
  {
    hide CountTo;
    CountFront(lens, m, m, k);
    CountTail(lens, m, |lens|, k);
  }

  lemma CutKraft(lens: seq<nat>, m: nat, n: nat)
    requires TailZero(lens, m) && n <= BMAX
    ensures Kraft(Counts(lens[..m]), n) == Kraft(Counts(lens), n)
  {
    hide CountTo, Counts;
    forall k | 1 <= k <= n ensures Counts(lens[..m])[k] == Counts(lens)[k] { CutCounts(lens, m, k); }
    KraftSame(Counts(lens[..m]), Counts(lens), n);
  }

  lemma CutComplete(lens: seq<nat>, m: nat)
    requires TailZero(lens, m) && Complete(lens)
    ensures Complete(lens[..m])
  {
    hide CountTo, Counts, Kraft;
    CutKraft(lens, m, MAX_BITS);
  }

  lemma CutCode(lens: seq<nat>, m: nat, sym: nat)
    requires TailZero(lens, m) && sym < m && 1 <= lens[sym] <= BMAX
    ensures Codeword(lens[..m], sym) == Codeword(lens, sym)
  {
    hide CountTo, Counts, Kraft;
    CountFront(lens, m, sym, lens[sym]);
    CutKraft(lens, m, lens[sym] - 1);
  }

  lemma CutCoded(fc: seq<nat>, lens: seq<nat>, m: nat)
    requires TailZero(lens, m) && Coded(fc, lens)
    ensures Coded(fc, lens[..m])
  {
    hide Codeword, BitsOf, Pow2;
    forall n | 0 <= n < m ensures CodeSet(fc, lens[..m], n) {
      assert CodeSet(fc, lens, n);
      if 1 <= lens[n] <= 15 { CutCode(lens, m, n); }
    }
  }

  // --- From a tree to what the header says of it ---

  // the code of a tree as far as symbol maxCode
  lemma CutTree(tfc: seq<nat>, lens: seq<nat>, fc: seq<nat>, fc1: seq<nat>, desc: Desc, maxCode: int)
    requires TreeBuilt(tfc, lens, fc, fc1, desc, maxCode) && desc.maxLength <= 15
    ensures 2 <= maxCode + 1 <= |lens| == desc.elems && TailZero(lens, maxCode + 1)
    ensures Complete(lens[..maxCode + 1]) && Coded(tfc, lens[..maxCode + 1])
    ensures forall i :: 0 <= i < |lens| ==> lens[i] <= desc.maxLength
  {
    hide Coded, Complete, AtLeastTwo;
    CutComplete(lens, maxCode + 1);
    CutCoded(tfc, lens, maxCode + 1);
  }

  // a symbol that occurs can be sent
  lemma SymUsable(lens: seq<nat>, fc: seq<nat>, fc1: seq<nat>, tfc: seq<nat>, desc: Desc, maxCode: int, sym: nat)
    requires TreeBuilt(tfc, lens, fc, fc1, desc, maxCode) && desc.maxLength <= 15 && sym < desc.elems && fc[sym] > 0
    ensures 0 <= sym <= maxCode < |lens| && Usable(lens[..maxCode + 1], sym)
  {
    hide Coded, Complete;
  }

  lemma TokensCoded(tl: seq<nat>, lens: seq<nat>, fc: seq<nat>, fc1: seq<nat>, lmax: int,
                    td: seq<nat>, dlens: seq<nat>, dc: seq<nat>, dc1: seq<nat>, dmax: int, ts: seq<Token>)
    requires TreeBuilt(tl, lens, fc, fc1, L_DESC, lmax) && TreeBuilt(td, dlens, dc, dc1, D_DESC, dmax) && AllFit(ts)
    requires L_CODES <= |fc| && D_CODES <= |dc| && fc[..L_CODES] == LitFreq(ts) && dc[..D_CODES] == DistFreq(ts)
    ensures 256 <= lmax < |lens| && 1 <= dmax < |dlens| && CodesOk(lens[..lmax + 1], dlens[..dmax + 1], ts)
  {
    hide TreeBuilt, LitFreq, DistFreq, Complete;
    CutTree(tl, lens, fc, fc1, L_DESC, lmax);
    CutTree(td, dlens, dc, dc1, D_DESC, dmax);
    EndUsed(ts);
    assert fc[..L_CODES][END_BLOCK] == fc[END_BLOCK];
    SymUsable(lens, fc, fc1, tl, L_DESC, lmax, END_BLOCK);
    CompleteDecodable(lens[..lmax + 1]);
    CompleteDecodable(dlens[..dmax + 1]);
    forall i | 0 <= i < |ts| ensures TokenUsable(lens[..lmax + 1], dlens[..dmax + 1], ts[i]) {
      OneCoded(tl, lens, fc, fc1, lmax, td, dlens, dc, dc1, dmax, ts, i);
    }
  }

  lemma OneCoded(tl: seq<nat>, lens: seq<nat>, fc: seq<nat>, fc1: seq<nat>, lmax: int,
                 td: seq<nat>, dlens: seq<nat>, dc: seq<nat>, dc1: seq<nat>, dmax: int, ts: seq<Token>, i: nat)
    requires TreeBuilt(tl, lens, fc, fc1, L_DESC, lmax) && TreeBuilt(td, dlens, dc, dc1, D_DESC, dmax) && AllFit(ts) &&
        i < |ts|
    requires L_CODES <= |fc| && D_CODES <= |dc| && fc[..L_CODES] == LitFreq(ts) && dc[..D_CODES] == DistFreq(ts)
    requires 0 <= lmax < |lens| && 0 <= dmax < |dlens|
    ensures TokenUsable(lens[..lmax + 1], dlens[..dmax + 1], ts[i])
  {
    hide TreeBuilt, LitFreq, DistFreq, Usable, TokenUsable, LitSym, DistSym, TokenFits;
    var t := ts[i];
    FreqUsed(ts, i);
    assert fc[..L_CODES][LitSym(t)] == fc[LitSym(t)];
    SymUsable(lens, fc, fc1, tl, L_DESC, lmax, LitSym(t));
    if t.Match? {
      assert dc[..D_CODES][DistSym(t)] == dc[DistSym(t)];
      SymUsable(dlens, dc, dc1, td, D_DESC, dmax, DistSym(t));
    }
    BySymbols(lens[..lmax + 1], dlens[..dmax + 1], t);
  }

  lemma BySymbols(ll: seq<nat>, dl: seq<nat>, t: Token)
    requires TokenFits(t) && Usable(ll, LitSym(t)) && (t.Match? ==> Usable(dl, DistSym(t)))
    ensures TokenUsable(ll, dl, t)
  {
    hide CPLENS, CPLEXT, CPDIST, CPDEXT, Pow2, LenCode, DistCode, Usable;
  }

  // the static codes have all symbols
  lemma FixedCoded(ts: seq<Token>)
    requires AllFit(ts)
    ensures CodesOk(FixedLL(), FixedDL(), ts)
  {
    hide Complete, Decodable, CPLENS, CPLEXT, CPDIST, CPDEXT, Pow2, LenCode, DistCode;
    FixedComplete();
    forall i | 0 <= i < |ts| ensures TokenUsable(FixedLL(), FixedDL(), ts[i]) {
    }
  }

  // --- The code length code ---

  lemma {:induction false} OpsHit(ops: seq<Op>, i: nat)
    requires OpsOk(ops) && i < |ops|
    ensures OpCount(ops, OpSym(ops[i])) > 0
    decreases |ops|
  {
    if i > 0 { OpsHit(ops[1..], i - 1); }
  }

  // without an explicit nonzero length there are only zeros
  lemma {:induction false} OnlyZeros(acc: seq<nat>, ops: seq<Op>)
    requires OpsOk(ops) && (forall i :: 0 <= i < |acc| ==> acc[i] == 0)
    requires forall i :: 0 <= i < |ops| && ops[i].Len? ==> ops[i].v == 0
    ensures forall i :: 0 <= i < |ExpandOps(acc, ops)| ==> ExpandOps(acc, ops)[i] == 0
    decreases |ops|
  {
    if ops != [] {
      var a := ApplyOp(acc, ops[0]);
      forall i | 0 <= i < |a| ensures a[i] == 0 {
      }
      OnlyZeros(a, ops[1..]);
    }
  }

  lemma SomeLen(ops: seq<Op>, lens: seq<nat>, x: nat) returns (i: nat)
    requires OpsOk(ops) && ExpandOps([], ops) == lens && x < |lens| && lens[x] != 0
    ensures i < |ops| && ops[i].Len? && ops[i].v >= 1
  {
    hide ExpandOps;
    if forall i :: 0 <= i < |ops| && ops[i].Len? ==> ops[i].v == 0 {
      OnlyZeros([], ops);
    }
    i :| 0 <= i < |ops| && ops[i].Len? && ops[i].v != 0;
  }

  // the code length code can express the lengths
  lemma OpsCoded(tfc: seq<nat>, bl: seq<nat>, fc: seq<nat>, fc1: seq<nat>, blmax: int, ops: seq<Op>)
    requires TreeBuilt(tfc, bl, fc, fc1, BL_DESC, blmax) && OpsOk(ops) && BL_CODES <= |fc| &&
        fc[..BL_CODES] == OpFreq(ops)
    ensures |bl| == BL_CODES && OpsUsable(bl, ops) && Complete(bl) && forall i :: 0 <= i < BL_CODES ==> bl[i] < 8
  {
    hide TreeBuilt, OpCount, Complete, OpFreq, OpSym;
    CutTree(tfc, bl, fc, fc1, BL_DESC, blmax);
    WholeTree(tfc, bl, fc, fc1, BL_DESC, blmax);
    forall i | 0 <= i < |ops| ensures Usable(bl, OpSym(ops[i])) {
      var sym := OpSym(ops[i]);
      OpsHit(ops, i);
      assert fc[..BL_CODES][sym] == fc[sym];
      SymUsable(bl, fc, fc1, tfc, BL_DESC, blmax, sym);
      assert bl[..blmax + 1][sym] == bl[sym];
    }
  }

  lemma WholeTree(tfc: seq<nat>, lens: seq<nat>, fc: seq<nat>, fc1: seq<nat>, desc: Desc, maxCode: int)
    requires TreeBuilt(tfc, lens, fc, fc1, desc, maxCode)
    ensures Complete(lens) && Coded(tfc, lens) && |lens| == desc.elems
  {
  }

  // the last length of the code length code to send
  method BlIndex(dl: array<nat>, ghost bl: seq<nat>, ghost v: nat) returns (maxBlIndex: nat)
    requires dl.Length >= BL_CODES && dl[..BL_CODES] == bl && 1 <= v <= 15 && bl[v] != 0 &&
        (forall i :: 0 <= i < BL_CODES ==> bl[i] < 8)
    ensures 3 <= maxBlIndex < BL_CODES && BlSent(bl, maxBlIndex + 1)
  {
    OrderInRange();
    OrderRank(v);
    ghost var j := BL_RANK[v];
    assert j >= 3;
    hide BL_ORDER, BL_RANK;
    maxBlIndex := BL_CODES - 1;
    while maxBlIndex >= 3
      invariant j <= maxBlIndex < BL_CODES
      invariant forall k :: maxBlIndex < k < BL_CODES ==> bl[BL_ORDER[k]] == 0
    {
      assert dl[BL_ORDER[maxBlIndex]] == dl[..BL_CODES][BL_ORDER[maxBlIndex]];
      if dl[BL_ORDER[maxBlIndex]] != 0 { break; }
      maxBlIndex := maxBlIndex - 1;
    }
  }

  // the header that goes with the trees
  function MakeHeader(ll: seq<nat>, dl: seq<nat>, bl: seq<nat>, nb: nat): (h: Header) {
    Header(ll, dl, bl, nb, RleOps(ll) + RleOps(dl))
  }

  lemma HeaderDone(ll: seq<nat>, dl: seq<nat>, bl: seq<nat>, nb: nat)
    requires 257 <= |ll| <= L_CODES && 1 <= |dl| <= D_CODES && Complete(ll) && Complete(dl) && Complete(bl)
    requires BlSent(bl, nb) && OpsUsable(bl, RleOps(ll) + RleOps(dl))
    ensures HeaderOk(MakeHeader(ll, dl, bl, nb))
    ensures |HeaderBits(MakeHeader(ll, dl, bl, nb))| == 14 + 3 * nb + |OpsBits(bl, RleOps(ll) + RleOps(dl))|
  {
    hide Kraft, Counts, CountTo, RleOps, OpsUsable, OpsBits, BlSent;
    RleTwo(ll, dl);
    hide ExpandOps, Complete;
    BlShape(bl, nb);
  }

  lemma BlShape(bl: seq<nat>, nb: nat)
    requires BlSent(bl, nb)
    ensures |bl| == BL_CODES && 4 <= nb <= BL_CODES
  {
  }
}
