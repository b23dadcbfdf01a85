/**
 The first half of flush_block: the three trees of a block, and the sizes they
 promise for it.
 */
module BlockTrees {
  import opened Bits
  import opened BitIO
  import opened Canonical
  import opened Lz
  import opened Symbols
  import opened BlockData
  import opened CodeLengths
  import opened Stream
  import opened Sums
  import opened Optimal
  import opened TreeMerge
  import opened TreeBuild
  import opened BitLengths
  import opened Trees
  import opened TreeCodes
  import opened CodeRuns
  import opened TokenBuffer
  import opened BlockSizes
  import opened Headers
  import opened BlTree

  // the arrays that build_tree works on
  ghost function CoreArrays(ws: Work, lt: Tree, dt: Tree, bt: Tree): (s: set<object>) {
    {ws.heap, ws.depth, ws.blCount, lt.fc, lt.dl, dt.fc, dt.dl, bt.fc, bt.dl}
  }

  ghost predicate CoreLaid(ws: Work, lt: Tree, dt: Tree, bt: Tree) {
    && TreeMerge.Apart(ws, lt) && TreeMerge.Apart(ws, dt) && TreeMerge.Apart(ws, bt)
    && lt.fc.Length == 2 * L_CODES + 1 && dt.fc.Length == 2 * D_CODES + 1 && bt.fc.Length == 2 * BL_CODES + 1
    && lt.fc != dt.fc && lt.fc != dt.dl && lt.fc != bt.fc && lt.fc != bt.dl && lt.dl != dt.fc && lt.dl != dt.dl &&
        lt.dl != bt.fc && lt.dl != bt.dl
    && dt.fc != bt.fc && dt.fc != bt.dl && dt.dl != bt.fc && dt.dl != bt.dl
  }

  method NewCore() returns (ws: Work, lt: Tree, dt: Tree, bt: Tree)
    ensures CoreLaid(ws, lt, dt, bt) && ws.optLen == 0 && ws.staticLen == 0
    ensures fresh(ws) && fresh(lt.fc) && fresh(dt.fc) && fresh(bt.fc) && fresh(CoreArrays(ws, lt, dt, bt))
    ensures forall o :: o in CoreArrays(ws, lt, dt, bt) ==> allocated(o)
  {
    ws := new Work();
    lt := new Tree(2 * L_CODES + 1);
    dt := new Tree(2 * D_CODES + 1);
    bt := new Tree(2 * BL_CODES + 1);
  }

  // the frequencies of the tokens ts in the first fields of the trees
  ghost predicate FreqsOf(lfc: seq<nat>, dfc: seq<nat>, bfc: seq<nat>, ts: seq<Token>) {
    && AllFit(ts) && |lfc| == 2 * L_CODES + 1 && |dfc| == 2 * D_CODES + 1 && |bfc| == 2 * BL_CODES + 1
    && lfc[..L_CODES] == LitFreq(ts) && dfc[..D_CODES] == DistFreq(ts) && bfc[..BL_CODES] == BlockSizes.Zeros(BL_CODES)
  }

  // the literal and distance trees, before the code length tree is built
  ghost predicate TwoTrees(ltfc: seq<nat>, ltdl: seq<nat>, dtfc: seq<nat>, dtdl: seq<nat>, ll: seq<nat>, dl: seq<nat>,
      ts: seq<Token>) {
    && HasCode(ltfc, ltdl, ll) && HasCode(dtfc, dtdl, dl) && CodesOk(ll, dl, ts) && LensFor(ll) && LensFor(dl)
    && 257 <= |ll| <= L_CODES && 1 <= |dl| <= D_CODES && Complete(ll) && Complete(dl)
  }

  // both trees code the tokens, and the sums of frequency times length are the sizes of the data
  lemma TwoDone(tl: seq<nat>, ltdl: seq<nat>, fc: seq<nat>, fc1: seq<nat>, lmax: int,
                td: seq<nat>, dtdl: seq<nat>, dc: seq<nat>, dc1: seq<nat>, dmax: int, bc: seq<nat>, ts: seq<Token>)
    requires L_CODES <= |ltdl| && D_CODES <= |dtdl| && |tl| == |fc| && |td| == |dc| && FreqsOf(fc, dc, bc, ts)
    requires TreeBuilt(tl, ltdl[..L_CODES], fc, fc1, L_DESC, lmax) &&
        TreeBuilt(td, dtdl[..D_CODES], dc, dc1, D_DESC, dmax)
    ensures 0 <= lmax < L_CODES && 0 <= dmax < D_CODES
    ensures TwoTrees(tl, ltdl, td, dtdl, ltdl[..lmax + 1], dtdl[..dmax + 1], ts)
  {
    hide TreeBuilt, LitFreq, DistFreq, Complete, Coded, CodesOk;
    var lens, dlens := ltdl[..L_CODES], dtdl[..D_CODES];
    CutTree(tl, lens, fc, fc1, L_DESC, lmax);
    CutTree(td, dlens, dc, dc1, D_DESC, dmax);
    TokensCoded(tl, lens, fc, fc1, lmax, td, dlens, dc, dc1, dmax, ts);
    assert lens[..lmax + 1] == ltdl[..lmax + 1] && dlens[..dmax + 1] == dtdl[..dmax + 1];
  }

  lemma Sizes(opt: int, stat: int, opt1: int, stat1: int, fc: seq<nat>, dc: seq<nat>, bc: seq<nat>, lens: seq<nat>,
      dlens: seq<nat>,
              lmax: int, dmax: int, ts: seq<Token>)
    requires FreqsOf(fc, dc, bc, ts) && DescOk(L_DESC) && DescOk(D_DESC) && |lens| == L_CODES && |dlens| == D_CODES
    requires Gained(opt1, stat1, 0, 0, fc, lens, L_DESC) && Gained(opt, stat, opt1, stat1, dc, dlens, D_DESC)
    requires 0 <= lmax < L_CODES && 0 <= dmax < D_CODES && CodesOk(lens[..lmax + 1], dlens[..dmax + 1], ts)
    ensures opt == |CodedBits(lens[..lmax + 1], dlens[..dmax + 1], ts)|
    ensures CodesOk(FixedLL(), FixedDL(), ts) && stat == |CodedBits(FixedLL(), FixedDL(), ts)|
  {
    hide DescOk, Dot, LitFreq, DistFreq, CodesOk, CodedBits;
    CodedCost(lens[..lmax + 1], dlens[..dmax + 1], lens, dlens, ts);
    FixedCoded(ts);
    CodedCost(FixedLL(), FixedDL(), FixedLL(), FixedDL(), ts);
  }

  method BuildTwo(ws: Work, lt: Tree, dt: Tree, ghost fc: seq<nat>, ghost dc: seq<nat>, ghost bc: seq<nat>,
      ghost ts: seq<Token>)
    returns (lmax: nat, dmax: nat, ghost ll: seq<nat>, ghost dl: seq<nat>)
    requires TreeMerge.Apart(ws, lt) && TreeMerge.Apart(ws, dt) && lt.fc != dt.fc && lt.fc != dt.dl && lt.dl != dt.fc &&
        lt.dl != dt.dl
    requires lt.fc[..] == fc && dt.fc[..] == dc && FreqsOf(fc, dc, bc, ts) && |ts| < LIT_BUFSIZE && ws.optLen == 0 &&
        ws.staticLen == 0
    modifies ws, ws.heap, ws.depth, ws.blCount, lt.fc, lt.dl, dt.fc, dt.dl
    ensures lmax + 1 == |ll| <= L_CODES && dmax + 1 == |dl| <= D_CODES &&
        TwoTrees(lt.fc[..], lt.dl[..], dt.fc[..], dt.dl[..], ll, dl, ts)
    ensures ws.optLen == |CodedBits(ll, dl, ts)|
    ensures CodesOk(FixedLL(), FixedDL(), ts) && ws.staticLen == |CodedBits(FixedLL(), FixedDL(), ts)|
  {
    hide TreeBuilt, Gained, FreqsOf, Sum, CodedBits, DescOk, CodesOk, TwoTrees, LitFreq, DistFreq, Minimal,
        CutFrom;
    DescsOk();
    FreqBounds(fc, dc, bc, ts);
    var lmax1, dmax1;
    ghost var fc1, dc1, cut;
    lmax1, fc1, cut := BuildTree(ws, lt, L_DESC, fc);
    ghost var tl, tdl, opt1, stat1 := lt.fc[..], lt.dl[..], ws.optLen, ws.staticLen;
    assert lt.dl[..L_CODES] == tdl[..L_CODES];
    dmax1, dc1, cut := BuildTree(ws, dt, D_DESC, dc);
    assert lt.fc[..] == tl && lt.dl[..] == tdl;
    assert dt.dl[..D_CODES] == dt.dl[..][..D_CODES];
    TwoDone(tl, tdl, fc, fc1, lmax1, dt.fc[..], dt.dl[..], dc, dc1, dmax1, bc, ts);
    lmax, dmax := lmax1, dmax1;
    ll, dl := tdl[..lmax + 1], dt.dl[..][..dmax + 1];
    SizesOf(ws.optLen, ws.staticLen, opt1, stat1, fc, dc, bc, tl, tdl, dt.fc[..], dt.dl[..], lmax, dmax, ts);
  }

  lemma SizesOf(opt: int, stat: int, opt1: int, stat1: int, fc: seq<nat>, dc: seq<nat>, bc: seq<nat>, tl: seq<nat>,
      ltdl: seq<nat>,
                td: seq<nat>, dtdl: seq<nat>, lmax: nat, dmax: nat, ts: seq<Token>)
    requires FreqsOf(fc, dc, bc, ts) && DescOk(L_DESC) && DescOk(D_DESC) && L_CODES <= |ltdl| && D_CODES <= |dtdl|
    requires Gained(opt1, stat1, 0, 0, fc, ltdl[..L_CODES], L_DESC) &&
        Gained(opt, stat, opt1, stat1, dc, dtdl[..D_CODES], D_DESC)
    requires lmax < L_CODES && dmax < D_CODES && TwoTrees(tl, ltdl, td, dtdl, ltdl[..lmax + 1], dtdl[..dmax + 1], ts)
    ensures opt == |CodedBits(ltdl[..lmax + 1], dtdl[..dmax + 1], ts)|
    ensures CodesOk(FixedLL(), FixedDL(), ts) && stat == |CodedBits(FixedLL(), FixedDL(), ts)|
  {
    hide Gained, FreqsOf, DescOk, CodesOk, CodedBits, Coded, Complete;
    assert ltdl[..L_CODES][..lmax + 1] == ltdl[..lmax + 1] && dtdl[..D_CODES][..dmax + 1] == dtdl[..dmax + 1];
    Sizes(opt, stat, opt1, stat1, fc, dc, bc, ltdl[..L_CODES], dtdl[..D_CODES], lmax, dmax, ts);
  }

  lemma FreqBounds(fc: seq<nat>, dc: seq<nat>, bc: seq<nat>, ts: seq<Token>)
    requires FreqsOf(fc, dc, bc, ts) && |ts| < LIT_BUFSIZE
    ensures |fc| == 2 * L_CODES + 1 && |dc| == 2 * D_CODES + 1 && Sum(fc[..L_CODES]) <= 0xfffd &&
        Sum(dc[..D_CODES]) <= 0xfffd
  {
    hide LitFreq, DistFreq, Sum;
    FreqSum(ts);
  }

  // everything that is sent for a block is ready
  ghost predicate Built(ltfc: seq<nat>, ltdl: seq<nat>, dtfc: seq<nat>, dtdl: seq<nat>, btfc: seq<nat>, btdl: seq<nat>,
                        ll: seq<nat>, dl: seq<nat>, bl: seq<nat>, nb: nat, ts: seq<Token>) {
    TwoTrees(ltfc, ltdl, dtfc, dtdl, ll, dl, ts) && TreesReady(ltdl, dtdl, btfc, btdl, ll, dl, bl, nb)
  }

  method BuildAll(ws: Work, lt: Tree, dt: Tree, bt: Tree, ghost fc: seq<nat>, ghost dc: seq<nat>, ghost bc: seq<nat>,
      ghost ts: seq<Token>)
    returns (lmax: nat, dmax: nat, maxBl: nat, ghost ll: seq<nat>, ghost dl: seq<nat>, ghost bl: seq<nat>)
    requires CoreLaid(ws, lt, dt, bt) && lt.fc[..] == fc && dt.fc[..] == dc && bt.fc[..] == bc &&
        FreqsOf(fc, dc, bc, ts)
    requires |ts| < LIT_BUFSIZE && ws.optLen == 0 && ws.staticLen == 0
    modifies ws, ws.heap, ws.depth, ws.blCount, lt.fc, lt.dl, dt.fc, dt.dl, bt.fc, bt.dl
    ensures lmax + 1 == |ll| <= L_CODES && dmax + 1 == |dl| <= D_CODES
    ensures Built(lt.fc[..], lt.dl[..], dt.fc[..], dt.dl[..], bt.fc[..], bt.dl[..], ll, dl, bl, maxBl + 1, ts)
    ensures CodesOk(ll, dl, ts) && HeaderOk(MakeHeader(ll, dl, bl, maxBl + 1))
    ensures ws.optLen == |HeaderBits(MakeHeader(ll, dl, bl, maxBl + 1))| + |CodedBits(ll, dl, ts)|
    ensures CodesOk(FixedLL(), FixedDL(), ts) && ws.staticLen == |CodedBits(FixedLL(), FixedDL(), ts)|
  {
    hide FreqsOf, CodedBits, CodesOk, TwoTrees, BlBuilt, OpsBits, RleOps, Guarded, MakeHeader, HeaderBits, HeaderOk,
        TreesReady, Built;
    lmax, dmax, ll, dl := BuildTwo(ws, lt, dt, fc, dc, bc, ts);
    ghost var ltfc, ltdl, dtfc, dtdl, coded := lt.fc[..], lt.dl[..], dt.fc[..], dt.dl[..], ws.optLen;
    TwoFacts(ltfc, ltdl, dtfc, dtdl, ll, dl, ts);
    ZeroFront(fc, dc, bc, ts);
    assert bt.fc[..BL_CODES] == bc[..BL_CODES];
    assert lt.dl[..lmax + 1] == ltdl[..lmax + 1] && dt.dl[..dmax + 1] == dtdl[..dmax + 1];
    maxBl, bl := BuildBlTree(ws, lt, dt, bt, lmax, dmax, ll, dl);
    assert lt.fc[..] == ltfc && dt.fc[..] == dtfc;
    AllDone(ltfc, ltdl, lt.dl[..], dtfc, dtdl, dt.dl[..], bt.fc[..], bt.dl[..], ll, dl, bl, maxBl + 1, ts);
  }

  lemma TwoFacts(ltfc: seq<nat>, ltdl: seq<nat>, dtfc: seq<nat>, dtdl: seq<nat>, ll: seq<nat>, dl: seq<nat>,
      ts: seq<Token>)
    requires TwoTrees(ltfc, ltdl, dtfc, dtdl, ll, dl, ts)
    ensures LensFor(ll) && LensFor(dl) && |ll| <= |ltdl| && |dl| <= |dtdl| && ltdl[..|ll|] == ll && dtdl[..|dl|] == dl
    ensures CodesOk(ll, dl, ts) && exists x :: 0 <= x < |ll| && ll[x] != 0
  {
    hide Coded, Complete, Decodable, TokensUsable;
    assert ll[END_BLOCK] != 0;
  }

  lemma ZeroFront(fc: seq<nat>, dc: seq<nat>, bc: seq<nat>, ts: seq<Token>)
    requires FreqsOf(fc, dc, bc, ts)
    ensures |bc| == 2 * BL_CODES + 1 && bc[..BL_CODES] == BlockSizes.Zeros(BL_CODES)
  {
    hide LitFreq, DistFreq;
  }

  lemma AllDone(ltfc: seq<nat>, ltdl0: seq<nat>, ltdl: seq<nat>, dtfc: seq<nat>, dtdl0: seq<nat>, dtdl: seq<nat>,
      btfc: seq<nat>, btdl: seq<nat>,
                ll: seq<nat>, dl: seq<nat>, bl: seq<nat>, nb: nat, ts: seq<Token>)
    requires TwoTrees(ltfc, ltdl0, dtfc, dtdl0, ll, dl, ts) && Guarded(ltdl, ll) && Guarded(dtdl, dl) &&
        BlBuilt(btfc, btdl, bl, ll, dl, nb)
    requires |ltdl| == |ltdl0| && |dtdl| == |dtdl0|
    ensures Built(ltfc, ltdl, dtfc, dtdl, btfc, btdl, ll, dl, bl, nb, ts) && HeaderOk(MakeHeader(ll, dl, bl, nb))
    ensures OpsUsable(bl, RleOps(ll) + RleOps(dl))
    ensures |HeaderBits(MakeHeader(ll, dl, bl, nb))| == 14 + 3 * nb + |OpsBits(bl, RleOps(ll) + RleOps(dl))|
  {
    hide Coded, Complete, CodesOk, BlBuilt, RleOps, OpsBits, HeaderOk, HeaderBits, MakeHeader, OpsUsable;
    ReadyHeader(ltdl, dtdl, btfc, btdl, ll, dl, bl, nb);
  }
}
