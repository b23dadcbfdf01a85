/**
 build_bl_tree and send_all_trees: the code length code and the header of a
 dynamic block.
 */
module BlTree {
  import opened Bits
  import opened BitIO
  import opened Canonical
  import opened Symbols
  import opened BlockData
  import opened CodeLengths
  import opened Stream
  import opened Sums
  import opened Optimal
  import opened TreeMerge
  import opened TreeBuild
  import opened BitLengths
  import opened Trees
  import opened TreeCodes
  import opened CodeRuns
  import opened BlockSizes
  import opened Headers

  lemma {:induction false} OpFreqSum(ops: seq<Op>)
    requires OpsOk(ops)
    ensures Sum(OpFreq(ops)) == |ops|
    decreases |ops|
  {
    hide Sum, OpSym;
    if ops == [] {
      assert OpFreq(ops) == BlockSizes.Zeros(BL_CODES);
      SumZero(BlockSizes.Zeros(BL_CODES));
    } else {
      OpFreqSum(ops[1..]);
      assert OpFreq(ops) == Bump(OpFreq(ops[1..]), OpSym(ops[0]));
      BumpSum(OpFreq(ops[1..]), OpSym(ops[0]));
    }
  }

  // both vectors counted from zero
  lemma TalliedTwice(f0: seq<nat>, f1: seq<nat>, f2: seq<nat>, ll: seq<nat>, dl: seq<nat>)
    requires Tallied(f0, f1, RleOps(ll)) && Tallied(f1, f2, RleOps(dl)) && f0[..BL_CODES] == BlockSizes.Zeros(BL_CODES)
    requires OpsOk(RleOps(ll) + RleOps(dl))
    ensures |f2| == |f0| && f2[..BL_CODES] == OpFreq(RleOps(ll) + RleOps(dl))
  {
    hide RleOps, OpCount;
    TalliedMore(f0, f1, f2, RleOps(ll), RleOps(dl));
    var f := OpFreq(RleOps(ll) + RleOps(dl));
    forall s | 0 <= s < BL_CODES ensures f2[s] == f[s] {
      assert f0[..BL_CODES][s] == f0[s];
    }
  }

  // the code length code for ll and dl
  ghost predicate BlBuilt(fc: seq<nat>, dl_: seq<nat>, bl: seq<nat>, ll: seq<nat>, dl: seq<nat>, nb: nat) {
    && |bl| == BL_CODES && HasCode(fc, dl_, bl) && Complete(bl)
    && OpsOk(RleOps(ll) + RleOps(dl)) && OpsUsable(bl, RleOps(ll) + RleOps(dl)) && BlSent(bl, nb)
  }

  ghost predicate LensFor(lens: seq<nat>) {
    |lens| >= 1 && forall i :: 0 <= i < |lens| ==> lens[i] <= MAX_BITS
  }

  method ScanBoth(lt: Tree, dt: Tree, bt: Tree, lmax: nat, dmax: nat, ghost ll: seq<nat>, ghost dl: seq<nat>)
    requires lt.dl != dt.dl && lt.dl != bt.fc && dt.dl != bt.fc && bt.fc.Length >= BL_CODES
    requires |ll| == lmax + 1 < lt.dl.Length && lt.dl[..lmax + 1] == ll && LensFor(ll)
    requires |dl| == dmax + 1 < dt.dl.Length && dt.dl[..dmax + 1] == dl && LensFor(dl)
    requires bt.fc[..BL_CODES] == BlockSizes.Zeros(BL_CODES)
    modifies lt.dl, dt.dl, bt.fc
    ensures Guarded(lt.dl[..], ll) && Guarded(dt.dl[..], dl)
    ensures OpsOk(RleOps(ll) + RleOps(dl)) && bt.fc[..BL_CODES] == OpFreq(RleOps(ll) + RleOps(dl))
  {
    hide RleOps, Tallied, OpFreq;
    RleTwo(ll, dl);
    ghost var f0 := bt.fc[..];
    assert f0[..BL_CODES] == bt.fc[..BL_CODES];
    ScanTree(lt.dl, lmax, bt.fc, ll, f0);
    ghost var f1 := bt.fc[..];
    ghost var g := lt.dl[..];
    ScanTree(dt.dl, dmax, bt.fc, dl, f1);
    assert lt.dl[..] == g;
    TalliedTwice(f0, f1, bt.fc[..], ll, dl);
    assert bt.fc[..BL_CODES] == bt.fc[..][..BL_CODES];
  }

  lemma FewOps(ll: seq<nat>, dl: seq<nat>)
    requires LensFor(ll) && LensFor(dl) && |ll| + |dl| <= 400
    ensures OpsOk(RleOps(ll) + RleOps(dl)) && Sum(OpFreq(RleOps(ll) + RleOps(dl))) <= 400
  {
    hide RleOps, OpFreq, Sum;
    RleTwo(ll, dl);
    OpFreqSum(RleOps(ll) + RleOps(dl));
  }

  method BuildBlTree(ws: Work, lt: Tree, dt: Tree, bt: Tree, lmax: nat, dmax: nat, ghost ll: seq<nat>,
      ghost dl: seq<nat>)
    returns (maxBlIndex: nat, ghost bl: seq<nat>)
    requires Apart(ws, bt) && bt.fc.Length == 2 * BL_CODES + 1
    requires lt.dl != dt.dl && lt.dl != bt.fc && dt.dl != bt.fc && lt.dl != bt.dl && dt.dl != bt.dl
    requires lt.dl != ws.heap && lt.dl != ws.depth && lt.dl != ws.blCount && dt.dl != ws.heap && dt.dl != ws.depth &&
        dt.dl != ws.blCount
    requires |ll| == lmax + 1 < lt.dl.Length && lt.dl[..lmax + 1] == ll && LensFor(ll)
    requires |dl| == dmax + 1 < dt.dl.Length && dt.dl[..dmax + 1] == dl && LensFor(dl)
    requires |ll| + |dl| <= 400 && (exists x :: 0 <= x < |ll| && ll[x] != 0)
    requires bt.fc[..BL_CODES] == BlockSizes.Zeros(BL_CODES)
    modifies ws, ws.heap, ws.depth, ws.blCount, lt.dl, dt.dl, bt.fc, bt.dl
    ensures Guarded(lt.dl[..], ll) && Guarded(dt.dl[..], dl) && 3 <= maxBlIndex < BL_CODES
    ensures BlBuilt(bt.fc[..], bt.dl[..], bl, ll, dl, maxBlIndex + 1)
    ensures ws.optLen == old(ws.optLen) + 14 + 3 * (maxBlIndex + 1) + |OpsBits(bl, RleOps(ll) + RleOps(dl))|
    ensures ws.staticLen == old(ws.staticLen)
  {
    hide RleOps, OpFreq, TreeBuilt, Gained, Sum, Guarded, BlBuilt, OpsUsable, OpsBits, BlSent, Complete, DescOk, Coded,
        CutFrom, Minimal;
    ghost var opt0, stat0 := ws.optLen, ws.staticLen;
    DescsOk();
    ScanBoth(lt, dt, bt, lmax, dmax, ll, dl);
    FewOps(ll, dl);
    ghost var ops, fc := RleOps(ll) + RleOps(dl), bt.fc[..];
    assert fc[..BL_CODES] == bt.fc[..BL_CODES];
    ghost var gl, gd := lt.dl[..], dt.dl[..];
    var blmax;
    ghost var fc1, cut;
    blmax, fc1, cut := BuildTree(ws, bt, BL_DESC, fc);
    assert lt.dl[..] == gl && dt.dl[..] == gd;
    bl := bt.dl[..BL_CODES];
    ghost var v := BlFacts(bt.fc[..], bl, fc, fc1, blmax, ll, dl, ops);
    BlGain(ws.optLen, ws.staticLen, opt0, stat0, fc, bl, ops);
    maxBlIndex := BlIndex(bt.dl, bl, v);
    ws.optLen := ws.optLen + 3 * (maxBlIndex + 1) + 5 + 5 + 4;
    BlDone(bt.fc[..], bt.dl[..], bl, ll, dl, maxBlIndex + 1);
  }

  lemma BlFacts(tfc: seq<nat>, bl: seq<nat>, fc: seq<nat>, fc1: seq<nat>, blmax: int, ll: seq<nat>, dl: seq<nat>,
      ops: seq<Op>) returns (v: nat)
    requires TreeBuilt(tfc, bl, fc, fc1, BL_DESC, blmax) && OpsOk(ops) && BL_CODES <= |fc| &&
        fc[..BL_CODES] == OpFreq(ops)
    requires LensFor(ll) && LensFor(dl) && ops == RleOps(ll) + RleOps(dl) && (exists x :: 0 <= x < |ll| && ll[x] != 0)
    ensures |bl| == BL_CODES && OpsUsable(bl, ops) && Complete(bl) && Coded(tfc, bl)
    ensures 1 <= v <= 15 && bl[v] != 0 && forall i :: 0 <= i < BL_CODES ==> bl[i] < 8
  {
    hide RleOps, OpFreq, TreeBuilt, Complete, Coded;
    OpsCoded(tfc, bl, fc, fc1, blmax, ops);
    WholeTree(tfc, bl, fc, fc1, BL_DESC, blmax);
    RleTwo(ll, dl);
    var x :| 0 <= x < |ll| && ll[x] != 0;
    assert (ll + dl)[x] == ll[x];
    var i := SomeLen(ops, ll + dl, x);
    v := ops[i].v;
    assert OpOk(ops[i]) && Usable(bl, OpSym(ops[i]));
  }

  lemma BlGain(opt: int, stat: int, opt0: int, stat0: int, fc: seq<nat>, bl: seq<nat>, ops: seq<Op>)
    requires DescOk(BL_DESC) && |bl| == BL_CODES <= |fc| && Gained(opt, stat, opt0, stat0, fc, bl, BL_DESC)
    requires OpsUsable(bl, ops) && fc[..BL_CODES] == OpFreq(ops)
    ensures opt == opt0 + |OpsBits(bl, ops)| && stat == stat0
  {
    hide OpFreq, OpsBits, Dot, DescOk;
    OpsCost(bl, ops);
  }

  lemma BlDone(tfc: seq<nat>, tdl: seq<nat>, bl: seq<nat>, ll: seq<nat>, dl: seq<nat>, nb: nat)
    requires |bl| == BL_CODES <= |tdl| && tdl[..BL_CODES] == bl && Coded(tfc, bl) && Complete(bl)
    requires OpsOk(RleOps(ll) + RleOps(dl)) && OpsUsable(bl, RleOps(ll) + RleOps(dl)) && BlSent(bl, nb)
    ensures BlBuilt(tfc, tdl, bl, ll, dl, nb)
  {
    hide RleOps, Complete, BlSent, OpsUsable;
  }

  // --- send_all_trees ---

  lemma OrderedSnoc(bl: seq<nat>, j: nat)
    requires |bl| == BL_CODES && j < BL_CODES
    ensures BL_ORDER[j] < BL_CODES && Ordered(bl, j + 1) == Ordered(bl, j) + [bl[BL_ORDER[j]]]
  {
    OrderInRange();
  }

  lemma {:induction false} ValsBitsSnoc(vals: seq<nat>, v: nat)
    ensures ValsBits(vals + [v]) == ValsBits(vals) + BitsOf(v, 3)
  {
    hide BitsOf;
    if vals == [] {
      assert vals + [v] == [v] && [v][1..] == [];
    } else {
      ValsBitsSnoc(vals[1..], v);
      assert (vals + [v])[1..] == vals[1..] + [v];
    }
  }

  // the lengths of the code length code, in their own order
  method SendBlLens(w: BitWriter, dl: array<nat>, blcodes: nat, ghost bl: seq<nat>)
    requires w.Valid() && (w.outbuf as object) != dl && dl.Length >= BL_CODES && dl[..BL_CODES] == bl &&
        BlSent(bl, blcodes)
    modifies w, w.outbuf
    ensures w.Valid() && w.Sent() == old(w.Sent()) + ValsBits(Ordered(bl, blcodes))
  {
    hide Packed, ValsBits, Ordered, Pow2, BitsOf;
    SmallPowers();
    var rank := 0;
    ghost var s0 := w.Sent();
    NoneOrdered(bl);
    while rank < blcodes
      invariant rank <= blcodes && w.Valid() && dl[..BL_CODES] == bl && w.Sent() == s0 + ValsBits(Ordered(bl, rank))
    {
      OrderedSnoc(bl, rank);
      ValsBitsSnoc(Ordered(bl, rank), bl[BL_ORDER[rank]]);
      assert dl[BL_ORDER[rank]] == dl[..BL_CODES][BL_ORDER[rank]];
      w.SendBits(dl[BL_ORDER[rank]], 3);
      Assoc(s0, ValsBits(Ordered(bl, rank)), BitsOf(bl[BL_ORDER[rank]], 3));
      rank := rank + 1;
    }
  }

  lemma NoneOrdered(bl: seq<nat>)
    requires |bl| == BL_CODES
    ensures ValsBits(Ordered(bl, 0)) == []
  {
  }

  // what the trees hold when the header is sent
  ghost predicate TreesReady(ltdl: seq<nat>, dtdl: seq<nat>, btfc: seq<nat>, btdl: seq<nat>, ll: seq<nat>, dl: seq<nat>,
      bl: seq<nat>, nb: nat) {
    && Guarded(ltdl, ll) && Guarded(dtdl, dl) && BlBuilt(btfc, btdl, bl, ll, dl, nb)
    && 257 <= |ll| <= L_CODES && 1 <= |dl| <= D_CODES && Complete(ll) && Complete(dl)
  }

  lemma ReadyHeader(ltdl: seq<nat>, dtdl: seq<nat>, btfc: seq<nat>, btdl: seq<nat>, ll: seq<nat>, dl: seq<nat>,
      bl: seq<nat>, nb: nat)
    requires TreesReady(ltdl, dtdl, btfc, btdl, ll, dl, bl, nb)
    ensures HeaderOk(MakeHeader(ll, dl, bl, nb)) && BlSent(bl, nb) && |bl| == BL_CODES && HasCode(btfc, btdl, bl)
    ensures OpsUsable(bl, RleOps(ll)) && OpsUsable(bl, RleOps(dl)) && |btdl| >= BL_CODES && btdl[..BL_CODES] == bl
    ensures OpsUsable(bl, RleOps(ll) + RleOps(dl)) &&
        OpsBits(bl, RleOps(ll) + RleOps(dl)) == OpsBits(bl, RleOps(ll)) + OpsBits(bl, RleOps(dl))
    ensures |HeaderBits(MakeHeader(ll, dl, bl, nb))| == 14 + 3 * nb + |OpsBits(bl, RleOps(ll) + RleOps(dl))|
  {
    hide RleOps, Complete, BlSent, OpsUsable, OpsBits, HeaderOk, HeaderBits, MakeHeader, Guarded, Coded;
    HeaderDone(ll, dl, bl, nb);
    UsableParts(bl, RleOps(ll), RleOps(dl));
    OpsBitsConcat(bl, RleOps(ll), RleOps(dl));
  }

  // a header without the run-length codes
  ghost function HeaderFront(ll: seq<nat>, dl: seq<nat>, bl: seq<nat>, nb: nat): (s: seq<Bit>)
    requires 257 <= |ll| && 1 <= |dl| && 4 <= nb <= BL_CODES == |bl|
  {
    BitsOf(|ll| - 257, 5) + BitsOf(|dl| - 1, 5) + BitsOf(nb - 4, 4) + ValsBits(Ordered(bl, nb))
  }

  lemma HeaderSplit(h: Header, a: seq<Bit>, b: seq<Bit>)
    requires HeaderOk(h) && OpsBits(h.bl, h.ops) == a + b
    ensures 4 <= h.nb <= BL_CODES == |h.bl| && HeaderBits(h) == HeaderFront(h.ll, h.dl, h.bl, h.nb) + (a + b)
  {
    hide BitsOf, ValsBits, Ordered, OpsBits, RleOps, OpsUsable, Complete, Decodable;
  }

  lemma HeaderIs(ll: seq<nat>, dl: seq<nat>, bl: seq<nat>, nb: nat, a: seq<Bit>, b: seq<Bit>)
    requires HeaderOk(MakeHeader(ll, dl, bl, nb)) && 257 <= |ll| && 1 <= |dl| && 4 <= nb <= BL_CODES == |bl|
    requires OpsUsable(bl, RleOps(ll) + RleOps(dl)) && OpsBits(bl, RleOps(ll) + RleOps(dl)) == a + b
    ensures HeaderBits(MakeHeader(ll, dl, bl, nb)) == HeaderFront(ll, dl, bl, nb) + (a + b)
  {
    hide HeaderBits, HeaderFront, OpsBits, RleOps, OpsUsable, Complete, Decodable, ExpandOps, BlSent;
    HeaderSplit(MakeHeader(ll, dl, bl, nb), a, b);
  }

  // everything before the run-length codes
  method SendFront(w: BitWriter, bldl: array<nat>, lcodes: nat, dcodes: nat, blcodes: nat, ghost ll: seq<nat>,
      ghost dl: seq<nat>, ghost bl: seq<nat>)
    requires w.Valid() && (w.outbuf as object) != bldl && bldl.Length >= BL_CODES && bldl[..BL_CODES] == bl &&
        BlSent(bl, blcodes)
    requires 257 <= lcodes == |ll| <= L_CODES && 1 <= dcodes == |dl| <= D_CODES
    modifies w, w.outbuf
    ensures w.Valid() && |bl| == BL_CODES && 4 <= blcodes <= BL_CODES
    ensures w.Sent() == old(w.Sent()) + HeaderFront(ll, dl, bl, blcodes)
  {
    hide Packed, ValsBits, Ordered, Pow2, BitsOf, BlSent;
    BlShape(bl, blcodes);
    SmallPowers();
    ghost var s0 := w.Sent();
    w.SendBits(lcodes - 257, 5);
    w.SendBits(dcodes - 1, 5);
    w.SendBits(blcodes - 4, 4);
    SendBlLens(w, bldl, blcodes, bl);
    FrontJoin(s0, BitsOf(|ll| - 257, 5), BitsOf(|dl| - 1, 5), BitsOf(blcodes - 4, 4), ValsBits(Ordered(bl, blcodes)));
  }

  lemma FrontJoin(s: seq<Bit>, a: seq<Bit>, b: seq<Bit>, c: seq<Bit>, d: seq<Bit>)
    ensures s + a + b + c + d == s + (a + b + c + d)
  {
  }

  lemma BackJoin(s: seq<Bit>, f: seq<Bit>, a: seq<Bit>, b: seq<Bit>)
    ensures s + f + a + b == s + (f + (a + b))
  {
  }

  method SendAllTrees(w: BitWriter, lt: Tree, dt: Tree, bt: Tree, lcodes: nat, dcodes: nat, blcodes: nat,
                      ghost ll: seq<nat>, ghost dl: seq<nat>, ghost bl: seq<nat>)
    requires w.Valid() && CodeArrays(w, bt.fc, bt.dl) && (w.outbuf as object) != lt.dl && (w.outbuf as object) != dt.dl
    requires TreesReady(lt.dl[..], dt.dl[..], bt.fc[..], bt.dl[..], ll, dl, bl, blcodes)
    requires lcodes == |ll| && dcodes == |dl| && HeaderOk(MakeHeader(ll, dl, bl, blcodes))
    modifies w, w.outbuf
    ensures w.Valid() && w.Sent() == old(w.Sent()) + HeaderBits(MakeHeader(ll, dl, bl, blcodes))
  {
    hide Packed, RleOps, Complete, BlSent, OpsUsable, OpsBits, HeaderOk, Guarded, Coded, HasCode, HeaderBits,
        MakeHeader,
        HeaderFront;
    ReadyHeader(lt.dl[..], dt.dl[..], bt.fc[..], bt.dl[..], ll, dl, bl, blcodes);
    ghost var s0 := w.Sent();
    SendFront(w, bt.dl, lcodes, dcodes, blcodes, ll, dl, bl);
    SendTree(w, lt.dl, lcodes - 1, bt.fc, bt.dl, ll, bl);
    SendTree(w, dt.dl, dcodes - 1, bt.fc, bt.dl, dl, bl);
    ghost var a, b := OpsBits(bl, RleOps(ll)), OpsBits(bl, RleOps(dl));
    HeaderIs(ll, dl, bl, blcodes, a, b);
    BackJoin(s0, HeaderFront(ll, dl, bl, blcodes), a, b);
  }
}
