/**
 scan_tree and send_tree: the run-length form of a vector of code lengths, and
 that inflate_dynamic reads the vector back from it.
 */
module CodeRuns {
  import opened Bits
  import opened Canonical
  import opened Symbols
  import opened BlockData
  import opened CodeLengths
  import opened BitIO
  import opened TreeCodes

  // --- The run-length form ---

  // longest run emitted at once and shortest run worth a repeat code
  function MaxCount(prev: int, cur: nat): (r: nat) {
    if cur == 0 then 138 else if cur == prev then 6 else 7
  }

  function MinCount(prev: int, cur: nat): (r: nat) {
    if cur == 0 || cur == prev then 3 else 4
  }

  function Copies(v: nat, n: nat): (ops: seq<Op>)
    ensures |ops| == n && forall i :: 0 <= i < n ==> ops[i] == Len(v)
  {
    seq(n, _ => Len(v))
  }

  // a run of count lengths cur after a run of lengths prev
  function Emit(prev: int, cur: nat, count: nat): (ops: seq<Op>)
    requires count >= 1
  {
    if count < MinCount(prev, cur) then Copies(cur, count)
    else if cur != 0 then if cur != prev then [Len(cur), Rep(count - 1)] else [Rep(count)]
    else if count <= 10 then [Zeros(count)]
    else [ManyZeros(count)]
  }

  const GUARD := 0xffff

  function NextLen(lens: seq<nat>, n: nat): (r: nat)
    requires n < |lens|
  {
    if n + 1 < |lens| then lens[n + 1] else GUARD
  }

  // from position n on, with count pending lengths equal to lens[n]
  function RleFrom(lens: seq<nat>, n: nat, prev: int, count: nat): (ops: seq<Op>)
    requires n <= |lens|
    decreases |lens| - n
  {
    if n == |lens| then []
    else
      var cur := lens[n];
      if count + 1 < MaxCount(prev, cur) && cur == NextLen(lens, n) then RleFrom(lens, n + 1, prev, count + 1)
      else Emit(prev, cur, count + 1) + RleFrom(lens, n + 1, cur, 0)
  }

  function RleOps(lens: seq<nat>): (ops: seq<Op>) {
    RleFrom(lens, 0, -1, 0)
  }

  // --- Expanding it ---

  lemma {:induction false} CopiesExpand(acc: seq<nat>, v: nat, n: nat)
    requires v <= MAX_BITS
    ensures OpsOk(Copies(v, n)) && ExpandOps(acc, Copies(v, n)) == acc + Run(v, n)
    decreases n
  {
    if n > 0 {
      CopiesExpand(acc + [v], v, n - 1);
      assert Copies(v, n)[1..] == Copies(v, n - 1);
      assert Run(v, n) == [v] + Run(v, n - 1);
    } else {
      assert Run(v, 0) == [];
    }
  }

  lemma EmitExpand(acc: seq<nat>, prev: int, cur: nat, count: nat)
    requires cur <= MAX_BITS && 1 <= count <= MaxCount(prev, cur) && (prev >= 0 ==> Last(acc) == prev)
    ensures OpsOk(Emit(prev, cur, count)) && ExpandOps(acc, Emit(prev, cur, count)) == acc + Run(cur, count)
  {
    hide ExpandOps;
    if count < MinCount(prev, cur) {
      CopiesExpand(acc, cur, count);
    } else if cur != 0 {
      if cur != prev {
        TwoOps(acc, Len(cur), Rep(count - 1));
        assert Run(cur, count) == [cur] + Run(cur, count - 1);
      } else {
        OneOp(acc, Rep(count));
      }
    } else if count <= 10 {
      OneOp(acc, Zeros(count));
    } else {
      OneOp(acc, ManyZeros(count));
    }
  }

  lemma OneOp(acc: seq<nat>, op: Op)
    requires OpOk(op)
    ensures OpsOk([op]) && ExpandOps(acc, [op]) == ApplyOp(acc, op)
  {
    hide ApplyOp, OpOk;
    assert [op][1..] == [];
  }

  lemma TwoOps(acc: seq<nat>, a: Op, b: Op)
    requires OpOk(a) && OpOk(b)
    ensures OpsOk([a, b]) && ExpandOps(acc, [a, b]) == ApplyOp(ApplyOp(acc, a), b)
  {
    hide ApplyOp, OpOk;
    assert [a, b][1..] == [b];
    OneOp(ApplyOp(acc, a), b);
  }

  lemma LastRun(acc: seq<nat>, v: nat, n: nat)
    requires n >= 1
    ensures Last(acc + Run(v, n)) == v
  {
  }

  // reading back what has been written, with a carried last length
  lemma {:induction false} RleExpand(lens: seq<nat>, n: nat, prev: int, count: nat, acc: seq<nat>)
    requires n <= |lens| && (forall i :: 0 <= i < |lens| ==> lens[i] <= MAX_BITS)
    requires n < |lens| ==> count < MaxCount(prev, lens[n])
    requires n == |lens| ==> count == 0
    requires prev >= 0 ==> Last(acc) == prev
    ensures OpsOk(RleFrom(lens, n, prev, count))
    ensures ExpandOps(acc, RleFrom(lens, n, prev, count)) == acc + (if n < |lens| then Run(lens[n], count) else []) +
        lens[n..]
    decreases |lens| - n
  {
    hide Emit, ExpandOps;
    if n == |lens| {
      ExpandNone(acc);
      assert lens[n..] == [];
    } else {
      var cur := lens[n];
      assert lens[n..] == [cur] + lens[n + 1..];
      assert Run(cur, count + 1) == Run(cur, count) + [cur];
      if count + 1 < MaxCount(prev, cur) && cur == NextLen(lens, n) {
        RleExpand(lens, n + 1, prev, count + 1, acc);
      } else {
        EmitExpand(acc, prev, cur, count + 1);
        var a := acc + Run(cur, count + 1);
        LastRun(acc, cur, count + 1);
        if n + 1 < |lens| { assert Run(lens[n + 1], 0) == []; }
        RleExpand(lens, n + 1, cur, 0, a);
        ExpandOpsConcat(acc, Emit(prev, cur, count + 1), RleFrom(lens, n + 1, cur, 0));
      }
    }
  }

  lemma ExpandNone(acc: seq<nat>)
    ensures ExpandOps(acc, []) == acc
  {
  }

  // the lengths of both codes, one after the other
  lemma RleTwo(ll: seq<nat>, dl: seq<nat>)
    requires (forall i :: 0 <= i < |ll| ==> ll[i] <= MAX_BITS) && (forall i :: 0 <= i < |dl| ==> dl[i] <= MAX_BITS)
    ensures OpsOk(RleOps(ll) + RleOps(dl)) && ExpandOps([], RleOps(ll) + RleOps(dl)) == ll + dl
  {
    hide ExpandOps, RleFrom;
    RleExpand(ll, 0, -1, 0, []);
    RleExpand(dl, 0, -1, 0, ll);
    ExpandOpsConcat([], RleOps(ll), RleOps(dl));
    assert ll[0..] == ll && dl[0..] == dl;
    if |ll| > 0 { assert Run(ll[0], 0) == []; }
    if |dl| > 0 { assert Run(dl[0], 0) == []; }
    assert [] + [] + ll == ll;
  }

  // --- Counting and sending it ---

  // how often symbol sym of the code length code occurs
  function OpCount(ops: seq<Op>, sym: nat): (c: nat)
    requires OpsOk(ops)
    ensures c <= |ops|
  {
    if ops == [] then 0 else OpCount(ops[1..], sym) + if OpSym(ops[0]) == sym then 1 else 0
  }

  lemma {:induction false} OpCountConcat(a: seq<Op>, b: seq<Op>, sym: nat)
    requires OpsOk(a) && OpsOk(b)
    ensures OpCount(a + b, sym) == OpCount(a, sym) + OpCount(b, sym)
    decreases |a|
  {
    if a == [] {
      assert a + b == b;
    } else {
      OpCountConcat(a[1..], b, sym);
      assert (a + b)[1..] == a[1..] + b;
    }
  }

  lemma {:induction false} OpCountCopies(v: nat, n: nat, sym: nat)
    requires v <= MAX_BITS
    ensures OpsOk(Copies(v, n)) && OpCount(Copies(v, n), sym) == if sym == v then n else 0
    decreases n
  {
    if n > 0 {
      OpCountCopies(v, n - 1, sym);
      assert Copies(v, n)[1..] == Copies(v, n - 1);
    }
  }

  lemma EmitCount(prev: int, cur: nat, count: nat, sym: nat)
    requires cur <= MAX_BITS && 1 <= count <= MaxCount(prev, cur)
    ensures OpsOk(Emit(prev, cur, count))
    ensures OpCount(Emit(prev, cur, count), sym) ==
            if count < MinCount(prev, cur) then (if sym == cur then count else 0)
            else if cur != 0 then (if sym == cur && cur != prev then 1 else if sym == REP_3_6 then 1 else 0)
            else if count <= 10 then (if sym == REPZ_3_10 then 1 else 0)
            else (if sym == REPZ_11_138 then 1 else 0)
  {
    if count < MinCount(prev, cur) {
      OpCountCopies(cur, count, sym);
    } else if cur != 0 && cur != prev {
      assert Emit(prev, cur, count)[1..] == [Rep(count - 1)] && [Rep(count - 1)][1..] == [];
    } else {
      assert Emit(prev, cur, count)[1..] == [];
    }
  }

  // frequencies freq with the symbols of ops counted in
  ghost predicate Tallied(freq0: seq<nat>, freq: seq<nat>, ops: seq<Op>) {
    && OpsOk(ops) && |freq| == |freq0| >= BL_CODES
    && (forall sym :: 0 <= sym < BL_CODES ==> freq[sym] == freq0[sym] + OpCount(ops, sym))
    && (forall i :: BL_CODES <= i < |freq| ==> freq[i] == freq0[i])
  }

  lemma TalliedMore(freq0: seq<nat>, freq: seq<nat>, freq': seq<nat>, ops: seq<Op>, more: seq<Op>)
    requires Tallied(freq0, freq, ops) && Tallied(freq, freq', more)
    ensures Tallied(freq0, freq', ops + more)
  {
    forall sym | 0 <= sym < BL_CODES ensures freq'[sym] == freq0[sym] + OpCount(ops + more, sym) {
      OpCountConcat(ops, more, sym);
    }
  }

  lemma TalliedNone(freq: seq<nat>)
    requires |freq| >= BL_CODES
    ensures Tallied(freq, freq, [])
  {
  }

  // the branches of scan_tree
  method CountRun(fc: array<nat>, prevlen: int, curlen: nat, count: nat, minCount: nat, ghost freq: seq<nat>)
    requires curlen <= MAX_BITS && 1 <= count <= MaxCount(prevlen, curlen) && minCount == MinCount(prevlen, curlen)
    requires fc.Length >= BL_CODES && fc[..] == freq
    modifies fc
    ensures Tallied(freq, fc[..], Emit(prevlen, curlen, count))
  {
    hide OpCount, Emit;
    forall sym | 0 <= sym < BL_CODES
        ensures OpsOk(Emit(prevlen, curlen, count)) && OpCount(Emit(prevlen, curlen, count), sym) ==
            if count < MinCount(prevlen, curlen) then (if sym == curlen then count else 0)
            else if curlen != 0 then (if sym == curlen && curlen != prevlen then 1 else if sym == REP_3_6 then 1 else 0)
            else if count <= 10 then (if sym == REPZ_3_10 then 1 else 0)
            else (if sym == REPZ_11_138 then 1 else 0)
    {
      EmitCount(prevlen, curlen, count, sym);
    }
    EmitCount(prevlen, curlen, count, 0);
    if count < minCount {
      fc[curlen] := fc[curlen] + count;
    } else if curlen != 0 {
      if curlen != prevlen { fc[curlen] := fc[curlen] + 1; }
      fc[REP_3_6] := fc[REP_3_6] + 1;
    } else if count <= 10 {
      fc[REPZ_3_10] := fc[REPZ_3_10] + 1;
    } else {
      fc[REPZ_11_138] := fc[REPZ_11_138] + 1;
    }
  }

  // the position in the loop: what has been emitted and what is still to come
  ghost predicate AtRun(lens: seq<nat>, n: nat, prev: int, count: nat, next: nat, maxc: nat, minc: nat, ops: seq<Op>) {
    && n <= |lens| && ops + RleFrom(lens, n, prev, count) == RleOps(lens)
    && (n < |lens| ==> next == lens[n] && maxc == MaxCount(prev, next) && minc == MinCount(prev, next) && count < maxc)
    && (n == |lens| ==> count == 0)
  }

  lemma RunStart(lens: seq<nat>)
    requires |lens| > 0
    ensures AtRun(lens, 0, -1, 0, lens[0], if lens[0] == 0 then 138 else 7, if lens[0] == 0 then 3 else 4, [])
  {
    assert [] + RleFrom(lens, 0, -1, 0) == RleOps(lens);
  }

  lemma RunOn(lens: seq<nat>, n: nat, prev: int, count: nat, cur: nat, maxc: nat, minc: nat, ops: seq<Op>)
    requires AtRun(lens, n, prev, count, cur, maxc, minc, ops) && n < |lens| &&
        (forall i :: 0 <= i < |lens| ==> lens[i] <= MAX_BITS)
    ensures cur <= MAX_BITS && 1 <= count + 1 <= MaxCount(prev, cur) && minc == MinCount(prev, cur)
    ensures var next := NextLen(lens, n);
            if count + 1 < maxc && cur == next then AtRun(lens, n + 1, prev, count + 1, next, maxc, minc, ops)
            else AtRun(lens, n + 1, cur, 0, next,
                       if next == 0 then 138 else if cur == next then 6 else 7,
                       if next == 0 then 3 else if cur == next then 3 else 4,
                       ops + Emit(prev, cur, count + 1))
  {
    hide Emit;
    var next := NextLen(lens, n);
    if !(count + 1 < maxc && cur == next) {
      assert ops + Emit(prev, cur, count + 1) + RleFrom(lens, n + 1, cur, 0)
          == ops + (Emit(prev, cur, count + 1) + RleFrom(lens, n + 1, cur, 0));
    }
  }

  lemma RunEnd(lens: seq<nat>, prev: int, count: nat, next: nat, maxc: nat, minc: nat, ops: seq<Op>)
    requires AtRun(lens, |lens|, prev, count, next, maxc, minc, ops)
    ensures ops == RleOps(lens)
  {
    assert ops + [] == ops;
  }

  // lens are the lengths up to max_code, and the guard follows them
  ghost predicate Guarded(dl: seq<nat>, lens: seq<nat>) {
    1 <= |lens| < |dl| && dl[..|lens|] == lens && dl[|lens|] == GUARD && forall i :: 0 <= i < |lens| ==>
        lens[i] <= MAX_BITS
  }

  lemma GuardedNext(dl: seq<nat>, lens: seq<nat>, n: nat)
    requires Guarded(dl, lens) && n < |lens|
    ensures n + 1 < |dl| && dl[n + 1] == NextLen(lens, n) && dl[n] == lens[n]
  {
    assert dl[..|lens|][n] == lens[n];
    if n + 1 < |lens| { assert dl[..|lens|][n + 1] == lens[n + 1]; }
  }

  method ScanTree(dl: array<nat>, maxCode: nat, fc: array<nat>, ghost lens: seq<nat>, ghost freq: seq<nat>)
    requires dl != fc && |lens| == maxCode + 1 < dl.Length && dl[..maxCode + 1] == lens &&
        (forall i :: 0 <= i < |lens| ==> lens[i] <= MAX_BITS)
    requires fc.Length >= BL_CODES && fc[..] == freq
    modifies dl, fc
    ensures Tallied(freq, fc[..], RleOps(lens))
    ensures dl[..] == old(dl[..])[maxCode + 1 := GUARD] && Guarded(dl[..], lens)
  {
    hide Tallied, AtRun, RleOps, Emit;
    assert dl[0] == dl[..maxCode + 1][0];
    var prevlen: int, nextlen, count, maxCount, minCount := -1, dl[0], 0, 7, 4;
    if nextlen == 0 { maxCount, minCount := 138, 3; }
    dl[maxCode + 1] := GUARD;
    assert dl[..maxCode + 1] == lens;
    ghost var ops: seq<Op> := [];
    RunStart(lens);
    TalliedNone(freq);
    var n := 0;
    while n <= maxCode
      invariant n <= maxCode + 1 && Guarded(dl[..], lens) && dl[..] == old(dl[..])[maxCode + 1 := GUARD]
      invariant AtRun(lens, n, prevlen, count, nextlen, maxCount, minCount, ops) && Tallied(freq, fc[..], ops)
    {
      RunOn(lens, n, prevlen, count, nextlen, maxCount, minCount, ops);
      GuardedNext(dl[..], lens, n);
      var curlen := nextlen;
      nextlen := dl[n + 1];
      count := count + 1;
      if count < maxCount && curlen == nextlen {
      } else {
        ghost var f := fc[..];
        TalliedSize(freq, f, ops);
        CountRun(fc, prevlen, curlen, count, minCount, f);
        TalliedMore(freq, f, fc[..], ops, Emit(prevlen, curlen, count));
        ops := ops + Emit(prevlen, curlen, count);
        count, prevlen := 0, curlen;
        if nextlen == 0 {
          maxCount, minCount := 138, 3;
        } else if curlen == nextlen {
          maxCount, minCount := 6, 3;
        } else {
          maxCount, minCount := 7, 4;
        }
      }
      n := n + 1;
    }
    RunEnd(lens, prevlen, count, nextlen, maxCount, minCount, ops);
  }

  lemma TalliedSize(freq0: seq<nat>, freq: seq<nat>, ops: seq<Op>)
    requires Tallied(freq0, freq, ops)
    ensures |freq| == |freq0|
  {
  }

  // --- send_tree ---

  // the arrays of a code, apart from the output buffer
  ghost predicate CodeArrays(w: BitWriter, fc: array<nat>, dl: array<nat>) {
    fc != dl && (w.outbuf as object) != fc && (w.outbuf as object) != dl
  }

  // send_code
  method SendCode(w: BitWriter, fc: array<nat>, dl: array<nat>, c: nat, ghost lens: seq<nat>)
    requires w.Valid() && CodeArrays(w, fc, dl) && |lens| <= dl.Length && |lens| <= fc.Length && Usable(lens, c)
    requires dl[c] == lens[c] && CodeSet(fc[..], lens, c)
    modifies w, w.outbuf
    ensures w.Valid() && w.Sent() == old(w.Sent()) + Codeword(lens, c)
  {
    hide Codeword, BitsOf, Packed, Pow2;
    w.SendBits(fc[c], dl[c]);
  }

  ghost predicate HasCode(fc: seq<nat>, dl: seq<nat>, lens: seq<nat>) {
    |lens| <= |dl| && |lens| <= |fc| && dl[..|lens|] == lens && Coded(fc, lens)
  }

  lemma HasCodeAt(fc: seq<nat>, dl: seq<nat>, lens: seq<nat>, c: nat)
    requires HasCode(fc, dl, lens) && Usable(lens, c)
    ensures |lens| <= |dl| && |lens| <= |fc| && c < |dl| && dl[c] == lens[c] && CodeSet(fc, lens, c)
  {
    assert dl[..|lens|][c] == lens[c];
  }

  // one symbol of the code length code with its repeat count
  method SendOp(w: BitWriter, fc: array<nat>, dl: array<nat>, op: Op, ghost bl: seq<nat>)
    requires w.Valid() && CodeArrays(w, fc, dl) && HasCode(fc[..], dl[..], bl) && OpOk(op) && Usable(bl, OpSym(op))
    modifies w, w.outbuf
    ensures w.Valid() && w.Sent() == old(w.Sent()) + OpBits(bl, op)
  {
    hide Codeword, BitsOf, Packed, Pow2, HasCode, CodeSet;
    HasCodeAt(fc[..], dl[..], bl, OpSym(op));
    SmallPowers();
    match op {
      case Len(v) =>
        SendCode(w, fc, dl, v, bl);
        NoExtraBits(bl, v);
      case Rep(count) =>
        SendCode(w, fc, dl, REP_3_6, bl);
        w.SendBits(count - 3, 2);
      case Zeros(count) =>
        SendCode(w, fc, dl, REPZ_3_10, bl);
        w.SendBits(count - 3, 3);
      case ManyZeros(count) =>
        SendCode(w, fc, dl, REPZ_11_138, bl);
        w.SendBits(count - 11, 7);
    }
    ghost var x := OpExtra(op);
    assert old(w.Sent()) + (Codeword(bl, OpSym(op)) + BitsOf(x.0, x.1)) == old(w.Sent()) + Codeword(bl, OpSym(op)) +
        BitsOf(x.0, x.1);
  }

  lemma NoExtraBits(bl: seq<nat>, v: nat)
    requires v <= MAX_BITS && Usable(bl, v)
    ensures BitsOf(0, 0) == []
  {
  }

  lemma UsableParts(bl: seq<nat>, a: seq<Op>, b: seq<Op>)
    requires OpsUsable(bl, a + b)
    ensures OpsUsable(bl, a) && OpsUsable(bl, b)
  {
    forall i | 0 <= i < |a| ensures OpOk(a[i]) && Usable(bl, OpSym(a[i])) { assert (a + b)[i] == a[i]; }
    forall i | 0 <= i < |b| ensures OpOk(b[i]) && Usable(bl, OpSym(b[i])) { assert (a + b)[|a| + i] == b[i]; }
  }

  lemma OpsBitsOne(bl: seq<nat>, op: Op)
    requires OpOk(op) && Usable(bl, OpSym(op))
    ensures OpsUsable(bl, [op]) && OpsBits(bl, [op]) == OpBits(bl, op)
  {
    assert [op][1..] == [];
    assert OpBits(bl, op) + [] == OpBits(bl, op);
  }

  // count copies of the code for curlen
  method SendCopies(w: BitWriter, fc: array<nat>, dl: array<nat>, curlen: nat, count: nat, ghost bl: seq<nat>)
    requires w.Valid() && CodeArrays(w, fc, dl) && HasCode(fc[..], dl[..], bl) && curlen <= MAX_BITS && count >= 1 &&
        OpsUsable(bl, Copies(curlen, count))
    modifies w, w.outbuf
    ensures w.Valid() && w.Sent() == old(w.Sent()) + OpsBits(bl, Copies(curlen, count))
  {
    hide OpsBits, OpBits, HasCode, Packed;
    var left := count;
    ghost var k: nat := 0;
    assert Copies(curlen, 0) == [];
    NoOps(bl);
    assert OpOk(Copies(curlen, count)[0]) && Usable(bl, OpSym(Copies(curlen, count)[0]));
    while left != 0
      invariant w.Valid() && k + left == count && HasCode(fc[..], dl[..], bl) && OpsUsable(bl, Copies(curlen, k))
      invariant w.Sent() == old(w.Sent()) + OpsBits(bl, Copies(curlen, k))
    {
      SendOp(w, fc, dl, Len(curlen), bl);
      OpsBitsOne(bl, Len(curlen));
      OpsBitsConcat(bl, Copies(curlen, k), [Len(curlen)]);
      assert Copies(curlen, k + 1) == Copies(curlen, k) + [Len(curlen)];
      left := left - 1;
      k := k + 1;
    }
  }

  lemma NoOps(bl: seq<nat>)
    ensures OpsBits(bl, []) == []
  {
  }

  // the branches of send_tree
  method SendRun(w: BitWriter, fc: array<nat>, dl: array<nat>, prevlen: int, curlen: nat, count0: nat, minCount: nat,
      ghost bl: seq<nat>)
    requires w.Valid() && CodeArrays(w, fc, dl) && HasCode(fc[..], dl[..], bl)
    requires curlen <= MAX_BITS && 1 <= count0 <= MaxCount(prevlen, curlen) && minCount == MinCount(prevlen, curlen)
    requires OpsUsable(bl, Emit(prevlen, curlen, count0))
    modifies w, w.outbuf
    ensures w.Valid() && w.Sent() == old(w.Sent()) + OpsBits(bl, Emit(prevlen, curlen, count0))
  {
    hide OpsBits, OpBits, HasCode, Packed;
    var count := count0;
    if count < minCount {
      SendCopies(w, fc, dl, curlen, count, bl);
    } else if curlen != 0 {
      if curlen != prevlen {
        TwoUsable(bl, Len(curlen), Rep(count - 1));
        SendOp(w, fc, dl, Len(curlen), bl);
        count := count - 1;
      } else {
        OneUsable(bl, Rep(count));
      }
      SendOp(w, fc, dl, Rep(count), bl);
    } else if count <= 10 {
      OneUsable(bl, Zeros(count));
      SendOp(w, fc, dl, Zeros(count), bl);
    } else {
      OneUsable(bl, ManyZeros(count));
      SendOp(w, fc, dl, ManyZeros(count), bl);
    }
  }

  lemma OneUsable(bl: seq<nat>, op: Op)
    requires OpsUsable(bl, [op])
    ensures OpOk(op) && Usable(bl, OpSym(op)) && OpsBits(bl, [op]) == OpBits(bl, op)
  {
    assert OpOk([op][0]) && Usable(bl, OpSym([op][0]));
    OpsBitsOne(bl, op);
  }

  lemma TwoUsable(bl: seq<nat>, a: Op, b: Op)
    requires OpsUsable(bl, [a, b])
    ensures OpOk(a) && Usable(bl, OpSym(a)) && OpOk(b) && Usable(bl, OpSym(b))
    ensures OpsBits(bl, [a, b]) == OpBits(bl, a) + OpBits(bl, b)
  {
    hide OpsBits, OpBits;
    assert OpOk([a, b][0]) && Usable(bl, OpSym([a, b][0]));
    assert OpOk([a, b][1]) && Usable(bl, OpSym([a, b][1]));
    OpsBitsOne(bl, a);
    OpsBitsOne(bl, b);
    OpsBitsConcat(bl, [a], [b]);
    assert [a] + [b] == [a, b];
  }

  method SendTree(w: BitWriter, dl: array<nat>, maxCode: nat, blfc: array<nat>, bldl: array<nat>, ghost lens: seq<nat>,
      ghost bl: seq<nat>)
    requires w.Valid() && CodeArrays(w, blfc, bldl) && (w.outbuf as object) != dl && HasCode(blfc[..], bldl[..], bl)
    requires |lens| == maxCode + 1 && Guarded(dl[..], lens) && OpsUsable(bl, RleOps(lens))
    modifies w, w.outbuf
    ensures w.Valid() && w.Sent() == old(w.Sent()) + OpsBits(bl, RleOps(lens))
  {
    hide AtRun, RleOps, Emit, OpsBits, HasCode, Packed, OpsUsable;
    GuardedNext(dl[..], lens, 0);
    var prevlen: int, nextlen, count, maxCount, minCount := -1, dl[0], 0, 7, 4;
    if nextlen == 0 { maxCount, minCount := 138, 3; }
    ghost var ops: seq<Op> := [];
    RunStart(lens);
    NoOps(bl);
    NoneUsable(bl);
    var n := 0;
    while n <= maxCode
      invariant n <= maxCode + 1 && Guarded(dl[..], lens) && w.Valid() && HasCode(blfc[..], bldl[..], bl)
      invariant AtRun(lens, n, prevlen, count, nextlen, maxCount, minCount, ops)
      invariant OpsUsable(bl, ops) && w.Sent() == old(w.Sent()) + OpsBits(bl, ops)
    {
      RunOn(lens, n, prevlen, count, nextlen, maxCount, minCount, ops);
      GuardedNext(dl[..], lens, n);
      var curlen := nextlen;
      nextlen := dl[n + 1];
      count := count + 1;
      if count < maxCount && curlen == nextlen {
      } else {
        ghost var e := Emit(prevlen, curlen, count);
        EmitUsable(bl, lens, n + 1, curlen, nextlen, ops + e, if nextlen == 0 then 138 else if curlen == nextlen then 6
            else 7, if nextlen == 0 then 3 else if curlen == nextlen then 3 else 4);
        UsableParts(bl, ops, e);
        SendRun(w, blfc, bldl, prevlen, curlen, count, minCount, bl);
        OpsBitsConcat(bl, ops, e);
        ops := ops + e;
        count, prevlen := 0, curlen;
        if nextlen == 0 {
          maxCount, minCount := 138, 3;
        } else if curlen == nextlen {
          maxCount, minCount := 6, 3;
        } else {
          maxCount, minCount := 7, 4;
        }
      }
      n := n + 1;
    }
    RunEnd(lens, prevlen, count, nextlen, maxCount, minCount, ops);
  }

  lemma NoneUsable(bl: seq<nat>)
    ensures OpsUsable(bl, [])
  {
  }

  // what has been emitted is part of the whole
  lemma EmitUsable(bl: seq<nat>, lens: seq<nat>, n: nat, prev: int, next: nat, ops: seq<Op>, maxc: nat, minc: nat)
    requires AtRun(lens, n, prev, 0, next, maxc, minc, ops) && OpsUsable(bl, RleOps(lens))
    ensures OpsUsable(bl, ops)
  {
    UsableParts(bl, ops, RleFrom(lens, n, prev, 0));
  }
}
