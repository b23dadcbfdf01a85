/**
 inflate.c from the block level up: stored, fixed and dynamic blocks, and the
 loop over the blocks, against the reference decoder of the stream format.
 */
module InflateBlocks {
  import opened Bits
  import opened BitIO
  import opened Canonical
  import opened Lz
  import opened Symbols
  import opened BlockData
  import opened CodeLengths
  import opened Stream
  import opened Huft
  import opened HuftTables
  import opened HuftBuild
  import opened Window
  import opened InflateData

  const LBITS := 9
  const DBITS := 6

  // --- Stored blocks ---

  lemma {:induction false} BytesSnoc(s: seq<Bit>, n: nat)
    requires |s| >= 8 * n + 8
    ensures Val(s[8 * n..8 * n + 8]) < 256
    ensures BitsToBytes(s[..8 * n + 8], n + 1) == BitsToBytes(s[..8 * n], n) + [Val(s[8 * n..8 * n + 8])]
    decreases n
  {
    Pow2Eight();
    var x := s[..8 * n + 8];
    if n > 0 {
      BytesSnoc(s[8..], n - 1);
      assert x[8..] == s[8..][..8 * (n - 1) + 8];
      assert s[..8 * n][8..] == s[8..][..8 * (n - 1)];
      assert s[8..][8 * (n - 1)..8 * (n - 1) + 8] == s[8 * n..8 * n + 8];
      assert x[..8] == s[..8 * n][..8];
    } else {
      assert x[..8] == s[..8] == s[8 * n..8 * n + 8];
    }
  }

  // the bytes of a stored block
  method CopyStored(bits: BitReader, win: Slide, n: nat) returns (ok: bool)
    requires bits.Calm() && win.Valid()
    modifies bits, win, win.slide, win.sum
    ensures bits.Valid() && (ok ==> bits.Calm()) && win.Valid() && |bits.Rest()| <= |old(bits.Rest())|
    ensures ok <==> 8 * n <= |old(bits.Rest())|
    ensures ok ==> bits.Rest() == old(bits.Rest())[8 * n..]
    ensures ok ==> win.All() == old(win.All()) + BitsToBytes(old(bits.Rest())[..8 * n], n)
  {
    hide Val, BitsToBytes, Pow2, InSync, Unread, Ring, Flat;
    ghost var s := bits.Rest();
    var i: nat := 0;
    NoBytes(s[..0]);
    while i < n
      invariant i <= n && 8 * i <= |s| && bits.Calm() && win.Valid()
      invariant bits.Rest() == s[8 * i..]
      invariant win.All() == old(win.All()) + BitsToBytes(s[..8 * i], i)
    {
      ok := bits.NeedBits(8);
      if !ok { return; }
      ByteSlice(s, i);
      BytesSnoc(s, i);
      win.Put(bits.Peek(8));
      bits.DumpBits(8);
      i := i + 1;
    }
    ok := true;
  }

  lemma ByteSlice(s: seq<Bit>, i: nat)
    requires 8 * i + 8 <= |s|
    ensures s[8 * i..][..8] == s[8 * i..8 * i + 8] && s[8 * i..][8..] == s[8 * (i + 1)..]
    ensures s[..8 * i + 8] == s[..8 * (i + 1)]
  {
  }

  lemma StoredSpec(s: seq<Bit>, out: seq<Byte>)
    ensures |s| < 32 ==> DecodeStored(s, out).None?
    ensures |s| >= 32 ==>
      var n := Val(s[..16]);
      DecodeStored(s, out) == if n + Val(s[16..][..16]) != 0xffff || |s[32..]| < 8 * n then None
                              else Some((out + BitsToBytes(s[32..][..8 * n], n), s[32..][8 * n..]))
  {
    hide BitsToBytes, Val;
    if |s| >= 32 {
      var n := Val(s[..16]);
      assert s[16..][..16] == s[16..32];
      if |s| >= 32 + 8 * n {
        assert s[32..][..8 * n] == s[32..32 + 8 * n] && s[32..][8 * n..] == s[32 + 8 * n..];
      }
    }
  }

  lemma StoredBody(s: seq<Bit>, out: seq<Byte>)
    ensures DecodeBody(STORED_BLOCK, s, out) == DecodeStored(s[|s| % 8..], out)
    ensures Pow2(16) == 0x10000
  {
    Pow2Sixteen();
  }

  // Agrees in words
  lemma AgreesIff(r: Option<(seq<Byte>, seq<Bit>)>)
    ensures r.Some? ==> Agrees(r, OK, r.value.0, r.value.1)
    ensures r.None? ==> forall all, rest :: Agrees(r, BAD, all, rest)
  {
  }

  lemma NoBytes(s: seq<Bit>)
    requires s == []
    ensures BitsToBytes(s, 0) == []
  {
  }

  method InflateStored(bits: BitReader, win: Slide) returns (code: nat)
    requires bits.Calm() && win.Valid()
    modifies bits, win, win.slide, win.sum
    ensures bits.Valid() && (code == OK ==> bits.Calm()) && win.Valid() && |bits.Rest()| <= |old(bits.Rest())|
    ensures Agrees(DecodeBody(STORED_BLOCK, old(bits.Rest()), old(win.All())), code, win.All(), bits.Rest()) &&
        code != FAULT
  {
    hide Val, BitsToBytes, Pow2, InSync, Unread, Ring, Flat, DecodeBody, DecodeStored, Agrees;
    StoredBody(bits.Rest(), win.All());
    bits.ToByte();
    ghost var s := bits.Rest();
    StoredSpec(s, win.All());
    AgreesIff(DecodeStored(s, win.All()));
    var ok, n := bits.TakeBits(16);
    if !ok { return BAD; }
    ok := bits.NeedBits(16);
    if !ok { return BAD; }
    assert s[16..][16..] == s[32..];
    if n != 0xffff - bits.Peek(16) { return BAD; }
    bits.DumpBits(16);
    ok := CopyStored(bits, win, n);
    if !ok { return BAD; }
    code := OK;
  }

  // --- Fixed blocks ---

  // the length list of the fixed literal code
  method FixedLengths() returns (l: seq<nat>)
    ensures l == FixedLL()
  {
    l := [];
    while |l| < 288
      invariant |l| <= 288 && forall i :: 0 <= i < |l| ==> l[i] == FixedLen(i)
      decreases 288 - |l|
    {
      var i := |l|;
      l := l + [if i < 144 then 8 else if i < 256 then 9 else if i < 280 then 7 else 8];
    }
  }

  lemma ExactComplete(b: seq<nat>)
    requires LensOk(b)
    ensures Exact(b) <==> Complete(b)
    ensures !Oversubscribed(b) <==> Decodable(b)
  {
    hide Kraft, Pow2, CountTo;
    var c := Counts(b);
    if c[BMAX] > 0 { var sym := CountWitness(b, |b|, BMAX); }
    KraftAtMax(c, MAX_BITS);
  }

  lemma ExtrasFine()
    ensures ExtrasOk(CPLEXT) && ExtrasOk(CPDEXT) && ExtrasOk([])
  {
  }

  lemma FixedFacts()
    ensures Exact(FixedLL()) && Regular(FixedLL()) && !AllZero(FixedLL())
    ensures !Oversubscribed(FixedDL()) && Regular(FixedDL()) && !AllZero(FixedDL())
    ensures forall i :: 0 <= i < 288 ==> 7 <= FixedLL()[i] <= 9
  {
    hide Kraft, Pow2, Counts, CountTo;
    FixedComplete();
    assert LensOk(FixedLL()) && LensOk(FixedDL());
    ExactComplete(FixedLL());
    ExactComplete(FixedDL());
    assert FixedLL()[0] == 8 && FixedDL()[0] == 5;
  }

  // table widths of at least 7 bits for lengths of 7 to 9, and of 5 for 5
  lemma FixedWide(l: nat, d: nat)
    requires l >= 7 || forall i :: 0 <= i < 288 ==> FixedLL()[i] <= l
    requires d >= 5 || forall i :: 0 <= i < 30 ==> FixedDL()[i] <= d
    ensures RoomyLens(FixedLL(), l) && RoomyLens(FixedDL(), d)
    ensures l <= 7 || (forall i :: 0 <= i < 288 ==> FixedLL()[i] == 0 || FixedLL()[i] >= l) ==> l <= 9
    ensures d <= 5 || (forall i :: 0 <= i < 30 ==> FixedDL()[i] == 0 || FixedDL()[i] >= d) ==> d <= 9
  {
    hide Exact, Pow2;
    assert FixedLL()[0] == 8 && FixedDL()[0] == 5;
  }

  // the array v and new tables as huft_build finds them: nothing is known of their contents
  method Unset(n: nat) returns (v: seq<nat>, blank: (nat, nat) -> Huft)
    ensures |v| == n
  {
    var some: seq<nat> := *;
    v := if |some| >= n then some[..n] else some + seq(n - |some|, _ => 0);
    blank := *;
  }

  // the tables of the fixed codes; that of the distances is incomplete, which is expected
  method FixedTables() returns (code: nat, tl: seq<seq<Huft>>, bl: nat, td: seq<seq<Huft>>, bd: nat)
    ensures code == OK && tl != [] && td != []
    ensures BothLoose(tl, td, bl, bd, FixedLL(), FixedDL()) && BothTight(tl, td, bl, bd, FixedLL(), FixedDL())
  {
    hide Exact, Oversubscribed, Regular, RoomyLens, AllZero, SingleBit, Decodes, Refuses, Sane, Known, CPLENS, CPLEXT,
        CPDIST, CPDEXT, Decodable, BothLoose, BothTight, Walk;
    FixedFacts();
    ExtrasFine();
    var l := FixedLengths();
    var v, blank := Unset(288);
    code, tl, bl := Build(l, 257, CPLENS, CPLEXT, 7, v, blank);
    td, bd := [], 0;
    if code != 0 { return; }
    v, blank := Unset(30);
    code, td, bd := Build(FixedDL(), 0, CPDIST, CPDEXT, 5, v, blank);
    if code > 1 { return; }
    code := OK;
    FixedWide(bl, bd);
    FixedTight(tl, td, bl, bd);
    SaneSome(tl, bl);
    SaneSome(td, bd);
  }

  method InflateFixed(bits: BitReader, win: Slide) returns (code: nat)
    requires bits.Calm() && win.Valid()
    modifies bits, win, win.slide, win.sum
    ensures bits.Valid() && (code == OK ==> bits.Calm()) && win.Valid() && |bits.Rest()| <= |old(bits.Rest())|
    ensures Agrees(DecodeBody(STATIC_TREES, old(bits.Rest()), old(win.All())), code, win.All(), bits.Rest()) &&
        code != FAULT
  {
    hide DecodeTokens, BothLoose, InSync, Unread, Ring, Flat, FirstLength, FixedLL, FixedDL;
    var i, tl, bl, td, bd := FixedTables();
    if i != 0 { return i; }
    code := InflateCodes(bits, win, tl, td, bl, bd, FixedLL(), FixedDL());
  }

  lemma FixedTight(tl: seq<seq<Huft>>, td: seq<seq<Huft>>, bl: nat, bd: nat)
    requires 1 <= bl <= 9 && Sane(tl, bl) && Known(tl, bl, 257, CPLENS, CPLEXT)
    requires Decodes(tl, bl, FixedLL(), 257, CPLENS, CPLEXT) && Refuses(tl, bl, FixedLL(), 257, CPLENS, CPLEXT)
    requires 1 <= bd <= 9 && Sane(td, bd) && Known(td, bd, 0, CPDIST, CPDEXT)
    requires Decodes(td, bd, FixedDL(), 0, CPDIST, CPDEXT) && Refuses(td, bd, FixedDL(), 0, CPDIST, CPDEXT)
    ensures BothLoose(tl, td, bl, bd, FixedLL(), FixedDL()) && BothTight(tl, td, bl, bd, FixedLL(), FixedDL())
  {
    hide Known, Decodes, Refuses, Decodable, Sane, FixedLL, FixedDL, CPLENS, CPLEXT, CPDIST, CPDEXT;
    FixedComplete();
    SaneSome(tl, bl);
    SaneSome(td, bd);
  }

  lemma SaneSome(tables: seq<seq<Huft>>, l: nat)
    requires Sane(tables, l)
    ensures tables != []
  {
    var s: seq<Bit> := seq(l, _ => 0);
    assert WalkOk(tables, l, 0, l, s);
  }

  // --- Dynamic blocks ---

  // the single-level table of the code length code: every code fits the index
  lemma OneLevel(tables: seq<seq<Huft>>, l: nat, bl: seq<nat>, s: seq<Bit>)
    requires |bl| == BL_CODES && 1 <= l <= 9 && Sane(tables, l) && Decodes(tables, l, bl, BL_CODES, [], [])
    requires Acceptable(bl) && forall i :: 0 <= i < |bl| ==> bl[i] <= l && bl[i] < 8
    requires |s| >= l
    ensures tables != [] && Val(s[..l]) < |tables[0]|
    ensures var q := tables[0][Val(s[..l])];
            1 <= q.b <= l && (DecodeSym(bl, s) == Some((q.v, q.b)) || (DecodeSym(bl, s).None? && !Complete(bl)))
  {
    hide Walk, Sane, DecodeSym, Complete, SingleBit, CountTo, Val;
    SaneAt(tables, l, s);
    WalkStep(tables, l, 0, l, s);
    if DecodeSym(bl, s).Some? {
      RootLeaf(tables, l, bl, s);
    } else if Complete(bl) {
      var more: seq<Bit> := seq(MAX_BITS, _ => 0);
      DecodeTotal(bl, s + more);
      DecodeSound(bl, s + more);
      var (sym, n) := DecodeSym(bl, s + more).value;
      assert Codeword(bl, sym) <= s;
      CompleteDecodable(bl);
      DecodeCode(bl, sym, s);
    }
  }

  lemma RootLeaf(tables: seq<seq<Huft>>, l: nat, bl: seq<nat>, s: seq<Bit>)
    requires |bl| == BL_CODES && 1 <= l <= 9 && Sane(tables, l) && Decodes(tables, l, bl, BL_CODES, [], [])
    requires (forall i :: 0 <= i < |bl| ==> bl[i] <= l) && |s| >= l && DecodeSym(bl, s).Some?
    ensures tables != [] && Val(s[..l]) < |tables[0]|
    ensures var q := tables[0][Val(s[..l])]; DecodeSym(bl, s) == Some((q.v, q.b))
  {
    hide Walk, Sane, DecodeSym, Codeword, Val;
    var (sym, n) := DecodeSym(bl, s).value;
    DecodeSound(bl, s);
    var more: seq<Bit> := seq(l, _ => 0);
    var long := s + more;
    assert long[..l] == s[..l];
    assert Codeword(bl, sym) <= long;
    assert Walk(tables, 0, l, long) == Some(Found(SymE(BL_CODES, [], sym), SymV(BL_CODES, [], sym), bl[sym]));
    SaneAt(tables, l, long);
    WalkStep(tables, l, 0, l, long);
    var q := tables[0][Val(s[..l])];
    if q.e > 16 {
      WalkBits(tables, l, q.v, q.e - 16, long[q.b..]);
    }
  }

  // every lookup takes at least one bit
  lemma {:induction false} WalkBits(tables: seq<seq<Huft>>, w: nat, t: nat, nb: nat, s: seq<Bit>)
    requires WalkOk(tables, w, t, nb, s) && Walk(tables, t, nb, s).Some?
    ensures Walk(tables, t, nb, s).value.bits >= 1
    decreases |tables| - t
  {
    var q := tables[t][Val(s[..nb])];
    if q.e > 16 { WalkBits(tables, w, q.v, q.e - 16, s[q.b..]); }
  }

  // a table for the code length code; none if there are no codes
  ghost predicate BlTable(tables: seq<seq<Huft>>, l: nat, bl: seq<nat>) {
    && |bl| == BL_CODES && Acceptable(bl)
    && (if tables == [] then AllZero(bl)
        else && !AllZero(bl) && 1 <= l <= 9 && Sane(tables, l) && Decodes(tables, l, bl, BL_CODES, [], [])
             && forall i :: 0 <= i < |bl| ==> bl[i] <= l && bl[i] < 8)
  }

  // the repeat count after symbol j
  method ReadCount(bits: BitReader, j: nat) returns (ok: bool, op: Op)
    requires bits.Calm()
    modifies bits
    ensures bits.Valid() && (ok ==> bits.Calm()) && OpOk(op) && |bits.Rest()| <= |old(bits.Rest())|
    ensures j < BL_CODES ==> OpFrom(j, old(bits.Rest())) == if ok then Some((op, bits.Rest())) else None
  {
    hide Val, Pow2, InSync, Unread;
    SmallPowers();
    ok, op := true, Len(0);
    var x := 0;
    if j < 16 {
      op := Len(j);
    } else if j == 16 {
      ok, x := bits.TakeBits(2);
      if ok { op := Rep(3 + x); }
    } else if j == 17 {
      ok, x := bits.TakeBits(3);
      if ok { op := Zeros(3 + x); }
    } else {
      ok, x := bits.TakeBits(7);
      if ok { op := ManyZeros(11 + x); }
    }
  }

  // a symbol of the code length code with its repeat count
  method ReadLength(bits: BitReader, tables: seq<seq<Huft>>, l: nat, ghost bl: seq<nat>) returns (code: nat, op: Op)
    requires bits.Calm() && BlTable(tables, l, bl)
    modifies bits
    ensures bits.Valid() && (code == OK ==> bits.Calm()) && OpOk(op) && |bits.Rest()| <= |old(bits.Rest())| &&
        (code == OK ==> |bits.Rest()| < |old(bits.Rest())|)
    ensures var r := ReadOp(bl, old(bits.Rest()));
            if code == OK then r == Some((op, bits.Rest())) || (r.None? && Stray(bl)) else r.None? || |r.value.1| < 16
    ensures (code == FAULT <==> tables == []) && (code == FAULT ==> ReadOp(bl, old(bits.Rest())).None?)
  {
    hide DecodeSym, Val, Complete, OpFrom, Sane, Decodes, AllZero, SingleBit, Pow2, OpOk;
    code, op := BAD, Len(0);
    LenOk(0);
    ghost var s := bits.Rest();
    if tables == [] {
      ZeroSym(bl, s);
      return FAULT, op;
    }
    var ok := bits.NeedBits(l);
    if !ok { return; }
    OneLevel(tables, l, bl, s);
    var q := tables[0][bits.Peek(l)];
    bits.DumpBits(q.b);
    ok, op := ReadCount(bits, q.v);
    code := if ok then OK else BAD;
  }

  lemma LenOk(v: nat)
    requires v <= MAX_BITS
    ensures OpOk(Len(v))
  {
  }

  lemma ZeroSym(bl: seq<nat>, s: seq<Bit>)
    requires AllZero(bl)
    ensures DecodeSym(bl, s).None?
  {
    if DecodeSym(bl, s).Some? { DecodeSound(bl, s); }
  }

  // j copies of v at the end
  method Fill(acc: seq<nat>, v: nat, j: nat) returns (r: seq<nat>)
    ensures r == acc + Run(v, j)
  {
    r := acc;
    var k := 0;
    while k < j
      invariant k <= j && r == acc + Run(v, k)
    {
      r := r + [v];
      k := k + 1;
      assert Run(v, k) == Run(v, k - 1) + [v];
    }
  }

  lemma ApplyLens(acc: seq<nat>, op: Op)
    requires OpOk(op) && LensOk(acc)
    ensures LensOk(ApplyOp(acc, op))
    ensures Last(ApplyOp(acc, op)) ==
        match op case Len(v) => v case Rep(_) => Last(acc) case Zeros(_) => 0 case ManyZeros(_) => 0
  {
  }

  lemma LensStep(bl: seq<nat>, s: seq<Bit>, n: nat, acc: seq<nat>)
    requires |acc| < n
    ensures var r := ReadOp(bl, s);
            DecodeLens(bl, s, n, acc) == if r.None? || |acc| + OpLen(r.value.0) > n then None
                                         else DecodeLens(bl, r.value.1, n, ApplyOp(acc, r.value.0))
  {
    hide ReadOp, ApplyOp;
  }

  // the code lengths of both codes
  method ReadLens(bits: BitReader, tables: seq<seq<Huft>>, l: nat, n: nat, ghost bl: seq<nat>)
      returns (code: nat, acc: seq<nat>)
    requires bits.Calm() && BlTable(tables, l, bl)
    modifies bits
    ensures bits.Valid() && (code == OK ==> bits.Calm()) && |bits.Rest()| <= |old(bits.Rest())| &&
        (code == OK ==> |acc| == n && LensOk(acc))
    ensures var r := DecodeLens(bl, old(bits.Rest()), n, []);
            if code == OK then r == Some((acc, bits.Rest())) || (r.None? && Stray(bl)) else r.None? || |r.value.1| < 16
    ensures n > 0 ==> (code == FAULT <==> tables == [])
    ensures code == FAULT ==> DecodeLens(bl, old(bits.Rest()), n, []).None?
  {
    hide BlTable, ReadOp, ApplyOp, DecodeLens, Stray, OpOk, Last, OpLen, InSync, Unread;
    acc := [];
    ghost var r := DecodeLens(bl, bits.Rest(), n, acc);
    ghost var lost := false;
    var last := 0;
    LastNone();
    while |acc| < n
      invariant (tables == [] ==> acc == []) && |acc| <= n && LensOk(acc) && last == Last(acc) && bits.Calm() &&
          |bits.Rest()| <= |old(bits.Rest())|
      invariant if lost then r.None? && Stray(bl) else DecodeLens(bl, bits.Rest(), n, acc) == r
      decreases |bits.Rest()|
    {
      LensStep(bl, bits.Rest(), n, acc);
      ghost var s := bits.Rest();
      var op;
      code, op := ReadLength(bits, tables, l, bl);
      if code != OK { return; }
      lost := lost || ReadOp(bl, s).None?;
      OpLens(op);
      if |acc| + (if op.Len? then 1 else op.n) > n { return BAD, acc; }
      ApplyLens(acc, op);
      acc, last := Store(acc, op, last);
    }
    LensDone(bl, bits.Rest(), n, acc);
    code := OK;
  }

  // what one symbol adds
  method Store(acc: seq<nat>, op: Op, l: nat) returns (r: seq<nat>, last: nat)
    requires OpOk(op) && l == Last(acc)
    ensures r == ApplyOp(acc, op) && last == Last(r)
  {
    match op {
      case Len(v) =>
        r, last := acc + [v], v;
      case Rep(j) =>
        last := l;
        r := Fill(acc, l, j);
      case Zeros(j) =>
        last := 0;
        r := Fill(acc, 0, j);
      case ManyZeros(j) =>
        last := 0;
        r := Fill(acc, 0, j);
    }
  }

  lemma LastNone()
    ensures Last([]) == 0
  {
  }

  lemma OpLens(op: Op)
    requires OpOk(op)
    ensures OpLen(op) == if op.Len? then 1 else op.n
  {
  }

  lemma LensDone(bl: seq<nat>, s: seq<Bit>, n: nat, acc: seq<nat>)
    requires |acc| == n
    ensures DecodeLens(bl, s, n, acc) == Some((acc, s))
  {
  }

  // the lengths of the code length code, put in symbol order
  method ReadBlLens(bits: BitReader, nb: nat) returns (ok: bool, bl: seq<nat>)
    requires bits.Calm() && nb <= BL_CODES
    modifies bits
    ensures bits.Valid() && (ok ==> bits.Calm()) && |bits.Rest()| <= |old(bits.Rest())| &&
        (ok <==> 3 * nb <= |old(bits.Rest())|)
    ensures ok ==> bits.Rest() == old(bits.Rest())[3 * nb..] && bl == Unordered(ReadVals(old(bits.Rest()), nb))
  {
    hide Val, Unordered, ReadVals, Pow2, InSync, Unread;
    ghost var s := bits.Rest();
    bl := seq(BL_CODES, _ => 0);
    NoVals(s, bl);
    var j: nat := 0;
    while j < nb
      invariant j <= nb && 3 * j <= |s| && bits.Calm() && bits.Rest() == s[3 * j..] && |bl| == BL_CODES
      invariant bl == Unordered(ReadVals(s, j))
    {
      ValsSlice(s, j);
      var v;
      ok, v := bits.TakeBits(3);
      if !ok { return; }
      ValsSnoc(s, j);
      OrderInRange();
      PlaceVal(ReadVals(s, j), v);
      bl := bl[BL_ORDER[j] := v];
      j := j + 1;
    }
    // the remaining lengths are zero
    ok := true;
  }

  lemma ValsSlice(s: seq<Bit>, j: nat)
    requires 3 * j <= |s|
    ensures |s| >= 3 * j + 3 ==> s[3 * j..][3..] == s[3 * (j + 1)..] && s[3 * j..][..3] == s[3 * j..3 * j + 3]
  {
  }

  lemma NoVals(s: seq<Bit>, bl: seq<nat>)
    requires bl == seq(BL_CODES, _ => 0)
    ensures bl == Unordered(ReadVals(s, 0))
  {
  }

  lemma {:induction false} ValsSnoc(s: seq<Bit>, j: nat)
    requires |s| >= 3 * j + 3
    ensures ReadVals(s, j + 1) == ReadVals(s, j) + [Val(s[3 * j..3 * j + 3])]
    decreases j
  {
    hide Val;
    if j > 0 {
      ValsSnoc(s[3..], j - 1);
      assert s[3..][3 * (j - 1)..3 * (j - 1) + 3] == s[3 * j..3 * j + 3];
    } else {
      assert s[0..3] == s[..3];
    }
  }

  lemma PlaceVal(vals: seq<nat>, v: nat)
    requires |vals| < BL_CODES
    ensures BL_ORDER[|vals|] < BL_CODES && Unordered(vals + [v]) == Unordered(vals)[BL_ORDER[|vals|] := v]
  {
    hide Unordered;
    var j := |vals|;
    OrderRank(j);
    var r, t := Unordered(vals + [v]), Unordered(vals)[BL_ORDER[j] := v];
    forall i | 0 <= i < BL_CODES ensures r[i] == t[i] {
      OrderRank(i);
    }
  }

  // --- Dynamic blocks: the header ---

  // the header uses a set with a single code: its unused pattern leads to unset memory
  ghost predicate OddHeader(s: seq<Bit>) {
    && |s| >= 14
    && var nl, nd, nb := 257 + Val(s[..5]), 1 + Val(s[5..10]), 4 + Val(s[10..14]);
       |s| >= 14 + 3 * nb && nb <= BL_CODES && OddLengths(s[14..], nl, nd, nb)
  }

  ghost predicate OddLengths(s: seq<Bit>, nl: nat, nd: nat, nb: nat)
    requires nb <= BL_CODES && 3 * nb <= |s|
  {
    var bl := Unordered(ReadVals(s, nb));
    Stray(bl) ||
    match DecodeLens(bl, s[3 * nb..], nl + nd, [])
    case None => false
    case Some((lens, _)) => Stray(lens[..nl]) || Stray(lens[nl..])
  }

  // the code length code has no codes: there is no table to look into
  ghost predicate ZeroHeader(s: seq<Bit>) {
    && |s| >= 14
    && var nl, nd, nb := 257 + Val(s[..5]), 1 + Val(s[5..10]), 4 + Val(s[10..14]);
       nl <= L_CODES && nd <= D_CODES && |s| >= 14 + 3 * nb && nb <= BL_CODES &&
           AllZero(Unordered(ReadVals(s[14..], nb)))
  }

  // a block whose data need a code that has no codes, with k bits left there
  ghost predicate NullData(s: seq<Bit>, k: nat) {
    var h := ReadHeader(s);
    h.Some? && |h.value.2| >= k && TokensFault(h.value.0, h.value.1, h.value.2, k)
  }

  // a set of lengths up to 15 that huft_build accepts
  lemma AcceptedSet(b: seq<nat>)
    requires LensOk(b)
    ensures Acceptable(b) <==> AllZero(b) || Exact(b) || SingleBit(b)
    ensures Acceptable(b) && !AllZero(b) ==> !Oversubscribed(b)
    ensures Acceptable(b) ==> Decodable(b)
    ensures Acceptable(b) && !Stray(b) && !AllZero(b) ==> Regular(b)
  {
    hide Kraft, Pow2, CountTo;
    ExactComplete(b);
    if AllZero(b) { NotOver(b); }
    if SingleBit(b) { SingleNotOver(b); SingleSet(b); }
  }

  lemma SingleSet(b: seq<nat>)
    requires SingleBit(b)
    ensures |b| >= 1 && (|b| == 1 ==> b[0] == 1)
  {
  }

  lemma SingleNotOver(b: seq<nat>)
    requires SingleBit(b)
    ensures !Oversubscribed(b)
  {
    OneBitLeft(b, 1);
  }

  // tables from huft_build do for inflate_codes
  lemma BuiltLoose(code: nat, tables: seq<seq<Huft>>, l: nat, b: seq<nat>, s: nat, d: seq<nat>, e: seq<nat>)
    requires LensOk(b) && Acceptable(b)
    requires AllZero(b) ==> tables == []
    requires !AllZero(b) ==>
        1 <= l <= 9 && Sane(tables, l) && Known(tables, l, s, d, e) && Decodes(tables, l, b, s, d, e)
    requires !AllZero(b) && !Stray(b) ==> Refuses(tables, l, b, s, d, e)
    ensures Loose(tables, l, b, s, d, e) && (Tight(tables, l, b, s, d, e) || Stray(b))
  {
    hide Kraft, Pow2, CountTo, Sane, Known, Decodes, SingleBit, AllZero, Acceptable, Decodable;
    AcceptedSet(b);
    if tables == [] {
      if !AllZero(b) { SaneSome(tables, l); }
      NothingRefused(l, b, s, d, e);
    }
  }

  lemma NothingRefused(l: nat, b: seq<nat>, s: nat, d: seq<nat>, e: seq<nat>)
    ensures Refuses([], l, b, s, d, e)
  {
  }

  lemma WideEnough(b: seq<nat>, l: nat, m: nat)
    requires LensOk(b) && (l >= m || forall i :: 0 <= i < |b| ==> b[i] <= l)
    requires m >= 8 || (m == 6 && |b| <= D_CODES && (Exact(b) || SingleBit(b))) ||
        (m == 7 && forall i :: 0 <= i < |b| ==> b[i] < 8)
    ensures l >= 1 ==> RoomyLens(b, l)
  {
    hide Exact, Pow2;
    if m == 6 && l >= 6 {
      SmallPowers();
      Pow2Mono(6, l);
    }
  }

  lemma {:induction false} KraftLate(c: seq<nat>, j: nat, n: nat)
    requires 1 <= j <= n < |c| && forall k :: 1 <= k < j ==> c[k] == 0
    ensures Kraft(c, n) <= SumFrom(c, j, n) * Pow2(n - j)
    decreases n
  {
    if n == j {
      NoShorter(c, j - 1);
      SumLast(c, j, j);
      assert SumFrom(c, j, j) >= c[j] && Pow2(0) == 1;
    } else {
      KraftLate(c, j, n - 1);
      SumLast(c, j, n);
      KraftLateStep(SumFrom(c, j, n - 1), c[n], Pow2(n - 1 - j));
    }
  }

  lemma KraftLateStep(s: nat, c: nat, p: nat)
    requires p >= 1
    ensures 2 * (s * p) + c <= (s + c) * (2 * p)
  {
    assert (s + c) * (2 * p) == 2 * (s * p) + c * (2 * p);
    MulGe(2 * p, c);
  }

  // at most 288 codes of 10 bits or more are no complete set
  lemma NoShortCode(b: seq<nat>)
    requires LensOk(b) && |b| <= N_MAX && forall k :: 1 <= k <= 9 ==> Counts(b)[k] == 0
    ensures !Exact(b)
  {
    hide Kraft, Pow2, CountTo;
    KraftLate(Counts(b), 10, BMAX);
    SumSplit(Counts(b), 1, 10, BMAX);
    assert Counts(b) == CountVec(b, |b|);
    SumAtMost(b, |b|, BMAX);
    SmallPowers();
    Pow2Sixteen();
    assert Pow2(BMAX - 10) == 64;
  }

  lemma ShortCode(b: seq<nat>) returns (i: nat)
    requires LensOk(b) && Exact(b) && |b| <= N_MAX
    ensures i < |b| && 1 <= b[i] <= 9
  {
    hide Kraft, Pow2, CountTo, Exact;
    if forall k :: 1 <= k <= 9 ==> Counts(b)[k] == 0 { NoShortCode(b); }
    var k :| 1 <= k <= 9 && Counts(b)[k] > 0;
    i := CountWitness(b, |b|, k);
  }

  // tables of at most 9 bits
  lemma Narrow(b: seq<nat>, l: nat, m: nat)
    requires LensOk(b) && |b| <= N_MAX && Acceptable(b) && !AllZero(b) && m <= 9
    requires l <= m || forall i :: 0 <= i < |b| ==> b[i] == 0 || b[i] >= l
    ensures l <= 9
  {
    hide Kraft, Pow2, CountTo, Exact;
    AcceptedSet(b);
    if Exact(b) {
      var i := ShortCode(b);
    } else if l > m {
      var i :| 0 <= i < |b| && b[i] != 0;
    }
  }

  // huft_build for one of the three codes of a dynamic block
  method BuildFor(b: seq<nat>, s: nat, d: seq<nat>, e: seq<nat>, m: nat)
    returns (code: nat, tables: seq<seq<Huft>>, l: nat)
    requires 1 <= |b| <= N_MAX && LensOk(b) && ExtrasOk(e)
    requires m == 9 || (m == 6 && |b| <= D_CODES) || (m == 7 && forall i :: 0 <= i < |b| ==> b[i] < 8)
    ensures code == 0 <==> Acceptable(b)
    ensures code <= 2 && (code == 0 ==> Loose(tables, l, b, s, d, e) && (Tight(tables, l, b, s, d, e) || Stray(b)))
    ensures code == 0 && tables != [] ==> l >= m || forall i :: 0 <= i < |b| ==> b[i] <= l
    ensures code == 0 && AllZero(b) ==> tables == []
  {
    hide Exact, Oversubscribed, Regular, RoomyLens, AllZero, SingleBit, Decodes, Refuses, Sane, Known, Acceptable,
        ExtrasOk, Loose, Tight;
    var v, blank := Unset(|b|);
    code, tables, l := Build(b, s, d, e, m, v, blank);
    AcceptedSet(b);
    if code == 0 {
      if !AllZero(b) { WideEnough(b, l, m); Narrow(b, l, m); }
      BuiltLoose(code, tables, l, b, s, d, e);
    }
  }

  // --- Dynamic blocks: the whole ---

  lemma HeaderSlices(s: seq<Bit>)
    requires |s| >= 14
    ensures s[5..][..5] == s[5..10] && s[5..][5..] == s[10..]
    ensures s[10..][..4] == s[10..14] && s[10..][4..] == s[14..]
  {
  }

  lemma HeaderShort(s: seq<Bit>)
    requires |s| < 14
    ensures ReadHeader(s).None? && !ZeroHeader(s)
  {
  }

  lemma HeaderSpec(s: seq<Bit>)
    requires |s| >= 14
    ensures var nl, nd, nb := 257 + Val(s[..5]), 1 + Val(s[5..10]), 4 + Val(s[10..14]);
            && nb <= BL_CODES
            && ReadHeader(s) == (if nl > L_CODES || nd > D_CODES || |s[14..]| < 3 * nb then None
                                 else ReadLengths(s[14..], nl, nd, nb))
            && (|s[14..]| >= 3 * nb ==>
                (OddHeader(s) <==> OddLengths(s[14..], nl, nd, nb)))
            && ZeroHeader(s) == (nl <= L_CODES && nd <= D_CODES && |s[14..]| >= 3 * nb &&
                                 AllZero(Unordered(ReadVals(s[14..], nb))))
  {
    hide Val, ReadLengths, OddLengths, Unordered, ReadVals, AllZero;
    SmallPowers();
  }

  // the three counts at the front
  method ReadCounts(bits: BitReader) returns (ok: bool, nl: nat, nd: nat, nb: nat)
    requires bits.Calm()
    modifies bits
    ensures bits.Valid() && (ok ==> bits.Calm()) && |bits.Rest()| <= |old(bits.Rest())| &&
        (ok <==> |old(bits.Rest())| >= 14)
    ensures ok ==> var s := old(bits.Rest());
                   nl == 257 + Val(s[..5]) && nd == 1 + Val(s[5..10]) && nb == 4 + Val(s[10..14]) &&
                       bits.Rest() == s[14..]
  {
    hide Val, Pow2, InSync, Unread;
    nl, nd, nb := 0, 0, 0;
    ghost var s := bits.Rest();
    if |s| >= 14 { HeaderSlices(s); }
    ok, nl := bits.TakeBits(5);
    if !ok { return; }
    nl := 257 + nl;
    ok, nd := bits.TakeBits(5);
    if !ok { return; }
    nd := 1 + nd;
    ok, nb := bits.TakeBits(4);
    nb := 4 + nb;
  }

  lemma ReadValsBelow(s: seq<Bit>, nb: nat)
    requires nb <= BL_CODES && 3 * nb <= |s|
    ensures forall i :: 0 <= i < BL_CODES ==> Unordered(ReadVals(s, nb))[i] < 8
  {
  }

  lemma AsBlTable(tables: seq<seq<Huft>>, l: nat, bl: seq<nat>)
    requires |bl| == BL_CODES && Acceptable(bl) && Loose(tables, l, bl, BL_CODES, [], [])
    requires forall i :: 0 <= i < |bl| ==> bl[i] < 8
    requires tables != [] ==> !AllZero(bl)
    requires tables != [] ==> l >= 7 || forall i :: 0 <= i < |bl| ==> bl[i] <= l
    ensures BlTable(tables, l, bl)
  {
    hide Acceptable, Sane, Decodes, Known, AllZero, Decodable;
  }

  lemma LengthsSpec(s: seq<Bit>, nl: nat, nd: nat, nb: nat)
    requires nb <= BL_CODES && 3 * nb <= |s|
    ensures var bl := Unordered(ReadVals(s, nb));
            var d := DecodeLens(bl, s[3 * nb..], nl + nd, []);
            && (Stray(bl) ==> OddLengths(s, nl, nd, nb))
            && (!Acceptable(bl) || d.None? ==> ReadLengths(s, nl, nd, nb).None?)
            && (Acceptable(bl) && d.Some? ==>
                  var (lens, t) := d.value;
                  && ReadLengths(s, nl, nd, nb) ==
                      (if Acceptable(lens[..nl]) && Acceptable(lens[nl..]) then Some((lens[..nl], lens[nl..], t))
                      else None)
                  && (Stray(lens[..nl]) || Stray(lens[nl..]) ==> OddLengths(s, nl, nd, nb)))
  {
    hide Acceptable, Stray, AllZero, Unordered, ReadVals, DecodeLens;
  }

  // a header that has been read: ll and dl are what the reference decoder finds, or the header is odd
  ghost predicate HeaderRead(r: Option<(seq<nat>, seq<nat>, seq<Bit>)>, odd: bool, ll: seq<nat>, dl: seq<nat>,
      rest: seq<Bit>) {
    if Acceptable(ll) && Acceptable(dl)
    then (r == Some((ll, dl, rest)) && (Stray(ll) || Stray(dl) ==> odd)) || (r.None? && odd)
    else r.None?
  }

  // the code lengths, read with the code length code
  method ReadLengthSets(bits: BitReader, nl: nat, nd: nat, nb: nat) returns (code: nat, ll: seq<nat>, dl: seq<nat>)
    requires bits.Calm() && nb <= BL_CODES && 1 <= nl <= L_CODES && nd <= D_CODES
    modifies bits
    ensures bits.Valid() && (code == OK ==> bits.Calm()) && |bits.Rest()| <= |old(bits.Rest())|
    ensures code == OK ==> |ll| == nl && |dl| == nd && LensOk(ll) && LensOk(dl)
    ensures var s := old(bits.Rest());
            if |s| < 3 * nb then code != OK && code != FAULT
            else
              var r := ReadLengths(s, nl, nd, nb);
              && (code == FAULT <==> AllZero(Unordered(ReadVals(s, nb)))) && (code == FAULT ==> r.None?)
              && if code != OK then r.None? || |r.value.2| < 16
                 else HeaderRead(r, OddLengths(s, nl, nd, nb), ll, dl, bits.Rest())
  {
    hide Acceptable, Stray, Unordered, ReadVals, DecodeLens, ReadLengths, OddLengths, Loose, Tight,
        BlTable, AllZero, InSync, Unread, Complete;
    ll, dl := [], [];
    ghost var s := bits.Rest();
    if |s| >= 3 * nb {
      LengthsSpec(s, nl, nd, nb);
      ReadValsBelow(s, nb);
    }
    var ok, bl := ReadBlLens(bits, nb);
    if !ok { return BAD, [], []; }
    ExtrasFine();
    BlLens(bl);
    var tl, l;
    code, tl, l := BuildFor(bl, BL_CODES, [], [], 7);
    ZeroAccepted(bl);
    if code != 0 { return; }
    AsBlTable(tl, l, bl);
    BlTableZero(tl, l, bl);
    var lens;
    code, lens := ReadLens(bits, tl, l, nl + nd, bl);
    if code != OK { return code, [], []; }
    ll, dl := lens[..nl], lens[nl..];
  }

  lemma ZeroAccepted(b: seq<nat>)
    ensures AllZero(b) ==> Acceptable(b)
  {
  }

  lemma BlTableZero(tables: seq<seq<Huft>>, l: nat, bl: seq<nat>)
    requires BlTable(tables, l, bl)
    ensures tables == [] <==> AllZero(bl)
  {
  }

  lemma BlLens(bl: seq<nat>)
    requires forall i :: 0 <= i < |bl| ==> bl[i] < 8
    ensures LensOk(bl)
  {
  }

  // odd: some code of the block has unused patterns that lead into unset memory
  ghost predicate AgreesUnlessOdd(r: Option<(seq<Byte>, seq<Bit>)>, odd: bool, code: nat, all: seq<Byte>,
      rest: seq<Bit>) {
    Agrees(r, code, all, rest) || (r.None? && odd)
  }

  lemma NotAccepted(r: Option<(seq<Byte>, seq<Bit>)>, odd: bool, code: nat, all: seq<Byte>, rest: seq<Bit>)
    requires code != OK && (r.None? || |r.value.1| < 16)
    ensures AgreesUnlessOdd(r, odd, code, all, rest)
  {
  }

  lemma DynamicSpec(s: seq<Bit>, out: seq<Byte>)
    ensures var h, r := ReadHeader(s), DecodeBody(DYN_TREES, s, out);
            && (h.None? ==> r.None?)
            && (h.Some? ==> r == DecodeTokens(h.value.0, h.value.1, h.value.2, out)
                            && (r.Some? ==> |r.value.1| <= |h.value.2|))
  {
    hide ReadHeader, DecodeTokens;
  }

  lemma NoTables(tables: seq<seq<Huft>>, l: nat, b: seq<nat>, s: nat, d: seq<nat>, e: seq<nat>)
    requires Loose(tables, l, b, s, d, e)
    ensures tables == [] ==> AllZero(b)
  {
  }

  // the two codes and the data
  method InflateWith(bits: BitReader, win: Slide, ll: seq<nat>, dl: seq<nat>,
                     ghost h: Option<(seq<nat>, seq<nat>, seq<Bit>)>, ghost odd: bool) returns (code: nat)
    requires bits.Calm() && win.Valid()
    requires 1 <= |ll| <= L_CODES && 1 <= |dl| <= D_CODES && LensOk(ll) && LensOk(dl) &&
        HeaderRead(h, odd, ll, dl, bits.Rest())
    modifies bits, win, win.slide, win.sum
    ensures bits.Valid() && (code == OK ==> bits.Calm()) && win.Valid() && |bits.Rest()| <= |old(bits.Rest())|
    ensures var r := if h.Some? then DecodeTokens(h.value.0, h.value.1, h.value.2, old(win.All())) else None;
            AgreesUnlessOdd(r, odd, code, win.All(), bits.Rest()) && (code == FAULT ==> r.None?)
    ensures code == FAULT ==> odd || (h.Some? && TokensFault(h.value.0, h.value.1, h.value.2, 0))
    ensures h.Some? && TokensFault(h.value.0, h.value.1, h.value.2, 16) ==> code == FAULT
  {
    hide Acceptable, Stray, Loose, Tight, AllZero, InSync, Unread, Ring, Flat, DecodeTokens, FirstLength;
    ExtrasFine();
    var tl, bl, td, bd;
    code, tl, bl := BuildFor(ll, 257, CPLENS, CPLEXT, LBITS);
    if code != 0 { return; }
    code, td, bd := BuildFor(dl, 0, CPDIST, CPDEXT, DBITS);
    if code != 0 { return; }
    NoTables(tl, bl, ll, 257, CPLENS, CPLEXT);
    NoTables(td, bd, dl, 0, CPDIST, CPDEXT);
    code := InflateCodes(bits, win, tl, td, bl, bd, ll, dl);
  }

  method InflateDynamic(bits: BitReader, win: Slide) returns (code: nat)
    requires bits.Calm() && win.Valid()
    modifies bits, win, win.slide, win.sum
    ensures bits.Valid() && (code == OK ==> bits.Calm()) && win.Valid() && |bits.Rest()| <= |old(bits.Rest())|
    ensures AgreesUnlessOdd(DecodeBody(DYN_TREES, old(bits.Rest()), old(win.All())), OddHeader(old(bits.Rest())),
                            code, win.All(), bits.Rest())
    ensures code == FAULT ==> DecodeBody(DYN_TREES, old(bits.Rest()), old(win.All())).None?
    ensures var s := old(bits.Rest());
            && (code == FAULT ==> ZeroHeader(s) || NullData(s, 0) || OddHeader(s))
            && (ZeroHeader(s) || NullData(s, 16) ==> code == FAULT)
  {
    hide HeaderRead, ReadHeader, ReadLengths, OddLengths, OddHeader, ZeroHeader, TokensFault, DecodeBody, DecodeTokens,
        InSync, Unread, Ring, Flat, Agrees, Val, Unordered, ReadVals, AllZero;
    ghost var s, out := bits.Rest(), win.All();
    ghost var odd := OddHeader(s);
    DynamicSpec(s, out);
    if |s| < 14 {
      HeaderShort(s);
    } else {
      HeaderSpec(s);
    }
    var ok, nl, nd, nb := ReadCounts(bits);
    if !ok || nl > L_CODES || nd > D_CODES {
      NotAccepted(DecodeBody(DYN_TREES, s, out), odd, BAD, win.All(), bits.Rest());
      return BAD;
    }
    var ll, dl;
    code, ll, dl := ReadLengthSets(bits, nl, nd, nb);
    if code != OK {
      NotAccepted(DecodeBody(DYN_TREES, s, out), odd, code, win.All(), bits.Rest());
      return;
    }
    code := InflateWith(bits, win, ll, dl, ReadHeader(s), odd);
  }

  // --- The stream ---

  ghost predicate OddBlock(s: seq<Bit>)
    requires |s| >= 3
  {
    Val(s[1..3]) == DYN_TREES && OddHeader(s[3..])
  }

  // a block that leads to a null pointer, with k bits left there
  ghost predicate NullBlock(s: seq<Bit>, k: nat)
    requires |s| >= 3
  {
    Val(s[1..3]) == DYN_TREES && (ZeroHeader(s[3..]) || NullData(s[3..], k))
  }

  // the first block that the reference decoder refuses is an odd one
  ghost predicate OddStream(s: seq<Bit>, out: seq<Byte>)
    decreases |s|
  {
    && |s| >= 3
    && match DecodeBlock(s, out)
       case None => OddBlock(s)
       case Some((o, t)) => s[0] == 0 && OddStream(t, o)
  }

  // ... or one that leads to a null pointer
  ghost predicate NullStream(s: seq<Bit>, out: seq<Byte>, k: nat)
    decreases |s|
  {
    && |s| >= 3
    && match DecodeBlock(s, out)
       case None => NullBlock(s, k)
       case Some((o, t)) => s[0] == 0 && NullStream(t, o, k)
  }

  method InflateBlock(bits: BitReader, win: Slide) returns (code: nat, last: bool)
    requires bits.Calm() && win.Valid()
    modifies bits, win, win.slide, win.sum
    ensures bits.Valid() && (code == OK ==> bits.Calm()) && win.Valid()
    ensures var s := old(bits.Rest());
            if |s| < 3 then code != OK && code != FAULT
            else (last <==> s[0] == 1) && |bits.Rest()| < |s|
                 && AgreesUnlessOdd(DecodeBlock(s, old(win.All())), OddBlock(s), code, win.All(), bits.Rest())
                 && (code == FAULT ==> (NullBlock(s, 0) || OddBlock(s)) && DecodeBlock(s, old(win.All())).None?)
                 && (NullBlock(s, 16) ==> code == FAULT)
  {
    hide Val, DecodeBody, OddHeader, ZeroHeader, NullData, InSync, Unread, Ring, Flat, Agrees;
    ghost var s := bits.Rest();
    last := false;
    var ok, e := bits.TakeBits(1);
    if !ok { return BAD, false; }
    OneBitVal(s);
    last := e == 1;
    var t;
    ok, t := bits.TakeBits(2);
    if !ok { return BAD, last; }
    assert s[1..][..2] == s[1..3] && s[1..][2..] == s[3..];
    if t == DYN_TREES {
      code := InflateDynamic(bits, win);
    } else if t == STORED_BLOCK {
      code := InflateStored(bits, win);
    } else if t == STATIC_TREES {
      code := InflateFixed(bits, win);
    } else {
      BadType(t, bits.Rest(), win.All());
      NotAccepted(None, OddBlock(s), 2, win.All(), bits.Rest());
      code := 2;
    }
  }

  lemma BadType(t: nat, s: seq<Bit>, out: seq<Byte>)
    requires t > 2
    ensures DecodeBody(t, s, out).None?
  {
  }

  lemma OneBitVal(s: seq<Bit>)
    requires |s| >= 1
    ensures Val(s[..1]) == s[0]
  {
    assert s[..1] == [s[0]] && [s[0]][1..] == [];
  }

  lemma StreamSpec(s: seq<Bit>, out: seq<Byte>)
    requires |s| >= 3
    ensures var b, r := DecodeBlock(s, out), DecodeStream(s, out);
            && (b.None? ==> r.None? && (OddStream(s, out) <==> OddBlock(s))
                            && forall k :: NullStream(s, out, k) <==> NullBlock(s, k))
            && (b.Some? ==> var (o, t) := b.value;
                  && |t| < |s|
                  && (if s[0] == 1 then r == Some((o, t))
                      else r == DecodeStream(t, o)
                           && (OddStream(s, out) <==> OddStream(t, o))
                           && forall k :: NullStream(s, out, k) <==> NullStream(t, o, k))
                  && (s[0] == 1 ==> forall k :: !NullStream(s, out, k))
                  && (r.Some? ==> |r.value.1| <= |t|))
  {
    hide DecodeBlock, OddBlock, NullBlock;
  }

  // the loop over the blocks
  method InflateAll(bits: BitReader, win: Slide) returns (code: nat)
    requires bits.Calm() && win.Valid()
    modifies bits, win, win.slide, win.sum
    ensures bits.Valid() && (code == OK ==> bits.Calm()) && win.Valid()
    ensures var s, out := old(bits.Rest()), old(win.All());
            && AgreesUnlessOdd(DecodeStream(s, out), OddStream(s, out), code, win.All(), bits.Rest())
            && (code == FAULT ==> (NullStream(s, out, 0) || OddStream(s, out)) && DecodeStream(s, out).None?)
            && (NullStream(s, out, 16) ==> code == FAULT)
  {
    hide DecodeBlock, DecodeStream, OddBlock, OddStream, NullBlock, NullStream, InSync, Unread, Ring, Flat;
    ghost var s0, out0 := bits.Rest(), win.All();
    ghost var r, odd := DecodeStream(s0, out0), OddStream(s0, out0);
    ghost var null0, null16 := NullStream(s0, out0, 0), NullStream(s0, out0, 16);
    ghost var lost := false;
    var e := false;
    while !e
      invariant bits.Calm() && win.Valid()
      invariant if lost then r.None? && odd && !null16
                else if e then r == Some((win.All(), bits.Rest())) && !null16
                else
                  && DecodeStream(bits.Rest(), win.All()) == r && OddStream(bits.Rest(), win.All()) == odd
                  && NullStream(bits.Rest(), win.All(), 0) == null0 && NullStream(bits.Rest(), win.All(), 16) == null16
      decreases !e, |bits.Rest()|
    {
      ghost var s, out := bits.Rest(), win.All();
      if |s| < 3 {
        StreamShort(s, out);
      } else {
        StreamSpec(s, out);
        NullLong(s, out);
      }
      code, e := InflateBlock(bits, win);
      if code != OK { return; }
      lost := lost || DecodeBlock(s, out).None?;
    }
    code := OK;
  }

  // a fault in a later block is far enough away
  lemma NullLong(s: seq<Bit>, out: seq<Byte>)
    requires |s| >= 3
    ensures var b := DecodeBlock(s, out); b.Some? && s[0] == 0 && NullStream(b.value.1, b.value.0, 16) ==>
              |b.value.1| >= 16
  {
    hide DecodeBlock, NullStream;
    var b := DecodeBlock(s, out);
    if b.Some? && s[0] == 0 && NullStream(b.value.1, b.value.0, 16) { NullSize(b.value.1, b.value.0); }
  }

  lemma {:induction false} NullSize(s: seq<Bit>, out: seq<Byte>)
    requires NullStream(s, out, 16)
    ensures |s| >= 16
    decreases |s|
  {
    hide DecodeBlock, Val, TokensFault, AllZero, Unordered, ReadVals, ReadHeader;
    var b := DecodeBlock(s, out);
    if b.Some? { NullSize(b.value.1, b.value.0); }
  }

  lemma StreamShort(s: seq<Bit>, out: seq<Byte>)
    requires |s| < 3
    ensures DecodeStream(s, out).None? && forall k :: !NullStream(s, out, k)
  {
  }

  lemma InputLeft(bits: BitReader)
    requires bits.Valid()
    ensures bits.inptr <= |bits.input|
  {
  }

  // what inflate leaves behind: the output written, the input at the next byte after the stream
  ghost predicate Inflated(r: Option<(seq<Byte>, seq<Bit>)>, before: seq<Byte>, written: seq<Byte>, left: seq<Byte>) {
    r.Some? && r.value.0 == before + written && BytesToBits(left) == r.value.1[|r.value.1| % 8..]
  }

  method Inflate(bits: BitReader, win: Slide) returns (code: nat)
    requires bits.inptr <= |bits.input| && win.Valid() && win.wp == 0 && win.written == []
    modifies bits, win, win.slide, win.sum
    ensures bits.inptr <= |bits.input|
    ensures var s := BytesToBits(old(bits.input[bits.inptr..]));
            var r := DecodeStream(s, win.before);
            if code == OK then Inflated(r, win.before, win.written, bits.input[bits.inptr..]) ||
                (r.None? && OddStream(s, win.before))
            else r.None? || |r.value.1| < 16
    ensures code == FAULT ==> var s := BytesToBits(old(bits.input[bits.inptr..]));
                              DecodeStream(s, win.before).None? &&
                                  (NullStream(s, win.before, 0) || OddStream(s, win.before))
    ensures NullStream(BytesToBits(old(bits.input[bits.inptr..])), win.before, 16) ==> code == FAULT
    ensures code == OK ==> Summed(win.sum.crc, win.bytesOut, win.written)
  {
    hide DecodeStream, OddStream, NullStream, BytesToBits, InSync, Unread, Summed;
    bits.Reset();
    assert win.All() == win.before;
    code := InflateAll(bits, win);
    InputLeft(bits);
    if code != OK { return; }
    ghost var all := win.All();
    bits.GiveBack();
    win.Flush();
    assert all == win.before + win.written;
  }
}
