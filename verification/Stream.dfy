/**
 Blocks and the whole compressed stream: sections 3.2.3 to 3.2.7 of RFC 1951.
 DecodeStream is the reference decoder that inflate is measured against.
 */
module Stream {
  import opened Bits
  import opened BitIO
  import opened Canonical
  import opened Lz
  import opened Symbols
  import opened BlockData
  import opened CodeLengths

  const STORED_BLOCK := 0
  const STATIC_TREES := 1
  const DYN_TREES := 2

  // --- The fixed codes ---

  function FixedLen(i: nat): (r: nat) {
    if i < 144 then 8 else if i < 256 then 9 else if i < 280 then 7 else 8
  }

  function FixedLL(): (ll: seq<nat>)
    ensures |ll| == 288 && forall i :: 0 <= i < 288 ==> ll[i] == FixedLen(i)
  {
    seq(288, i requires 0 <= i => FixedLen(i))
  }

  function FixedDL(): (dl: seq<nat>)
    ensures |dl| == D_CODES && forall i :: 0 <= i < D_CODES ==> dl[i] == 5
  {
    seq(D_CODES, _ => 5)
  }

  // a stretch of equal lengths
  lemma {:induction false} CountRun(lens: seq<nat>, a: nat, b: nat, v: nat, k: nat)
    requires a <= b <= |lens| && forall i :: a <= i < b ==> lens[i] == v
    ensures CountTo(lens, b, k) == CountTo(lens, a, k) + if k == v then b - a else 0
    decreases b
  {
    if a < b { CountRun(lens, a, b - 1, v, k); }
  }

  lemma FixedCounts(k: nat)
    requires k <= BMAX
    ensures Counts(FixedLL())[k] == if k == 7 then 24 else if k == 8 then 152 else if k == 9 then 112 else 0
    ensures Counts(FixedDL())[k] == if k == 5 then 30 else 0
  {
    hide CountTo;
    var ll, dl := FixedLL(), FixedDL();
    CountRun(ll, 0, 144, 8, k);
    CountRun(ll, 144, 256, 9, k);
    CountRun(ll, 256, 280, 7, k);
    CountRun(ll, 280, 288, 8, k);
    CountRun(dl, 0, 30, 5, k);
    CountNone(ll, k);
    CountNone(dl, k);
  }

  lemma CountNone(lens: seq<nat>, k: nat)
    ensures CountTo(lens, 0, k) == 0
  {
  }

  lemma KraftStep(c: seq<nat>, n: nat)
    requires 1 <= n < |c|
    ensures Kraft(c, n) == 2 * Kraft(c, n - 1) + c[n] && Kraft(c, 0) == 0
  {
  }

  lemma FixedKraft(n: nat)
    requires n <= MAX_BITS
    ensures Kraft(Counts(FixedLL()), n) == if n < 7 then 0 else if n == 7 then 24 else if n == 8 then 200 else Pow2(n)
    ensures Kraft(Counts(FixedDL()), n) == if n < 5 then 0 else 30 * Pow2(n - 5)
  {
    hide Kraft, Counts, FixedLL, FixedDL;
    if n > 0 {
      FixedKraft(n - 1);
      FixedCounts(n);
      assert n >= 9 ==> Pow2(n) == 2 * Pow2(n - 1);
      assert Pow2(9) == 512;
      assert n > 5 ==> Pow2(n - 5) == 2 * Pow2(n - 6);
    }
    KraftStep(Counts(FixedLL()), if n > 0 then n else 1);
    KraftStep(Counts(FixedDL()), if n > 0 then n else 1);
  }

  // the fixed literal code leaves no pattern unused; the fixed distance code leaves two
  lemma FixedComplete()
    ensures Complete(FixedLL()) && Decodable(FixedLL()) && Decodable(FixedDL())
  {
    hide Kraft, Counts, CountTo;
    FixedKraft(MAX_BITS);
    Pow2Add(10, 5);
    SmallPowers();
  }

  // --- Blocks ---

  // the code lengths of a dynamic block with the form in which they are sent
  datatype Header = Header(ll: seq<nat>, dl: seq<nat>, bl: seq<nat>, nb: nat, ops: seq<Op>)

  datatype Block = Stored(data: seq<Byte>) | Fixed(ts: seq<Token>) | Dynamic(ts: seq<Token>, h: Header)

  predicate BlSent(bl: seq<nat>, nb: nat) {
    && |bl| == BL_CODES && 4 <= nb <= BL_CODES
    && (forall i :: 0 <= i < BL_CODES ==> bl[i] < 8)
    && (forall j :: nb <= j < BL_CODES ==> BL_ORDER[j] < BL_CODES && bl[BL_ORDER[j]] == 0)
  }

  predicate HeaderOk(h: Header) {
    && 257 <= |h.ll| <= L_CODES && 1 <= |h.dl| <= D_CODES
    && Complete(h.ll) && Complete(h.dl) && Complete(h.bl)
    && BlSent(h.bl, h.nb)
    && OpsUsable(h.bl, h.ops) && ExpandOps([], h.ops) == h.ll + h.dl
  }

  predicate CodesOk(ll: seq<nat>, dl: seq<nat>, ts: seq<Token>) {
    Decodable(ll) && Decodable(dl) && Usable(ll, END_BLOCK) && TokensUsable(ll, dl, ts)
  }

  predicate BlockOk(b: Block, n: nat) {
    match b
    case Stored(data) => |data| < 0x10000
    case Fixed(ts) => CodesOk(FixedLL(), FixedDL(), ts) && TokensOk(ts, n)
    case Dynamic(ts, h) => HeaderOk(h) && CodesOk(h.ll, h.dl, ts) && TokensOk(ts, n)
  }

  // the output with the bytes of b added
  function BlockBytes(b: Block, out: seq<Byte>): (r: seq<Byte>)
    requires BlockOk(b, |out|)
  {
    match b
    case Stored(data) => out + data
    case Fixed(ts) => Expand(ts, out)
    case Dynamic(ts, _) => Expand(ts, out)
  }

  function HeaderBits(h: Header): (s: seq<Bit>)
    requires HeaderOk(h)
  {
    BitsOf(|h.ll| - 257, 5) + BitsOf(|h.dl| - 1, 5) + BitsOf(h.nb - 4, 4)
    + ValsBits(Ordered(h.bl, h.nb)) + OpsBits(h.bl, h.ops)
  }

  function CodedBits(ll: seq<nat>, dl: seq<nat>, ts: seq<Token>): (s: seq<Bit>)
    requires CodesOk(ll, dl, ts)
  {
    TokensBits(ll, dl, ts) + Codeword(ll, END_BLOCK)
  }

  // a stored block, from bit position pos
  function StoredBits(data: seq<Byte>, pos: nat): (s: seq<Bit>)
    requires |data| < 0x10000
  {
    BitsOf(0, PadLen(pos)) + BitsOf(|data|, 16) + BitsOf(0xffff - |data|, 16) + BytesToBits(data)
  }

  function BlockType(b: Block): (t: nat) {
    match b
    case Stored(_) => STORED_BLOCK
    case Fixed(_) => STATIC_TREES
    case Dynamic(_, _) => DYN_TREES
  }

  function BodyBits(b: Block, pos: nat): (s: seq<Bit>)
    requires exists n :: BlockOk(b, n)
  {
    match b
    case Stored(data) => StoredBits(data, pos)
    case Fixed(ts) => CodedBits(FixedLL(), FixedDL(), ts)
    case Dynamic(ts, h) => HeaderBits(h) + CodedBits(h.ll, h.dl, ts)
  }

  function BlockBits(b: Block, last: bool, pos: nat): (s: seq<Bit>)
    requires exists n :: BlockOk(b, n)
  {
    BitsOf(2 * BlockType(b) + (if last then 1 else 0), 3) + BodyBits(b, pos + 3)
  }

  lemma StoredJoin(s0: seq<Bit>, data: seq<Byte>, eof: bool)
    requires |data| < 0x10000
    ensures BlockOk(Stored(data), 0)
    ensures s0 + BitsOf(2 * STORED_BLOCK + (if eof then 1 else 0), 3) + BitsOf(0, PadLen(|s0| + 3))
              + BitsOf(|data|, 16) + BitsOf(0xffff - |data|, 16) + BytesToBits(data)
              == s0 + BlockBits(Stored(data), eof, |s0|)
  {
    hide BitsOf, BytesToBits, PadLen, BlockBits, BlockOk, BodyBits;
    StoredIs(data, eof, |s0|);
    FiveJoin(s0, BitsOf(2 * STORED_BLOCK + (if eof then 1 else 0), 3), BitsOf(0, PadLen(|s0| + 3)),
             BitsOf(|data|, 16), BitsOf(0xffff - |data|, 16), BytesToBits(data));
  }

  lemma StoredIs(data: seq<Byte>, eof: bool, pos: nat)
    requires |data| < 0x10000
    ensures BlockOk(Stored(data), 0)
    ensures BlockBits(Stored(data), eof, pos) == BitsOf(2 * STORED_BLOCK + (if eof then 1 else 0), 3) +
        StoredBits(data, pos + 3)
  {
    hide BitsOf, BytesToBits, PadLen, CodedBits, HeaderBits, StoredBits, CodesOk, HeaderOk, TokensOk, FixedLL, FixedDL;
    var b := Stored(data);
    assert BlockOk(b, 0);
    assert BodyBits(b, pos + 3) == StoredBits(data, pos + 3);
  }

  lemma FiveJoin(s: seq<Bit>, t: seq<Bit>, a: seq<Bit>, b: seq<Bit>, c: seq<Bit>, d: seq<Bit>)
    ensures s + t + a + b + c + d == s + (t + (a + b + c + d))
  {
  }

  predicate BlocksOk(bs: seq<Block>, out: seq<Byte>) {
    bs == [] || (BlockOk(bs[0], |out|) && BlocksOk(bs[1..], BlockBytes(bs[0], out)))
  }

  function BlocksBytes(bs: seq<Block>, out: seq<Byte>): (r: seq<Byte>)
    requires BlocksOk(bs, out)
  {
    if bs == [] then out else BlocksBytes(bs[1..], BlockBytes(bs[0], out))
  }

  // blocks none of which is the last
  function BlocksBits(bs: seq<Block>, pos: nat, out: seq<Byte>): (s: seq<Bit>)
    requires BlocksOk(bs, out)
  {
    if bs == [] then []
    else
      var s := BlockBits(bs[0], false, pos);
      s + BlocksBits(bs[1..], pos + |s|, BlockBytes(bs[0], out))
  }

  // --- The reference decoder ---

  function ReadHeader(s: seq<Bit>): (r: Option<(seq<nat>, seq<nat>, seq<Bit>)>)
    ensures r.Some? ==> |r.value.2| <= |s|
  {
    SmallPowers();
    if |s| < 14 then None
    else
      var nl, nd, nb := 257 + Val(s[..5]), 1 + Val(s[5..10]), 4 + Val(s[10..14]);
      if nl > L_CODES || nd > D_CODES || |s| < 14 + 3 * nb then None
      else ReadLengths(s[14..], nl, nd, nb)
  }

  function ReadLengths(s: seq<Bit>, nl: nat, nd: nat, nb: nat): (r: Option<(seq<nat>, seq<nat>, seq<Bit>)>)
    requires nb <= BL_CODES && 3 * nb <= |s|
    ensures r.Some? ==> |r.value.2| <= |s| && |r.value.0| == nl && |r.value.1| == nd
  {
    var bl := Unordered(ReadVals(s, nb));
    if !Acceptable(bl) then None
    else
      match DecodeLens(bl, s[3 * nb..], nl + nd, [])
      case None => None
      case Some((lens, t)) =>
        if Acceptable(lens[..nl]) && Acceptable(lens[nl..]) then Some((lens[..nl], lens[nl..], t)) else None
  }

  // at a byte boundary: LEN, its complement and LEN bytes
  function DecodeStored(s: seq<Bit>, out: seq<Byte>): (r: Option<(seq<Byte>, seq<Bit>)>)
    ensures r.Some? ==> |r.value.1| <= |s|
  {
    if |s| < 32 then None
    else
      var n := Val(s[..16]);
      if n + Val(s[16..32]) != 0xffff || |s| < 32 + 8 * n then None
      else Some((out + BitsToBytes(s[32..32 + 8 * n], n), s[32 + 8 * n..]))
  }

  function BitsToBytes(s: seq<Bit>, n: nat): (r: seq<Byte>)
    requires |s| == 8 * n
    ensures |r| == n
    decreases n
  {
    Pow2Eight();
    if n == 0 then [] else [Val(s[..8])] + BitsToBytes(s[8..], n - 1)
  }

  function DecodeDynamic(s: seq<Bit>, out: seq<Byte>): (r: Option<(seq<Byte>, seq<Bit>)>)
    ensures r.Some? ==> |r.value.1| <= |s|
  {
    match ReadHeader(s)
    case None => None
    case Some((ll, dl, t)) => DecodeTokens(ll, dl, t, out)
  }

  // the stream ends on a byte boundary, so |s| % 8 bits are left in the current byte
  function DecodeBody(t: nat, s: seq<Bit>, out: seq<Byte>): (r: Option<(seq<Byte>, seq<Bit>)>)
    ensures r.Some? ==> |r.value.1| <= |s|
  {
    if t == STORED_BLOCK then DecodeStored(s[|s| % 8..], out)
    else if t == STATIC_TREES then DecodeTokens(FixedLL(), FixedDL(), s, out)
    else if t == DYN_TREES then DecodeDynamic(s, out)
    else None
  }

  function DecodeBlock(s: seq<Bit>, out: seq<Byte>): (r: Option<(seq<Byte>, seq<Bit>)>)
    requires |s| >= 3
    ensures r.Some? ==> |r.value.1| < |s|
  {
    DecodeBody(Val(s[1..3]), s[3..], out)
  }

  // blocks up to and including the last one
  function DecodeStream(s: seq<Bit>, out: seq<Byte>): (r: Option<(seq<Byte>, seq<Bit>)>)
    ensures r.Some? ==> |r.value.1| <= |s|
    decreases |s|
  {
    if |s| < 3 then None
    else
      match DecodeBlock(s, out)
      case None => None
      case Some((o, t)) => if s[0] == 1 then Some((o, t)) else DecodeStream(t, o)
  }

  // --- Decoding inverts encoding ---

  lemma {:induction false} BytesRoundTrip(b: seq<Byte>)
    ensures BitsToBytes(BytesToBits(b), |b|) == b
  {
    if b != [] {
      var s := BytesToBits(b);
      assert s[..8] == ByteBits(b[0]) && s[8..] == BytesToBits(b[1..]);
      ByteBitsVal(b[0]);
      BytesRoundTrip(b[1..]);
    }
  }

  lemma ValSmall(v: nat, n: nat)
    requires v < Pow2(n)
    ensures Val(BitsOf(v, n)) == v
  {
    ValBits(v, n);
    DivModUnique(v, Pow2(n), 0, v);
  }

  lemma StoredRoundTrip(data: seq<Byte>, pos: nat, s: seq<Bit>, out: seq<Byte>)
    requires |data| < 0x10000 && (pos + |StoredBits(data, pos) + s|) % 8 == 0
    ensures DecodeBody(STORED_BLOCK, StoredBits(data, pos) + s, out) == Some((out + data, s))
  {
    hide BitsOf, Val, Pow2, BytesToBits, BitsToBytes, PadLen, BlockOk;
    var p, n := PadLen(pos), |data|;
    var a, b, c := BitsOf(n, 16), BitsOf(0xffff - n, 16), BytesToBits(data);
    var t := StoredBits(data, pos) + s;
    PadRest(pos, |t|);
    assert t[p..] == a + b + c + s;
    Pow2Sixteen();
    ValSmall(n, 16);
    ValSmall(0xffff - n, 16);
    StoredParts(a, b, c, s, n);
    BytesRoundTrip(data);
  }

  lemma PadRest(pos: nat, n: nat)
    requires (pos + n) % 8 == 0
    ensures n % 8 == PadLen(pos)
  {
  }

  lemma StoredParts(a: seq<Bit>, b: seq<Bit>, c: seq<Bit>, s: seq<Bit>, n: nat)
    requires |a| == |b| == 16 && |c| == 8 * n
    ensures var t := a + b + c + s; t[..16] == a && t[16..32] == b && t[32..32 + 8 * n] == c && t[32 + 8 * n..] == s
  {
  }

  lemma HeaderParts(a: seq<Bit>, b: seq<Bit>, c: seq<Bit>, d: seq<Bit>, e: seq<Bit>, s: seq<Bit>)
    requires |a| == |b| == 5 && |c| == 4
    ensures var t := a + b + c + d + e + s; t[..5] == a && t[5..10] == b && t[10..14] == c && t[14..] == d + (e + s)
  {
  }

  lemma LengthsRoundTrip(h: Header, s: seq<Bit>)
    requires HeaderOk(h)
    ensures ReadLengths(ValsBits(Ordered(h.bl, h.nb)) + (OpsBits(h.bl, h.ops) + s), |h.ll|, |h.dl|, h.nb) ==
        Some((h.ll, h.dl, s))
  {
    hide Complete, OpsBits, ValsBits, OpsUsable, Ordered, Unordered, DecodeLens, ExpandOps, ReadVals;
    var vals, x := Ordered(h.bl, h.nb), OpsBits(h.bl, h.ops) + s;
    var t := ValsBits(vals) + x;
    OrderedSmall(h.bl, h.nb);
    ValsRoundTrip(vals, x);
    OrderedRoundTrip(h.bl, h.nb);
    assert t[3 * h.nb..] == x;
    CompleteDecodable(h.bl);
    OpsRoundTrip(h.bl, h.ops, s, |h.ll| + |h.dl|, []);
    assert (h.ll + h.dl)[..|h.ll|] == h.ll && (h.ll + h.dl)[|h.ll|..] == h.dl;
  }

  lemma OrderedSmall(bl: seq<nat>, nb: nat)
    requires BlSent(bl, nb)
    ensures forall i :: 0 <= i < nb ==> Ordered(bl, nb)[i] < 8
  {
  }

  lemma CompleteDecodable(lens: seq<nat>)
    requires Complete(lens)
    ensures Decodable(lens)
  {
  }

  lemma HeaderRoundTrip(h: Header, s: seq<Bit>)
    requires HeaderOk(h)
    ensures ReadHeader(HeaderBits(h) + s) == Some((h.ll, h.dl, s))
  {
    hide Complete, OpsBits, ValsBits, OpsUsable, Ordered, BitsOf, Val, ExpandOps, Pow2, ReadLengths;
    SmallPowers();
    var a, b, c := BitsOf(|h.ll| - 257, 5), BitsOf(|h.dl| - 1, 5), BitsOf(h.nb - 4, 4);
    ValSmall(|h.ll| - 257, 5);
    ValSmall(|h.dl| - 1, 5);
    ValSmall(h.nb - 4, 4);
    HeaderParts(a, b, c, ValsBits(Ordered(h.bl, h.nb)), OpsBits(h.bl, h.ops), s);
    LengthsRoundTrip(h, s);
  }

  lemma CodedRoundTrip(ll: seq<nat>, dl: seq<nat>, ts: seq<Token>, s: seq<Bit>, out: seq<Byte>)
    requires CodesOk(ll, dl, ts) && TokensOk(ts, |out|)
    ensures DecodeTokens(ll, dl, CodedBits(ll, dl, ts) + s, out) == Some((Expand(ts, out), s))
  {
    hide DecodeTokens, Codeword, TokensBits, Decodable, Expand;
    TokensRoundTrip(ll, dl, ts, s, out);
  }

  lemma DynamicRoundTrip(ts: seq<Token>, h: Header, s: seq<Bit>, out: seq<Byte>)
    requires HeaderOk(h) && CodesOk(h.ll, h.dl, ts) && TokensOk(ts, |out|)
    ensures DecodeDynamic(HeaderBits(h) + CodedBits(h.ll, h.dl, ts) + s, out) == Some((Expand(ts, out), s))
  {
    hide HeaderOk, CodesOk, TokensOk, Expand, DecodeTokens, ReadHeader, HeaderBits, CodedBits;
    var x := CodedBits(h.ll, h.dl, ts) + s;
    assert HeaderBits(h) + CodedBits(h.ll, h.dl, ts) + s == HeaderBits(h) + x;
    HeaderRoundTrip(h, x);
    CodedRoundTrip(h.ll, h.dl, ts, s, out);
  }

  lemma BodyRoundTrip(b: Block, pos: nat, s: seq<Bit>, out: seq<Byte>)
    requires BlockOk(b, |out|) && (pos + |BodyBits(b, pos) + s|) % 8 == 0
    ensures DecodeBody(BlockType(b), BodyBits(b, pos) + s, out) == Some((BlockBytes(b, out), s))
  {
    hide StoredBits, CodedBits, HeaderBits, HeaderOk, CodesOk, TokensOk, Expand, DecodeTokens, DecodeStored,
        DecodeDynamic;
    match b
    case Stored(data) => StoredRoundTrip(data, pos, s, out);
    case Fixed(ts) => CodedRoundTrip(FixedLL(), FixedDL(), ts, s, out);
    case Dynamic(ts, h) => DynamicRoundTrip(ts, h, s, out);
  }

  lemma TypeBits(t: nat, e: nat)
    requires t < 4 && e < 2
    ensures var x := BitsOf(2 * t + e, 3); x[0] == e && Val(x[1..3]) == t
  {
    var x := BitsOf(2 * t + e, 3);
    assert x == [e] + BitsOf(t, 2);
    assert x[1..3] == BitsOf(t, 2);
    SmallPowers();
    ValSmall(t, 2);
  }

  lemma BlockRoundTrip(b: Block, last: bool, pos: nat, s: seq<Bit>, out: seq<Byte>)
    requires BlockOk(b, |out|) && (pos + |BlockBits(b, last, pos) + s|) % 8 == 0
    ensures var t := BlockBits(b, last, pos) + s;
            |t| >= 3 && (t[0] == 1 <==> last) && DecodeBlock(t, out) == Some((BlockBytes(b, out), s))
  {
    hide BlockOk, BodyBits, DecodeBody, BitsOf, Val, BlockBytes;
    var e := if last then 1 else 0;
    var head := BitsOf(2 * BlockType(b) + e, 3);
    var t := BlockBits(b, last, pos) + s;
    TypeBits(BlockType(b), e);
    assert t[..3] == head && t[3..] == BodyBits(b, pos + 3) + s;
    assert t[1..3] == head[1..3];
    BodyRoundTrip(b, pos + 3, s, out);
  }

  lemma {:induction false} BlocksRoundTrip(bs: seq<Block>, pos: nat, s: seq<Bit>, out: seq<Byte>)
    requires BlocksOk(bs, out) && (pos + |BlocksBits(bs, pos, out) + s|) % 8 == 0
    ensures DecodeStream(BlocksBits(bs, pos, out) + s, out) == DecodeStream(s, BlocksBytes(bs, out))
    decreases |bs|
  {
    hide BlockOk, BlockBits, DecodeBlock, BlockBytes;
    if bs == [] {
      assert BlocksBits(bs, pos, out) + s == s;
    } else {
      var x := BlockBits(bs[0], false, pos);
      var o := BlockBytes(bs[0], out);
      var rest := BlocksBits(bs[1..], pos + |x|, o) + s;
      assert BlocksBits(bs, pos, out) + s == x + rest;
      BlockRoundTrip(bs[0], false, pos, rest, out);
      BlocksRoundTrip(bs[1..], pos + |x|, s, o);
    }
  }

  // decoding gives back the bytes of all blocks and stops right after the last one
  lemma StreamRoundTrip(bs: seq<Block>, b: Block, pos: nat, s: seq<Bit>, out: seq<Byte>)
    requires BlocksOk(bs, out) && BlockOk(b, |BlocksBytes(bs, out)|)
    requires var x := BlocksBits(bs, pos, out); (pos + |x + BlockBits(b, true, pos + |x|) + s|) % 8 == 0
    ensures var x := BlocksBits(bs, pos, out);
            DecodeStream(x + BlockBits(b, true, pos + |x|) + s, out) == Some((BlockBytes(b, BlocksBytes(bs, out)), s))
  {
    hide BlockOk, BlockBits, DecodeBlock, BlockBytes, BlocksOk, BlocksBits, BlocksBytes;
    var x := BlocksBits(bs, pos, out);
    var y := BlockBits(b, true, pos + |x|);
    assert x + y + s == x + (y + s);
    BlocksRoundTrip(bs, pos, y + s, out);
    BlockRoundTrip(b, true, pos + |x|, s, BlocksBytes(bs, out));
  }
}
