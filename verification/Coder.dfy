/**
 ct_tally and flush_block: collecting the tokens of a block, choosing how to send
 it, and sending it.
 */
module Coder {
  import opened Bits
  import opened BitIO
  import opened Canonical
  import opened Lz
  import opened Symbols
  import opened BlockData
  import opened CodeLengths
  import opened Stream
  import opened Sums
  import opened Optimal
  import opened TreeMerge
  import opened TreeBuild
  import opened BitLengths
  import opened Trees
  import opened TreeCodes
  import opened CodeRuns
  import opened CodeTables
  import opened TokenBuffer
  import opened BlockSend
  import opened BlockSizes
  import opened Headers
  import opened BlTree
  import opened BlockTrees
  import opened Frequencies

  ghost function BufArrays(b: Buffers): (s: set<object>) { {b.lbuf, b.dbuf, b.flagBuf} }

  method NewTables() returns (tab: Tables)
    ensures fresh(tab) && fresh(TabArrays(tab)) && tab.Valid()
    ensures forall o :: o in TabArrays(tab) ==> allocated(o)
  {
    hide LengthTables, CodeTables.DistTables, HasCode, FixedLL, FixedDL;
    tab := new Tables();
  }

  method NewBuffers() returns (buf: Buffers)
    ensures fresh(buf) && fresh(BufArrays(buf)) && buf.Apart()
  {
    hide Buffers.HoldsTokens, Buffers.HoldsFlags;
    buf := new Buffers();
  }

  class Encoder {
    const work: Work
    const ltree: Tree     // dyn_ltree
    const dtree: Tree     // dyn_dtree
    const bltree: Tree    // bl_tree
    const tab: Tables
    const buf: Buffers
    const out: BitWriter
    var compressedLen: nat
    ghost const repr: set<object>      // what changes
    ghost const tables: set<object>    // what does not

    ghost predicate Owns() {
      repr == {this, work, buf, out, out.outbuf} + Arrays() && tables == TabArrays(tab)
    }

    ghost function Arrays(): (s: set<object>) {
      CoreArrays(work, ltree, dtree, bltree) + BufArrays(buf)
    }

    // all arrays are different
    ghost predicate Laid() {
      && CoreLaid(work, ltree, dtree, bltree) && Arrays() !! TabArrays(tab) &&
          CoreArrays(work, ltree, dtree, bltree) !! BufArrays(buf)
      && (out.outbuf as object) !in Arrays() && (out.outbuf as object) !in TabArrays(tab)
    }

    // the tokens ts have been tallied since the last block
    ghost predicate Valid(ts: seq<Token>)
      reads this, repr, tables
    {
      && Owns() && Laid() && buf.Holds(ts) && FreqsOf(ltree.fc[..], dtree.fc[..], bltree.fc[..], ts)
      && work.optLen == 0 && work.staticLen == 0 && tab.Valid() && out.Valid()
    }

    constructor (w: BitWriter)
      requires w.Valid()
      ensures fresh(repr - {w, w.outbuf}) && fresh(tables)
      ensures out == w && compressedLen == 0 && buf.lastDist == 0 && Valid([])
    {
      hide LengthTables, CodeTables.DistTables, HasCode, LitFreq, DistFreq, FixedLL, FixedDL, CoreLaid, CoreArrays,
          TabArrays, BufArrays, FreqsOf, Buffers.HoldsTokens, Buffers.HoldsFlags;
      var ws, lt, dt, bt := NewCore();
      ghost var core := CoreArrays(ws, lt, dt, bt);
      var tb := NewTables();
      assert core !! TabArrays(tb);
      var bf := NewBuffers();
      assert core !! BufArrays(bf) && BufArrays(bf) !! TabArrays(tb);
      assert fresh(core + BufArrays(bf));
      work, ltree, dtree, bltree, tab, buf, out := ws, lt, dt, bt, tb, bf, w;
      compressedLen := 0;
      repr, tables := {this, ws, bf, w, w.outbuf} + core + BufArrays(bf), TabArrays(tb);
      new;
      assert Owns();
      InitBlock();
    }

    // init_block
    method InitBlock()
      requires Owns() && Laid() && tab.Valid() && out.Valid() && buf.Apart()
      modifies work, buf, ltree.fc, dtree.fc, bltree.fc
      ensures Valid([]) && compressedLen == old(compressedLen) && buf.lastDist == 0
    {
      hide LengthTables, CodeTables.DistTables, HasCode, FreqsOf, CoreLaid, Arrays, Buffers.HoldsTokens,
          Buffers.HoldsFlags;
      TallyLaid();
      ClearAll(ltree.fc, dtree.fc, bltree.fc);
      work.optLen, work.staticLen := 0, 0;
      buf.Reset();
    }

    // bytes before the first block
    method PutHeader(data: seq<Byte>)
      requires Valid([]) && compressedLen == 0 && out.biValid == 0 && out.biBuf == 0
      modifies repr
      ensures compressedLen == old(compressedLen) && buf.lastDist == old(buf.lastDist)
      ensures Valid([]) && out.biValid == 0 && out.biBuf == 0 &&
          out.Sent() == old(out.Sent()) + BytesToBits(data) == BytesToBits(out.Bytes())
    {
      hide FreqsOf, LengthTables, CodeTables.DistTables, HasCode, CoreLaid, Buffers.HoldsTokens, Buffers.HoldsFlags,
          BytesToBits, Packed, WriterOk;
      out.PutAligned(data);
    }

    // ct_tally; inLength is strstart - block_start
    method Tally(dist: nat, lc: nat, level: int, inLength: nat, ghost ts: seq<Token>, ghost t: Token)
        returns (flush: bool)
      requires Valid(ts) && TokenFits(t) && Lc(t) == lc && DistOf(t) == dist
      requires |ts| < LIT_BUFSIZE - 1 && buf.lastDist < DIST_BUFSIZE
      modifies repr
      ensures Valid(ts + [t]) && flush == EndsBlock(ts + [t], level, inLength)
      ensures !flush ==> |ts + [t]| < LIT_BUFSIZE - 1 && buf.lastDist < DIST_BUFSIZE
      ensures out.Sent() == old(out.Sent()) && compressedLen == old(compressedLen)
    {
      hide FreqsOf, EndsBlock, Matches, LengthTables, CodeTables.DistTables, HasCode, TokenFits, FlagByte, Pow2,
          CoreLaid, Buffers.HoldsTokens, Buffers.HoldsFlags, Lc, DistOf;
      ghost var lfc, dfc, bfc := ltree.fc[..], dtree.fc[..], bltree.fc[..];
      TallyLaid();
      buf.Add(dist, lc, ts, t);
      buf.Counted(ts + [t]);
      Count(tab, ltree.fc, dtree.fc, dist, lc, lfc, dfc, bfc, ts, t);
      flush := Ends(buf.lastLit, buf.lastDist, dtree.fc, level, inLength, ts + [t], ltree.fc[..], bltree.fc[..]);
      NotFull(ts + [t], level, inLength);
    }

    lemma TallyLaid()
      requires Laid()
      ensures ltree.fc != dtree.fc && ltree.fc != bltree.fc && dtree.fc != bltree.fc
      ensures ltree.fc.Length == 2 * L_CODES + 1 && dtree.fc.Length == 2 * D_CODES + 1 &&
          bltree.fc.Length == 2 * BL_CODES + 1
      ensures BufArrays(buf) !! {ltree.fc, dtree.fc, bltree.fc} && TabArrays(tab) !! {ltree.fc, dtree.fc, bltree.fc} &&
          TabArrays(tab) !! BufArrays(buf)
    {
    }

    lemma SendLaid()
      requires Laid()
      ensures CodeArrays(out, bltree.fc, bltree.dl) && (out.outbuf as object) != ltree.dl &&
          (out.outbuf as object) != dtree.dl
    {
    }

    // the static and the dynamic codes are ready for the tokens ts
    ghost predicate Ready(ll: seq<nat>, dl: seq<nat>, bl: seq<nat>, nb: nat, ts: seq<Token>)
      reads out, buf, buf.lbuf, buf.dbuf, buf.flagBuf, ltree.fc, ltree.dl, dtree.fc, dtree.dl, bltree.fc, bltree.dl
      reads tab.lengthCode, tab.baseLength, tab.distCode, tab.baseDist, tab.ltree.fc, tab.ltree.dl, tab.dtree.fc,
          tab.dtree.dl
    {
      && Sending(out, buf, tab, ltree, dtree, ll, dl, ts) &&
          Sending(out, buf, tab, tab.ltree, tab.dtree, FixedLL(), FixedDL(), ts)
      && TreesReady(ltree.dl[..], dtree.dl[..], bltree.fc[..], bltree.dl[..], ll, dl, bl, nb)
      && HeaderOk(MakeHeader(ll, dl, bl, nb)) && CodesOk(ll, dl, ts) && CodesOk(FixedLL(), FixedDL(), ts)
    }

    // flush_block up to the choice of the encoding
    method Prepare(ghost ts: seq<Token>)
        returns (lmax: nat, dmax: nat, maxBl: nat, ghost ll: seq<nat>, ghost dl: seq<nat>, ghost bl: seq<nat>)
      requires Valid(ts)
      modifies work, Arrays()
      ensures Laid() && tab.Valid() && out.Valid() && buf.Apart() && compressedLen == old(compressedLen) &&
          unchanged(out) && unchanged(out.outbuf)
      ensures lmax + 1 == |ll| && dmax + 1 == |dl| && Ready(ll, dl, bl, maxBl + 1, ts)
      ensures work.optLen == |HeaderBits(MakeHeader(ll, dl, bl, maxBl + 1))| + |CodedBits(ll, dl, ts)|
      ensures work.staticLen == |CodedBits(FixedLL(), FixedDL(), ts)|
    {
      hide Encoder.Owns, LengthTables, CodeTables.DistTables, FreqsOf, HasCode, MakeHeader, HeaderBits, HeaderOk,
          CodesOk, CodedBits, TreesReady, FixedLL, FixedDL, Saved, CoreLaid, Matches, FlagByte;
      SendsLaid();
      lmax, dmax, maxBl, ll, dl, bl := MakeTrees(ts);
    }

    lemma SendsLaid()
      requires Laid() && buf.Apart() && tab.Valid()
      ensures Separate(out, buf, tab, ltree, dtree) && Separate(out, buf, tab, tab.ltree, tab.dtree)
    {
    }

    // the flags are saved and the three trees built
    method MakeTrees(ghost ts: seq<Token>)
        returns (lmax: nat, dmax: nat, maxBl: nat, ghost ll: seq<nat>, ghost dl: seq<nat>, ghost bl: seq<nat>)
      requires Valid(ts)
      modifies work, Arrays()
      ensures buf.HoldsTokens(ts) && Saved(buf.flagBuf[..], ts) && lmax + 1 == |ll| && dmax + 1 == |dl|
      ensures HasCode(ltree.fc[..], ltree.dl[..], ll) && HasCode(dtree.fc[..], dtree.dl[..], dl)
      ensures TreesReady(ltree.dl[..], dtree.dl[..], bltree.fc[..], bltree.dl[..], ll, dl, bl, maxBl + 1)
      ensures HeaderOk(MakeHeader(ll, dl, bl, maxBl + 1)) && CodesOk(ll, dl, ts) && CodesOk(FixedLL(), FixedDL(), ts)
      ensures work.optLen == |HeaderBits(MakeHeader(ll, dl, bl, maxBl + 1))| + |CodedBits(ll, dl, ts)|
      ensures work.staticLen == |CodedBits(FixedLL(), FixedDL(), ts)|
    {
      hide Encoder.Owns, LengthTables, CodeTables.DistTables, FreqsOf, HasCode, MakeHeader, HeaderBits, HeaderOk,
          CodesOk, CodedBits, TreesReady, BlockTrees.Built, FlagByte, Matches;
      ghost var fc, dc, bc := ltree.fc[..], dtree.fc[..], bltree.fc[..];
      SaveFlags(buf, ts);
      lmax, dmax, maxBl, ll, dl, bl := BuildAll(work, ltree, dtree, bltree, fc, dc, bc, ts);
      CodesBuilt(ltree.fc[..], ltree.dl[..], dtree.fc[..], dtree.dl[..], bltree.fc[..], bltree.dl[..], ll, dl, bl,
          maxBl + 1, ts);
    }


    // compressed_len counts the bits sent since the bit buffer was initialised at bit base
    ghost predicate Exact(base: nat)
      reads this, out, out.outbuf
      requires out.Valid()
    {
      base % 8 == 0 && |out.Sent()| == base + compressedLen
    }

    method SendStored(data: seq<Byte>, eof: bool, ghost base: nat)
      requires out.Valid() && Exact(base) && |data| < 0x10000
      modifies this`compressedLen, out, out.outbuf
      ensures BlockOk(Stored(data), 0)
      ensures out.Valid() && out.Sent() == old(out.Sent()) + BlockBits(Stored(data), eof, |old(out.Sent())|) &&
          Exact(base)
    {
      hide Packed, WriterOk, BitsOf, BytesToBits, PadLen;
      ghost var s0 := out.Sent();
      TypeFits(STORED_BLOCK, eof);
      out.SendBits(2 * STORED_BLOCK + (if eof then 1 else 0), 3);
      ghost var p := PadLen(|s0| + 3);
      Align(base, compressedLen + 3);
      compressedLen := (compressedLen + 3 + 7) / 8 * 8;
      compressedLen := compressedLen + (|data| + 4) * 8;
      out.CopyBlock(data);
      StoredJoin(s0, data, eof);
    }

    method SendStatic(eof: bool, ghost ts: seq<Token>, ghost n: nat, ghost base: nat)
      requires Sending(out, buf, tab, tab.ltree, tab.dtree, FixedLL(), FixedDL(), ts) && BlockOk(Fixed(ts), n)
      requires Exact(base) && work.staticLen == |CodedBits(FixedLL(), FixedDL(), ts)|
      modifies this`compressedLen, out, out.outbuf
      ensures out.Valid() && out.Sent() == old(out.Sent()) + BlockBits(Fixed(ts), eof, |old(out.Sent())|) && Exact(base)
    {
      hide Packed, WriterOk, BitsOf, CodesOk, CodedBits, LengthTables, CodeTables.DistTables, HasCode, Saved, TokensOk;
      ghost var s0 := out.Sent();
      TypeFits(STATIC_TREES, eof);
      out.SendBits(2 * STATIC_TREES + (if eof then 1 else 0), 3);
      CompressBlock(out, buf, tab, tab.ltree, tab.dtree, FixedLL(), FixedDL(), ts);
      compressedLen := compressedLen + 3 + work.staticLen;
      Assoc(s0, BitsOf(2 * STATIC_TREES + (if eof then 1 else 0), 3), CodedBits(FixedLL(), FixedDL(), ts));
    }

    method SendDynamic(lcodes: nat, dcodes: nat, blcodes: nat, eof: bool,
                       ghost ll: seq<nat>, ghost dl: seq<nat>, ghost bl: seq<nat>, ghost ts: seq<Token>, ghost n: nat,
                           ghost base: nat)
      requires Laid() && Ready(ll, dl, bl, blcodes, ts) && lcodes == |ll| && dcodes == |dl| && Exact(base) &&
          TokensOk(ts, n)
      requires work.optLen == |HeaderBits(MakeHeader(ll, dl, bl, blcodes))| + |CodedBits(ll, dl, ts)|
      modifies this`compressedLen, out, out.outbuf
      ensures BlockOk(Dynamic(ts, MakeHeader(ll, dl, bl, blcodes)), n)
      ensures out.Valid() && out.Sent() == old(out.Sent()) +
          BlockBits(Dynamic(ts, MakeHeader(ll, dl, bl, blcodes)), eof, |old(out.Sent())|) && Exact(base)
    {
      hide Packed, WriterOk, BitsOf, CodesOk, CodedBits, LengthTables, CodeTables.DistTables, HasCode, Saved, TokensOk,
          HeaderBits, HeaderOk, TreesReady, BlockBits, BlockOk, Laid, Buffers.HoldsTokens, Buffers.HoldsFlags, FixedLL,
          FixedDL, TokensUsable;
      ghost var s0, h := out.Sent(), MakeHeader(ll, dl, bl, blcodes);
      assert h.ll == ll && h.dl == dl;
      TypeFits(DYN_TREES, eof);
      out.SendBits(2 * DYN_TREES + (if eof then 1 else 0), 3);
      ghost var s1 := out.Sent();
      SendLaid();
      SendAllTrees(out, ltree, dtree, bltree, lcodes, dcodes, blcodes, ll, dl, bl);
      ghost var s2 := out.Sent();
      CompressBlock(out, buf, tab, ltree, dtree, ll, dl, ts);
      compressedLen := compressedLen + 3 + work.optLen;
      DynamicSent(s0, s1, s2, out.Sent(), ts, h, eof, n);
    }

    // the choice of the encoding, and sending the block
    method SendChosen(data: Option<seq<Byte>>, storedLen: nat, eof: bool, lmax: nat, dmax: nat, maxBl: nat,
                      ghost ll: seq<nat>, ghost dl: seq<nat>, ghost bl: seq<nat>, ghost ts: seq<Token>, ghost n: nat,
                          ghost base: nat) returns (ghost b: Block)
      requires Laid() && out.Valid() && Ready(ll, dl, bl, maxBl + 1, ts) && lmax + 1 == |ll| && dmax + 1 == |dl| &&
          Exact(base) && TokensOk(ts, n)
      requires data.Some? ==> |data.value| == storedLen < 0x10000
      requires work.optLen == |HeaderBits(MakeHeader(ll, dl, bl, maxBl + 1))| + |CodedBits(ll, dl, ts)|
      requires work.staticLen == |CodedBits(FixedLL(), FixedDL(), ts)|
      modifies this`compressedLen, out, out.outbuf
      ensures BlockOk(b, n) && Chosen(b, ts, MakeHeader(ll, dl, bl, maxBl + 1), data, storedLen)
      ensures out.Valid() && out.Sent() == old(out.Sent()) + BlockBits(b, eof, |old(out.Sent())|) && Exact(base)
    {
      hide Packed, WriterOk, CodesOk, CodedBits, HasCode, TokensOk, HeaderBits, HeaderOk, Laid, Sending, TreesReady,
          BlockBits, MakeHeader;
      var optLenb, staticLenb := (work.optLen + 3 + 7) / 8, (work.staticLen + 3 + 7) / 8;
      if staticLenb <= optLenb { optLenb := staticLenb; }
      assert MakeHeader(ll, dl, bl, maxBl + 1).ll == ll &&
          MakeHeader(ll, dl, bl, maxBl + 1).dl == dl by { HeaderLens(ll, dl, bl, maxBl + 1); }
      if storedLen + 4 <= optLenb && data.Some? {
        SendStored(data.value, eof, base);
        b := Stored(data.value);
      } else if staticLenb == optLenb {
        SendStatic(eof, ts, n, base);
        b := Fixed(ts);
      } else {
        SendDynamic(lmax + 1, dmax + 1, maxBl + 1, eof, ll, dl, bl, ts, n, base);
        b := Dynamic(ts, MakeHeader(ll, dl, bl, maxBl + 1));
      }
    }

    // flush_block; data is the input of the block unless it has left the window
    method FlushBlock(data: Option<seq<Byte>>, storedLen: nat, eof: bool, ghost ts: seq<Token>, ghost n: nat,
        ghost base: nat)
      returns (len: nat, ghost b: Block, ghost h: Header)
      requires Valid(ts) && TokensOk(ts, n) && Exact(base) && (data.Some? ==> |data.value| == storedLen < 0x10000)
      modifies repr
      ensures Valid([]) && buf.lastDist == 0 && BlockOk(b, n) && Chosen(b, ts, h, data, storedLen)
      ensures Flushed(old(out.Sent()), out.Sent(), b, eof)
      ensures len == (|out.Sent()| - base) / 8 && (if eof then out.Sent() == BytesToBits(out.Bytes()) else Exact(base))
    {
      hide Packed, WriterOk, CodesOk, CodedBits, HasCode, TokensOk, HeaderBits, HeaderOk, Laid, Sending, TreesReady,
          BlockBits, Chosen, FreqsOf, BlockOk, BytesToBits, Buffers.HoldsTokens, Buffers.HoldsFlags, MakeHeader,
          Padding, Flushed, LengthTables, CodeTables.DistTables;
      b, h := SendBlock(data, storedLen, eof, ts, n, base);
      ghost var s1 := out.Sent();
      len := EndBlock(eof, base);
      FlushedAs(old(out.Sent()), s1, out.Sent(), b, eof);
    }

    // a new block begins; at the end of file the last byte is filled up
    method EndBlock(eof: bool, ghost base: nat) returns (len: nat)
      requires Owns() && Laid() && tab.Valid() && out.Valid() && buf.Apart() && Exact(base)
      modifies repr
      ensures Valid([]) && buf.lastDist == 0
      ensures out.Sent() == old(out.Sent()) + if eof then Padding(|old(out.Sent())|) else []
      ensures len == (|out.Sent()| - base) / 8 && (if eof then out.Sent() == BytesToBits(out.Bytes()) else Exact(base))
    {
      hide Packed, WriterOk, HasCode, FreqsOf, BytesToBits, Buffers.HoldsTokens, Buffers.HoldsFlags, Padding,
          LengthTables, CodeTables.DistTables, CoreLaid;
      InitBlock();
      len := Finish(eof, base);
    }

    // the trees of a block, and the block
    method SendBlock(data: Option<seq<Byte>>, storedLen: nat, eof: bool, ghost ts: seq<Token>, ghost n: nat,
        ghost base: nat)
      returns (ghost b: Block, ghost h: Header)
      requires Valid(ts) && TokensOk(ts, n) && Exact(base) && (data.Some? ==> |data.value| == storedLen < 0x10000)
      modifies repr
      ensures Laid() && tab.Valid() && out.Valid() && buf.Apart()
      ensures BlockOk(b, n) && Chosen(b, ts, h, data, storedLen)
      ensures out.Sent() == old(out.Sent()) + BlockBits(b, eof, |old(out.Sent())|) && Exact(base)
    {
      hide Packed, WriterOk, CodesOk, CodedBits, HasCode, TokensOk, HeaderBits, HeaderOk, Laid, Sending, TreesReady,
          BlockBits, Chosen, FreqsOf, BlockOk, BytesToBits, Buffers.HoldsTokens, Buffers.HoldsFlags, MakeHeader,
          Padding, Flushed, LengthTables, CodeTables.DistTables;
      var lmax: nat, dmax: nat, maxBl: nat;
      ghost var ll, dl, bl;
      lmax, dmax, maxBl, ll, dl, bl := Prepare(ts);
      h := MakeHeader(ll, dl, bl, maxBl + 1);
      b := SendChosen(data, storedLen, eof, lmax, dmax, maxBl, ll, dl, bl, ts, n, base);
    }

    method Finish(eof: bool, ghost base: nat) returns (len: nat)
      requires out.Valid() && Exact(base)
      modifies this`compressedLen, out, out.outbuf
      ensures out.Valid() && out.Sent() == old(out.Sent()) + if eof then Padding(|old(out.Sent())|) else []
      ensures len == (|out.Sent()| - base) / 8 && (if eof then out.Sent() == BytesToBits(out.Bytes()) else Exact(base))
    {
      hide Packed, WriterOk, BitsOf, BytesToBits, PadLen;
      ghost var s := out.Sent();
      if eof {
        Align(base, compressedLen);
        out.BiWindup();
        compressedLen := compressedLen + 7;
      } else {
        assert s == s + [];
      }
      len := compressedLen / 8;
    }
  }

  function Padding(pos: nat): (s: seq<Bit>) { BitsOf(0, PadLen(pos)) }

  // block b follows the bits s0, and the last block ends at a byte boundary
  ghost predicate Flushed(s0: seq<Bit>, s1: seq<Bit>, b: Block, eof: bool)
    requires exists n :: BlockOk(b, n)
  {
    var s := s0 + BlockBits(b, eof, |s0|);
    s1 == if eof then s + Padding(|s|) else s
  }

  lemma FlushedAs(s0: seq<Bit>, s: seq<Bit>, s1: seq<Bit>, b: Block, eof: bool)
    requires (exists n :: BlockOk(b, n)) && s == s0 + BlockBits(b, eof, |s0|) && s1 == s + if eof then Padding(|s|)
        else []
    ensures Flushed(s0, s1, b, eof)
  {
    hide BlockBits, BlockOk, Padding;
  }

  // flush_block takes encoding b for the tokens ts, the header h and the input of the block
  ghost predicate Chosen(b: Block, ts: seq<Token>, h: Header, data: Option<seq<Byte>>, storedLen: nat) {
    && HeaderOk(h) && CodesOk(h.ll, h.dl, ts) && CodesOk(FixedLL(), FixedDL(), ts)
    && var opt, stat := (|HeaderBits(h)| + |CodedBits(h.ll, h.dl, ts)| + 10) / 8,
        (|CodedBits(FixedLL(), FixedDL(), ts)| + 10) / 8;
       b == if storedLen + 4 <= (if stat <= opt then stat else opt) && data.Some? then Stored(data.value)
            else if stat <= opt then Fixed(ts)
            else Dynamic(ts, h)
  }

  // no encoding that was available is more than 17 bits shorter than the one taken, 7 if a code is used
  lemma ChoiceBound(b: Block, alt: Block, ts: seq<Token>, h: Header, data: Option<seq<Byte>>, storedLen: nat, n: nat,
      eof: bool, pos: nat)
    requires Chosen(b, ts, h, data, storedLen) && TokensOk(ts, n) &&
        (data.Some? ==> |data.value| == storedLen < 0x10000)
    requires alt == Fixed(ts) || alt == Dynamic(ts, h) || (data.Some? && alt == Stored(data.value))
    ensures BlockOk(b, n) && BlockOk(alt, n)
    ensures |BlockBits(b, eof, pos)| <= |BlockBits(alt, eof, pos)| + if b.Stored? then 17 else 7
  {
    hide HeaderOk, HeaderBits, CodesOk, CodedBits, TokensOk, FixedLL, FixedDL, BlockBits;
    assert BlockOk(b, n) && BlockOk(alt, n);
    BlockSize(b, n, eof, pos);
    BlockSize(alt, n, eof, pos);
  }

  lemma BlockSize(b: Block, n: nat, eof: bool, pos: nat)
    requires BlockOk(b, n)
    ensures |BlockBits(b, eof, pos)| == 3 + match b
      case Stored(data) => PadLen(pos + 3) + 32 + 8 * |data|
      case Fixed(ts) => |CodedBits(FixedLL(), FixedDL(), ts)|
      case Dynamic(ts, h) => |HeaderBits(h)| + |CodedBits(h.ll, h.dl, ts)|
  {
    hide HeaderOk, HeaderBits, CodesOk, CodedBits, TokensOk, FixedLL, FixedDL, BitsOf, BytesToBits, PadLen;
  }

  lemma HeaderLens(ll: seq<nat>, dl: seq<nat>, bl: seq<nat>, nb: nat)
    ensures MakeHeader(ll, dl, bl, nb).ll == ll && MakeHeader(ll, dl, bl, nb).dl == dl
  {
    hide RleOps;
  }

  lemma NotFull(ts: seq<Token>, level: int, inLength: nat)
    requires AllFit(ts)
    ensures !EndsBlock(ts, level, inLength) ==> |ts| != LIT_BUFSIZE - 1 && Matches(ts, |ts|) != DIST_BUFSIZE
  {
  }

  lemma CodesBuilt(ltfc: seq<nat>, ltdl: seq<nat>, dtfc: seq<nat>, dtdl: seq<nat>, btfc: seq<nat>, btdl: seq<nat>,
                   ll: seq<nat>, dl: seq<nat>, bl: seq<nat>, nb: nat, ts: seq<Token>)
    requires BlockTrees.Built(ltfc, ltdl, dtfc, dtdl, btfc, btdl, ll, dl, bl, nb, ts)
    ensures HasCode(ltfc, ltdl, ll) && HasCode(dtfc, dtdl, dl) && TreesReady(ltdl, dtdl, btfc, btdl, ll, dl, bl, nb)
  {
  }

  // the flags of the last items
  method SaveFlags(buf: Buffers, ghost ts: seq<Token>)
    requires buf.Holds(ts)
    modifies buf.flagBuf
    ensures buf.HoldsTokens(ts) && Saved(buf.flagBuf[..], ts)
  {
    hide FlagByte, Pow2, Matches;
    buf.flagBuf[buf.lastFlags] := buf.flags;
  }

  lemma TypeFits(kind: nat, eof: bool)
    requires kind <= 2
    ensures 2 * kind + (if eof then 1 else 0) < Pow2(3)
  {
    assert Pow2(3) == 8;
  }

  lemma Align(base: nat, n: nat)
    requires base % 8 == 0
    ensures (n + 7) / 8 * 8 == n + PadLen(base + n)
  {
  }

  lemma DynamicSent(s0: seq<Bit>, s1: seq<Bit>, s2: seq<Bit>, s3: seq<Bit>, ts: seq<Token>, h: Header, eof: bool,
      n: nat)
    requires HeaderOk(h) && CodesOk(h.ll, h.dl, ts) && TokensOk(ts, n)
    requires s1 == s0 + BitsOf(2 * DYN_TREES + (if eof then 1 else 0), 3)
    requires s2 == s1 + HeaderBits(h) && s3 == s2 + CodedBits(h.ll, h.dl, ts)
    ensures BlockOk(Dynamic(ts, h), n) && s3 == s0 + BlockBits(Dynamic(ts, h), eof, |s0|)
    ensures |s3| == |s0| + 3 + |HeaderBits(h)| + |CodedBits(h.ll, h.dl, ts)|
  {
    hide HeaderOk, CodesOk, TokensOk, BitsOf, HeaderBits, CodedBits;
    FourJoin(s0, BitsOf(2 * DYN_TREES + (if eof then 1 else 0), 3), HeaderBits(h), CodedBits(h.ll, h.dl, ts));
  }

  lemma FourJoin(a: seq<Bit>, b: seq<Bit>, c: seq<Bit>, d: seq<Bit>)
    ensures a + b + c + d == a + (b + (c + d))
  {
  }
}
