/**
 What deflate hands to ct_tally and flush_block: the tokens since the last block,
 the blocks before it, and the text they stand for.
 */
module Output {
  import opened Bits
  import opened BitIO
  import opened Canonical
  import opened Lz
  import opened Stream
  import opened BlockLists
  import opened TokenBuffer
  import opened BlockSend
  import opened BlockSizes
  import opened BlockTrees
  import opened Frequencies
  import opened Coder

  // blocks bs and tokens ts after the bits start
  ghost predicate History(start: seq<Bit>, bs: seq<Block>, ts: seq<Token>, sent: seq<Bit>) {
    && BlocksOk(bs, []) && TokensOk(ts, |BlocksBytes(bs, [])|)
    && sent == start + BlocksBits(bs, |start|, [])
  }

  // what the blocks stand for
  ghost function FlatOf(bs: seq<Block>): (r: seq<Byte>) {
    if BlocksOk(bs, []) then BlocksBytes(bs, []) else []
  }

  // what the blocks and the tokens after them stand for
  ghost function TextOf(bs: seq<Block>, ts: seq<Token>): (r: seq<Byte>) {
    if TokensOk(ts, |FlatOf(bs)|) then Expand(ts, FlatOf(bs)) else []
  }

  class Emitter {
    const enc: Encoder
    ghost const repr: set<object>      // what changes
    ghost const tables: set<object>    // what does not
    ghost var start: seq<Bit>     // sent before the first block
    ghost var bs: seq<Block>      // the blocks sent
    ghost var ts: seq<Token>      // the tokens of the current block
    ghost var log: seq<Token>     // all tokens so far

    ghost predicate Valid()
      reads this, repr, tables
    {
      && repr == {this} + enc.repr && tables == enc.tables && this !in enc.repr && this !in tables
      && enc in enc.repr && enc.out in enc.repr && enc.out.outbuf in enc.repr && enc.Valid(ts)
      && enc.Exact(|start|) && History(start, bs, ts, enc.out.Sent())
    }

    // there is room for another token
    ghost predicate Roomy()
      reads this, enc.buf
    {
      |ts| < LIT_BUFSIZE - 1 && enc.buf.lastDist < DIST_BUFSIZE
    }

    // the text before the current block
    ghost function Flat(): (r: seq<Byte>)
      reads this
    {
      FlatOf(bs)
    }

    // the whole text so far
    ghost function Text(): (r: seq<Byte>)
      reads this
    {
      TextOf(bs, ts)
    }

    constructor (w: BitWriter)
      requires w.Valid() && w.biValid == 0 && w.biBuf == 0
      ensures Valid() && Roomy() && enc.out == w && fresh(repr - {w, w.outbuf}) && fresh(tables)
      ensures bs == [] && ts == [] && log == [] && start == w.Sent() && Text() == []
    {
      hide Encoder.Arrays, Encoder.Laid, FreqsOf, Buffers.Holds, Tables.Valid, Packed, WriterOk;
      var c := new Encoder(w);
      enc := c;
      bs, ts, log, start := [], [], [], w.Sent();
      repr, tables := {this} + c.repr, c.tables;
      new;
    }

    // header bytes before the first block
    method PutHeader(data: seq<Byte>)
      requires Valid() && bs == [] && ts == [] && enc.out.biValid == 0 && enc.out.biBuf == 0
      modifies repr
      ensures Valid() && bs == [] && ts == [] && enc.out.biValid == 0 && enc.out.biBuf == 0 &&
          start == old(start) + BytesToBits(data) && log == old(log) && (old(Roomy()) ==> Roomy())
    {
      hide Encoder.Laid, FreqsOf, Buffers.Holds, Tables.Valid, BytesToBits, History, Packed, WriterOk;
      NoBlocks(start, enc.out.Sent());
      enc.PutHeader(data);
      start := enc.out.Sent();
      ByteLength(enc.out.Bytes());
      NoBlocks(start, start);
    }

    method Tally(dist: nat, lc: nat, level: int, inLength: nat, ghost t: Token) returns (flush: bool)
      requires Valid() && Roomy() && TokenFits(t) && TokenOk(t, |Text()|) && Lc(t) == lc && DistOf(t) == dist
      modifies repr
      ensures Valid() && bs == old(bs) && ts == old(ts) + [t] && start == old(start) && Text() == Apply(old(Text()), t)
      ensures log == old(log) + [t]
      ensures flush == EndsBlock(ts, level, inLength) && (!flush ==> Roomy())
    {
      hide Encoder.Laid, FreqsOf, Buffers.HoldsTokens, Buffers.HoldsFlags, Tables.Valid, BlocksOk, BlocksBits,
          BlocksBytes, TokensOk, EndsBlock, Packed, WriterOk, Expand, Apply, TokenFits, TokenOk;
      flush := enc.Tally(dist, lc, level, inLength, ts, t);
      ExpandAppend(ts, t, BlocksBytes(bs, []));
      ts, log := ts + [t], log + [t];
    }

    // FLUSH_BLOCK(0); data is the text of the current block if it is still in the window
    method Flush(data: Option<seq<Byte>>, storedLen: nat)
      requires Valid() && Fits(data, storedLen, Flat(), Text())
      modifies repr
      ensures Valid() && Roomy() && start == old(start) && ts == [] && Flat() == Text() == old(Text())
      ensures log == old(log)
    {
      hide Encoder.Laid, FreqsOf, Buffers.Holds, Tables.Valid, BlocksOk, BlocksBits, BlocksBytes, TokensOk, Packed,
          WriterOk, Expand,
           BlockOk, BlockBits, Chosen, History, TextOf, FlatOf, Flushed;
      ghost var sent0 := enc.out.Sent();
      HistoryOk(start, bs, ts, sent0);
      ghost var flat := BlocksBytes(bs, []);
      var len;
      ghost var b, h;
      len, b, h := enc.FlushBlock(data, storedLen, false, ts, |flat|, |start|);
      Sealed(start, bs, ts, sent0, enc.out.Sent(), b, h, data, storedLen);
      bs, ts := bs + [b], [];
    }

    // FLUSH_BLOCK(1)
    method Finish(data: Option<seq<Byte>>, storedLen: nat) returns (len: nat, ghost x: seq<Bit>)
      requires Valid() && Fits(data, storedLen, Flat(), Text())
      modifies repr
      ensures enc.out.Valid() && Encodes(x, |old(start)|, old(Text()))
      ensures enc.out.Sent() == old(start) + x + Padding(|old(start) + x|) == BytesToBits(enc.out.Bytes())
      ensures len == (|enc.out.Sent()| - |old(start)|) / 8
    {
      hide Encoder.Laid, FreqsOf, Buffers.Holds, Tables.Valid, BlocksOk, BlocksBits, BlocksBytes, TokensOk, Packed,
          WriterOk, Expand,
           BlockOk, BlockBits, Chosen, History, TextOf, FlatOf, Flushed, Encodes, Padding, BytesToBits;
      ghost var sent0 := enc.out.Sent();
      HistoryOk(start, bs, ts, sent0);
      ghost var flat := BlocksBytes(bs, []);
      ghost var b, h;
      len, b, h := enc.FlushBlock(data, storedLen, true, ts, |flat|, |start|);
      x := Closed(start, bs, ts, sent0, enc.out.Sent(), b, h, data, storedLen);
    }
  }

  lemma ByteLength(b: seq<Byte>)
    ensures |BytesToBits(b)| % 8 == 0
  {
  }

  lemma NoBlocks(start: seq<Bit>, sent: seq<Bit>)
    ensures History(start, [], [], sent) <==> start == sent
  {
    assert start + [] == start;
  }

  // data, if given, is the text after flat
  ghost predicate Fits(data: Option<seq<Byte>>, storedLen: nat, flat: seq<Byte>, text: seq<Byte>) {
    data.Some? ==> |data.value| == storedLen < 0x10000 && flat + data.value == text
  }

  lemma HistoryOk(start: seq<Bit>, bs: seq<Block>, ts: seq<Token>, sent: seq<Bit>)
    requires History(start, bs, ts, sent)
    ensures BlocksOk(bs, []) && TokensOk(ts, |BlocksBytes(bs, [])|) && FlatOf(bs) == BlocksBytes(bs, [])
  {
  }

  // whichever encoding was taken, the block stands for the tokens
  lemma BlockText(bs: seq<Block>, ts: seq<Token>, b: Block, h: Header, data: Option<seq<Byte>>, storedLen: nat)
    requires BlocksOk(bs, []) && TokensOk(ts, |BlocksBytes(bs, [])|) && BlockOk(b, |BlocksBytes(bs, [])|) &&
        Chosen(b, ts, h, data, storedLen)
    requires Fits(data, storedLen, FlatOf(bs), TextOf(bs, ts))
    ensures BlockBytes(b, BlocksBytes(bs, [])) == TextOf(bs, ts)
  {
    hide BlocksOk, BlocksBytes, TokensOk, Expand, CodesOk, HeaderOk, CodedBits, HeaderBits, FixedLL, FixedDL;
  }

  lemma Sealed(start: seq<Bit>, bs: seq<Block>, ts: seq<Token>, s0: seq<Bit>, s1: seq<Bit>, b: Block, h: Header,
      data: Option<seq<Byte>>, storedLen: nat)
    requires History(start, bs, ts, s0) && BlockOk(b, |BlocksBytes(bs, [])|) && Chosen(b, ts, h, data, storedLen) &&
        Flushed(s0, s1, b, false)
    requires Fits(data, storedLen, FlatOf(bs), TextOf(bs, ts))
    ensures History(start, bs + [b], [], s1) && TextOf(bs + [b], []) == FlatOf(bs + [b]) == TextOf(bs, ts)
  {
    hide BlocksOk, BlocksBytes, BlocksBits, BlockOk, BlockBits, BlockBytes, Chosen, Fits;
    BlockText(bs, ts, b, h, data, storedLen);
    BlocksSnoc(bs, b, |start|, []);
    Assoc(start, BlocksBits(bs, |start|, []), BlockBits(b, false, |s0|));
  }

  lemma Closed(start: seq<Bit>, bs: seq<Block>, ts: seq<Token>, s0: seq<Bit>, s1: seq<Bit>, b: Block, h: Header,
      data: Option<seq<Byte>>, storedLen: nat)
    returns (x: seq<Bit>)
    requires History(start, bs, ts, s0) && BlockOk(b, |BlocksBytes(bs, [])|) && Chosen(b, ts, h, data, storedLen) &&
        Flushed(s0, s1, b, true)
    requires Fits(data, storedLen, FlatOf(bs), TextOf(bs, ts))
    ensures Encodes(x, |start|, TextOf(bs, ts)) && s1 == start + x + Padding(|start + x|)
  {
    hide BlocksOk, BlocksBytes, BlocksBits, BlockOk, BlockBits, BlockBytes, Chosen, Fits, Padding, Expand;
    BlockText(bs, ts, b, h, data, storedLen);
    x := BlocksBits(bs, |start|, []) + BlockBits(b, true, |s0|);
    Assoc(start, BlocksBits(bs, |start|, []), BlockBits(b, true, |s0|));
    assert StreamOf(x, |start|, TextOf(bs, ts), bs, b);
  }
}
