/**
 Lists of blocks: adding one at the end, and decoding after earlier output.
 */
module BlockLists {
  import opened Bits
  import opened Canonical
  import opened Lz
  import opened Stream

  // --- One more block ---

  lemma {:induction false} BlocksSnoc(bs: seq<Block>, b: Block, pos: nat, out: seq<Byte>)
    requires BlocksOk(bs, out) && BlockOk(b, |BlocksBytes(bs, out)|)
    ensures BlocksOk(bs + [b], out) && BlocksBytes(bs + [b], out) == BlockBytes(b, BlocksBytes(bs, out))
    ensures BlocksBits(bs + [b], pos, out) == BlocksBits(bs, pos, out) +
        BlockBits(b, false, pos + |BlocksBits(bs, pos, out)|)
    decreases |bs|
  {
    hide BlockOk, BlockBits, BlockBytes;
    if bs == [] {
      assert bs + [b] == [b] && [b][1..] == [];
      assert BlocksBits([b], pos, out) == BlockBits(b, false, pos) + [];
    } else {
      var s, o := BlockBits(bs[0], false, pos), BlockBytes(bs[0], out);
      assert (bs + [b])[0] == bs[0] && (bs + [b])[1..] == bs[1..] + [b];
      BlocksSnoc(bs[1..], b, pos + |s|, o);
      Assoc(s, BlocksBits(bs[1..], pos + |s|, o), BlockBits(b, false, pos + |BlocksBits(bs, pos, out)|));
    }
  }

  // --- Output that was there before ---

  lemma {:induction false} CopyShift(pre: seq<Byte>, out: seq<Byte>, len: nat, dist: nat)
    requires 1 <= dist <= |out|
    ensures CopyMatch(pre + out, len, dist) == pre + CopyMatch(out, len, dist)
    decreases len
  {
    if len > 0 {
      var c := out[|out| - dist];
      assert (pre + out)[|pre + out| - dist] == c;
      assert pre + out + [c] == pre + (out + [c]);
      CopyShift(pre, out + [c], len - 1, dist);
    }
  }

  lemma ApplyShift(pre: seq<Byte>, out: seq<Byte>, t: Token)
    requires TokenOk(t, |out|)
    ensures TokenOk(t, |pre + out|) && Apply(pre + out, t) == pre + Apply(out, t)
  {
    match t
    case Literal(b) => assert pre + out + [b] == pre + (out + [b]);
    case Match(len, dist) => CopyShift(pre, out, len, dist);
  }

  lemma {:induction false} ExpandShift(ts: seq<Token>, pre: seq<Byte>, out: seq<Byte>)
    requires TokensOk(ts, |out|)
    ensures TokensOk(ts, |pre + out|) && Expand(ts, pre + out) == pre + Expand(ts, out)
    decreases |ts|
  {
    if ts != [] {
      hide Apply, TokenOk;
      ApplyShift(pre, out, ts[0]);
      ExpandShift(ts[1..], pre, Apply(out, ts[0]));
    }
  }

  lemma BlockShift(b: Block, pre: seq<Byte>, out: seq<Byte>)
    requires BlockOk(b, |out|)
    ensures BlockOk(b, |pre + out|) && BlockBytes(b, pre + out) == pre + BlockBytes(b, out)
  {
    hide CodesOk, HeaderOk, TokensOk, Expand, FixedLL, FixedDL;
    match b
    case Stored(data) => assert pre + out + data == pre + (out + data);
    case Fixed(ts) => ExpandShift(ts, pre, out);
    case Dynamic(ts, _) => ExpandShift(ts, pre, out);
  }

  lemma {:induction false} BlocksShift(bs: seq<Block>, pos: nat, pre: seq<Byte>, out: seq<Byte>)
    requires BlocksOk(bs, out)
    ensures BlocksOk(bs, pre + out) && BlocksBytes(bs, pre + out) == pre + BlocksBytes(bs, out)
    ensures BlocksBits(bs, pos, pre + out) == BlocksBits(bs, pos, out)
    decreases |bs|
  {
    hide BlockOk, BlockBits, BlockBytes;
    if bs != [] {
      BlockShift(bs[0], pre, out);
      BlocksShift(bs[1..], pos + |BlockBits(bs[0], false, pos)|, pre, BlockBytes(bs[0], out));
    }
  }

  // --- A whole stream ---

  // the bits x are a complete stream whose blocks stand for text
  ghost predicate Encodes(x: seq<Bit>, pos: nat, text: seq<Byte>) {
    exists bs, b :: StreamOf(x, pos, text, bs, b)
  }

  ghost predicate StreamOf(x: seq<Bit>, pos: nat, text: seq<Byte>, bs: seq<Block>, b: Block) {
    && BlocksOk(bs, []) && BlockOk(b, |BlocksBytes(bs, [])|) && BlockBytes(b, BlocksBytes(bs, [])) == text
    && x == BlocksBits(bs, pos, []) + BlockBits(b, true, pos + |BlocksBits(bs, pos, [])|)
  }

  // whatever is in the window of the decoder and whatever follows the stream
  lemma EncodesDecode(x: seq<Bit>, pos: nat, text: seq<Byte>, s: seq<Bit>, pre: seq<Byte>)
    requires Encodes(x, pos, text) && (pos + |x + s|) % 8 == 0
    ensures DecodeStream(x + s, pre) == Some((pre + text, s))
  {
    hide BlockOk, BlockBits, BlockBytes, BlocksOk, BlocksBits, BlocksBytes, DecodeStream;
    var bs, b :| StreamOf(x, pos, text, bs, b);
    BlocksShift(bs, pos, pre, []);
    BlockShift(b, pre, BlocksBytes(bs, []));
    assert pre + [] == pre;
    StreamRoundTrip(bs, b, pos, s, pre);
  }
}
