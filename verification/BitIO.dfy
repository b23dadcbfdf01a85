/**
 The two ends of the bit stream: bits.c packs values into bytes, the macros
 NEEDBITS and DUMPBITS of inflate.c take them out again.
 */
module BitIO {
  import opened Bits

  const OUTBUFSIZ := 16384
  const BUF_SIZE := 16

  // zero bits from position n up to the next byte boundary
  function PadLen(n: nat): (p: nat)
    ensures p < 8 && (n + p) % 8 == 0
  {
    (8 - n % 8) % 8
  }

  // bits kept back in the bit buffer follow the bytes
  ghost function Packed(bytes: seq<Byte>, buf: nat, valid: nat): (s: seq<Bit>)
    ensures |s| == 8 * |bytes| + valid
  {
    BytesToBits(bytes) + BitsOf(buf, valid)
  }

  ghost predicate WriterOk(size: nat, outcnt: nat, biBuf: nat, biValid: nat) {
    size == OUTBUFSIZ && outcnt < OUTBUFSIZ && biValid <= BUF_SIZE && biBuf < Pow2(biValid)
  }

  // the low 32 bits of n, least significant byte first
  function Long(n: nat): (s: seq<Byte>)
    ensures |s| == 4
  {
    [n % 256, n / 256 % 256, n / 65536 % 256, n / 16777216 % 256]
  }

  // LG
  function LongOf(s: seq<Byte>): (n: nat)
    requires |s| == 4
  {
    var b0: int, b1: int, b2: int, b3: int := s[0], s[1], s[2], s[3];
    b0 + 256 * b1 + 65536 * (b2 + 256 * b3)
  }

  lemma LongShorts(b: seq<Byte>, n: nat)
    ensures var lo, hi := n % 0x10000, n / 0x10000 % 0x10000;
        b + [lo % 256, lo / 256] + [hi % 256, hi / 256] == b + Long(n)
  {
    var lo, hi := n % 0x10000, n / 0x10000 % 0x10000;
    Bytes4(n);
    assert [lo % 256, lo / 256] + [hi % 256, hi / 256] == Long(n);
    assert b + [lo % 256, lo / 256] + [hi % 256, hi / 256] == b + ([lo % 256, lo / 256] + [hi % 256, hi / 256]);
  }

  lemma Bytes2(m: nat)
    ensures m % 0x10000 % 256 == m % 256 && m % 0x10000 / 256 == m / 256 % 256
  {
    var q, r := m / 256, m % 256;
    assert m == 256 * q + r;
    DivModUnique(m, 0x10000, q / 256, 256 * (q % 256) + r);
  }

  lemma Bytes4(n: nat)
    ensures var lo, hi := n % 0x10000, n / 0x10000 % 0x10000;
            [lo % 256, lo / 256, hi % 256, hi / 256] == Long(n)
  {
    Bytes2(n);
    Bytes2(n / 0x10000);
    DivTwice(n);
  }

  lemma DivTwice(n: nat)
    ensures n / 0x10000 / 256 == n / 16777216
  {
    var q, r := n / 16777216, n % 16777216;
    DivModUnique(n / 0x10000, 256, q, r / 0x10000);
  }

  // put_long and LG
  lemma LongRead(n: nat)
    ensures LongOf(Long(n)) == n % 0x1_0000_0000
  {
    var a, b := n / 0x10000, n % 0x10000;
    Bytes2(n);
    Bytes2(a);
    DivTwice(n);
    assert b == b / 256 * 256 + b % 256;
    assert a % 0x10000 == a % 0x10000 / 256 * 256 + a % 0x10000 % 256;
    assert n == 0x10000 * a + b;
    DivModUnique(n, 0x1_0000_0000, a / 0x10000, 0x10000 * (a % 0x10000) + b);
  }

  class BitWriter {
    var biBuf: nat
    var biValid: nat
    const outbuf: array<Byte>
    var outcnt: nat
    var written: seq<Byte>   // everything flush_outbuf has handed to write_buf

    ghost predicate Valid()
      reads this
    {
      WriterOk(outbuf.Length, outcnt, biBuf, biValid)
    }

    // whole bytes produced so far
    ghost function Bytes(): (s: seq<Byte>)
      reads this, outbuf
      requires Valid()
    {
      written + outbuf[..outcnt]
    }

    // every bit sent so far
    ghost function Sent(): (s: seq<Bit>)
      reads this, outbuf
      requires Valid()
    {
      Packed(Bytes(), biBuf, biValid)
    }

    constructor ()
      ensures Valid() && fresh(outbuf)
      ensures Bytes() == [] && Sent() == []
    {
      biBuf, biValid, outcnt, written := 0, 0, 0, [];
      outbuf := new Byte[OUTBUFSIZ](_ => 0);
    }

    method FlushOutbuf()
      requires outbuf.Length == OUTBUFSIZ && outcnt <= OUTBUFSIZ
      modifies this`outcnt, this`written
      ensures outcnt == 0 && written == old(written + outbuf[..outcnt])
    {
      if outcnt == 0 {
        assert written == old(written + outbuf[..outcnt]);
        return;
      }
      written := written + outbuf[..outcnt];
      outcnt := 0;
    }

    method PutByte(c: Byte)
      requires Valid()
      modifies this`outcnt, this`written, outbuf
      ensures Valid() && Bytes() == old(Bytes()) + [c]
    {
      outbuf[outcnt] := c;
      outcnt := outcnt + 1;
      assert written + outbuf[..outcnt] == old(Bytes()) + [c];
      if outcnt == OUTBUFSIZ {
        FlushOutbuf();
        assert Bytes() == old(Bytes()) + [c];
      }
    }

    method PutShort(w: nat)
      requires Valid() && w < 0x10000
      modifies this`outcnt, this`written, outbuf
      ensures Valid() && Bytes() == old(Bytes()) + [w % 256, w / 256]
    {
      if outcnt < OUTBUFSIZ - 2 {
        outbuf[outcnt] := w % 256;
        outcnt := outcnt + 1;
        outbuf[outcnt] := w / 256;
        outcnt := outcnt + 1;
        assert Bytes() == old(Bytes()) + [w % 256, w / 256];
      } else {
        PutByte(w % 256);
        PutByte(w / 256);
        assert old(Bytes()) + [w % 256] + [w / 256] == old(Bytes()) + [w % 256, w / 256];
      }
    }

    method SendBits(value: nat, length: nat)
      requires Valid() && length <= 16 && value < Pow2(length)
      modifies this, outbuf
      ensures Valid() && Sent() == old(Sent()) + BitsOf(value, length)
    {
      hide BitsOf, BytesToBits, Or, Shl, Shr, Pow2;
      ghost var head, tail := BitsOf(biBuf, biValid), BitsOf(value, length);
      if biValid > BUF_SIZE - length {
        PackSpill(biBuf, biValid, value, length);
        var w := Or(biBuf, Shl(value, biValid)) % 0x10000;
        ghost var bytes := Bytes();
        PutShort(w);
        ShortBits(bytes, w);
        ghost var full := BitsOf(w, BUF_SIZE);
        biBuf := Shr(value, BUF_SIZE - biValid);
        biValid := biValid + length - BUF_SIZE;
        Regroup(BytesToBits(bytes), full, BitsOf(biBuf, biValid), head, tail);
      } else {
        PackFit(biBuf, biValid, value, length);
        ghost var bytes := Bytes();
        biBuf := Or(biBuf, Shl(value, biValid));
        biValid := biValid + length;
        assert Bytes() == bytes;
        assert Sent() == BytesToBits(bytes) + (head + tail);
      }
    }

    method BiWindup()
      requires Valid()
      modifies this, outbuf
      ensures Valid() && biValid == 0 && biBuf == 0
      ensures Sent() == old(Sent()) + BitsOf(0, PadLen(|old(Sent())|))
      ensures Sent() == BytesToBits(Bytes())
    {
      hide BitsOf, BytesToBits, Pow2, PadLen, Packed;
      Windup(Bytes(), biBuf, biValid);
      if biValid > 8 {
        PutShort(biBuf);
      } else if biValid > 0 {
        PutByte(biBuf);
      }
      NoBits(Bytes());
      biBuf, biValid := 0, 0;
    }

    // put_long
    method PutLong(n: nat)
      requires Valid()
      modifies this`outcnt, this`written, outbuf
      ensures Valid() && Bytes() == old(Bytes()) + Long(n)
    {
      hide WriterOk;
      PutShort(n % 0x10000);
      PutShort(n / 0x10000 % 0x10000);
      LongShorts(old(Bytes()), n);
    }

    // bytes at a byte boundary
    method PutAligned(buf: seq<Byte>)
      requires Valid() && biValid == 0 && biBuf == 0
      modifies this`outcnt, this`written, outbuf
      ensures Valid() && Sent() == old(Sent()) + BytesToBits(buf) && Sent() == BytesToBits(Bytes())
    {
      hide BitsOf, BytesToBits;
      NoBits(Bytes());
      BytesAppend(Bytes(), buf);
      PutBytes(buf);
      NoBits(Bytes());
    }

    // copy_block with header: LEN, NLEN and the bytes of a stored block
    method CopyBlock(buf: seq<Byte>)
      requires Valid() && |buf| < 0x10000
      modifies this, outbuf
      ensures Valid() && biValid == 0
      ensures Sent() == old(Sent()) + BitsOf(0, PadLen(|old(Sent())|))
                        + BitsOf(|buf|, 16) + BitsOf(0xffff - |buf|, 16) + BytesToBits(buf)
      ensures Sent() == BytesToBits(Bytes())
    {
      hide BitsOf, BytesToBits, Pow2, PadLen;
      BiWindup();
      ghost var s0, b0 := Sent(), Bytes();
      ShortBits(b0, |buf|);
      PutShort(|buf|);
      ghost var b1 := Bytes();
      ShortBits(b1, 0xffff - |buf|);
      PutShort(0xffff - |buf|);
      ghost var b2 := Bytes();
      PutBytes(buf);
      BytesAppend(b2, buf);
      assert Sent() == BytesToBits(Bytes());
    }

    method PutBytes(buf: seq<Byte>)
      requires Valid()
      modifies this`outcnt, this`written, outbuf
      ensures Valid() && Bytes() == old(Bytes()) + buf
    {
      var i := 0;
      while i < |buf|
        invariant i <= |buf| && Valid()
        invariant Bytes() == old(Bytes()) + buf[..i]
      {
        PutByte(buf[i]);
        i := i + 1;
        assert buf[..i] == buf[..i - 1] + [buf[i - 1]];
      }
      assert buf[..i] == buf;
    }
  }

  lemma NoBits(bytes: seq<Byte>)
    ensures Packed(bytes, 0, 0) == BytesToBits(bytes) && Pow2(0) == 1
  {
  }

  // writing out what is left in the bit buffer fills up the last byte with zeros
  lemma Windup(bytes: seq<Byte>, buf: nat, valid: nat)
    requires valid <= BUF_SIZE && buf < Pow2(valid)
    ensures buf < 0x10000 && (valid <= 8 ==> buf < 256)
    ensures var s := Packed(bytes, buf, valid);
            s + BitsOf(0, PadLen(|s|)) == Packed(if valid > 8 then bytes + [buf % 256, buf / 256]
                                                 else if valid > 0 then bytes + [buf] else bytes, 0, 0)
  {
    hide BitsOf, BytesToBits, Pow2, PadLen;
    var pad := BitsOf(0, PadLen(|Packed(bytes, buf, valid)|));
    PadMod(|bytes|, valid);
    PadBits(buf, valid);
    if valid > 8 {
      ShortBits(bytes, buf);
      Regroup(BytesToBits(bytes), BitsOf(buf, valid) + pad, [], BitsOf(buf, valid), pad);
    } else if valid > 0 {
      ByteAppend(bytes, buf);
      Regroup(BytesToBits(bytes), BitsOf(buf, valid) + pad, [], BitsOf(buf, valid), pad);
    } else {
      NoPad();
    }
  }

  lemma NoPad()
    ensures PadLen(0) == 0
  {
  }

  lemma Regroup(a: seq<Bit>, b: seq<Bit>, c: seq<Bit>, d: seq<Bit>, e: seq<Bit>)
    requires b + c == d + e
    ensures (a + b) + c == (a + d) + e
  {
    assert (a + b) + c == a + (b + c);
    assert (a + d) + e == a + (d + e);
  }

  lemma Pow2Sixteen()
    ensures Pow2(16) == 0x10000
  {
    Pow2Eight();
    Pow2Add(8, 8);
  }

  lemma PadMod(b: nat, valid: nat)
    ensures PadLen(8 * b + valid) == PadLen(valid)
  {
  }

  // a two-byte value is its two bytes, low byte first
  lemma ShortBits(bytes: seq<Byte>, w: nat)
    requires w < 0x10000
    ensures BytesToBits(bytes + [w % 256, w / 256]) == BytesToBits(bytes) + BitsOf(w, 16)
  {
    BytesAppend(bytes, [w % 256, w / 256]);
    BytesAppend([w % 256], [w / 256]);
    assert [w % 256, w / 256] == [w % 256] + [w / 256];
    OneByte(w % 256);
    OneByte(w / 256);
    Pow2Eight();
    BitsJoin(w % 256, 8, w / 256, 8);
  }

  lemma OneByte(b: Byte)
    ensures BytesToBits([b]) == ByteBits(b)
  {
    assert [b][1..] == [];
    assert BytesToBits([b]) == ByteBits(b) + BytesToBits([b][1..]);
  }

  lemma ByteAppend(bytes: seq<Byte>, b: Byte)
    ensures BytesToBits(bytes + [b]) == BytesToBits(bytes) + ByteBits(b)
  {
    BytesAppend(bytes, [b]);
    OneByte(b);
  }

  // the arithmetic of send_bits: the value fits in the buffer
  lemma PackFit(buf: nat, valid: nat, value: nat, length: nat)
    requires buf < Pow2(valid) && value < Pow2(length)
    ensures var x := Or(buf, Shl(value, valid));
            && x < Pow2(valid + length)
            && BitsOf(x, valid + length) == BitsOf(buf, valid) + BitsOf(value, length)
  {
    OrDisjoint(buf, value, valid);
    BitsJoin(buf, valid, value, length);
    PackBound(buf, valid, value, length);
  }

  // ... and it does not: the buffer leaves as 16 bits, the rest of the value stays
  lemma PackSpill(buf: nat, valid: nat, value: nat, length: nat)
    requires valid <= 16 < valid + length && buf < Pow2(valid) && length <= 16 && value < Pow2(length)
    ensures var x := Or(buf, Shl(value, valid));
            && Shr(value, 16 - valid) < Pow2(valid + length - 16)
            && BitsOf(x % 0x10000, 16) + BitsOf(Shr(value, 16 - valid), valid + length - 16)
               == BitsOf(buf, valid) + BitsOf(value, length)
  {
    hide *;
    PackFit(buf, valid, value, length);
    var x := Or(buf, Shl(value, valid));
    Pow2Sixteen();
    BitsMod(x, 16);
    BitsSplit(x, 16, valid + length - 16);
    ShrPacked(buf, valid, value, 16);
    ShrDiv(value, 16 - valid);
    assert (16 - valid) + (valid + length - 16) == length;
    DivLt(value, 16 - valid, valid + length - 16);
  }

  lemma ShrPacked(buf: nat, valid: nat, value: nat, n: nat)
    requires valid <= n && buf < Pow2(valid)
    ensures Shr(Or(buf, Shl(value, valid)), n) == Shr(value, n - valid)
  {
    OrDisjoint(buf, value, valid);
    var x := buf + value * Pow2(valid);
    ShrDiv(x, valid);
    SplitAt(buf, value, valid);
    ShrShr(x, valid, n - valid);
  }

  lemma {:induction false} ShrShr(x: nat, a: nat, b: nat)
    ensures Shr(Shr(x, a), b) == Shr(x, a + b)
    decreases a
  {
    if a > 0 { ShrShr(x / 2, a - 1, b); }
  }

  lemma PackBound(buf: nat, valid: nat, value: nat, length: nat)
    requires buf < Pow2(valid) && value < Pow2(length)
    ensures buf + value * Pow2(valid) < Pow2(valid + length)
  {
    Pow2Add(length, valid);
    MulMono(value + 1, Pow2(length), Pow2(valid));
    assert (value + 1) * Pow2(valid) == value * Pow2(valid) + Pow2(valid);
  }

  lemma {:induction false} ShrSmall(v: nat, n: nat)
    requires v < Pow2(n)
    ensures Shr(v, n) == 0
    decreases n
  {
    if n > 0 { ShrSmall(v / 2, n - 1); }
  }

  // writing out a partial byte (or short) appends zero bits
  lemma PadBits(buf: nat, valid: nat)
    requires valid <= 16 && buf < Pow2(valid)
    ensures buf < 0x10000
    ensures valid > 8 ==> BitsOf(buf, 16) == BitsOf(buf, valid) + BitsOf(0, PadLen(valid))
    ensures valid <= 8 ==> buf < 256
    ensures 0 < valid <= 8 ==> BitsOf(buf, 8) == BitsOf(buf, valid) + BitsOf(0, PadLen(valid))
  {
    hide BitsOf, Shr, Pow2;
    var p := PadLen(valid);
    BitsSplit(buf, valid, p);
    ShrSmall(buf, valid);
    assert valid > 8 ==> valid + p == 16;
    assert 0 < valid <= 8 ==> valid + p == 8;
    Pow2Mono(valid, 16);
    Pow2Sixteen();
    if valid <= 8 {
      Pow2Mono(valid, 8);
      Pow2Eight();
    }
  }

  // the buffered bits are the ones before inptr; 23 of them at most, so that nothing
  // is lost in a 32-bit bit buffer
  ghost predicate InSync(input: seq<Byte>, inptr: nat, bb: nat, bk: nat) {
    && inptr <= |input| && bk <= 8 * inptr && bk <= 23 && bb < Pow2(bk)
    && BitsOf(bb, bk) + BytesToBits(input[inptr..]) == BytesToBits(input)[8 * inptr - bk..]
  }

  // the bits not consumed yet, buffered ones first
  ghost function Unread(input: seq<Byte>, inptr: nat, bb: nat, bk: nat): (s: seq<Bit>)
    requires InSync(input, inptr, bb, bk)
  {
    BitsOf(bb, bk) + BytesToBits(input[inptr..])
  }

  class BitReader {
    const input: seq<Byte>
    var inptr: nat
    var bb: nat
    var bk: nat

    ghost predicate Valid()
      reads this
    {
      InSync(input, inptr, bb, bk)
    }

    // less than two bytes are buffered between symbols
    ghost predicate Calm()
      reads this
    {
      Valid() && bk <= 15
    }

    ghost function Rest(): (s: seq<Bit>)
      reads this
      requires Valid()
    {
      Unread(input, inptr, bb, bk)
    }

    constructor (data: seq<Byte>)
      ensures Valid() && input == data && bk == 0 && inptr == 0
      ensures Rest() == BytesToBits(data)
    {
      input, inptr, bb, bk := data, 0, 0, 0;
      new;
      assert input[0..] == data;
    }

    // the next bit is the first of the next byte
    method Reset()
      requires inptr <= |input|
      modifies this`bb, this`bk
      ensures Valid() && bk == 0 && Rest() == BytesToBits(input[inptr..])
    {
      BytesAt(input, inptr);
      bb, bk := 0, 0;
    }

    // fails where get_byte would run into the end of the input
    method NeedBits(n: nat) returns (ok: bool)
      requires Valid() && n <= 16
      modifies this
      ensures Valid() && Rest() == old(Rest())
      ensures ok <==> n <= |old(Rest())|
      ensures if ok then bk >= n && (bk == old(bk) || bk < n + 8) else bk < n
    {
      hide BitsOf, BytesToBits, Or, Shl, Pow2;
      while bk < n
        invariant Valid() && Rest() == old(Rest())
        invariant bk == old(bk) || bk < n + 8
        decreases n - bk
      {
        if inptr == |input| {
          return false;
        }
        var c := input[inptr];
        TakeByte(bb, bk, c, input[inptr..]);
        assert input[inptr..][1..] == input[inptr + 1..];
        assert 8 * (inptr + 1) - (bk + 8) == 8 * inptr - bk;
        bb := Or(bb, Shl(c, bk));
        inptr := inptr + 1;
        bk := bk + 8;
      }
      ok := true;
    }

    // b & mask_bits[n]
    function Peek(n: nat): (v: nat)
      reads this
      requires Valid() && n <= bk
      ensures v == Val(Rest()[..n])
      ensures v < Pow2(n)
    {
      PeekLemma(bb, bk, n);
      assert Rest()[..n] == BitsOf(bb, bk)[..n];
      AndMask(bb, n);
      And(bb, Pow2(n) - 1)
    }

    method DumpBits(n: nat)
      requires Valid() && n <= bk
      modifies this`bb, this`bk
      ensures Valid() && bk == old(bk) - n
      ensures Rest() == old(Rest())[n..]
    {
      hide BitsOf, BytesToBits, Shr, Pow2;
      PeekLemma(bb, bk, n);
      ghost var all, pos := BytesToBits(input), 8 * inptr - bk;
      assert all[pos..][n..] == all[pos + n..];
      bb := Shr(bb, n);
      bk := bk - n;
      assert old(Rest())[n..] == old(BitsOf(bb, bk))[n..] + BytesToBits(input[inptr..]);
    }

    // NEEDBITS, take the value, DUMPBITS
    method TakeBits(n: nat) returns (ok: bool, v: nat)
      requires Valid() && n <= 16
      modifies this
      ensures Valid() && (ok <==> n <= |old(Rest())|) && (old(bk) <= 15 ==> bk <= 15)
      ensures ok ==> v == Val(old(Rest())[..n]) && v < Pow2(n)
      ensures Rest() == if ok then old(Rest())[n..] else old(Rest())
    {
      hide Val, BitsOf, BytesToBits, Pow2;
      v := 0;
      ok := NeedBits(n);
      if ok {
        v := Peek(n);
        DumpBits(n);
      }
    }

    // drop the rest of the current byte
    method ToByte()
      requires Valid()
      modifies this`bb, this`bk
      ensures Valid() && bk % 8 == 0 && bk <= old(bk)
      ensures Rest() == old(Rest())[|old(Rest())| % 8..]
    {
      hide BitsOf, BytesToBits, Pow2;
      var n := bk % 8;
      assert |Rest()| == bk + 8 * (|input| - inptr);
      assert |Rest()| % 8 == n;
      DumpBits(n);
    }

    // return whole bytes of lookahead to the input; the bit buffer is void after this
    method GiveBack()
      requires Valid()
      modifies this`bk, this`inptr
      ensures inptr <= |input| && bk < 8 && inptr == old(inptr) - old(bk) / 8
      ensures BytesToBits(input[inptr..]) == old(Rest())[|old(Rest())| % 8..]
    {
      hide BitsOf, BytesToBits, Pow2;
      ghost var pos := 8 * inptr - bk;
      ByteAfter(input, inptr, bb, bk);
      while bk >= 8
        invariant inptr <= |input| && bk <= 8 * inptr && 8 * inptr - bk == pos
      {
        bk := bk - 8;
        inptr := inptr - 1;
      }
      assert inptr == old(inptr) - old(bk) / 8;
    }
  }

  // the first byte boundary among the unread bits
  lemma ByteAfter(input: seq<Byte>, inptr: nat, bb: nat, bk: nat)
    requires InSync(input, inptr, bb, bk)
    ensures var s := Unread(input, inptr, bb, bk);
            inptr >= bk / 8 && |s| % 8 == bk % 8 && s[|s| % 8..] == BytesToBits(input[inptr - bk / 8..])
  {
    hide BitsOf, BytesToBits, Pow2;
    var i := inptr - bk / 8;
    BytesAt(input, i);
    DropDrop(BytesToBits(input), 8 * inptr - bk, bk % 8);
    assert |Unread(input, inptr, bb, bk)| == bk + 8 * (|input| - inptr);
  }

  lemma DropDrop(s: seq<Bit>, a: nat, b: nat)
    requires a + b <= |s|
    ensures s[a..][b..] == s[a + b..]
  {
  }

  lemma BytesAt(input: seq<Byte>, i: nat)
    requires i <= |input|
    ensures BytesToBits(input[i..]) == BytesToBits(input)[8 * i..]
  {
    hide *;
    var a, b := input[..i], input[i..];
    BytesAppend(a, b);
    assert input == a + b;
    TailOf(BytesToBits(a), BytesToBits(b));
  }

  lemma TailOf(a: seq<Bit>, b: seq<Bit>)
    ensures (a + b)[|a|..] == b
  {
  }

  lemma TakeByte(bb: nat, bk: nat, c: Byte, rest: seq<Byte>)
    requires bb < Pow2(bk) && rest != [] && rest[0] == c
    ensures Or(bb, Shl(c, bk)) < Pow2(bk + 8)
    ensures BitsOf(Or(bb, Shl(c, bk)), bk + 8) + BytesToBits(rest[1..]) == BitsOf(bb, bk) + BytesToBits(rest)
  {
    hide BitsOf, Or, Shl;
    Pow2Eight();
    PackFit(bb, bk, c, 8);
    BytesFirst(rest);
    hide *;
    Assoc(BitsOf(bb, bk), BitsOf(c, 8), BytesToBits(rest[1..]));
  }

  lemma BytesFirst(rest: seq<Byte>)
    requires rest != []
    ensures BytesToBits(rest) == BitsOf(rest[0], 8) + BytesToBits(rest[1..])
  {
    hide BitsOf;
  }

  lemma PeekLemma(bb: nat, bk: nat, n: nat)
    requires n <= bk && bb < Pow2(bk)
    ensures BitsOf(bb, bk)[..n] == BitsOf(bb, n)
    ensures BitsOf(bb, bk)[n..] == BitsOf(Shr(bb, n), bk - n)
    ensures Shr(bb, n) < Pow2(bk - n)
    ensures Val(BitsOf(bb, n)) == bb % Pow2(n)
  {
    BitsSplit(bb, n, bk - n);
    ShrDiv(bb, n);
    DivLt(bb, n, bk - n);
    ValBits(bb, n);
  }
}
