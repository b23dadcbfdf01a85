/**
 The compressed format in literal bits and bytes: what sections 3.2.3 to 3.2.7 of
 RFC 1951 write down is what the reference decoder reads, and the program with it.
 */
module Wire {
  import opened Bits
  import opened BitIO
  import opened Canonical
  import opened Lz
  import opened Symbols
  import opened BlockData
  import opened CodeLengths
  import opened Stream
  import opened HuftBuild
  import opened InflateData
  import opened InflateBlocks
  import opened Window

  // --- Stored blocks ---

  lemma OneBits()
    ensures ByteBits(1) == [1, 0, 0] + BitsOf(0, 5)
  {
    hide BitsOf;
    FirstBit(1, 8);
    FirstBit(0, 7);
    FirstBit(0, 6);
  }

  lemma FirstBit(v: nat, n: nat)
    requires n > 0
    ensures BitsOf(v, n) == [v % 2] + BitsOf(v / 2, n - 1)
  {
  }

  // the two bytes of a number
  lemma ShortIs(n: nat)
    requires n < 0x10000
    ensures BytesToBits([n % 256, n / 256]) == BitsOf(n, 16)
  {
    hide BitsOf, BytesToBits;
    ShortBits([], n);
    assert [] + [n % 256, n / 256] == [n % 256, n / 256];
    NoBytes();
    assert [] + BitsOf(n, 16) == BitsOf(n, 16);
  }

  lemma NoBytes()
    ensures BytesToBits([]) == []
  {
  }

  // the last block, stored: its bytes as they are after the length and its complement
  lemma StoredBytes(data: seq<Byte>, more: seq<Byte>, out: seq<Byte>)
    requires |data| < 65536
    ensures var n := |data|;
            DecodeStream(BytesToBits([1, n % 256, n / 256, 255 - n % 256, 255 - n / 256] + data + more), out)
            == Some((out + data, BytesToBits(more)))
  {
    hide DecodeBlock, BitsOf, BytesToBits, StoredBits, Val;
    var n := |data|;
    var file := [1, n % 256, n / 256, 255 - n % 256, 255 - n / 256] + data + more;
    StoredFront(data, more);
    StoredRead(data, BytesToBits(more), out);
  }

  lemma StoredFront(data: seq<Byte>, more: seq<Byte>)
    requires |data| < 65536
    ensures var n := |data|;
            BytesToBits([1, n % 256, n / 256, 255 - n % 256, 255 - n / 256] + data + more)
            == [1, 0, 0] + (StoredBits(data, 3) + BytesToBits(more))
  {
    hide BitsOf, BytesToBits;
    var n := |data|;
    var m := 0xffff - n;
    var one, len, com: seq<Byte> := [1], [n % 256, n / 256], [m % 256, m / 256];
    assert m % 256 == 255 - n % 256 && m / 256 == 255 - n / 256;
    assert [1, n % 256, n / 256, 255 - n % 256, 255 - n / 256] + data + more == one + (len + (com + (data + more)));
    BytesAppend(one, len + (com + (data + more)));
    BytesAppend(len, com + (data + more));
    BytesAppend(com, data + more);
    BytesAppend(data, more);
    ShortIs(n);
    ShortIs(m);
    OneByte(1);
    OneBits();
    Six([1, 0, 0], BitsOf(0, 5), BitsOf(n, 16), BitsOf(m, 16), BytesToBits(data), BytesToBits(more));
  }

  lemma Six(a: seq<Bit>, b: seq<Bit>, c: seq<Bit>, d: seq<Bit>, e: seq<Bit>, f: seq<Bit>)
    ensures a + b + (c + (d + (e + f))) == a + (b + c + d + e + f)
  {
  }

  lemma StoredRead(data: seq<Byte>, rest: seq<Bit>, out: seq<Byte>)
    requires |data| < 65536 && |rest| % 8 == 0
    ensures DecodeStream([1, 0, 0] + (StoredBits(data, 3) + rest), out) == Some((out + data, rest))
  {
    hide BitsOf, BytesToBits, DecodeStored, StoredBits, DecodeTokens, DecodeDynamic;
    var body := StoredBits(data, 3) + rest;
    var s := [1, 0, 0] + body;
    assert s[1..3] == [0, 0] && s[3..] == body;
    assert Val([0, 0]) == 0;
    StoredSize(data);
    StoredRoundTrip(data, 3, rest, out);
  }

  lemma StoredSize(data: seq<Byte>)
    requires |data| < 65536
    ensures (3 + |StoredBits(data, 3)|) % 8 == 0
  {
    hide BitsOf, BytesToBits;
    assert PadLen(3) == 5;
    assert |StoredBits(data, 3)| == 5 + 32 + 8 * |data|;
  }

  // a length whose complement is wrong is refused
  lemma StoredRefused(a: Byte, b: Byte, c: Byte, d: Byte, more: seq<Byte>, out: seq<Byte>)
    requires a + c != 255 || b + d != 255
    ensures var s := BytesToBits([1, a, b, c, d] + more); DecodeStream(s, out).None? && !OddStream(s, out)
  {
    hide BytesToBits, BitsOf, DecodeStream, OddStream, DecodeStored, Val;
    var rest := BytesToBits([a, b, c, d] + more);
    assert [1, a, b, c, d] + more == [1] + ([a, b, c, d] + more);
    BytesAppend([1], [a, b, c, d] + more);
    OneByte(1);
    OneBits();
    Shorts(a, b, c, d, more);
    NotStored(rest, out);
    StoredOpens(BitsOf(0, 5), rest, out);
  }

  lemma NotStored(s: seq<Bit>, out: seq<Byte>)
    requires |s| >= 32 && Val(s[..16]) + Val(s[16..32]) != 0xffff
    ensures DecodeStored(s, out).None?
  {
    hide Val;
  }

  // the rest of the byte is left out
  lemma StoredOpens(pad: seq<Bit>, rest: seq<Bit>, out: seq<Byte>)
    requires |pad| == 5 && |rest| % 8 == 0
    ensures var s := [1, 0, 0] + pad + rest;
            DecodeStream(s, out) == DecodeStored(rest, out) && (DecodeStored(rest, out).None? ==> !OddStream(s, out))
  {
    hide DecodeTokens, DecodeDynamic, OddHeader, DecodeStored, FixedLL, FixedDL;
    var s := [1, 0, 0] + pad + rest;
    assert s[1..3] == [0, 0] && s[3..] == pad + rest && (pad + rest)[5..] == rest;
    assert Val([0, 0]) == 0;
  }

  lemma Shorts(a: Byte, b: Byte, c: Byte, d: Byte, more: seq<Byte>)
    ensures var s := BytesToBits([a, b, c, d] + more);
            |s| >= 32 && Val(s[..16]) == a + 256 * b && Val(s[16..32]) == c + 256 * d
  {
    hide BytesToBits, BitsOf, Val;
    var n: nat, m: nat := a + 256 * b, c + 256 * d;
    assert [a, b] == [n % 256, n / 256] && [c, d] == [m % 256, m / 256];
    assert [a, b, c, d] + more == [a, b] + ([c, d] + more);
    BytesAppend([a, b], [c, d] + more);
    BytesAppend([c, d], more);
    ShortIs(n);
    ShortIs(m);
    Pow2Sixteen();
    ValSmall(n, 16);
    ValSmall(m, 16);
    var s := BytesToBits([a, b, c, d] + more);
    assert s[..16] == BitsOf(n, 16) && s[16..32] == BitsOf(m, 16);
  }

  // --- Fixed codes ---

  // codes travel most significant bit first
  function Word5(c: nat): (s: seq<Bit>) { [c / 16 % 2, c / 8 % 2, c / 4 % 2, c / 2 % 2, c % 2] }

  function Word7(c: nat): (s: seq<Bit>) { [c / 64 % 2, c / 32 % 2] + Word5(c) }

  function Word8(c: nat): (s: seq<Bit>) { [c / 128 % 2] + Word7(c) }

  function Word9(c: nat): (s: seq<Bit>) { [c / 256 % 2] + Word8(c) }

  // the fixed code of a literal, of the end of the block and of a length
  function FixedWord(sym: nat): (s: seq<Bit>) {
    if sym < 144 then Word8(48 + sym)
    else if sym < 256 then Word9(400 + (sym - 144))
    else if sym < 280 then Word7(sym - 256)
    else Word8(192 + (sym - 280))
  }

  lemma WordsAre(c: nat)
    ensures Word5(c) == CodeBits(c, 5) && Word7(c) == CodeBits(c, 7) && Word8(c) == CodeBits(c, 8) &&
        Word9(c) == CodeBits(c, 9)
  {
    CodeFive(c);
    CodeMore(c, 5, c / 32 % 2);
    CodeMore(c, 6, c / 64 % 2);
    CodeMore(c, 7, c / 128 % 2);
    CodeMore(c, 8, c / 256 % 2);
    SmallPowers();
    hide CodeBits, Pow2;
    assert CodeBits(c, 6) == [c / 32 % 2] + Word5(c);
    assert CodeBits(c, 7) == Word7(c);
  }

  lemma CodeFive(c: nat)
    ensures CodeBits(c, 5) == Word5(c)
  {
    assert c / 2 / 2 == c / 4 && c / 4 / 2 == c / 8 && c / 8 / 2 == c / 16;
    assert CodeBits(c / 16, 1) == [c / 16 % 2] by { assert CodeBits(c / 32, 0) == []; }
    assert CodeBits(c / 8, 2) == CodeBits(c / 8 / 2, 1) + [c / 8 % 2];
    assert CodeBits(c / 4, 3) == CodeBits(c / 4 / 2, 2) + [c / 4 % 2];
    assert CodeBits(c / 2, 4) == CodeBits(c / 2 / 2, 3) + [c / 2 % 2];
  }

  // one more bit in front
  lemma {:induction false} CodeMore(c: nat, n: nat, b: Bit)
    requires b == c / Pow2(n) % 2
    ensures CodeBits(c, n + 1) == [b] + CodeBits(c, n)
    decreases n
  {
    if n > 0 {
      DivDiv(c, 1, n - 1);
      assert c / 2 / Pow2(n - 1) == c / Pow2(n);
      CodeMore(c / 2, n - 1, b);
    }
  }

  lemma FixedCodes(sym: nat)
    requires sym < 288
    ensures Codeword(FixedLL(), sym) == FixedWord(sym)
  {
    hide CodeBits, Kraft, Counts, CountTo, Word7, Word8, Word9;
    var ll, k := FixedLL(), FixedLen(sym);
    FixedKraft(k - 1);
    CountNone(ll, k);
    CountRun(ll, 0, if sym < 144 then sym else 144, 8, k);
    if sym >= 144 { CountRun(ll, 144, if sym < 256 then sym else 256, 9, k); }
    if sym >= 256 { CountRun(ll, 256, if sym < 280 then sym else 280, 7, k); }
    if sym >= 280 { CountRun(ll, 280, sym, 8, k); }
    WordsAre(Code(ll, sym));
  }

  lemma FixedDists(d: nat)
    requires d < 30
    ensures Codeword(FixedDL(), d) == Word5(d)
  {
    hide CodeBits, Kraft, Counts, CountTo, Word5;
    var dl := FixedDL();
    FixedKraft(4);
    CountNone(dl, 5);
    CountRun(dl, 0, d, 5, 5);
    WordsAre(d);
  }

  // a last block of the fixed codes starts with the bits 1, 1 and 0
  lemma FixedOpens(s: seq<Bit>, out: seq<Byte>)
    ensures DecodeStream([1, 1, 0] + s, out) == DecodeTokens(FixedLL(), FixedDL(), s, out)
  {
    hide DecodeTokens, DecodeStored, DecodeDynamic, FixedLL, FixedDL;
    var t := [1, 1, 0] + s;
    assert t[1..3] == [1, 0] && t[3..] == s;
    assert Val([1, 0]) == 1 by { assert [1, 0][1..] == [0] && [0][1..] == []; }
  }

  function FixedWords(data: seq<Byte>): (s: seq<Bit>) {
    if data == [] then [] else FixedWord(data[0]) + FixedWords(data[1..])
  }

  lemma FixedLiteral(b: Byte, s: seq<Bit>, out: seq<Byte>)
    ensures DecodeTokens(FixedLL(), FixedDL(), FixedWord(b) + s, out) ==
        DecodeTokens(FixedLL(), FixedDL(), s, out + [b])
  {
    hide DecodeTokens, FixedWord, Codeword, Decodable;
    FixedComplete();
    FixedCodes(b);
    LiteralStep(FixedLL(), FixedDL(), b, s, out);
  }

  // any bytes as literals
  lemma {:induction false} FixedLiterals(data: seq<Byte>, s: seq<Bit>, out: seq<Byte>)
    ensures DecodeTokens(FixedLL(), FixedDL(), FixedWords(data) + s, out) ==
        DecodeTokens(FixedLL(), FixedDL(), s, out + data)
    decreases |data|
  {
    hide DecodeTokens, FixedWord, FixedLL, FixedDL;
    if data == [] {
      assert FixedWords(data) + s == s && out + data == out;
    } else {
      var b, rest := data[0], FixedWords(data[1..]) + s;
      assert FixedWords(data) + s == FixedWord(b) + rest;
      FixedLiteral(b, rest, out);
      FixedLiterals(data[1..], s, out + [b]);
      assert out + [b] + data[1..] == out + data;
    }
  }

  // seven zeros end the block
  lemma FixedEnds(s: seq<Bit>, out: seq<Byte>)
    ensures DecodeTokens(FixedLL(), FixedDL(), [0, 0, 0, 0, 0, 0, 0] + s, out) == Some((out, s))
  {
    hide DecodeTokens, Codeword, Decodable, FixedWord;
    FixedComplete();
    FixedCodes(256);
    EndWord();
    EndStep(FixedLL(), FixedDL(), s, out);
  }

  lemma EndWord()
    ensures FixedWord(256) == [0, 0, 0, 0, 0, 0, 0]
  {
  }

  lemma FixedBytes(data: seq<Byte>, s: seq<Bit>, out: seq<Byte>)
    ensures DecodeStream([1, 1, 0] + FixedWords(data) + [0, 0, 0, 0, 0, 0, 0] + s, out) == Some((out + data, s))
  {
    hide DecodeStream, DecodeTokens, FixedWords;
    var rest := [0, 0, 0, 0, 0, 0, 0] + s;
    assert [1, 1, 0] + FixedWords(data) + [0, 0, 0, 0, 0, 0, 0] + s == [1, 1, 0] + (FixedWords(data) + rest);
    FixedOpens(FixedWords(data) + rest, out);
    FixedLiterals(data, rest, out);
    FixedEnds(s, out + data);
  }

  // --- Matches ---

  // the least length of length code 257 + c and its number of extra bits
  function LenBase(c: nat): (n: nat) {
    if c < 8 then 3 + c else if c < 28 then 3 + (4 + c % 4) * Pow2(c / 4 - 1) else 258
  }

  function LenWidth(c: nat): (n: nat) { if c < 8 || c == 28 then 0 else c / 4 - 1 }

  // the least distance of distance code d and its number of extra bits
  function DistBase(d: nat): (n: nat) { if d < 4 then 1 + d else 1 + (2 + d % 2) * Pow2(d / 2 - 1) }

  function DistWidth(d: nat): (n: nat) { if d < 4 then 0 else d / 2 - 1 }

  lemma LengthTable(c: nat)
    requires c < 29
    ensures CPLENS[c] == LenBase(c) && CPLEXT[c] == LenWidth(c)
  {
    hide CPLENS, CPLEXT;
    LengthWidth(c);
    LengthBase(c);
  }

  lemma LengthWidth(c: nat)
    requires c < 29
    ensures |CPLENS| == |CPLEXT| == 31 && CPLEXT[c] == LenWidth(c)
  {
  }

  // each code starts where the one before ends
  lemma {:induction false} LengthBase(c: nat)
    requires c < 29
    ensures |CPLENS| == 31 && CPLENS[c] == LenBase(c)
    decreases c
  {
    hide CPLENS, CPLEXT, Pow2, LenBase, LenWidth;
    LengthEnds();
    if 0 < c < 28 {
      LengthBase(c - 1);
      LengthWidth(c - 1);
      LenSteps(c - 1);
      NextLength(c - 1);
    }
  }

  lemma NextLength(c: nat)
    requires c < 27
    ensures LenBase(c + 1) == LenBase(c) + Pow2(LenWidth(c))
  {
    SmallPowers();
    hide Pow2;
    if c >= 8 {
      var p, k := Pow2(c / 4 - 1), c % 4;
      if {
        case k == 0 =>
        case k == 1 =>
        case k == 2 =>
        case k == 3 => Twice(c / 4 - 1);
      }
    }
  }

  lemma Twice(n: nat)
    ensures Pow2(n + 1) == 2 * Pow2(n)
  {
  }

  lemma LengthEnds()
    ensures |CPLENS| == 31 && CPLENS[0] == 3 == LenBase(0) && CPLENS[28] == 258 == LenBase(28)
  {
  }

  lemma DistanceTable(d: nat)
    requires d < 30
    ensures CPDIST[d] == DistBase(d) && CPDEXT[d] == DistWidth(d)
  {
    hide CPDIST, CPDEXT;
    DistanceWidth(d);
    DistanceBase(d);
  }

  lemma DistanceWidth(d: nat)
    requires d < 30
    ensures |CPDIST| == |CPDEXT| == 30 && CPDIST[0] == 1 == DistBase(0) && CPDEXT[d] == DistWidth(d)
  {
  }

  lemma {:induction false} DistanceBase(d: nat)
    requires d < 30
    ensures |CPDIST| == 30 && CPDIST[d] == DistBase(d)
    decreases d
  {
    hide CPDIST, CPDEXT, Pow2, DistBase, DistWidth;
    DistanceWidth(0);
    if d > 0 {
      DistanceBase(d - 1);
      DistanceWidth(d - 1);
      DistSteps(d - 1);
      NextDistance(d - 1);
    }
  }

  lemma NextDistance(d: nat)
    requires d < 29
    ensures DistBase(d + 1) == DistBase(d) + Pow2(DistWidth(d))
  {
    SmallPowers();
    hide Pow2;
    if d >= 4 {
      var p := Pow2(d / 2 - 1);
      if {
        case d % 2 == 0 => assert (d + 1) / 2 == d / 2 && (d + 1) % 2 == 1;
        case d % 2 == 1 =>
          assert (d + 1) / 2 == d / 2 + 1 && (d + 1) % 2 == 0;
          Twice(d / 2 - 1);
      }
    }
  }

  function MatchBits(c: nat, x: nat, d: nat, y: nat): (s: seq<Bit>) {
    FixedWord(257 + c) + BitsOf(x, LenWidth(c)) + Word5(d) + BitsOf(y, DistWidth(d))
  }

  // a length code, a distance code and their extra bits: the bytes dist back are copied, len of them
  lemma FixedMatch(c: nat, x: nat, d: nat, y: nat, s: seq<Bit>, out: seq<Byte>)
    requires c < 29 && x < Pow2(LenWidth(c)) && d < 30 && y < Pow2(DistWidth(d))
    ensures var len, dist := LenBase(c) + x, DistBase(d) + y;
            dist >= 1 &&
                DecodeTokens(FixedLL(), FixedDL(), MatchBits(c, x, d, y) + s, out) ==
                (if dist > |out| then None else DecodeTokens(FixedLL(), FixedDL(), s, CopyMatch(out, len, dist)))
  {
    hide DecodeTokens, FixedLL, FixedDL, FixedWord, Word5, BitsOf, Pow2, LenBase, LenWidth, DistBase, DistWidth, CPLENS,
        CPLEXT, DecodeSym, ReadExtra, ReadDist;
    var len, dist := LenBase(c) + x, DistBase(d) + y;
    var u := Word5(d) + (BitsOf(y, DistWidth(d)) + s);
    var v := BitsOf(x, LenWidth(c)) + u;
    var t := FixedWord(257 + c) + v;
    assert MatchBits(c, x, d, y) + s == t;
    LenSymbol(c, v);
    LengthTable(c);
    LengthWidth(c);
    ReadExtraBits(len, LenBase(c), LenWidth(c), u);
    DistRead(d, y, s);
    MaxDist(d, y);
    MatchRead(c, t, v, u, s, len, dist, out);
  }

  lemma LenSymbol(c: nat, v: seq<Bit>)
    requires c < 31
    ensures var t := FixedWord(257 + c) + v;
            DecodeSym(FixedLL(), t) == Some((257 + c, |FixedWord(257 + c)|)) && t[|FixedWord(257 + c)|..] == v
  {
    hide DecodeSym, Codeword, Decodable, FixedWord;
    FixedComplete();
    FixedCodes(257 + c);
    DecodeFront(FixedLL(), 257 + c, v);
  }

  // o is out followed by len bytes, each the one dist before it
  ghost predicate Copies(out: seq<Byte>, len: nat, dist: nat, o: seq<Byte>)
    requires 1 <= dist <= |out|
  {
    out <= o && |o| == |out| + len && forall i :: |out| <= i < |o| ==> o[i] == o[i - dist]
  }

  lemma CopyIs(out: seq<Byte>, len: nat, dist: nat)
    requires 1 <= dist <= |out|
    ensures Copies(out, len, dist, CopyMatch(out, len, dist))
  {
    forall i | |out| <= i < |out| + len
      ensures CopyMatch(out, len, dist)[i] == CopyMatch(out, len, dist)[i - dist]
    {
      CopyAt(out, len, dist, i);
    }
  }

  lemma DistRead(d: nat, y: nat, s: seq<Bit>)
    requires d < 30 && y < Pow2(DistWidth(d))
    ensures ReadDist(FixedDL(), Word5(d) + (BitsOf(y, DistWidth(d)) + s)) == Some((DistBase(d) + y, s))
  {
    hide Codeword, Decodable, Word5, BitsOf, Pow2, DistBase, DistWidth, DecodeSym, ReadExtra;
    var rest := BitsOf(y, DistWidth(d)) + s;
    FixedComplete();
    FixedDists(d);
    DecodeFront(FixedDL(), d, rest);
    DistanceTable(d);
    ReadExtraBits(DistBase(d) + y, CPDIST[d], CPDEXT[d], s);
  }

  lemma MaxDist(d: nat, y: nat)
    requires d < 30 && y < Pow2(DistWidth(d))
    ensures 1 <= DistBase(d) + y <= 32768
  {
    SmallPowers();
    hide Pow2;
    DistanceTable(d);
  }

  // the pieces of a match, put together
  lemma MatchRead(c: nat, t: seq<Bit>, v: seq<Bit>, u: seq<Bit>, s: seq<Bit>, len: nat, dist: nat, out: seq<Byte>)
    requires c < 29 && |v| <= |t| && v == t[|t| - |v|..] && DecodeSym(FixedLL(), t) == Some((257 + c, |t| - |v|))
    requires |CPLENS| == |CPLEXT| == 31 && ReadExtra(v, CPLENS[c], CPLEXT[c]) == Some((len, u))
    requires ReadDist(FixedDL(), u) == Some((dist, s)) && 1 <= dist <= 32768
    ensures DecodeTokens(FixedLL(), FixedDL(), t, out) ==
            if dist <= |out| then DecodeTokens(FixedLL(), FixedDL(), s, CopyMatch(out, len, dist)) else None
  {
    hide DecodeSym, ReadDist, ReadExtra, CopyMatch, CPLENS, CPLEXT, FixedLL, FixedDL, DecodeTokens, DecodeMatch;
    MatchParts(FixedDL(), c, v, u, s, len, dist, out);
    if dist <= |out| {
      MatchUnfold(FixedLL(), FixedDL(), t, out, 257 + c, |t| - |v|, CopyMatch(out, len, dist), s);
    } else {
      MatchFails(FixedLL(), FixedDL(), t, out, 257 + c, |t| - |v|);
    }
  }

  lemma MatchParts(dl: seq<nat>, c: nat, v: seq<Bit>, u: seq<Bit>, s: seq<Bit>, len: nat, dist: nat, out: seq<Byte>)
    requires c < 29 && |CPLENS| == |CPLEXT| == 31 && ReadExtra(v, CPLENS[c], CPLEXT[c]) == Some((len, u))
    requires ReadDist(dl, u) == Some((dist, s)) && 1 <= dist <= 32768
    ensures DecodeMatch(dl, v, c, out) == if dist <= |out| then Some((CopyMatch(out, len, dist), s)) else None
  {
    hide ReadDist, ReadExtra, CopyMatch, CPLENS, CPLEXT;
  }

  lemma MatchFails(ll: seq<nat>, dl: seq<nat>, s: seq<Bit>, out: seq<Byte>, sym: nat, n: nat)
    requires DecodeSym(ll, s) == Some((sym, n)) && sym > END_BLOCK && n <= |s|
    requires DecodeMatch(dl, s[n..], sym - LITERALS - 1, out).None?
    ensures DecodeTokens(ll, dl, s, out).None?
  {
    hide DecodeSym, DecodeMatch;
  }

  // the two length codes and the two distance codes that do not occur are refused
  lemma FixedUnused(sym: nat, c: nat, x: nat, d: nat, s: seq<Bit>, out: seq<Byte>)
    requires 286 <= sym < 288 && c < 29 && x < Pow2(LenWidth(c)) && 30 <= d < 32
    ensures DecodeTokens(FixedLL(), FixedDL(), FixedWord(sym) + s, out).None?
    ensures var t := FixedWord(257 + c) + (BitsOf(x, LenWidth(c)) + (Word5(d) + s));
            DecodeTokens(FixedLL(), FixedDL(), t, out).None?
  {
    hide DecodeTokens, FixedLL, FixedDL, FixedWord, Word5, BitsOf, Pow2, LenBase, LenWidth, CPLENS, CPLEXT, DecodeSym,
        ReadExtra, ReadDist, DecodeMatch;
    LenSymbol(sym - 257, s);
    NoLength(s, sym - 257, out);
    MatchFails(FixedLL(), FixedDL(), FixedWord(sym) + s, out, sym, |FixedWord(sym)|);
    var u := Word5(d) + s;
    var v := BitsOf(x, LenWidth(c)) + u;
    LenSymbol(c, v);
    LengthTable(c);
    LengthWidth(c);
    ReadExtraBits(LenBase(c) + x, LenBase(c), LenWidth(c), u);
    NoDistance(d, s);
    NoCopy(c, v, u, LenBase(c) + x, out);
    MatchFails(FixedLL(), FixedDL(), FixedWord(257 + c) + v, out, 257 + c, |FixedWord(257 + c)|);
  }

  lemma NoLength(s: seq<Bit>, c: nat, out: seq<Byte>)
    requires c >= 29
    ensures DecodeMatch(FixedDL(), s, c, out).None?
  {
  }

  lemma NoDistance(d: nat, s: seq<Bit>)
    requires 30 <= d < 32
    ensures ReadDist(FixedDL(), Word5(d) + s).None?
  {
    hide DecodeFrom, FixedDL, Word5, CodeBits, Msb;
    var t := Word5(d) + s;
    WordsAre(d);
    SmallPowers();
    MsbCode(d, 5);
    assert t[..5] == Word5(d) && t[..0] == [];
    NoHit(t, d, 0);
    NoBitsYet();
  }

  lemma NoBitsYet()
    ensures Msb([]) == 0
  {
  }

  // no code of the fixed distances is hit
  lemma {:induction false} NoHit(t: seq<Bit>, d: nat, k: nat)
    requires |t| >= 5 && Msb(t[..5]) == d >= 30 && k <= MAX_BITS && k <= |t|
    ensures DecodeFrom(FixedDL(), t, k, Msb(t[..k])).None?
    decreases MAX_BITS - k
  {
    hide Msb, FixedDL, Hits, Hit, DecodeFrom;
    if k == MAX_BITS || k == |t| {
      NoneLeft(FixedDL(), t, k, Msb(t[..k]));
    } else {
      DecodeStep(FixedDL(), t, k);
      NoHits(k + 1, Msb(t[..k + 1]));
      NoHit(t, d, k + 1);
    }
  }

  lemma NoneLeft(lens: seq<nat>, t: seq<Bit>, k: nat, c: nat)
    requires k <= MAX_BITS && (k == MAX_BITS || k >= |t|)
    ensures DecodeFrom(lens, t, k, c).None?
  {
  }

  lemma NoHits(k: nat, c: nat)
    requires 1 <= k <= MAX_BITS && (k == 5 ==> c >= 30)
    ensures !Hits(FixedDL(), k, c)
  {
    hide Kraft, Counts, FixedDL;
    FixedKraft(k);
    FixedKraft(k - 1);
    SmallPowers();
    if k > 5 { Twice(k - 6); }
  }

  lemma NoCopy(c: nat, v: seq<Bit>, u: seq<Bit>, len: nat, out: seq<Byte>)
    requires c < 29 && |CPLENS| == |CPLEXT| == 31 && ReadExtra(v, CPLENS[c], CPLEXT[c]) == Some((len, u))
    requires ReadDist(FixedDL(), u).None?
    ensures DecodeMatch(FixedDL(), v, c, out).None?
  {
    hide ReadDist, ReadExtra, FixedDL, CPLENS, CPLEXT;
  }

  // --- Dynamic codes ---

  lemma DynamicOpens(s: seq<Bit>, out: seq<Byte>)
    ensures DecodeStream([1, 0, 1] + s, out) == DecodeDynamic(s, out)
    ensures DecodeStream([1, 1, 1] + s, out).None?
  {
    hide DecodeTokens, DecodeStored, DecodeDynamic, FixedLL, FixedDL;
    var t, u := [1, 0, 1] + s, [1, 1, 1] + s;
    assert t[1..3] == [0, 1] && t[3..] == s && u[1..3] == [1, 1];
    assert Val([0, 1]) == 2 && Val([1, 1]) == 3 by {
      assert [0, 1][1..] == [1] && [1, 1][1..] == [1] && [1][1..] == [];
    }
  }

  // the lengths of the code length code, in the order in which they travel
  function Travelling(bl: seq<nat>): (vals: seq<nat>)
    requires |bl| == 19
  {
    [bl[16], bl[17], bl[18], bl[0], bl[8], bl[7], bl[9], bl[6], bl[10], bl[5], bl[11], bl[4], bl[12], bl[3], bl[13],
     bl[2], bl[14], bl[1], bl[15]]
  }

  lemma Arrived(bl: seq<nat>)
    requires |bl| == 19
    ensures Unordered(Travelling(bl)) == bl
  {
    hide Unordered;
    var vals := Travelling(bl);
    forall i | 0 <= i < 19 ensures Unordered(vals)[i] == bl[i] { ArrivedAt(bl, i); }
  }

  lemma ArrivedAt(bl: seq<nat>, i: nat)
    requires |bl| == 19 && i < 19
    ensures BL_RANK[i] < 19 && Travelling(bl)[BL_RANK[i]] == bl[i]
  {
  }

  // the numbers of codes, then the lengths of the code length code
  lemma DynamicHeader(nl: nat, nd: nat, bl: seq<nat>, s: seq<Bit>)
    requires 257 <= nl <= 286 && 1 <= nd <= 30 && |bl| == 19 && forall i :: 0 <= i < 19 ==> bl[i] < 8
    ensures var t := BitsOf(nl - 257, 5) + BitsOf(nd - 1, 5) + BitsOf(15, 4) + ValsBits(Travelling(bl)) + s;
            ReadHeader(t) == if !Acceptable(bl) then None
                             else
                               match DecodeLens(bl, s, nl + nd, [])
                               case None => None
                               case Some((lens, u)) =>
                                 if Acceptable(lens[..nl]) && Acceptable(lens[nl..]) then
                                   Some((lens[..nl], lens[nl..], u))
                                 else None
  {
    hide BitsOf, Val, ValsBits, ReadVals, Unordered, Acceptable, DecodeLens, Travelling;
    var vals := Travelling(bl);
    var t := BitsOf(nl - 257, 5) + BitsOf(nd - 1, 5) + BitsOf(15, 4) + ValsBits(vals) + s;
    TravelSmall(bl);
    assert t[..5] == BitsOf(nl - 257, 5) && t[5..10] == BitsOf(nd - 1, 5) && t[10..14] == BitsOf(15, 4);
    assert t[14..] == ValsBits(vals) + s && t[14..][57..] == s;
    SmallPowers();
    ValSmall(nl - 257, 5);
    ValSmall(nd - 1, 5);
    ValSmall(15, 4);
    ValsRoundTrip(vals, s);
    Arrived(bl);
  }

  lemma TravelSmall(bl: seq<nat>)
    requires |bl| == 19 && forall i :: 0 <= i < 19 ==> bl[i] < 8
    ensures |Travelling(bl)| == 19 && forall i :: 0 <= i < 19 ==> Travelling(bl)[i] < 8
  {
  }

  // more than 286 or 30 codes are refused
  lemma HeaderLimits(s: seq<Bit>)
    requires |s| >= 14 && (Val(s[..5]) > 29 || Val(s[5..10]) > 29)
    ensures ReadHeader(s).None?
  {
  }

  // symbols up to 15 are lengths; 16 repeats the last one 3 to 6 times, 17 and 18 stand for 3 to 10 and 11 to 138 zeros
  function RunWidth(sym: nat): (w: nat) { if sym < 16 then 0 else if sym == 16 then 2 else if sym == 17 then 3 else 7 }

  function RunValue(sym: nat, acc: seq<nat>): (v: nat) {
    if sym < 16 then sym else if sym == 16 && acc != [] then acc[|acc| - 1] else 0
  }

  function RunCount(sym: nat, x: nat): (k: nat) { if sym < 16 then 1 else if sym == 18 then 11 + x else 3 + x }

  lemma LengthSymbols(bl: seq<nat>, sym: nat, x: nat, s: seq<Bit>, n: nat, acc: seq<nat>)
    requires Decodable(bl) && |bl| == 19 && sym < 19 && bl[sym] >= 1 && |acc| < n && x < Pow2(RunWidth(sym))
    ensures DecodeLens(bl, Codeword(bl, sym) + BitsOf(x, RunWidth(sym)) + s, n, acc) ==
        if |acc| + RunCount(sym, x) > n then None
        else DecodeLens(bl, s, n, acc + Run(RunValue(sym, acc), RunCount(sym, x)))
  {
    assert bl[sym] <= MAX_BITS;
    hide Decodable, Codeword, BitsOf, ReadOp, DecodeLens, OpSym, OpExtra, OpOk, ApplyOp, OpLen, RunWidth, RunValue,
        RunCount;
    var op := OpFor(sym, x, acc);
    ReadOpBits(bl, op, s);
    LensStep(bl, OpBits(bl, op) + s, n, acc, op, s);
  }

  lemma OpFor(sym: nat, x: nat, acc: seq<nat>) returns (op: Op)
    requires sym < 19 && x < Pow2(RunWidth(sym))
    ensures OpOk(op) && OpSym(op) == sym && OpExtra(op) == (x, RunWidth(sym)) && OpLen(op) == RunCount(sym, x)
    ensures ApplyOp(acc, op) == acc + Run(RunValue(sym, acc), RunCount(sym, x))
  {
    SmallPowers();
    hide Pow2;
    op := if sym < 16 then Op.Len(sym) else if sym == 16 then Rep(3 + x) else if sym == 17 then Op.Zeros(3 + x)
          else ManyZeros(11 + x);
    assert sym < 16 ==> [sym] == Run(sym, 1);
  }

  lemma LensStep(bl: seq<nat>, t: seq<Bit>, n: nat, acc: seq<nat>, op: Op, s: seq<Bit>)
    requires |acc| < n && OpOk(op) && ReadOp(bl, t) == Some((op, s))
    ensures DecodeLens(bl, t, n, acc) ==
        if |acc| + OpLen(op) > n then None else DecodeLens(bl, s, n, ApplyOp(acc, op))
  {
    hide ReadOp, ApplyOp;
  }

  // --- What the program does ---

  // a stored block gives its bytes, and the input pointer is left behind it
  method StoredFile(data: seq<Byte>, more: seq<Byte>, win: Slide) returns (code: nat, left: seq<Byte>)
    requires |data| < 65536 && win.Valid() && win.wp == 0 && win.written == []
    modifies win, win.slide, win.sum
    ensures |more| >= 2 ==> code == OK && win.written == data && left == more
  {
    hide DecodeStream, BytesToBits, NullStream, OddStream, Summed;
    var n := |data|;
    var file := [1, n % 256, n / 256, 255 - n % 256, 255 - n / 256] + data + more;
    var bits := new BitReader(file);
    assert bits.input[0..] == file;
    StoredBytes(data, more, win.before);
    code := Inflate(bits, win);
    left := bits.input[bits.inptr..];
    if code == OK { LeftOver(win.before, data, win.written, left, more, []); }
  }

  // what is left after padding to a byte
  lemma LeftOver(before: seq<Byte>, data: seq<Byte>, written: seq<Byte>, left: seq<Byte>, more: seq<Byte>,
      pad: seq<Bit>)
    requires |pad| < 8
    ensures Inflated(Some((before + data, pad + BytesToBits(more))), before, written, left) ==>
        written == data && left == more
  {
    hide BytesToBits;
    var s := pad + BytesToBits(more);
    if Inflated(Some((before + data, s)), before, written, left) {
      assert |s| % 8 == |pad| && s[|pad|..] == BytesToBits(more);
      BytesInjective(left, more);
      assert written == (before + written)[|before|..] == (before + data)[|before|..] == data;
    }
  }

  // a stored block with a wrong complement is refused
  method BadFile(a: Byte, b: Byte, c: Byte, d: Byte, more: seq<Byte>, win: Slide) returns (code: nat)
    requires (a + c != 255 || b + d != 255) && win.Valid() && win.wp == 0 && win.written == []
    modifies win, win.slide, win.sum
    ensures code != OK
  {
    hide DecodeStream, BytesToBits, NullStream, OddStream, Summed;
    var bits := new BitReader([1, a, b, c, d] + more);
    assert bits.input[0..] == [1, a, b, c, d] + more;
    StoredRefused(a, b, c, d, more, win.before);
    code := Inflate(bits, win);
  }

  // a fixed block with the single byte 97
  method FixedFile(more: seq<Byte>, win: Slide) returns (code: nat, left: seq<Byte>)
    requires win.Valid() && win.wp == 0 && win.written == []
    modifies win, win.slide, win.sum
    ensures |more| >= 2 ==> code == OK && win.written == [97] && left == more
  {
    hide DecodeStream, BytesToBits, NullStream, OddStream, Summed, FixedWords;
    var file := [0x4b, 0x04, 0x00] + more;
    var bits := new BitReader(file);
    assert bits.input[0..] == file;
    FixedExample(more);
    FixedBytes([97], [0, 0, 0, 0, 0, 0] + BytesToBits(more), win.before);
    code := Inflate(bits, win);
    left := bits.input[bits.inptr..];
    if code == OK { LeftOver(win.before, [97], win.written, left, more, [0, 0, 0, 0, 0, 0]); }
  }

  lemma FixedExample(more: seq<Byte>)
    ensures BytesToBits([0x4b, 0x04, 0x00] + more) ==
        [1, 1, 0] + FixedWords([97]) + [0, 0, 0, 0, 0, 0, 0] + ([0, 0, 0, 0, 0, 0] + BytesToBits(more))
  {
    hide BytesToBits, BitsOf, FixedWords;
    var a, b, c: seq<Byte> := [0x4b], [0x04], [0x00];
    assert [0x4b, 0x04, 0x00] + more == a + (b + (c + more));
    BytesAppend(a, b + (c + more));
    BytesAppend(b, c + more);
    BytesAppend(c, more);
    OneByte(0x4b);
    OneByte(0x04);
    OneByte(0x00);
    EightBits(0x4b);
    EightBits(0x04);
    EightBits(0x00);
    Letter();
    ExampleBits(BytesToBits(more));
  }

  lemma ExampleBits(m: seq<Bit>)
    ensures [1, 1, 0, 1, 0, 0, 1, 0] + ([0, 0, 1, 0, 0, 0, 0, 0] + ([0, 0, 0, 0, 0, 0, 0, 0] + m)) ==
        [1, 1, 0] + [1, 0, 0, 1, 0, 0, 0, 1] + [0, 0, 0, 0, 0, 0, 0] + ([0, 0, 0, 0, 0, 0] + m)
  {
  }

  lemma Letter()
    ensures FixedWords([97]) == [1, 0, 0, 1, 0, 0, 0, 1]
  {
    assert [97][1..] == [];
    assert FixedWord(97) == [1, 0, 0, 1, 0, 0, 0, 1];
  }

  lemma EightBits(b: Byte)
    ensures ByteBits(b) == [b % 2, b / 2 % 2, b / 4 % 2, b / 8 % 2, b / 16 % 2, b / 32 % 2, b / 64 % 2, b / 128 % 2]
  {
    hide BitsOf;
    FirstBit(b, 8);
    FirstBit(b / 2, 7);
    FirstBit(b / 4, 6);
    FirstBit(b / 8, 5);
    FirstBit(b / 16, 4);
    FirstBit(b / 32, 3);
    FirstBit(b / 64, 2);
    FirstBit(b / 128, 1);
    NoneOf(b / 256);
    assert b / 2 / 2 == b / 4 && b / 4 / 2 == b / 8 && b / 8 / 2 == b / 16 && b / 16 / 2 == b / 32 &&
        b / 32 / 2 == b / 64 && b / 64 / 2 == b / 128 && b / 128 / 2 == b / 256;
  }

  lemma NoneOf(v: nat)
    ensures BitsOf(v, 0) == []
  {
  }
}
