/**
 Streams that section 3.2.7 of RFC 1951 rules out and on which inflate does not
 behave: after a code set without codes it reads through a null pointer, and after a
 set with a single code it may take a symbol from unset memory.
 */
module Refusals {
  import opened Bits
  import opened Canonical
  import opened Symbols
  import opened BlockData
  import opened CodeLengths
  import opened Stream
  import opened HuftBuild
  import opened InflateBlocks
  import opened InflateData
  import opened BitIO
  import opened Window
  import opened Huft
  import HuftTables

  // a last block with 257 and 1 code lengths to come, and four lengths of the code length code
  function Front(vals: seq<nat>, tail: seq<Bit>): (s: seq<Bit>) {
    [1, 0, 1] + BitsOf(0, 14) + ValsBits(vals) + tail
  }

  ghost predicate Four(vals: seq<nat>) { |vals| == 4 && forall i :: 0 <= i < 4 ==> vals[i] < 8 }

  lemma NoBits(n: nat)
    ensures Val(BitsOf(0, n)) == 0
  {
    ValBits(0, n);
  }

  lemma Fields(vals: seq<nat>, tail: seq<Bit>)
    requires Four(vals)
    ensures var s := Front(vals, tail);
            && |s| >= 29 && s[0] == 1 && Val(s[1..3]) == DYN_TREES
            && var h := s[3..];
               && Val(h[..5]) == 0 && Val(h[5..10]) == 0 && Val(h[10..14]) == 0
               && h[14..] == ValsBits(vals) + tail
  {
    hide Val, ValsBits;
    var z, s := BitsOf(0, 14), Front(vals, tail);
    var h := s[3..];
    assert h == z + (ValsBits(vals) + tail);
    assert h[..5] == z[..5] && h[5..10] == z[5..10] && h[10..14] == z[10..14];
    Zeros14();
    assert s[1..3] == [0, 1];
    TwoBits();
  }

  lemma TwoBits()
    ensures Val([0, 1]) == DYN_TREES
  {
    assert [0, 1][1..] == [1] && [1][1..] == [];
  }

  lemma Zeros14()
    ensures var z := BitsOf(0, 14); Val(z[..5]) == 0 && Val(z[5..10]) == 0 && Val(z[10..14]) == 0
  {
    hide Val;
    BitsSplit(0, 5, 9);
    BitsSplit(0, 5, 4);
    var z := BitsOf(0, 14);
    assert z[..5] == BitsOf(0, 5) && z[5..10] == BitsOf(0, 9)[..5] && z[10..14] == BitsOf(0, 9)[5..];
    NoBits(5);
    NoBits(4);
  }

  lemma FrontRead(vals: seq<nat>, tail: seq<Bit>, out: seq<Byte>)
    requires Four(vals)
    ensures var s, bl := Front(vals, tail), Unordered(vals);
            && |s| >= 29
            && (DecodeLens(bl, tail, 258, []).None? || !Acceptable(bl) ==>
                DecodeBlock(s, out).None? && DecodeStream(s, out).None?)
            && (Stray(bl) ==> OddBlock(s)) && (AllZero(bl) ==> forall k :: NullBlock(s, k))
  {
    hide Val, ValsBits, DecodeLens, Unordered, Acceptable, Stray, AllZero, BitsOf, Front, ReadVals;
    Fields(vals, tail);
    ValsRoundTrip(vals, tail);
  }

  // no lengths at all
  lemma NullStreams(tail: seq<Bit>, out: seq<Byte>)
    ensures var s := Front([0, 0, 0, 0], tail); DecodeStream(s, out).None? && forall k :: NullStream(s, out, k)
  {
    hide DecodeLens, DecodeBlock, NullBlock, OddBlock, Front;
    var bl := Unordered([0, 0, 0, 0]);
    assert AllZero(bl);
    FrontRead([0, 0, 0, 0], tail, out);
    NoneZero(bl, tail);
  }

  lemma NoneZero(bl: seq<nat>, tail: seq<Bit>)
    requires AllZero(bl)
    ensures DecodeLens(bl, tail, 258, []).None?
  {
    hide DecodeSym;
    ZeroSym(bl, tail);
  }

  // a single code of one bit for symbol 16, and the other bit
  lemma OddStreams(tail: seq<Bit>, out: seq<Byte>)
    ensures var s := Front([1, 0, 0, 0], [1] + tail); DecodeStream(s, out).None? && OddStream(s, out)
  {
    hide DecodeLens, DecodeBlock, NullBlock, OddBlock, Front, Stray;
    var bl := Unordered([1, 0, 0, 0]);
    Only16(bl);
    FrontRead([1, 0, 0, 0], [1] + tail, out);
    NoneFor(bl, tail);
  }

  lemma Only16(bl: seq<nat>)
    requires |bl| == BL_CODES && forall i :: 0 <= i < BL_CODES ==> bl[i] == if i == 16 then 1 else 0
    ensures Stray(bl)
  {
    CountRun(bl, 0, 16, 0, 1);
    CountRun(bl, 16, 17, 1, 1);
    CountRun(bl, 17, 19, 0, 1);
    assert CountTo(bl, 0, 1) == 0;
  }

  lemma NoneFor(bl: seq<nat>, tail: seq<Bit>)
    requires |bl| == BL_CODES && forall i :: 0 <= i < BL_CODES ==> bl[i] == if i == 16 then 1 else 0
    ensures DecodeLens(bl, [1] + tail, 258, []).None?
  {
    hide DecodeSym;
    var s := [1] + tail;
    if DecodeSym(bl, s).Some? {
      DecodeSound(bl, s);
      Code16(bl, DecodeSym(bl, s).value.0, s);
    }
  }

  // the only code starts with a zero bit
  lemma Code16(bl: seq<nat>, sym: nat, s: seq<Bit>)
    requires |bl| == BL_CODES && forall i :: 0 <= i < BL_CODES ==> bl[i] == if i == 16 then 1 else 0
    requires sym < BL_CODES && bl[sym] >= 1 && Codeword(bl, sym) <= s
    ensures s != [] && s[0] == 0
  {
    CountRun(bl, 0, 16, 0, 1);
    assert CountTo(bl, 0, 1) == 0;
    assert Kraft(Counts(bl), 0) == 0;
    assert Code(bl, 16) == 0;
    assert CodeBits(0, 1) == [0];
    assert Codeword(bl, sym)[0] == s[0];
  }

  // --- What the program does ---

  // a file that starts with these four bytes makes it read through a null pointer
  method NullFile(more: seq<Byte>, win: Slide) returns (code: nat)
    requires win.Valid() && win.wp == 0 && win.written == []
    modifies win, win.slide, win.sum
    ensures code == FAULT
  {
    hide NullStream, BytesToBits, Front;
    var bits := new BitReader([5, 0, 0, 0] + more);
    NullBytes(more);
    NullStreams([0, 0, 0] + BytesToBits(more), win.before);
    assert bits.input[0..] == [5, 0, 0, 0] + more;
    code := Inflate(bits, win);
  }

  function Zeros(n: nat): (s: seq<Bit>) { seq(n, _ => 0) }

  lemma {:induction false} ZeroBits(n: nat)
    ensures BitsOf(0, n) == Zeros(n)
    decreases n
  {
    if n > 0 {
      ZeroBits(n - 1);
      assert BitsOf(0, n) == [0] + BitsOf(0, n - 1);
    }
  }

  lemma {:induction false} ZeroVals(vals: seq<nat>)
    requires forall i :: 0 <= i < |vals| ==> vals[i] == 0
    ensures ValsBits(vals) == Zeros(3 * |vals|)
  {
    if vals != [] {
      ZeroVals(vals[1..]);
      ZeroBits(3);
    }
  }

  lemma {:induction false} ZeroBytes(s: seq<Byte>)
    requires forall i :: 0 <= i < |s| ==> s[i] == 0
    ensures BytesToBits(s) == Zeros(8 * |s|)
  {
    if s != [] {
      ZeroBytes(s[1..]);
      ZeroBits(8);
    }
  }

  lemma FiveBits()
    ensures ByteBits(5) == [1, 0, 1] + Zeros(5)
  {
    ZeroBits(5);
    assert BitsOf(5, 8) == [1] + BitsOf(2, 7) && BitsOf(2, 7) == [0] + BitsOf(1, 6) &&
        BitsOf(1, 6) == [1] + BitsOf(0, 5);
  }

  lemma NullBytes(more: seq<Byte>)
    ensures BytesToBits([5, 0, 0, 0] + more) == Front([0, 0, 0, 0], [0, 0, 0] + BytesToBits(more))
  {
    hide BytesToBits, BitsOf, ValsBits;
    var zs: seq<Byte> := [0, 0, 0];
    assert [5, 0, 0, 0] + more == [5] + (zs + more);
    BytesAppend([5], zs + more);
    BytesAppend(zs, more);
    OneByteBits(5);
    FiveBits();
    ZeroBytes(zs);
    ZeroBits(14);
    ZeroVals([0, 0, 0, 0]);
    assert [0, 0, 0] == Zeros(3);
    assert Zeros(5) + Zeros(24) == Zeros(29) == Zeros(14) + Zeros(12) + Zeros(3);
    Joined([1, 0, 1], BytesToBits(more));
  }

  lemma OneByteBits(b: Byte)
    ensures BytesToBits([b]) == ByteBits(b)
  {
    assert [b][1..] == [];
  }

  lemma Joined(a: seq<Bit>, m: seq<Bit>)
    ensures a + Zeros(5) + (Zeros(24) + m) == a + Zeros(14) + Zeros(12) + (Zeros(3) + m)
  {
    var l, r := a + Zeros(5) + (Zeros(24) + m), a + Zeros(14) + Zeros(12) + (Zeros(3) + m);
    assert |l| == |r|;
    forall i | 0 <= i < |l| ensures l[i] == r[i] { }
  }

  // after the code of OddStreams the symbol is whatever memory held
  method StraySymbol(v0: seq<nat>, alloc: (nat, nat) -> Huft) returns (code: nat, tables: seq<seq<Huft>>, l: nat)
    requires |v0| == BL_CODES && v0[1] < BL_CODES
    ensures code == OK
    ensures forall s: seq<Bit> :: |s| >= BMAX + l && s[0] == 1 ==> Walk(tables, 0, l, s) == Some(Found(16, v0[1], 1))
  {
    hide Oversubscribed, Exact, RoomyLens, Decodes, Sane, Known, Refuses, Regular, Walk, CountTo;
    var bl := Unordered([1, 0, 0, 0]);
    Only16(bl);
    assert StrayEntry(BL_CODES, [], [], v0[1]) == Some(Found(16, v0[1], 1));
    code, tables, l := Build(bl, BL_CODES, [], [], 7, v0, alloc);
  }

  // lengths 1, 2, 3, 3 in tables of one bit: the first sub-table gets two
  method WideTable() returns (j: nat)
    ensures Counts([1, 2, 3, 3])[..4] == [0, 1, 1, 2] && j == 2
  {
    var c := [0, 1, 1, 2];
    var b := [1, 2, 3, 3];
    assert c[1] == c[2] == 1;
    assert Pow2(2) == 4;
    assert Counts(b)[..4] == c by {
      forall k | 0 <= k < 4 ensures Counts(b)[k] == c[k] {
        CountShort(b, k);
      }
    }
    j := HuftTables.TableBits(c, 2, 0, 1, 1, 3, 2);
  }

  lemma CountShort(b: seq<nat>, k: nat)
    requires b == [1, 2, 3, 3] && k < 4
    ensures CountTo(b, 4, k) == if k == 0 then 0 else if k == 3 then 2 else 1
  {
    assert CountTo(b, 2, k) == (if k == 1 then 1 else 0) + if k == 2 then 1 else 0;
  }

  // codes of two bits for 0 and 1, of one bit for the end of the block
  function Ending(): (ll: seq<nat>)
    ensures |ll| == 257 && forall i :: 0 <= i < 257 ==> ll[i] == if i < 2 then 2 else if i < 256 then 0 else 1
  {
    seq(257, i => if i < 2 then 2 else if i < 256 then 0 else 1)
  }

  lemma EndingCounts(k: nat)
    requires k <= BMAX
    ensures Counts(Ending())[k] == if k == 0 then 254 else if k == 1 then 1 else if k == 2 then 2 else 0
  {
    hide CountTo;
    var ll := Ending();
    CountRun(ll, 0, 2, 2, k);
    CountRun(ll, 2, 256, 0, k);
    CountRun(ll, 256, 257, 1, k);
    CountNone(ll, k);
  }

  lemma {:induction false} EndingKraft(n: nat)
    requires n <= MAX_BITS
    ensures Kraft(Counts(Ending()), n) == if n == 0 then 0 else if n == 1 then 1 else Pow2(n)
    decreases n
  {
    hide Kraft, Counts, Ending;
    if n > 0 {
      EndingKraft(n - 1);
      EndingCounts(n);
      assert Pow2(n) == 2 * Pow2(n - 1) && Pow2(2) == 4;
    }
    KraftStep(Counts(Ending()), if n > 0 then n else 1);
  }

  lemma EndingCode()
    ensures Complete(Ending()) && Codeword(Ending(), END_BLOCK) == [0]
  {
    hide Kraft, CountTo, Counts;
    var ll := Ending();
    EndingKraft(MAX_BITS);
    EndingKraft(0);
    CountRun(ll, 0, 2, 2, 1);
    CountRun(ll, 2, 256, 0, 1);
    CountNone(ll, 1);
    assert Code(ll, END_BLOCK) == 0;
    assert CodeBits(0, 1) == [0];
  }

  lemma EndingDecodes(out: seq<Byte>)
    ensures DecodeTokens(Ending(), [0], [0], out) == Some((out, []))
  {
    hide Ending, DecodeSym, Codeword, Complete;
    EndingCode();
    EndingDecodable();
    assert Ending()[END_BLOCK] == 1;
    DecodeCode(Ending(), END_BLOCK, [0]);
  }

  lemma EndingDecodable()
    requires Complete(Ending())
    ensures Decodable(Ending())
  {
  }

  // a block whose last bit is the end of the block, and of the input, is refused
  method EndRefused(win: Slide) returns (code: nat)
    requires win.Valid()
    modifies win, win.slide, win.sum
    ensures code != OK && DecodeTokens(Ending(), [0], [0], old(win.All())) == Some((old(win.All()), []))
  {
    hide Ending, DecodeTokens, Complete, Loose, Tight, Stray, InSync, Unread, Acceptable, ExtrasOk, CPLENS, CPLEXT,
        CPDIST,
        CPDEXT, FirstLength, Ring, Flat;
    EndingDecodes(win.All());
    EndingBuilt();
    var bits := LastBit();
    ExtrasFine();
    var tl, td, bl, bd;
    code, tl, bl := BuildFor(Ending(), 257, CPLENS, CPLEXT, LBITS);
    code, td, bd := BuildFor([0], 0, CPDIST, CPDEXT, DBITS);
    NoTables(tl, bl, Ending(), 257, CPLENS, CPLEXT);
    code := InflateCodes(bits, win, tl, td, bl, bd, Ending(), [0]);
  }

  lemma EndingBuilt()
    ensures LensOk(Ending()) && Acceptable(Ending()) && !AllZero(Ending()) && Ending()[0] == 2
    ensures Acceptable([0]) && LensOk([0])
  {
    hide CountTo, Kraft;
    EndingCode();
    assert Ending()[0] == 2;
  }

  // input of which one bit is left
  method LastBit() returns (bits: BitReader)
    ensures fresh(bits) && bits.Calm() && bits.Rest() == [0]
  {
    hide BytesToBits;
    bits := new BitReader([0]);
    OneByteBits(0);
    ZeroBits(8);
    var ok, v := bits.TakeBits(7);
  }
}
