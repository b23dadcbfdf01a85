/**
 compress_block: sending the buffered literals and matches with given trees.
 */
module BlockSend {
  import opened Bits
  import opened BitIO
  import opened Canonical
  import opened Lz
  import opened Symbols
  import opened BlockData
  import opened Stream
  import opened TreeMerge
  import opened TreeCodes
  import opened CodeRuns
  import opened CodeTables
  import opened TokenBuffer

  // the constant tables set up by ct_init
  class Tables {
    const lengthCode: array<nat>
    const baseLength: array<nat>
    const distCode: array<nat>
    const baseDist: array<nat>
    const ltree: Tree    // static_ltree
    const dtree: Tree    // static_dtree

    ghost predicate Valid()
      reads lengthCode, baseLength, distCode, baseDist, ltree.fc, ltree.dl, dtree.fc, dtree.dl
    {
      && LengthTables(lengthCode[..], baseLength[..]) && DistTables(distCode[..], baseDist[..])
      && ltree.fc != ltree.dl && dtree.fc != dtree.dl
      && HasCode(ltree.fc[..], ltree.dl[..], FixedLL()) && HasCode(dtree.fc[..], dtree.dl[..], FixedDL())
    }

    constructor ()
      ensures Valid() && fresh(lengthCode) && fresh(baseLength) && fresh(distCode) && fresh(baseDist)
      ensures fresh(ltree) && fresh(dtree) && fresh(ltree.fc) && fresh(ltree.dl) && fresh(dtree.fc) && fresh(dtree.dl)
    {
      hide LengthTables, DistTables, Coded;
      var lc, bl := LengthCodes();
      var dc, bd := DistCodes();
      var lt, dt := StaticTrees();
      lengthCode, baseLength, distCode, baseDist, ltree, dtree := lc, bl, dc, bd, lt, dt;
      new;
      assert lt.dl[..|FixedLL()|] == lt.dl[..] && dt.dl[..|FixedDL()|] == dt.dl[..];
    }
  }

  // the extra bits, if there are any
  method SendExtra(w: BitWriter, value: nat, extra: nat)
    requires w.Valid() && extra <= 13 && value < Pow2(extra)
    modifies w, w.outbuf
    ensures w.Valid() && w.Sent() == old(w.Sent()) + BitsOf(value, extra)
  {
    hide Packed, Pow2;
    if extra != 0 {
      w.SendBits(value, extra);
    } else {
      assert w.Sent() + [] == w.Sent();
    }
  }

  method SendLength(w: BitWriter, tab: Tables, fc: array<nat>, dl: array<nat>, lc: nat, ghost ll: seq<nat>,
      ghost len: nat)
    requires w.Valid() && tab.Valid() && CodeArrays(w, fc, dl) && (w.outbuf as object) != tab.lengthCode &&
        (w.outbuf as object) != tab.baseLength
    requires HasCode(fc[..], dl[..], ll) && LenUsable(ll, len) && lc == len - MIN_MATCH
    modifies w, w.outbuf
    ensures w.Valid() && w.Sent() == old(w.Sent()) + LenBits(ll, len)
  {
    hide Packed, Pow2, HasCode, Codeword, BitsOf, CPLENS, CPLEXT, EXTRA_LBITS, LenCode;
    var code := tab.lengthCode[lc];
    LenFacts(tab.lengthCode[..], tab.baseLength[..], len);
    HasCodeAt(fc[..], dl[..], ll, code + LITERALS + 1);
    SendCode(w, fc, dl, code + LITERALS + 1, ll);
    var extra := EXTRA_LBITS[code];
    var v := if extra != 0 then lc - tab.baseLength[code] else 0;
    SendExtra(w, v, extra);
    Assoc(old(w.Sent()), Codeword(ll, code + LITERALS + 1), LenExtra(len));
  }

  lemma LenFacts(lengthCode: seq<nat>, baseLength: seq<nat>, len: nat)
    requires LengthTables(lengthCode, baseLength) && MIN_MATCH <= len <= MAX_MATCH
    ensures |lengthCode| == 256 && |baseLength| == LENGTH_CODES == |EXTRA_LBITS|
    ensures var c := lengthCode[len - MIN_MATCH];
            && c == LenCode(len - MIN_MATCH) < LENGTH_CODES && EXTRA_LBITS[c] <= 5
            && (EXTRA_LBITS[c] != 0 ==> len - MIN_MATCH >= baseLength[c])
            && var v := if EXTRA_LBITS[c] != 0 then len - MIN_MATCH - baseLength[c] else 0;
               v < Pow2(EXTRA_LBITS[c]) && LenExtra(len) == BitsOf(v, EXTRA_LBITS[c])
  {
    hide Pow2, LenFrom;
    SameExtraBits();
    var c := LenCode(len - MIN_MATCH);
    assert CPLEXT[..LENGTH_CODES][c] == CPLEXT[c];
    ExtraBounds(c, 0);
    SmallPowers();
    if EXTRA_LBITS[c] == 0 { assert BitsOf(len - CPLENS[c], 0) == []; }
  }

  method SendDistance(w: BitWriter, tab: Tables, fc: array<nat>, dl: array<nat>, d: nat, ghost dlens: seq<nat>,
      ghost dist: nat)
    requires w.Valid() && tab.Valid() && CodeArrays(w, fc, dl) && (w.outbuf as object) != tab.distCode &&
        (w.outbuf as object) != tab.baseDist
    requires HasCode(fc[..], dl[..], dlens) && DistUsable(dlens, dist) && d == dist - 1
    modifies w, w.outbuf
    ensures w.Valid() && w.Sent() == old(w.Sent()) + DistBits(dlens, dist)
  {
    hide Packed, Pow2, HasCode, Codeword, BitsOf, CPDIST, CPDEXT, EXTRA_DBITS, DistCode;
    DistFacts(tab.distCode[..], tab.baseDist[..], dist);
    var code := if d < 256 then tab.distCode[d] else tab.distCode[256 + d / 128];
    assert code == DCode(tab.distCode[..], d);
    HasCodeAt(fc[..], dl[..], dlens, code);
    SendCode(w, fc, dl, code, dlens);
    var extra := EXTRA_DBITS[code];
    var v := if extra != 0 then d - tab.baseDist[code] else 0;
    SendExtra(w, v, extra);
    Assoc(old(w.Sent()), Codeword(dlens, code), DistExtra(dist));
  }

  lemma DistFacts(distCode: seq<nat>, baseDist: seq<nat>, dist: nat)
    requires DistTables(distCode, baseDist) && 1 <= dist <= WSIZE
    ensures |distCode| == 512 && |baseDist| == D_CODES == |EXTRA_DBITS|
    ensures var c := DCode(distCode, dist - 1);
            && c == DistCode(dist - 1) < D_CODES && EXTRA_DBITS[c] <= 13
            && (EXTRA_DBITS[c] != 0 ==> dist - 1 >= baseDist[c])
            && var v := if EXTRA_DBITS[c] != 0 then dist - 1 - baseDist[c] else 0;
               v < Pow2(EXTRA_DBITS[c]) && DistExtra(dist) == BitsOf(v, EXTRA_DBITS[c])
  {
    hide Pow2, DistFrom;
    SameExtraBits();
    var c := DistCode(dist - 1);
    ExtraBounds(0, c);
    SmallPowers();
    if EXTRA_DBITS[c] == 0 { assert BitsOf(dist - CPDIST[c], 0) == []; }
  }

  // everything compress_block reads, apart from the output buffer
  ghost predicate Separate(w: BitWriter, buf: Buffers, tab: Tables, lt: Tree, dt: Tree)
    reads buf
  {
    && buf.Apart() && CodeArrays(w, lt.fc, lt.dl) && CodeArrays(w, dt.fc, dt.dl)
    && (w.outbuf as object) != buf.lbuf && (w.outbuf as object) != buf.dbuf && (w.outbuf as object) != buf.flagBuf
    && (w.outbuf as object) != tab.lengthCode && (w.outbuf as object) != tab.baseLength
    && (w.outbuf as object) != tab.distCode && (w.outbuf as object) != tab.baseDist
    && (w.outbuf as object) != tab.ltree.fc && (w.outbuf as object) != tab.ltree.dl
    && (w.outbuf as object) != tab.dtree.fc && (w.outbuf as object) != tab.dtree.dl
  }

  // all flags are in flag_buf
  ghost predicate Saved(flagBuf: seq<nat>, ts: seq<Token>) {
    |flagBuf| == LIT_BUFSIZE / 8 && |ts| < LIT_BUFSIZE && forall j :: 0 <= j && 8 * j < |ts| ==>
        flagBuf[j] == FlagByte(ts, j)
  }

  // flag holds the flags of the tokens from n up to the end of the current byte
  ghost predicate FlagsLeft(flag: nat, ts: seq<Token>, n: nat, fx: nat) {
    n <= |ts| && n <= 8 * fx && fx == (n + 7) / 8 && flag == Val(Flags(ts)[n..if 8 * fx < |ts| then 8 * fx else |ts|])
  }

  lemma FlagLoad(flagBuf: seq<nat>, ts: seq<Token>, n: nat)
    requires Saved(flagBuf, ts) && n < |ts| && n % 8 == 0
    ensures n / 8 < |flagBuf|
    ensures flagBuf[n / 8] == Val(Flags(ts)[n..if n + 8 < |ts| then n + 8 else |ts|])
  {
    assert 8 * (n / 8) == n;
    assert flagBuf[n / 8] == FlagByte(ts, n / 8);
  }

  lemma FlagTake(ts: seq<Token>, n: nat, end: nat)
    requires n < end <= |ts|
    ensures var s := Flags(ts)[n..end];
            Val(s) % 2 == FlagOf(ts[n]) && Val(s) / 2 == Val(Flags(ts)[n + 1..end])
  {
    var s := Flags(ts)[n..end];
    assert s[0] == FlagOf(ts[n]) && s[1..] == Flags(ts)[n + 1..end];
  }

  // one token, whose flag has been read
  method SendToken(w: BitWriter, buf: Buffers, tab: Tables, lt: Tree, dt: Tree, lx: nat, dx: nat, isMatch: bool,
                   ghost ll: seq<nat>, ghost dl: seq<nat>, ghost ts: seq<Token>) returns (dx': nat)
    requires w.Valid() && tab.Valid() && Separate(w, buf, tab, lt, dt) && buf.HoldsTokens(ts)
    requires HasCode(lt.fc[..], lt.dl[..], ll) && HasCode(dt.fc[..], dt.dl[..], dl) && TokensUsable(ll, dl, ts)
    requires lx < |ts| && dx == Matches(ts, lx) && isMatch == ts[lx].Match?
    modifies w, w.outbuf
    ensures w.Valid() && w.Sent() == old(w.Sent()) + TokenBits(ll, dl, ts[lx])
    ensures dx' == Matches(ts, lx + 1)
  {
    hide Packed, HasCode, Codeword, LenBits, DistBits, CodeSet;
    ghost var t := ts[lx];
    assert TokenUsable(ll, dl, t);
    var lc := buf.lbuf[lx];
    dx' := dx;
    if !isMatch {
      HasCodeAt(lt.fc[..], lt.dl[..], ll, lc);
      SendCode(w, lt.fc, lt.dl, lc, ll);
    } else {
      SendLength(w, tab, lt.fc, lt.dl, lc, ll, t.len);
      var dist := buf.dbuf[dx'];
      dx' := dx' + 1;
      SendDistance(w, tab, dt.fc, dt.dl, dist, dl, t.dist);
      Assoc(old(w.Sent()), LenBits(ll, t.len), DistBits(dl, t.dist));
    }
  }

  // the flag of token lx
  method NextFlag(buf: Buffers, lx: nat, flag0: nat, fx0: nat, ghost ts: seq<Token>)
      returns (isMatch: bool, flag: nat, fx: nat)
    requires buf.flagBuf.Length == LIT_BUFSIZE / 8 && Saved(buf.flagBuf[..], ts) && lx < |ts| &&
        FlagsLeft(flag0, ts, lx, fx0)
    ensures isMatch == ts[lx].Match? && FlagsLeft(flag, ts, lx + 1, fx)
  {
    hide Saved, Val;
    flag, fx := flag0, fx0;
    if lx % 8 == 0 {
      FlagLoad(buf.flagBuf[..], ts, lx);
      flag := buf.flagBuf[fx];
      fx := fx + 1;
    }
    FlagTake(ts, lx, if 8 * fx < |ts| then 8 * fx else |ts|);
    isMatch := flag % 2 != 0;
    flag := flag / 2;
  }

  // the trees and the tokens do not change while they are sent
  ghost predicate Sending(w: BitWriter, buf: Buffers, tab: Tables, lt: Tree, dt: Tree, ll: seq<nat>, dl: seq<nat>,
      ts: seq<Token>)
    reads w, buf, buf.lbuf, buf.dbuf, buf.flagBuf, tab.lengthCode, tab.baseLength, tab.distCode, tab.baseDist
    reads tab.ltree.fc, tab.ltree.dl, tab.dtree.fc, tab.dtree.dl, lt.fc, lt.dl, dt.fc, dt.dl
  {
    && w.Valid() && tab.Valid() && Separate(w, buf, tab, lt, dt) && buf.HoldsTokens(ts) && Saved(buf.flagBuf[..], ts)
    && HasCode(lt.fc[..], lt.dl[..], ll) && HasCode(dt.fc[..], dt.dl[..], dl)
  }

  // one round of the loop
  method OneToken(w: BitWriter, buf: Buffers, tab: Tables, lt: Tree, dt: Tree, lx: nat, dx0: nat, fx0: nat, flag0: nat,
                  ghost ll: seq<nat>, ghost dl: seq<nat>, ghost ts: seq<Token>, ghost s0: seq<Bit>)
                      returns (dx: nat, fx: nat, flag: nat)
    requires Sending(w, buf, tab, lt, dt, ll, dl, ts) && TokensUsable(ll, dl, ts) && lx < |ts|
    requires dx0 == Matches(ts, lx) && FlagsLeft(flag0, ts, lx, fx0)
    requires TokensUsable(ll, dl, ts[..lx]) && w.Sent() == s0 + TokensBits(ll, dl, ts[..lx])
    modifies w, w.outbuf
    ensures w.Valid() && dx == Matches(ts, lx + 1) && FlagsLeft(flag, ts, lx + 1, fx)
    ensures TokensUsable(ll, dl, ts[..lx + 1]) && w.Sent() == s0 + TokensBits(ll, dl, ts[..lx + 1])
  {
    hide Packed, HasCode, TokensBits, TokenBits, Saved, FlagsLeft, TokensUsable, Matches, LengthTables,
        CodeTables.DistTables;
    var isMatch;
    isMatch, flag, fx := NextFlag(buf, lx, flag0, fx0, ts);
    dx := SendToken(w, buf, tab, lt, dt, lx, dx0, isMatch, ll, dl, ts);
    OneMore(ll, dl, ts, lx);
    Assoc(s0, TokensBits(ll, dl, ts[..lx]), TokenBits(ll, dl, ts[lx]));
  }

  method CompressBlock(w: BitWriter, buf: Buffers, tab: Tables, lt: Tree, dt: Tree, ghost ll: seq<nat>,
      ghost dl: seq<nat>, ghost ts: seq<Token>)
    requires Sending(w, buf, tab, lt, dt, ll, dl, ts) && CodesOk(ll, dl, ts)
    modifies w, w.outbuf
    ensures w.Valid() && w.Sent() == old(w.Sent()) + CodedBits(ll, dl, ts)
  {
    hide Packed, HasCode, Codeword, TokensBits, TokensUsable, Decodable, Saved, LengthTables, CodeTables.DistTables,
        Matches, FlagsLeft, CodeSet;
    var lx: nat, dx: nat, fx: nat, flag: nat := 0, 0, 0, 0;
    NoTokens(ll, dl, ts);
    ghost var s0 := w.Sent();
    while lx < buf.lastLit
      invariant lx <= |ts| && dx == Matches(ts, lx) && FlagsLeft(flag, ts, lx, fx)
      invariant Sending(w, buf, tab, lt, dt, ll, dl, ts)
      invariant TokensUsable(ll, dl, ts[..lx]) && w.Sent() == s0 + TokensBits(ll, dl, ts[..lx])
    {
      dx, fx, flag := OneToken(w, buf, tab, lt, dt, lx, dx, fx, flag, ll, dl, ts, s0);
      lx := lx + 1;
    }
    assert ts[..lx] == ts;
    HasCodeAt(lt.fc[..], lt.dl[..], ll, END_BLOCK);
    SendCode(w, lt.fc, lt.dl, END_BLOCK, ll);
    Assoc(s0, TokensBits(ll, dl, ts), Codeword(ll, END_BLOCK));
  }

  lemma NoTokens(ll: seq<nat>, dl: seq<nat>, ts: seq<Token>)
    ensures Matches(ts, 0) == 0 && ts[..0] == [] && TokensUsable(ll, dl, []) && TokensBits(ll, dl, []) == []
    ensures FlagsLeft(0, ts, 0, 0)
  {
    assert Flags(ts)[0..0] == [];
  }

  lemma OneMore(ll: seq<nat>, dl: seq<nat>, ts: seq<Token>, n: nat)
    requires TokensUsable(ll, dl, ts) && n < |ts|
    ensures TokensUsable(ll, dl, ts[..n]) && TokensUsable(ll, dl, ts[..n + 1]) && TokenUsable(ll, dl, ts[n])
    ensures TokensBits(ll, dl, ts[..n + 1]) == TokensBits(ll, dl, ts[..n]) + TokenBits(ll, dl, ts[n])
  {
    hide TokenBits, TokensBits, TokenUsable;
    TokensBitsAppend(ll, dl, ts[..n], ts[n]);
    assert ts[..n + 1] == ts[..n] + [ts[n]];
  }
}
