/**
 The compressed data of a block, as bits: sections 3.2.3 and 3.2.5 of RFC 1951.
 DecodeTokens is the reference decoder, one symbol at a time.
 */
module BlockData {
  import opened Bits
  import opened Canonical
  import opened Lz
  import opened Symbols

  // symbol sym can be sent with the code lens
  predicate Usable(lens: seq<nat>, sym: nat) {
    sym < |lens| && 1 <= lens[sym] <= MAX_BITS
  }

  predicate LenUsable(ll: seq<nat>, len: nat) {
    MIN_MATCH <= len <= MAX_MATCH && Usable(ll, LITERALS + 1 + LenCode(len - MIN_MATCH))
  }

  predicate DistUsable(dl: seq<nat>, dist: nat) {
    1 <= dist <= WSIZE && Usable(dl, DistCode(dist - 1))
  }

  predicate TokenUsable(ll: seq<nat>, dl: seq<nat>, t: Token) {
    match t
    case Literal(b) => Usable(ll, b)
    case Match(len, dist) => LenUsable(ll, len) && DistUsable(dl, dist)
  }

  // the extra bits of a length and of a distance
  function LenExtra(len: nat): (s: seq<Bit>)
    requires MIN_MATCH <= len <= MAX_MATCH
  {
    var c := LenCode(len - MIN_MATCH);
    BitsOf(len - CPLENS[c], CPLEXT[c])
  }

  function DistExtra(dist: nat): (s: seq<Bit>)
    requires 1 <= dist <= WSIZE
  {
    var c := DistCode(dist - 1);
    BitsOf(dist - CPDIST[c], CPDEXT[c])
  }

  // a length code and its extra bits
  function LenBits(ll: seq<nat>, len: nat): (s: seq<Bit>)
    requires LenUsable(ll, len)
  {
    Codeword(ll, LITERALS + 1 + LenCode(len - MIN_MATCH)) + LenExtra(len)
  }

  // a distance code and its extra bits
  function DistBits(dl: seq<nat>, dist: nat): (s: seq<Bit>)
    requires DistUsable(dl, dist)
  {
    Codeword(dl, DistCode(dist - 1)) + DistExtra(dist)
  }

  function TokenBits(ll: seq<nat>, dl: seq<nat>, t: Token): (s: seq<Bit>)
    requires TokenUsable(ll, dl, t)
  {
    match t
    case Literal(b) => Codeword(ll, b)
    case Match(len, dist) => LenBits(ll, len) + DistBits(dl, dist)
  }

  predicate TokensUsable(ll: seq<nat>, dl: seq<nat>, ts: seq<Token>) {
    forall i :: 0 <= i < |ts| ==> TokenUsable(ll, dl, ts[i])
  }

  // the tokens of a block and the end-of-block code
  function TokensBits(ll: seq<nat>, dl: seq<nat>, ts: seq<Token>): (s: seq<Bit>)
    requires TokensUsable(ll, dl, ts)
  {
    if ts == [] then [] else TokenBits(ll, dl, ts[0]) + TokensBits(ll, dl, ts[1..])
  }

  lemma {:induction false} TokensBitsAppend(ll: seq<nat>, dl: seq<nat>, ts: seq<Token>, t: Token)
    requires TokensUsable(ll, dl, ts) && TokenUsable(ll, dl, t)
    ensures TokensBits(ll, dl, ts + [t]) == TokensBits(ll, dl, ts) + TokenBits(ll, dl, t)
    decreases |ts|
  {
    hide TokenBits, TokenUsable;
    if ts == [] {
      assert ts + [t] == [t] && [t][1..] == [];
    } else {
      TokensBitsAppend(ll, dl, ts[1..], t);
      assert (ts + [t])[1..] == ts[1..] + [t];
    }
  }

  // --- The reference decoder ---

  // a value made of a base and extra bits
  function ReadExtra(s: seq<Bit>, base: nat, ext: nat): (r: Option<(nat, seq<Bit>)>)
    ensures r.Some? ==> |r.value.1| <= |s|
  {
    if |s| < ext then None else Some((base + Val(s[..ext]), s[ext..]))
  }

  // the length that symbol 257 + c stands for
  function ReadLen(s: seq<Bit>, c: nat): (r: Option<(nat, seq<Bit>)>)
    ensures r.Some? ==> |r.value.1| <= |s|
  {
    if c >= LENGTH_CODES then None else ReadExtra(s, CPLENS[c], CPLEXT[c])
  }

  function ReadDist(dl: seq<nat>, s: seq<Bit>): (r: Option<(nat, seq<Bit>)>)
    ensures r.Some? ==> |r.value.1| <= |s|
  {
    match DecodeSym(dl, s)
    case None => None
    case Some((c, n)) => if c >= D_CODES then None else ReadExtra(s[n..], CPDIST[c], CPDEXT[c])
  }

  // the copy that a match asks for; a distance before the start of the output is an error
  function Copied(out: seq<Byte>, len: nat, dist: nat): (r: Option<seq<Byte>>) {
    if 1 <= dist <= |out| && dist <= WSIZE then Some(CopyMatch(out, len, dist)) else None
  }

  // a match whose length code c has just been read
  function DecodeMatch(dl: seq<nat>, s: seq<Bit>, c: nat, out: seq<Byte>): (r: Option<(seq<Byte>, seq<Bit>)>)
    ensures r.Some? ==> |r.value.1| <= |s|
  {
    match ReadLen(s, c)
    case None => None
    case Some((len, s1)) =>
      match ReadDist(dl, s1)
      case None => None
      case Some((dist, s2)) =>
        match Copied(out, len, dist)
        case None => None
        case Some(o) => Some((o, s2))
  }

  // decode up to and including the end-of-block code
  function DecodeTokens(ll: seq<nat>, dl: seq<nat>, s: seq<Bit>, out: seq<Byte>): (r: Option<(seq<Byte>, seq<Bit>)>)
    ensures r.Some? ==> |r.value.1| <= |s|
    decreases |s|
  {
    match DecodeSym(ll, s)
    case None => None
    case Some((sym, n)) =>
      if sym < LITERALS then DecodeTokens(ll, dl, s[n..], out + [sym])
      else if sym == END_BLOCK then Some((out, s[n..]))
      else
        match DecodeMatch(dl, s[n..], sym - LITERALS - 1, out)
        case None => None
        case Some((o, s1)) => DecodeTokens(ll, dl, s1, o)
  }

  // --- Decoding inverts encoding ---

  lemma ReadExtraBits(v: nat, base: nat, ext: nat, s: seq<Bit>)
    requires base <= v < base + Pow2(ext)
    ensures ReadExtra(BitsOf(v - base, ext) + s, base, ext) == Some((v, s))
  {
    hide Pow2, BitsOf, Val;
    var b := BitsOf(v - base, ext);
    assert (b + s)[..ext] == b && (b + s)[ext..] == s;
    ValBits(v - base, ext);
    DivModUnique(v - base, Pow2(ext), 0, v - base);
  }

  // a codeword in front of s decodes to its symbol and leaves s
  lemma DecodeFront(lens: seq<nat>, sym: nat, s: seq<Bit>)
    requires Decodable(lens) && Usable(lens, sym)
    ensures DecodeSym(lens, Codeword(lens, sym) + s) == Some((sym, lens[sym]))
    ensures (Codeword(lens, sym) + s)[lens[sym]..] == s
  {
    hide Codeword;
    DecodeCode(lens, sym, Codeword(lens, sym) + s);
  }

  lemma DistRoundTrip(dl: seq<nat>, dist: nat, s: seq<Bit>)
    requires Decodable(dl) && DistUsable(dl, dist)
    ensures ReadDist(dl, DistBits(dl, dist) + s) == Some((dist, s))
  {
    hide Codeword, DecodeSym, DistCode, BitsOf, Decodable, ReadExtra, Pow2;
    var c := DistCode(dist - 1);
    assert DistBits(dl, dist) + s == Codeword(dl, c) + (DistExtra(dist) + s);
    DecodeFront(dl, c, DistExtra(dist) + s);
    ReadExtraBits(dist, CPDIST[c], CPDEXT[c], s);
  }

  lemma LenRoundTrip(len: nat, s: seq<Bit>)
    requires MIN_MATCH <= len <= MAX_MATCH
    ensures ReadLen(LenExtra(len) + s, LenCode(len - MIN_MATCH)) == Some((len, s))
  {
    hide LenCode, BitsOf, ReadExtra, Pow2;
    var c := LenCode(len - MIN_MATCH);
    ReadExtraBits(len, CPLENS[c], CPLEXT[c], s);
  }

  lemma MatchRoundTrip(dl: seq<nat>, len: nat, dist: nat, s: seq<Bit>, out: seq<Byte>)
    requires Decodable(dl) && MIN_MATCH <= len <= MAX_MATCH && DistUsable(dl, dist) && dist <= |out|
    ensures DecodeMatch(dl, LenExtra(len) + (DistBits(dl, dist) + s), LenCode(len - MIN_MATCH), out)
            == Some((CopyMatch(out, len, dist), s))
  {
    hide LenCode, LenExtra, Decodable, ReadLen, ReadDist, DistBits, CopyMatch, Usable;
    LenRoundTrip(len, DistBits(dl, dist) + s);
    DistRoundTrip(dl, dist, s);
  }

  lemma LiteralStep(ll: seq<nat>, dl: seq<nat>, b: Byte, s: seq<Bit>, out: seq<Byte>)
    requires Decodable(ll) && Usable(ll, b)
    ensures DecodeTokens(ll, dl, Codeword(ll, b) + s, out) == DecodeTokens(ll, dl, s, out + [b])
  {
    hide Codeword, DecodeSym, Decodable;
    DecodeFront(ll, b, s);
  }

  lemma EndStep(ll: seq<nat>, dl: seq<nat>, s: seq<Bit>, out: seq<Byte>)
    requires Decodable(ll) && Usable(ll, END_BLOCK)
    ensures DecodeTokens(ll, dl, Codeword(ll, END_BLOCK) + s, out) == Some((out, s))
  {
    hide Codeword, DecodeSym, Decodable;
    DecodeFront(ll, END_BLOCK, s);
  }

  lemma MatchStep(ll: seq<nat>, dl: seq<nat>, len: nat, dist: nat, s: seq<Bit>, out: seq<Byte>)
    requires Decodable(ll) && Decodable(dl) && LenUsable(ll, len) && DistUsable(dl, dist) && dist <= |out|
    ensures DecodeTokens(ll, dl, LenBits(ll, len) + DistBits(dl, dist) + s, out)
         == DecodeTokens(ll, dl, s, CopyMatch(out, len, dist))
  {
    hide Codeword, DecodeSym, LenCode, LenExtra, Decodable, DecodeMatch, DecodeTokens, DistBits, DistCode, CopyMatch;
    var sym := LITERALS + 1 + LenCode(len - MIN_MATCH);
    var rest := LenExtra(len) + (DistBits(dl, dist) + s);
    Regroup(Codeword(ll, sym), LenExtra(len), DistBits(dl, dist), s);
    DecodeFront(ll, sym, rest);
    MatchRoundTrip(dl, len, dist, s, out);
    MatchUnfold(ll, dl, Codeword(ll, sym) + rest, out, sym, ll[sym], CopyMatch(out, len, dist), s);
  }

  lemma Regroup(a: seq<Bit>, b: seq<Bit>, c: seq<Bit>, d: seq<Bit>)
    ensures (a + b) + c + d == a + (b + (c + d))
  {
  }

  lemma MatchUnfold(ll: seq<nat>, dl: seq<nat>, s: seq<Bit>, out: seq<Byte>, sym: nat, n: nat, o: seq<Byte>,
      s1: seq<Bit>)
    requires DecodeSym(ll, s) == Some((sym, n)) && sym > END_BLOCK && n <= |s|
    requires DecodeMatch(dl, s[n..], sym - LITERALS - 1, out) == Some((o, s1))
    ensures DecodeTokens(ll, dl, s, out) == DecodeTokens(ll, dl, s1, o)
  {
    hide DecodeSym, DecodeMatch;
  }

  lemma TokenStep(ll: seq<nat>, dl: seq<nat>, t: Token, s: seq<Bit>, out: seq<Byte>)
    requires Decodable(ll) && Decodable(dl) && TokenUsable(ll, dl, t) && TokenOk(t, |out|)
    ensures DecodeTokens(ll, dl, TokenBits(ll, dl, t) + s, out) == DecodeTokens(ll, dl, s, Apply(out, t))
  {
    hide DecodeTokens, Decodable, Codeword, LenBits, DistBits, CopyMatch;
    match t
    case Literal(b) => LiteralStep(ll, dl, b, s, out);
    case Match(len, dist) => MatchStep(ll, dl, len, dist, s, out);
  }

  // the reference decoder turns the bits of a block back into the bytes its tokens stand for
  lemma {:induction false} TokensRoundTrip(ll: seq<nat>, dl: seq<nat>, ts: seq<Token>, s: seq<Bit>, out: seq<Byte>)
    requires Decodable(ll) && Decodable(dl) && Usable(ll, END_BLOCK)
    requires TokensUsable(ll, dl, ts) && TokensOk(ts, |out|)
    ensures DecodeTokens(ll, dl, TokensBits(ll, dl, ts) + Codeword(ll, END_BLOCK) + s, out) ==
        Some((Expand(ts, out), s))
    decreases |ts|
  {
    hide DecodeTokens, Decodable, Codeword, TokenBits, TokenUsable, TokenOk, Apply;
    var eob := Codeword(ll, END_BLOCK);
    if ts == [] {
      assert TokensBits(ll, dl, ts) + eob + s == eob + s;
      EndStep(ll, dl, s, out);
    } else {
      var rest := TokensBits(ll, dl, ts[1..]) + eob + s;
      assert TokensBits(ll, dl, ts) + eob + s == TokenBits(ll, dl, ts[0]) + rest;
      TokenStep(ll, dl, ts[0], rest, out);
      TokensRoundTrip(ll, dl, ts[1..], s, Apply(out, ts[0]));
    }
  }
}
