/**
 The match buffers of trees.c: l_buf holds literals and lengths, d_buf distances,
 and flag_buf one bit per entry of l_buf that tells them apart.
 */
module TokenBuffer {
  import opened Bits
  import opened Lz

  const LIT_BUFSIZE := 0x8000
  const DIST_BUFSIZE := LIT_BUFSIZE

  // what l_buf holds for a token, and what ct_tally is called with
  function Lc(t: Token): (c: int) {
    match t
    case Literal(b) => b
    case Match(len, _) => len - MIN_MATCH
  }

  function DistOf(t: Token): (d: nat) {
    match t
    case Literal(_) => 0
    case Match(_, dist) => dist
  }

  predicate TokenFits(t: Token) {
    match t
    case Literal(_) => true
    case Match(len, dist) => MIN_MATCH <= len <= MAX_MATCH && 1 <= dist <= WSIZE
  }

  function FlagOf(t: Token): (b: Bit) { if t.Match? then 1 else 0 }

  function Flags(ts: seq<Token>): (s: seq<Bit>)
    ensures |s| == |ts| && forall i :: 0 <= i < |ts| ==> s[i] == FlagOf(ts[i])
  {
    seq(|ts|, i requires 0 <= i < |ts| => FlagOf(ts[i]))
  }

  // matches among the first n tokens
  function Matches(ts: seq<Token>, n: nat): (m: nat)
    requires n <= |ts|
    ensures m <= n
  {
    if n == 0 then 0 else Matches(ts, n - 1) + FlagOf(ts[n - 1])
  }

  lemma {:induction false} MatchesSnoc(ts: seq<Token>, t: Token, n: nat)
    requires n <= |ts|
    ensures Matches(ts + [t], n) == Matches(ts, n)
  {
    if n > 0 { MatchesSnoc(ts, t, n - 1); }
  }

  lemma {:induction false} MatchesMono(ts: seq<Token>, a: nat, b: nat)
    requires a <= b <= |ts|
    ensures Matches(ts, a) <= Matches(ts, b)
    ensures a < b && ts[a].Match? ==> Matches(ts, a) < Matches(ts, b)
    decreases b
  {
    if a < b { MatchesMono(ts, a, b - 1); }
  }

  function Lesser(a: nat, b: nat): (m: nat) { if a < b then a else b }

  // the flags of tokens 8j to 8j + 7 as a byte
  function FlagByte(ts: seq<Token>, j: nat): (v: nat)
    requires 8 * j <= |ts|
  {
    Val(Flags(ts)[8 * j..Lesser(8 * j + 8, |ts|)])
  }

  lemma FlagsSnoc(ts: seq<Token>, t: Token)
    ensures Flags(ts + [t]) == Flags(ts) + [FlagOf(t)]
  {
  }

  lemma FullBytes(ts: seq<Token>, t: Token, j: nat)
    requires 8 * j + 8 <= |ts|
    ensures FlagByte(ts + [t], j) == FlagByte(ts, j)
  {
    FlagsSnoc(ts, t);
    assert Flags(ts + [t])[8 * j..8 * j + 8] == Flags(ts)[8 * j..8 * j + 8];
  }

  // one more flag in the current byte
  lemma LastByte(ts: seq<Token>, t: Token, j: nat)
    requires 8 * j <= |ts| < 8 * j + 8
    ensures FlagByte(ts, j) < Pow2(|ts| - 8 * j)
    ensures FlagByte(ts + [t], j) == FlagByte(ts, j) + FlagOf(t) * Pow2(|ts| - 8 * j)
  {
    FlagsSnoc(ts, t);
    var s := Flags(ts)[8 * j..|ts|];
    assert Flags(ts + [t])[8 * j..|ts| + 1] == s + [FlagOf(t)];
    ValAppend(s, [FlagOf(t)]);
    assert [FlagOf(t)][1..] == [];
    assert Val([FlagOf(t)]) == FlagOf(t);
  }

  class Buffers {
    const lbuf: array<nat>
    const dbuf: array<nat>
    const flagBuf: array<nat>
    var lastLit: nat
    var lastDist: nat
    var lastFlags: nat
    var flags: nat
    var flagBit: nat

    constructor ()
      ensures fresh(lbuf) && fresh(dbuf) && fresh(flagBuf) && Apart() && Holds([])
    {
      lbuf := new nat[LIT_BUFSIZE](_ => 0);
      dbuf := new nat[DIST_BUFSIZE](_ => 0);
      flagBuf := new nat[LIT_BUFSIZE / 8](_ => 0);
      lastLit, lastDist, lastFlags, flags, flagBit := 0, 0, 0, 0, 1;
    }

    ghost predicate Apart()
      reads this
    {
      && lbuf != dbuf && lbuf != flagBuf && dbuf != flagBuf
      && lbuf.Length == LIT_BUFSIZE && dbuf.Length == DIST_BUFSIZE && flagBuf.Length == LIT_BUFSIZE / 8
    }

    ghost predicate HoldsTokens(ts: seq<Token>)
      reads this, lbuf, dbuf
    {
      && Apart() && lastLit == |ts| < LIT_BUFSIZE && lastDist == Matches(ts, |ts|) <= DIST_BUFSIZE
      && (forall i :: 0 <= i < |ts| ==> TokenFits(ts[i]) && lbuf[i] == Lc(ts[i]))
      && (forall i :: 0 <= i < |ts| && ts[i].Match? ==>
          Matches(ts, i) < DIST_BUFSIZE && dbuf[Matches(ts, i)] == ts[i].dist - 1)
    }

    lemma Counted(ts: seq<Token>)
      requires HoldsTokens(ts)
      ensures lastLit == |ts| && lastDist == Matches(ts, |ts|) && forall i :: 0 <= i < |ts| ==> TokenFits(ts[i])
    {
    }

    ghost predicate HoldsFlags(ts: seq<Token>)
      reads this, flagBuf
    {
      && flagBuf.Length == LIT_BUFSIZE / 8 && 8 * lastFlags <= |ts| < 8 * lastFlags + 8 && |ts| < LIT_BUFSIZE
      && flagBit == Pow2(|ts| - 8 * lastFlags) && flags == FlagByte(ts, lastFlags)
      && forall j :: 0 <= j < lastFlags ==> flagBuf[j] == FlagByte(ts, j)
    }

    // the buffers hold exactly the tokens ts
    ghost predicate Holds(ts: seq<Token>)
      reads this, lbuf, dbuf, flagBuf
    {
      HoldsTokens(ts) && HoldsFlags(ts)
    }

    method Reset()
      requires Apart()
      modifies this
      ensures Holds([]) && lastDist == 0
    {
      lastLit, lastDist, lastFlags, flags, flagBit := 0, 0, 0, 0, 1;
    }

    // the first half of ct_tally
    method Add(dist: nat, lc: nat, ghost ts: seq<Token>, ghost t: Token)
      requires Holds(ts) && TokenFits(t) && Lc(t) == lc && DistOf(t) == dist
      requires |ts| < LIT_BUFSIZE - 1 && lastDist < DIST_BUFSIZE
      modifies this, lbuf, dbuf, flagBuf
      ensures Holds(ts + [t])
    {
      hide FlagByte, Matches, Pow2;
      AddToken(dist, lc, ts, t);
      AddFlag(dist != 0, ts, t);
    }

    method AddToken(dist: nat, lc: nat, ghost ts: seq<Token>, ghost t: Token)
      requires HoldsTokens(ts) && TokenFits(t) && Lc(t) == lc && DistOf(t) == dist
      requires |ts| < LIT_BUFSIZE - 1 && lastDist < DIST_BUFSIZE
      modifies this`lastLit, this`lastDist, lbuf, dbuf
      ensures HoldsTokens(ts + [t])
    {
      ghost var ts' := ts + [t];
      forall i | 0 <= i <= |ts| ensures Matches(ts', i) == Matches(ts, i) { MatchesSnoc(ts, t, i); }
      forall i | 0 <= i < |ts| && ts[i].Match? ensures Matches(ts, i) < lastDist { MatchesMono(ts, i, |ts|); }
      lbuf[lastLit] := lc;
      lastLit := lastLit + 1;
      if dist != 0 {
        dbuf[lastDist] := dist - 1;
        lastDist := lastDist + 1;
      }
    }

    method AddFlag(match_: bool, ghost ts: seq<Token>, ghost t: Token)
      requires HoldsFlags(ts) && lastLit == |ts| + 1 && |ts| < LIT_BUFSIZE - 1 && match_ == t.Match?
      modifies this`lastFlags, this`flags, this`flagBit, flagBuf
      ensures HoldsFlags(ts + [t])
    {
      hide FlagByte, Or, Pow2;
      ghost var j, ts', k := lastFlags, ts + [t], |ts| - 8 * lastFlags;
      LastByte(ts, t, j);
      forall i | 0 <= i < j ensures FlagByte(ts', i) == FlagByte(ts, i) { FullBytes(ts, t, i); }
      if match_ {
        OrDisjoint(flags, 1, k);
        flags := Or(flags, flagBit);
      }
      FlagPowers(k);
      flagBit := flagBit * 2 % 256;
      SaveByte(ts');
    }

    // a full byte of flags goes into the buffer
    method SaveByte(ghost ts: seq<Token>)
      requires flagBuf.Length == LIT_BUFSIZE / 8 && 8 * lastFlags < |ts| == lastLit <= 8 * lastFlags + 8
      requires |ts| < LIT_BUFSIZE && flags == FlagByte(ts, lastFlags)
      requires |ts| < 8 * lastFlags + 8 ==> flagBit == Pow2(|ts| - 8 * lastFlags)
      requires forall j :: 0 <= j < lastFlags ==> flagBuf[j] == FlagByte(ts, j)
      modifies this`lastFlags, this`flags, this`flagBit, flagBuf
      ensures HoldsFlags(ts)
    {
      hide FlagByte, Pow2;
      FlagPowers(0);
      if lastLit % 8 == 0 {
        flagBuf[lastFlags] := flags;
        lastFlags := lastFlags + 1;
        flags, flagBit := 0, 1;
        NoFlags(ts, lastFlags);
      }
    }
  }

  lemma NoFlags(ts: seq<Token>, j: nat)
    requires 8 * j == |ts|
    ensures FlagByte(ts, j) == 0 && Pow2(0) == 1
  {
  }

  lemma FlagPowers(k: nat)
    ensures Pow2(k + 1) == 2 * Pow2(k) && Pow2(0) == 1 && Pow2(8) == 256 && (k < 7 ==> Pow2(k + 1) <= 128)
  {
    assert Pow2(7) == 128;
    if k < 7 { Pow2Mono(k + 1, 7); }
  }
}
