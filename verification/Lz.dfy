/**
 Literals and matches: section 3.2.3 of RFC 1951.
 */
module Lz {
  import opened Bits

  const MIN_MATCH := 3
  const MAX_MATCH := 258
  const WSIZE := 0x8000
  const MIN_LOOKAHEAD := MAX_MATCH + MIN_MATCH + 1
  const MAX_DIST := WSIZE - MIN_LOOKAHEAD

  datatype Token = Literal(b: Byte) | Match(len: nat, dist: nat)

  function TokenLen(t: Token): (n: nat) {
    match t
    case Literal(_) => 1
    case Match(len, _) => len
  }

  // a token that may follow n bytes of output
  predicate TokenOk(t: Token, n: nat) {
    match t
    case Literal(_) => true
    case Match(len, dist) => MIN_MATCH <= len <= MAX_MATCH && 1 <= dist <= WSIZE && dist <= n
  }

  // the byte-at-a-time copy
  function CopyMatch(out: seq<Byte>, len: nat, dist: nat): (r: seq<Byte>)
    requires 1 <= dist <= |out|
    ensures |r| == |out| + len && out <= r
    decreases len
  {
    if len == 0 then out else CopyMatch(out + [out[|out| - dist]], len - 1, dist)
  }

  function Apply(out: seq<Byte>, t: Token): (r: seq<Byte>)
    requires TokenOk(t, |out|)
    ensures |r| == |out| + TokenLen(t)
  {
    match t
    case Literal(b) => out + [b]
    case Match(len, dist) => CopyMatch(out, len, dist)
  }

  predicate TokensOk(ts: seq<Token>, n: nat) {
    ts == [] || (TokenOk(ts[0], n) && TokensOk(ts[1..], n + TokenLen(ts[0])))
  }

  // replaying tokens after out
  function Expand(ts: seq<Token>, out: seq<Byte>): (r: seq<Byte>)
    requires TokensOk(ts, |out|)
  {
    if ts == [] then out else Expand(ts[1..], Apply(out, ts[0]))
  }

  // tokens are appended one at a time by the encoder
  lemma {:induction false} ExpandAppend(ts: seq<Token>, t: Token, out: seq<Byte>)
    requires TokensOk(ts, |out|) && TokenOk(t, |Expand(ts, out)|)
    ensures TokensOk(ts + [t], |out|) && Expand(ts + [t], out) == Apply(Expand(ts, out), t)
    decreases |ts|
  {
    if ts == [] {
      assert ts + [t] == [t] && [t][1..] == [];
    } else {
      ExpandAppend(ts[1..], t, Apply(out, ts[0]));
      assert (ts + [t])[1..] == ts[1..] + [t];
    }
  }

  // every byte of a copy is the byte dist before it
  lemma {:induction false} CopyAt(out: seq<Byte>, len: nat, dist: nat, i: nat)
    requires 1 <= dist <= |out| && |out| <= i < |out| + len
    ensures CopyMatch(out, len, dist)[i] == CopyMatch(out, len, dist)[i - dist]
    decreases len
  {
    var o := out + [out[|out| - dist]];
    if i > |out| {
      CopyAt(o, len - 1, dist, i);
    } else {
      var r := CopyMatch(o, len - 1, dist);
      assert o <= r;
      assert r[|out|] == o[|out|] && r[|out| - dist] == o[|out| - dist];
    }
  }

  // a copy is the only continuation with that property
  lemma {:induction false} CopyUnique(out: seq<Byte>, len: nat, dist: nat, r: seq<Byte>)
    requires 1 <= dist <= |out| && |r| == |out| + len && out <= r
    requires forall i :: |out| <= i < |r| ==> r[i] == r[i - dist]
    ensures r == CopyMatch(out, len, dist)
    decreases len
  {
    if len > 0 {
      assert r[|out|] == r[|out| - dist] == out[|out| - dist];
      CopyUnique(out + [out[|out| - dist]], len - 1, dist, r);
    } else {
      assert r == out;
    }
  }
}
