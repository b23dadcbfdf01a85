/**
 The decoder's tables undo the encoder's codes.
 */
module Inverse {
  import opened Bits
  import opened Canonical
  import opened Huft
  import opened HuftBuild
  import opened TreeCodes

  // the code that gen_codes stores for a symbol, sent low bit first and followed by anything, is
  // found in the tables that huft_build makes from the same lengths
  lemma CodesInverted(fc: seq<nat>, lens: seq<nat>, tables: seq<seq<Huft>>, l: nat, s: nat, d: seq<nat>, e: seq<nat>,
      sym: nat, rest: seq<Bit>)
    requires Coded(fc, lens) && Decodes(tables, l, lens, s, d, e) && sym < |lens| && 1 <= lens[sym] <= 15
    requires SymE(s, e, sym) <= 16 && |rest| >= l
    ensures Walk(tables, 0, l, BitsOf(fc[sym], lens[sym]) + rest) ==
        Some(Found(SymE(s, e, sym), SymV(s, d, sym), lens[sym]))
  {
    hide Walk, BitsOf, Codeword, Pow2;
    assert CodeSet(fc, lens, sym);
    assert Codeword(lens, sym) <= BitsOf(fc[sym], lens[sym]) + rest;
  }
}
