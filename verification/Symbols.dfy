/**
 Length and distance symbols with their extra bits: section 3.2.5 of RFC 1951,
 as tabulated in inflate.c (bases and extra bits) and in trees.c (extra bits).
 */
module Symbols {
  import opened Bits
  import opened Lz

  const LENGTH_CODES := 29
  const LITERALS := 256
  const END_BLOCK := 256
  const L_CODES := 286
  const D_CODES := 30
  const BL_CODES := 19

  const CPLENS: seq<nat> := [3, 4, 5, 6, 7, 8, 9, 10, 11, 13, 15, 17, 19, 23, 27, 31,
                             35, 43, 51, 59, 67, 83, 99, 115, 131, 163, 195, 227, 258, 0, 0]
  const CPLEXT: seq<nat> := [0, 0, 0, 0, 0, 0, 0, 0, 1, 1, 1, 1, 2, 2, 2, 2,
                             3, 3, 3, 3, 4, 4, 4, 4, 5, 5, 5, 5, 0, 99, 99]
  const CPDIST: seq<nat> := [1, 2, 3, 4, 5, 7, 9, 13, 17, 25, 33, 49, 65, 97, 129, 193,
                             257, 385, 513, 769, 1025, 1537, 2049, 3073, 4097, 6145,
                             8193, 12289, 16385, 24577]
  const CPDEXT: seq<nat> := [0, 0, 0, 0, 1, 1, 2, 2, 3, 3, 4, 4, 5, 5, 6, 6,
                             7, 7, 8, 8, 9, 9, 10, 10, 11, 11, 12, 12, 13, 13]

  const EXTRA_LBITS: seq<nat> := [0, 0, 0, 0, 0, 0, 0, 0, 1, 1, 1, 1, 2, 2, 2, 2, 3, 3, 3, 3, 4, 4, 4, 4, 5, 5, 5, 5, 0]
  const EXTRA_DBITS: seq<nat> :=
      [0, 0, 0, 0, 1, 1, 2, 2, 3, 3, 4, 4, 5, 5, 6, 6, 7, 7, 8, 8, 9, 9, 10, 10, 11, 11, 12, 12, 13, 13]
  const EXTRA_BLBITS: seq<nat> := [0, 0, 0, 0, 0, 0, 0, 0, 0, 0, 0, 0, 0, 0, 0, 0, 2, 3, 7]

  // the order in which code lengths of the code length code travel
  const BL_ORDER: seq<nat> := [16, 17, 18, 0, 8, 7, 9, 6, 10, 5, 11, 4, 12, 3, 13, 2, 14, 1, 15]

  lemma SmallPowers()
    ensures Pow2(0) == 1 && Pow2(1) == 2 && Pow2(2) == 4 && Pow2(3) == 8 && Pow2(4) == 16
    ensures Pow2(5) == 32 && Pow2(6) == 64 && Pow2(7) == 128 && Pow2(8) == 256 && Pow2(9) == 512
    ensures Pow2(10) == 1024 && Pow2(11) == 2048 && Pow2(12) == 4096 && Pow2(13) == 8192
  {
  }

  // the two sides agree on the extra bits
  lemma SameExtraBits()
    ensures |CPLENS| == |CPLEXT| == 31 && |CPDIST| == |CPDEXT| == D_CODES
    ensures CPLEXT[..LENGTH_CODES] == EXTRA_LBITS && CPDEXT == EXTRA_DBITS
  {
  }

  // each length code starts where the one before ends
  lemma LenSteps(c: nat)
    requires c < 27
    ensures CPLENS[c + 1] == CPLENS[c] + Pow2(CPLEXT[c]) && CPLEXT[c] <= 5
  {
    SmallPowers();
    hide Pow2;
  }

  lemma DistSteps(c: nat)
    requires c < 29
    ensures CPDIST[c + 1] == CPDIST[c] + Pow2(CPDEXT[c]) && CPDEXT[c] <= 13
  {
    SmallPowers();
    hide Pow2;
  }

  // the length code whose range holds length lc + 3
  function LenFrom(lc: nat, c: nat): (r: nat)
    requires lc < 255 && c < 28 && CPLENS[c] <= lc + 3
    ensures r < 28 && CPLENS[r] <= lc + 3 < CPLENS[r] + Pow2(CPLEXT[r])
    decreases 28 - c
  {
    SmallPowers();
    if lc + 3 < CPLENS[c] + Pow2(CPLEXT[c]) then c
    else if c == 27 then c
    else LenSteps(c); LenFrom(lc, c + 1)
  }

  // 258 has its own code, although code 284 could express it
  function LenCode(lc: nat): (r: nat)
    requires lc < 256
    ensures r < LENGTH_CODES && CPLENS[r] <= lc + 3 < CPLENS[r] + Pow2(CPLEXT[r])
  {
    if lc == 255 then 28 else LenFrom(lc, 0)
  }

  function DistFrom(d: nat, c: nat): (r: nat)
    requires d < 32768 && c < 30 && CPDIST[c] <= d + 1
    ensures r < 30 && CPDIST[r] <= d + 1 < CPDIST[r] + Pow2(CPDEXT[r])
    decreases 30 - c
  {
    SmallPowers();
    if d + 1 < CPDIST[c] + Pow2(CPDEXT[c]) then c
    else if c == 29 then c
    else DistSteps(c); DistFrom(d, c + 1)
  }

  // the distance code for distance d + 1
  function DistCode(d: nat): (r: nat)
    requires d < 32768
    ensures r < D_CODES && CPDIST[r] <= d + 1 < CPDIST[r] + Pow2(CPDEXT[r])
  {
    DistFrom(d, 0)
  }

  // ranges of length codes do not overlap
  lemma {:induction false} LenMono(a: nat, b: nat)
    requires a < b <= 27
    ensures CPLENS[a] + Pow2(CPLEXT[a]) <= CPLENS[b]
    decreases b
  {
    hide Pow2, CPLENS, CPLEXT;
    LenSteps(b - 1);
    if a + 1 < b { LenMono(a, b - 1); }
  }

  lemma {:induction false} DistMono(a: nat, b: nat)
    requires a < b <= 29
    ensures CPDIST[a] + Pow2(CPDEXT[a]) <= CPDIST[b]
    decreases b
  {
    hide Pow2, CPDIST, CPDEXT;
    DistSteps(b - 1);
    if a + 1 < b { DistMono(a, b - 1); }
  }

  lemma LenUnique(lc: nat, c: nat)
    requires lc < 255 && c < 28 && CPLENS[c] <= lc + 3 < CPLENS[c] + Pow2(CPLEXT[c])
    ensures LenCode(lc) == c
  {
    var r := LenCode(lc);
    assert r < 28;
    if r < c { LenMono(r, c); }
    if c < r { LenMono(c, r); }
  }

  lemma DistUnique(d: nat, c: nat)
    requires d < 32768 && c < 30 && CPDIST[c] <= d + 1 < CPDIST[c] + Pow2(CPDEXT[c])
    ensures DistCode(d) == c
  {
    var r := DistCode(d);
    if r < c { DistMono(r, c); }
    if c < r { DistMono(c, r); }
  }

  lemma ExtraBounds(lc: nat, dc: nat)
    requires lc < LENGTH_CODES && dc < D_CODES
    ensures CPLEXT[lc] <= 5 && CPDEXT[dc] <= 13
  {
  }
}
