/**
 ct_init: the tables that map match lengths and distances to their symbols, and
 the static trees.
 */
module CodeTables {
  import opened Bits
  import opened Canonical
  import opened Lz
  import opened Symbols
  import opened Stream
  import opened TreeMerge
  import opened TreeCodes

  lemma TableSizes()
    ensures |CPLENS| == |CPLEXT| == 31 && |EXTRA_LBITS| == LENGTH_CODES
    ensures |CPDIST| == |CPDEXT| == |EXTRA_DBITS| == D_CODES
  {
  }

  // --- Match lengths ---

  ghost predicate LengthTables(lengthCode: seq<nat>, baseLength: seq<nat>) {
    && |lengthCode| == 256 && |baseLength| == LENGTH_CODES
    && (forall lc :: 0 <= lc < 256 ==> lengthCode[lc] == LenCode(lc))
    && (forall c :: 0 <= c < 28 ==> baseLength[c] + MIN_MATCH == CPLENS[c])
  }

  lemma LenNext(c: nat)
    requires c < 28
    ensures CPLENS[c] >= 3 && EXTRA_LBITS[c] == CPLEXT[c]
    ensures CPLENS[c] + Pow2(EXTRA_LBITS[c]) == if c == 27 then 259 else CPLENS[c + 1]
    ensures CPLENS[c] + Pow2(EXTRA_LBITS[c]) <= 259
  {
    SmallPowers();
    hide Pow2;
    SameExtraBits();
    assert CPLEXT[..LENGTH_CODES][c] == CPLEXT[c];
    if c < 27 {
      LenSteps(c);
      if c + 1 < 27 { LenMono(c + 1, 27); }
    }
  }

  method LengthCodes() returns (lengthCode: array<nat>, baseLength: array<nat>)
    ensures fresh(lengthCode) && fresh(baseLength) && LengthTables(lengthCode[..], baseLength[..])
  {
    hide Pow2, LenCode, CPLENS, CPLEXT, EXTRA_LBITS;
    TableSizes();
    lengthCode := new nat[256](_ => 0);
    baseLength := new nat[LENGTH_CODES](_ => 0);
    var length: nat, code: nat := 0, 0;
    FirstLen();
    while code < LENGTH_CODES - 1
      invariant code <= 28 && length + 3 == (if code == 28 then 259 else CPLENS[code])
      invariant forall lc :: 0 <= lc < length && lc < 255 ==> lengthCode[lc] == LenCode(lc)
      invariant forall c :: 0 <= c < code ==> baseLength[c] + MIN_MATCH == CPLENS[c]
    {
      LenNext(code);
      baseLength[code] := length;
      var n, m := 0, Shl(1, EXTRA_LBITS[code]);
      ghost var from := length;
      while n < m
        invariant n <= m && length == from + n
        invariant forall c :: 0 <= c <= code ==> baseLength[c] + MIN_MATCH == CPLENS[c]
        invariant forall lc :: 0 <= lc < length && lc < 255 ==> lengthCode[lc] == LenCode(lc)
      {
        if length < 255 { LenHere(length, code); }
        lengthCode[length] := code;
        length := length + 1;
        n := n + 1;
      }
      code := code + 1;
    }
    LastLen();
    lengthCode[length - 1] := code;
  }

  lemma FirstLen()
    ensures CPLENS[0] == 3
  {
  }

  lemma LastLen()
    ensures LenCode(255) == 28
  {
  }

  lemma LenHere(lc: nat, c: nat)
    requires lc < 255 && c < 28 && CPLENS[c] <= lc + 3 < CPLENS[c] + Pow2(EXTRA_LBITS[c])
    ensures LenCode(lc) == c
  {
    LenNext(c);
    LenUnique(lc, c);
  }

  // --- Distances ---

  // the macro d_code
  function DCode(distCode: seq<nat>, dist: nat): (c: nat)
    requires |distCode| == 512 && dist < 32768
  {
    if dist < 256 then distCode[dist] else distCode[256 + dist / 128]
  }

  ghost predicate DistTables(distCode: seq<nat>, baseDist: seq<nat>) {
    && |distCode| == 512 && |baseDist| == D_CODES
    && (forall d :: 0 <= d < 32768 ==> DCode(distCode, d) == DistCode(d))
    && (forall c :: 0 <= c < D_CODES ==> baseDist[c] + 1 == CPDIST[c])
  }

  lemma DistNext(c: nat)
    requires c < 30
    ensures CPDIST[c] >= 1 && EXTRA_DBITS[c] == CPDEXT[c]
    ensures CPDIST[c] + Pow2(EXTRA_DBITS[c]) == if c == 29 then 32769 else CPDIST[c + 1]
    ensures c < 16 ==> CPDIST[c] + Pow2(EXTRA_DBITS[c]) <= 257
  {
    SmallPowers();
    hide Pow2;
    SameExtraBits();
    if c < 29 { DistSteps(c); }
    if c < 15 { DistMono(c + 1, 16); }
  }

  // from code 16 on, distances go by 128
  lemma DistNext128(c: nat)
    requires 16 <= c < 30
    ensures EXTRA_DBITS[c] >= 7 && Pow2(EXTRA_DBITS[c]) == 128 * Pow2(EXTRA_DBITS[c] - 7)
    ensures CPDIST[16] == 257 && CPDIST[c] + Pow2(EXTRA_DBITS[c]) <= 32769
  {
    SmallPowers();
    hide Pow2;
    var e := EXTRA_DBITS[c];
    assert 7 <= e <= 13;
    if c < 28 { DistMono(c + 1, 29); }
    DistNext(c);
    DistNext(29);
  }

  lemma DistHere(d: nat, c: nat)
    requires d < 32768 && c < 30 && CPDIST[c] <= d + 1 < CPDIST[c] + Pow2(EXTRA_DBITS[c])
    ensures DistCode(d) == c
  {
    DistNext(c);
    DistUnique(d, c);
  }

  // entries for distances below 256
  ghost predicate NearCodes(distCode: seq<nat>, dist: nat) {
    |distCode| == 512 && dist <= 256 && forall d :: 0 <= d < dist ==> distCode[d] == DistCode(d)
  }

  // entries for groups of 128 distances
  ghost predicate FarCodes(distCode: seq<nat>, dist: nat) {
    |distCode| == 512 && 2 <= dist <= 256 && forall j :: 2 <= j < dist ==> GroupCode(distCode, j)
  }

  ghost predicate GroupCode(distCode: seq<nat>, j: nat)
    requires |distCode| == 512 && j < 256
  {
    forall d :: 128 * j <= d < 128 * j + 128 && d < 32768 ==> distCode[256 + j] == DistCode(d)
  }

  lemma GroupHere(distCode: seq<nat>, j: nat, c: nat)
    requires |distCode| == 512 && j < 256 && c < 30 && distCode[256 + j] == c
    requires CPDIST[c] <= 128 * j + 1 && 128 * j + 128 < CPDIST[c] + Pow2(EXTRA_DBITS[c])
    ensures GroupCode(distCode, j)
  {
    hide Pow2, DistCode;
    forall d | 128 * j <= d < 128 * j + 128 && d < 32768 ensures distCode[256 + j] == DistCode(d) {
      DistHere(d, c);
    }
  }

  lemma AllCodes(distCode: seq<nat>)
    requires NearCodes(distCode, 256) && FarCodes(distCode, 256)
    ensures forall d :: 0 <= d < 32768 ==> DCode(distCode, d) == DistCode(d)
  {
    hide DistCode;
    forall d | 0 <= d < 32768 ensures DCode(distCode, d) == DistCode(d) {
      if d >= 256 { assert GroupCode(distCode, d / 128); }
    }
  }

  method DistCodes() returns (distCode: array<nat>, baseDist: array<nat>)
    ensures fresh(distCode) && fresh(baseDist) && DistTables(distCode[..], baseDist[..])
  {
    hide Pow2, DistCode, CPDIST, CPDEXT, EXTRA_DBITS;
    TableSizes();
    distCode := new nat[512](_ => 0);
    baseDist := new nat[D_CODES](_ => 0);
    var dist: nat, code: nat := 0, 0;
    FirstDist();
    DistNext128(16);
    while code < 16
      invariant code <= 16 && dist + 1 == CPDIST[code] && NearCodes(distCode[..], dist)
      invariant forall c :: 0 <= c < code ==> baseDist[c] + 1 == CPDIST[c]
    {
      DistNext(code);
      baseDist[code] := dist;
      var n, m := 0, Shl(1, EXTRA_DBITS[code]);
      ghost var from := dist;
      while n < m
        invariant n <= m && dist == from + n && NearCodes(distCode[..], dist)
        invariant forall c :: 0 <= c <= code ==> baseDist[c] + 1 == CPDIST[c]
      {
        DistHere(dist, code);
        distCode[dist] := code;
        dist := dist + 1;
        n := n + 1;
      }
      code := code + 1;
    }
    dist := dist / 128;
    while code < D_CODES
      invariant 16 <= code <= D_CODES && NearCodes(distCode[..], 256) && FarCodes(distCode[..], dist)
      invariant 128 * dist + 1 == if code == D_CODES then 32769 else CPDIST[code]
      invariant forall c :: 0 <= c < code ==> baseDist[c] + 1 == CPDIST[c]
    {
      DistNext(code);
      DistNext128(code);
      baseDist[code] := dist * 128;
      var n, m := 0, Shl(1, EXTRA_DBITS[code] - 7);
      ghost var from := dist;
      while n < m
        invariant n <= m && dist == from + n && NearCodes(distCode[..], 256) && FarCodes(distCode[..], dist)
        invariant forall c :: 0 <= c <= code ==> baseDist[c] + 1 == CPDIST[c]
      {
        ghost var before := distCode[..];
        distCode[256 + dist] := code;
        FarStep(before, distCode[..], dist);
        GroupHere(distCode[..], dist, code);
        dist := dist + 1;
        n := n + 1;
      }
      code := code + 1;
    }
    AllCodes(distCode[..]);
  }

  lemma FarStep(a: seq<nat>, b: seq<nat>, dist: nat)
    requires FarCodes(a, dist) && dist < 256 && |b| == 512 && forall i :: 0 <= i < 512 && i != 256 + dist ==>
        b[i] == a[i]
    ensures FarCodes(b, dist)
  {
    forall j | 2 <= j < dist ensures GroupCode(b, j) { assert GroupCode(a, j); }
  }

  lemma FirstDist()
    ensures CPDIST[0] == 1
  {
  }

  // --- The static trees ---

  // lengths of the first n symbols, counted
  ghost predicate CountedFront(bl: seq<nat>, dl: seq<nat>, n: nat) {
    && |bl| == 16 && n <= 288 <= |dl| && (forall i :: 0 <= i < n ==> dl[i] == FixedLen(i))
    && forall k :: 0 <= k <= 15 ==> bl[k] == CountTo(FixedLL(), n, k)
  }

  method SetLens(dl: array<nat>, bl: array<nat>, from: nat, to: nat, len: nat)
    requires dl != bl && dl.Length >= 288 && bl.Length == 16 && from <= to <= 288 && len <= 15
    requires CountedFront(bl[..], dl[..], from) && forall i :: from <= i < to ==> FixedLen(i) == len
    modifies dl, bl
    ensures CountedFront(bl[..], dl[..], to)
  {
    hide FixedLen;
    var n := from;
    while n < to
      invariant from <= n <= to && CountedFront(bl[..], dl[..], n)
    {
      FixedNext(n);
      dl[n] := len;
      bl[len] := bl[len] + 1;
      n := n + 1;
    }
  }

  lemma FixedNext(n: nat)
    requires n < 288
    ensures forall k: nat :: CountTo(FixedLL(), n + 1, k) == CountTo(FixedLL(), n, k) + if FixedLen(n) == k then 1
        else 0
  {
    CountNext(FixedLL(), n);
  }

  lemma FixedNone(dl: seq<nat>)
    requires |dl| >= 288
    ensures CountedFront(seq(16, _ => 0), dl, 0)
  {
  }

  lemma FixedCounted(bl: seq<nat>, dl: seq<nat>)
    requires CountedFront(bl, dl, 288)
    ensures CountedBy(bl, FixedLL()) && dl[..288] == FixedLL()
  {
    hide CountTo;
    FixedCounts(0);
  }

  method StaticTrees() returns (ltree: Tree, dtree: Tree)
    ensures fresh(ltree) && fresh(dtree) && fresh(ltree.fc) && fresh(ltree.dl) && fresh(dtree.fc) && fresh(dtree.dl)
    ensures ltree.fc != ltree.dl && dtree.fc != dtree.dl
    ensures ltree.dl[..] == FixedLL() && Coded(ltree.fc[..], FixedLL()) && ltree.fc.Length == 288
    ensures dtree.dl[..] == FixedDL() && Coded(dtree.fc[..], FixedDL()) && dtree.fc.Length == D_CODES
  {
    hide CountTo, Coded, CountedBy, Decodable, CountedFront, FixedLL, FixedDL;
    ltree := new Tree(288);
    dtree := new Tree(D_CODES);
    var bl := new nat[16](_ => 0);
    FixedComplete();
    assert bl[..] == seq(16, _ => 0);
    FixedNone(ltree.dl[..]);
    SetLens(ltree.dl, bl, 0, 144, 8);
    SetLens(ltree.dl, bl, 144, 256, 9);
    SetLens(ltree.dl, bl, 256, 280, 7);
    SetLens(ltree.dl, bl, 280, 288, 8);
    FixedCounted(bl[..], ltree.dl[..]);
    assert ltree.dl[..288] == ltree.dl[..];
    GenCodes(ltree.fc, ltree.dl, bl, 287, FixedLL());
    StaticDist(dtree);
  }

  lemma FixedDistCode(n: nat)
    requires n < D_CODES
    ensures Codeword(FixedDL(), n) == CodeBits(n, 5)
  {
    CountRun(FixedDL(), 0, n, 5, 5);
    CountNone(FixedDL(), 5);
    FixedKraft(4);
  }

  method StaticDist(dtree: Tree)
    requires dtree.fc != dtree.dl && dtree.fc.Length == dtree.dl.Length == D_CODES
    modifies dtree.fc, dtree.dl
    ensures dtree.dl[..] == FixedDL() && Coded(dtree.fc[..], FixedDL())
  {
    hide Codeword, BitsOf, Pow2, CodeBits;
    var n := 0;
    while n < D_CODES
      invariant n <= D_CODES
      invariant forall i :: 0 <= i < n ==> dtree.dl[i] == 5
      invariant forall i :: 0 <= i < n ==> dtree.fc[i] < Pow2(5) && BitsOf(dtree.fc[i], 5) == Codeword(FixedDL(), i)
    {
      FixedDistCode(n);
      dtree.dl[n] := 5;
      var code := BiReverse(n, 5);
      dtree.fc[n] := code;
      n := n + 1;
    }
    assert dtree.dl[..] == FixedDL();
    forall i | 0 <= i < D_CODES ensures CodeSet(dtree.fc[..], FixedDL(), i) {
    }
  }
}
