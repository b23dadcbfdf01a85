/**
 Canonical Huffman codes: section 3.2.2 of RFC 1951.
 A code is given by its vector of code lengths; length 0 means "not used".
 */
module Canonical {
  import opened Bits

  const MAX_BITS := 15   // longest code of trees.c
  const BMAX := 16       // longest code huft_build is ready for

  datatype Option<+T> = None | Some(value: T)

  // number of symbols below n whose code has length k
  function CountTo(lens: seq<nat>, n: nat, k: nat): (r: nat)
    requires n <= |lens|
    ensures r <= n
  {
    if n == 0 then 0 else CountTo(lens, n - 1, k) + (if lens[n - 1] == k then 1 else 0)
  }

  // how many codes there are of each length 0..BMAX
  function Counts(lens: seq<nat>): (c: seq<nat>)
    ensures |c| == BMAX + 1
    ensures forall k :: 0 <= k <= BMAX ==> c[k] == CountTo(lens, |lens|, k)
  {
    seq(BMAX + 1, k requires 0 <= k => CountTo(lens, |lens|, k))
  }

  // Kraft sum of the codes of length at most n, in units of 2^-n
  function Kraft(c: seq<nat>, n: nat): (r: nat)
    requires n < |c|
  {
    if n == 0 then 0 else 2 * Kraft(c, n - 1) + c[n]
  }

  // smallest code of length k
  function First(c: seq<nat>, k: nat): (r: nat)
    requires 1 <= k <= |c|
  {
    2 * Kraft(c, k - 1)
  }

  // the code of a symbol: codes of one length are consecutive, in symbol order
  function Code(lens: seq<nat>, sym: nat): (r: nat)
    requires sym < |lens| && 1 <= lens[sym] <= BMAX
  {
    First(Counts(lens), lens[sym]) + CountTo(lens, sym, lens[sym])
  }

  function Codeword(lens: seq<nat>, sym: nat): (s: seq<Bit>)
    requires sym < |lens| && 1 <= lens[sym] <= BMAX
    ensures |s| == lens[sym]
  {
    CodeBits(Code(lens, sym), lens[sym])
  }

  predicate LensOk(lens: seq<nat>) {
    forall i :: 0 <= i < |lens| ==> lens[i] <= MAX_BITS
  }

  // not oversubscribed
  predicate Decodable(lens: seq<nat>) {
    LensOk(lens) && Kraft(Counts(lens), MAX_BITS) <= Pow2(MAX_BITS)
  }

  // no bit pattern is left unused
  predicate Complete(lens: seq<nat>) {
    LensOk(lens) && Kraft(Counts(lens), MAX_BITS) == Pow2(MAX_BITS)
  }

  predicate AllZero(lens: seq<nat>) { forall i :: 0 <= i < |lens| ==> lens[i] == 0 }

  // a single code, of one bit
  predicate SingleBit(lens: seq<nat>) {
    (forall i :: 0 <= i < |lens| ==> lens[i] <= 1) && CountTo(lens, |lens|, 1) == 1
  }

  // the code sets that inflate goes on with
  predicate Acceptable(lens: seq<nat>) { Complete(lens) || AllZero(lens) || SingleBit(lens) }

  lemma {:induction false} KraftGrow(c: seq<nat>, k: nat, n: nat)
    requires k <= n < |c|
    ensures Kraft(c, k) * Pow2(n - k) <= Kraft(c, n)
    decreases n
  {
    if k < n {
      KraftGrow(c, k, n - 1);
      Double(Kraft(c, k), Pow2(n - 1 - k));
    }
  }

  lemma KraftBelow(c: seq<nat>, k: nat, n: nat)
    requires k <= n < |c| && Kraft(c, n) <= Pow2(n)
    ensures Kraft(c, k) <= Pow2(k)
  {
    KraftGrow(c, k, n);
    Pow2Add(k, n - k);
    if Kraft(c, k) > Pow2(k) {
      MulMono(Pow2(k) + 1, Kraft(c, k), Pow2(n - k));
    }
  }

  lemma {:induction false} CountMono(lens: seq<nat>, i: nat, j: nat, k: nat)
    requires i <= j <= |lens|
    ensures CountTo(lens, i, k) <= CountTo(lens, j, k)
    decreases j
  {
    if i < j { CountMono(lens, i, j - 1, k); }
  }

  // a symbol's code lies among the codes of its length
  lemma CodeRange(lens: seq<nat>, sym: nat)
    requires sym < |lens| && 1 <= lens[sym] <= BMAX
    ensures First(Counts(lens), lens[sym]) <= Code(lens, sym) < Kraft(Counts(lens), lens[sym])
  {
    CountMono(lens, sym + 1, |lens|, lens[sym]);
  }

  lemma CodeFits(lens: seq<nat>, sym: nat)
    requires Decodable(lens) && sym < |lens| && lens[sym] >= 1
    ensures Code(lens, sym) < Pow2(lens[sym])
  {
    CodeRange(lens, sym);
    KraftBelow(Counts(lens), lens[sym], MAX_BITS);
  }

  // the first k bits of a longer code are beyond all codes of length k
  lemma PrefixBeyond(c: seq<nat>, code: nat, n: nat, k: nat)
    requires 1 <= k < n < |c| && First(c, n) <= code
    ensures Kraft(c, k) <= code / Pow2(n - k)
  {
    KraftGrow(c, k, n - 1);
    Double(Kraft(c, k), Pow2(n - 1 - k));
    assert Pow2(n - k) == 2 * Pow2(n - 1 - k);
    DivAtLeast(code, Pow2(n - k), Kraft(c, k));
  }

  // q is one of the codes of length n
  predicate IsCode(c: seq<nat>, n: nat, q: nat) {
    1 <= n < |c| && First(c, n) <= q < Kraft(c, n)
  }

  lemma IsCodeFits(c: seq<nat>, g: nat, n: nat, q: nat)
    requires n <= g < |c| && Kraft(c, g) <= Pow2(g) && IsCode(c, n, q)
    ensures q < Pow2(n)
  {
    KraftBelow(c, n, g);
  }

  lemma PrefixIsTake(a: seq<Bit>, b: seq<Bit>)
    requires a <= b
    ensures b[..|a|] == a
    ensures |a| == |b| ==> a == b
  {
  }

  // no code is a prefix of another
  lemma PrefixFreeCodes(c: seq<nat>, g: nat, n1: nat, q1: nat, n2: nat, q2: nat)
    requires n1 <= n2 <= g < |c| && Kraft(c, g) <= Pow2(g)
    requires IsCode(c, n1, q1) && IsCode(c, n2, q2)
    requires CodeBits(q1, n1) <= CodeBits(q2, n2)
    ensures n1 == n2 && q1 == q2
  {
    IsCodeFits(c, g, n1, q1);
    IsCodeFits(c, g, n2, q2);
    MsbCode(q1, n1);
    MsbCode(q2, n2);
    PrefixIsTake(CodeBits(q1, n1), CodeBits(q2, n2));
    if n1 < n2 {
      MsbTop(q2, n2, n1);
      PrefixBeyond(c, q2, n2, n1);
    }
  }

  // no codeword is a prefix of another
  lemma PrefixFree(lens: seq<nat>, a: nat, b: nat)
    requires Decodable(lens) && a < |lens| && b < |lens| && a != b && 1 <= lens[a] <= lens[b]
    ensures !(Codeword(lens, a) <= Codeword(lens, b))
  {
    CodeRange(lens, a);
    CodeRange(lens, b);
    if Codeword(lens, a) <= Codeword(lens, b) {
      PrefixFreeCodes(Counts(lens), MAX_BITS, lens[a], Code(lens, a), lens[b], Code(lens, b));
      SymbolUnique(lens, a, b);
    }
  }

  // the value of the first w bits of a code
  lemma MsbTop(c: nat, n: nat, w: nat)
    requires w <= n && c < Pow2(n)
    ensures Msb(CodeBits(c, n)[..w]) == c / Pow2(n - w)
  {
    hide *;
    CodeTop(c, n, w);
    DivLt(c, n - w, w);
    MsbCode(c / Pow2(n - w), w);
  }

  // --- Decoding one bit at a time ---

  // the symbol that is number j among those of length k
  function SymbolAt(lens: seq<nat>, n: nat, k: nat, j: nat): (sym: nat)
    requires n <= |lens| && j < CountTo(lens, n, k)
    ensures sym < n && lens[sym] == k && CountTo(lens, sym, k) == j
  {
    if lens[n - 1] == k && CountTo(lens, n - 1, k) == j then n - 1 else SymbolAt(lens, n - 1, k, j)
  }

  lemma SymbolUnique(lens: seq<nat>, a: nat, b: nat)
    requires a < |lens| && b < |lens| && lens[a] == lens[b]
    requires CountTo(lens, a, lens[a]) == CountTo(lens, b, lens[b])
    ensures a == b
  {
    if a != b {
      CountMono(lens, (if a < b then a else b) + 1, if a < b then b else a, lens[a]);
    }
  }

  // some symbol has the k-bit code c
  predicate Hits(lens: seq<nat>, k: nat, c: nat)
    requires 1 <= k <= MAX_BITS
  {
    First(Counts(lens), k) <= c < Kraft(Counts(lens), k)
  }

  function Hit(lens: seq<nat>, k: nat, c: nat): (sym: nat)
    requires 1 <= k <= MAX_BITS && Hits(lens, k, c)
    ensures sym < |lens| && lens[sym] == k && Code(lens, sym) == c
  {
    SymbolAt(lens, |lens|, k, c - First(Counts(lens), k))
  }

  lemma HitsCode(lens: seq<nat>, sym: nat)
    requires sym < |lens| && 1 <= lens[sym] <= MAX_BITS
    ensures Hits(lens, lens[sym], Code(lens, sym)) && Hit(lens, lens[sym], Code(lens, sym)) == sym
  {
    CodeRange(lens, sym);
    SymbolUnique(lens, sym, Hit(lens, lens[sym], Code(lens, sym)));
  }

  // after k bits with value code; a symbol and the number of bits it takes
  function DecodeFrom(lens: seq<nat>, s: seq<Bit>, k: nat, code: nat): (r: Option<(nat, nat)>)
    requires k <= MAX_BITS
    ensures r.Some? ==> r.value.0 < |lens| && k < r.value.1 <= MAX_BITS && r.value.1 <= |s|
    decreases MAX_BITS - k
  {
    if k == MAX_BITS || k >= |s| then None
    else
      var c := 2 * code + s[k];
      if Hits(lens, k + 1, c) then Some((Hit(lens, k + 1, c), k + 1))
      else DecodeFrom(lens, s, k + 1, c)
  }

  function DecodeSym(lens: seq<nat>, s: seq<Bit>): (r: Option<(nat, nat)>)
    ensures r.Some? ==> r.value.0 < |lens| && 0 < r.value.1 <= MAX_BITS && r.value.1 <= |s|
  {
    DecodeFrom(lens, s, 0, 0)
  }

  lemma DecodeStep(lens: seq<nat>, s: seq<Bit>, k: nat)
    requires k < MAX_BITS && k < |s|
    ensures DecodeFrom(lens, s, k, Msb(s[..k]))
         == if Hits(lens, k + 1, Msb(s[..k + 1])) then Some((Hit(lens, k + 1, Msb(s[..k + 1])), k + 1))
            else DecodeFrom(lens, s, k + 1, Msb(s[..k + 1]))
    ensures Msb(s[..k + 1]) == 2 * Msb(s[..k]) + s[k]
  {
    assert s[..k + 1][..k] == s[..k];
  }

  lemma {:induction false} DecodeFromCode(lens: seq<nat>, sym: nat, s: seq<Bit>, k: nat)
    requires Decodable(lens) && sym < |lens| && lens[sym] >= 1
    requires Codeword(lens, sym) <= s && k < lens[sym]
    ensures DecodeFrom(lens, s, k, Msb(s[..k])) == Some((sym, lens[sym]))
    decreases lens[sym] - k
  {
    DecodeStep(lens, s, k);
    PartOfCode(lens, sym, s, k + 1);
    if k + 1 < lens[sym] {
      DecodeFromCode(lens, sym, s, k + 1);
    }
  }

  // reading part of a codeword hits nothing; reading all of it hits its symbol
  lemma PartOfCode(lens: seq<nat>, sym: nat, s: seq<Bit>, k: nat)
    requires Decodable(lens) && sym < |lens| && 1 <= k <= lens[sym]
    requires Codeword(lens, sym) <= s
    ensures Hits(lens, k, Msb(s[..k])) <==> k == lens[sym]
    ensures k == lens[sym] ==> Hit(lens, k, Msb(s[..k])) == sym
  {
    var n, code := lens[sym], Code(lens, sym);
    assert s[..k] == Codeword(lens, sym)[..k];
    CodeFits(lens, sym);
    MsbTop(code, n, k);
    if k < n {
      CodeRange(lens, sym);
      PrefixBeyond(Counts(lens), code, n, k);
    } else {
      assert Pow2(0) == 1;
      HitsCode(lens, sym);
    }
  }

  // decoding inverts the code assignment, whatever follows
  lemma DecodeCode(lens: seq<nat>, sym: nat, s: seq<Bit>)
    requires Decodable(lens) && sym < |lens| && lens[sym] >= 1
    requires Codeword(lens, sym) <= s
    ensures DecodeSym(lens, s) == Some((sym, lens[sym]))
  {
    assert s[..0] == [];
    DecodeFromCode(lens, sym, s, 0);
  }

  // what has been decoded was a codeword
  lemma {:induction false} DecodeFromSound(lens: seq<nat>, s: seq<Bit>, k: nat)
    requires k <= MAX_BITS && k <= |s|
    requires DecodeFrom(lens, s, k, Msb(s[..k])).Some?
    ensures var (sym, n) := DecodeFrom(lens, s, k, Msb(s[..k])).value;
            lens[sym] == n && n >= 1 && Codeword(lens, sym) <= s
    decreases MAX_BITS - k
  {
    DecodeStep(lens, s, k);
    var c := Msb(s[..k + 1]);
    if Hits(lens, k + 1, c) {
      CodeMsb(s[..k + 1]);
      assert Codeword(lens, Hit(lens, k + 1, c)) == s[..k + 1];
    } else {
      DecodeFromSound(lens, s, k + 1);
    }
  }

  lemma DecodeSound(lens: seq<nat>, s: seq<Bit>)
    requires DecodeSym(lens, s).Some?
    ensures var (sym, n) := DecodeSym(lens, s).value;
            lens[sym] == n && n >= 1 && Codeword(lens, sym) <= s
  {
    assert s[..0] == [];
    DecodeFromSound(lens, s, 0);
  }

  // a complete code decodes every bit string
  lemma {:induction false} DecodeFromTotal(lens: seq<nat>, s: seq<Bit>, k: nat)
    requires Complete(lens) && k <= MAX_BITS <= |s|
    requires Kraft(Counts(lens), k) <= Msb(s[..k])
    ensures DecodeFrom(lens, s, k, Msb(s[..k])).Some?
    decreases MAX_BITS - k
  {
    if k < MAX_BITS {
      DecodeStep(lens, s, k);
      if !Hits(lens, k + 1, Msb(s[..k + 1])) {
        DecodeFromTotal(lens, s, k + 1);
      }
    }
  }

  lemma DecodeTotal(lens: seq<nat>, s: seq<Bit>)
    requires Complete(lens) && MAX_BITS <= |s|
    ensures DecodeSym(lens, s).Some?
  {
    assert s[..0] == [];
    DecodeFromTotal(lens, s, 0);
  }
}
