/**
 bi_reverse and gen_codes: the canonical code for given lengths, with the bits of
 each code reversed so that they leave the encoder in the right order.
 */
module TreeCodes {
  import opened Bits
  import opened Canonical
  import opened TreeMerge

  lemma {:induction false} ReverseConcat(a: seq<Bit>, b: seq<Bit>)
    ensures Reverse(a + b) == Reverse(b) + Reverse(a)
  {
    if a == [] {
      assert a + b == b;
    } else {
      ReverseConcat(a[1..], b);
      assert (a + b)[1..] == a[1..] + b;
    }
  }

  lemma {:induction false} ReverseTwice(s: seq<Bit>)
    ensures Reverse(Reverse(s)) == s
  {
    if s != [] {
      ReverseTwice(s[1..]);
      ReverseConcat(Reverse(s[1..]), [s[0]]);
      assert [s[0]][1..] == [];
      assert s == [s[0]] + s[1..];
    }
  }

  // the value whose bits are those of code from the other end
  lemma Reversed(code: nat, len: nat)
    ensures BitsOf(Msb(BitsOf(code, len)), len) == CodeBits(code, len)
  {
    var res := Msb(BitsOf(code, len));
    CodeMsb(BitsOf(code, len));
    ReverseBits(res, len);
    ReverseTwice(BitsOf(res, len));
    ReverseBits(code, len);
  }

  lemma {:induction false} BitsSnoc(code: nat, i: nat)
    ensures BitsOf(code, i + 1) == BitsOf(code, i) + [Shr(code, i) % 2]
    decreases i
  {
    if i > 0 { BitsSnoc(code / 2, i - 1); }
  }

  lemma ReverseStep(code: nat, i: nat)
    ensures Msb(BitsOf(code, i + 1)) == 2 * Msb(BitsOf(code, i)) + Shr(code, i) % 2
  {
    BitsSnoc(code, i);
    assert BitsOf(code, i + 1)[..i] == BitsOf(code, i);
  }

  lemma {:induction false} ShrHalf(code: nat, i: nat)
    ensures Shr(code, i + 1) == Shr(code, i) / 2
    decreases i
  {
    if i > 0 { ShrHalf(code / 2, i - 1); }
  }

  lemma OrBit(v: nat, b: nat)
    requires b < 2
    ensures Or(2 * v, b) == 2 * v + b
  {
    if v > 0 && b == 1 { assert Or(v, 0) == v; }
  }

  lemma AndOne(c: nat)
    ensures And(c, 1) == c % 2
  {
    if c > 0 { assert And(c / 2, 0) == 0; }
  }

  method BiReverse(code: nat, len: nat) returns (res: nat)
    requires len >= 1
    ensures res < Pow2(len) && BitsOf(res, len) == CodeBits(code, len)
  {
    hide BitsOf, CodeBits, Msb, Or, And, Shr, Pow2;
    res := 0;
    var c, left := code, len;
    ghost var i: nat := 0;
    ReverseNone(code);
    while left > 0
      invariant left == len - i && 0 <= i <= len && c == Shr(code, i)
      invariant res == 2 * Msb(BitsOf(code, i))
    {
      ReverseStep(code, i);
      ShrHalf(code, i);
      AndOne(c);
      OrBit(Msb(BitsOf(code, i)), c % 2);
      res := Or(res, And(c, 1));
      c, res := c / 2, res * 2;
      left := left - 1;
      i := i + 1;
    }
    Reversed(code, len);
    res := res / 2;
  }

  lemma ReverseNone(code: nat)
    ensures Msb(BitsOf(code, 0)) == 0 && Shr(code, 0) == code
  {
  }

  // --- gen_codes ---

  // bl counts the lengths
  ghost predicate CountedBy(bl: seq<nat>, lens: seq<nat>) {
    && |bl| == 16 && bl[0] == 0 && (forall i :: 0 <= i < |lens| ==> lens[i] <= 15)
    && forall k :: 1 <= k <= 15 ==> bl[k] == CountTo(lens, |lens|, k)
  }

  lemma {:induction false} KraftSame(a: seq<nat>, b: seq<nat>, n: nat)
    requires n < |a| && n < |b| && forall k :: 1 <= k <= n ==> a[k] == b[k]
    ensures Kraft(a, n) == Kraft(b, n)
    decreases n
  {
    if n > 0 { KraftSame(a, b, n - 1); }
  }

  // the first code of each length
  method NextCodes(bl: array<nat>, ghost lens: seq<nat>) returns (next: seq<nat>)
    requires bl.Length == 16 && CountedBy(bl[..], lens) && Decodable(lens)
    ensures |next| == 16 && forall k :: 1 <= k <= 15 ==> next[k] == First(Counts(lens), k)
  {
    hide CountTo, Counts, Kraft, Pow2;
    next := seq(16, _ => 0);
    var code, bits := 0, 1;
    ghost var c := Counts(lens);
    CodeStart(c);
    while bits <= 15
      invariant 1 <= bits <= 16 && |next| == 16
      invariant code == if bits == 1 then 0 else First(c, bits - 1)
      invariant forall k :: 1 <= k < bits ==> next[k] == First(c, k)
    {
      NextFirst(bl[..], lens, bits);
      code := (code + bl[bits - 1]) * 2 % 0x10000;
      next := next[bits := code];
      bits := bits + 1;
    }
  }

  lemma CodeStart(c: seq<nat>)
    requires |c| >= 2
    ensures First(c, 1) == 0
  {
  }

  lemma NextFirst(bl: seq<nat>, lens: seq<nat>, bits: nat)
    requires CountedBy(bl, lens) && Decodable(lens) && 1 <= bits <= 15
    ensures var c := Counts(lens);
            First(c, bits) == 2 * ((if bits == 1 then 0 else First(c, bits - 1)) + bl[bits - 1]) < 0x10000
  {
    var c := Counts(lens);
    KraftBelow(c, bits - 1, MAX_BITS);
    Pow2Mono(bits - 1, 14);
    assert Pow2(14) == 16384;
  }

  // the tree's code for symbol n is its canonical code
  ghost predicate CodeSet(fc: seq<nat>, lens: seq<nat>, n: nat) {
    n < |lens| && n < |fc| && (1 <= lens[n] <= 15 ==>
        fc[n] < Pow2(lens[n]) && BitsOf(fc[n], lens[n]) == Codeword(lens, n))
  }

  ghost predicate Coded(fc: seq<nat>, lens: seq<nat>) {
    |fc| >= |lens| && forall n :: 0 <= n < |lens| ==> CodeSet(fc, lens, n)
  }

  method GenCodes(fc: array<nat>, dl: array<nat>, bl: array<nat>, maxCode: int, ghost lens: seq<nat>)
    requires fc != dl && fc != bl && bl.Length == 16 && fc.Length == dl.Length >= |lens| && dl[..|lens|] == lens
    requires CountedBy(bl[..], lens) && Decodable(lens) && -1 <= maxCode < |lens|
    requires forall n :: maxCode < n < |lens| ==> lens[n] == 0
    modifies fc
    ensures Coded(fc[..], lens)
    ensures forall n :: 0 <= n < fc.Length && (n >= |lens| || lens[n] == 0) ==> fc[n] == old(fc[n])
  {
    hide CountTo, Counts, Kraft, Pow2, Codeword, Decodable, BitsOf, CodeBits;
    var next := NextCodes(bl, lens);
    ghost var c := Counts(lens);
    NoneBefore(lens);
    var n := 0;
    while n <= maxCode
      invariant 0 <= n <= maxCode + 1 && |next| == 16
      invariant forall k :: 1 <= k <= 15 ==> next[k] == First(c, k) + CountTo(lens, n, k)
      invariant forall i :: 0 <= i < n ==> CodeSet(fc[..], lens, i)
      invariant forall i :: 0 <= i < fc.Length && (i >= n || lens[i] == 0) ==> fc[i] == old(fc[i])
    {
      assert dl[n] == dl[..|lens|][n] == lens[n];
      var len := dl[n];
      CountNext(lens, n);
      if len != 0 {
        CodeNow(lens, n);
        var code := BiReverse(next[len], len);
        ghost var before := fc[..];
        fc[n] := code;
        next := next[len := (next[len] + 1) % 0x10000];
        forall i | 0 <= i < n ensures CodeSet(fc[..], lens, i) { assert CodeSet(before, lens, i); }
        assert CodeSet(fc[..], lens, n);
      }
      n := n + 1;
    }
    forall i | 0 <= i < |lens| ensures CodeSet(fc[..], lens, i) {
      if i >= n { assert lens[i] == 0; }
    }
  }

  lemma NoneBefore(lens: seq<nat>)
    ensures forall k: nat :: CountTo(lens, 0, k) == 0
  {
  }

  lemma CountNext(lens: seq<nat>, n: nat)
    requires n < |lens|
    ensures forall k: nat :: CountTo(lens, n + 1, k) == CountTo(lens, n, k) + if lens[n] == k then 1 else 0
  {
  }

  lemma CodeNow(lens: seq<nat>, n: nat)
    requires Decodable(lens) && n < |lens| && lens[n] >= 1
    ensures lens[n] <= 15 && Codeword(lens, n) ==
        CodeBits(First(Counts(lens), lens[n]) + CountTo(lens, n, lens[n]), lens[n])
    ensures First(Counts(lens), lens[n]) + CountTo(lens, n, lens[n]) < 0x8000
  {
    hide Kraft, CountTo, Counts, CodeBits;
    CodeFits(lens, n);
    Pow2Mono(lens[n], 15);
    Fifteen();
    hide Pow2;
  }

  lemma Fifteen()
    ensures Pow2(15) == 0x8000
  {
    assert Pow2(5) == 32;
    assert Pow2(10) == 1024;
  }
}
