/**
 Bits, bytes and the C operators on unsigned integers.
 A bit string is written in stream order: its first element is the first bit
 that leaves the encoder (section 3.1.1 of RFC 1951).
 */
module Bits {

  type Bit = b: int | 0 <= b <= 1
  type Byte = b: int | 0 <= b < 256

  function Pow2(n: nat): (r: nat)
    ensures r >= 1
  {
    if n == 0 then 1 else 2 * Pow2(n - 1)
  }

  lemma {:induction false} Pow2Add(a: nat, b: nat)
    ensures Pow2(a + b) == Pow2(a) * Pow2(b)
  {
    if b > 0 {
      Pow2Add(a, b - 1);
      assert Pow2(a + b) == 2 * Pow2(a + (b - 1));
    }
  }

  lemma {:induction false} Pow2Mono(a: nat, b: nat)
    requires a <= b
    ensures Pow2(a) <= Pow2(b)
  {
    if a < b {
      Pow2Mono(a, b - 1);
    }
  }

  // --- Division ---

  lemma DivModUnique(x: int, d: int, q: int, r: int)
    requires 0 <= r < d
    requires x == q * d + r
    ensures x / d == q && x % d == r
  {
    var k := x / d - q;
    assert x == (x / d) * d + x % d;
    assert k * d == r - x % d by {
      assert (x / d) * d == k * d + q * d;
    }
    MulBound(k, d);
  }

  lemma MulBound(k: int, d: int)
    requires d >= 0
    ensures k >= 1 ==> k * d >= d
    ensures k <= -1 ==> k * d <= -d
  {
    if k >= 1 { MulGe(k, d); }
    if k <= -1 { MulGe(-k, d); }
  }

  lemma MulMono(a: int, b: int, d: int)
    requires a <= b && d >= 0
    ensures a * d <= b * d
  {
  }

  // x / d < b  when  x < b * d
  lemma DivBelow(x: int, d: int, b: int)
    requires d > 0 && x < b * d
    ensures x / d < b
  {
    if x / d >= b { MulMono(b, x / d, d); }
  }

  lemma MulGe(k: int, d: int)
    requires k >= 1 && d >= 0
    ensures k * d >= d
  {
    assert k * d == (k - 1) * d + d;
  }

  lemma DivAtLeast(x: int, d: int, b: int)
    requires d > 0 && b * d <= x
    ensures b <= x / d
  {
    var q := x / d;
    assert (q + 1) * d == q * d + d;
    if q < b { MulMono(q + 1, b, d); }
  }

  // x = low n bits u, then v above them
  lemma SplitAt(u: nat, v: nat, n: nat)
    requires u < Pow2(n)
    ensures (u + v * Pow2(n)) / Pow2(n) == v
    ensures (u + v * Pow2(n)) % Pow2(n) == u
  {
    hide *;
    DivModUnique(u + v * Pow2(n), Pow2(n), v, u);
  }

  lemma DivPow2Step(v: nat, n: nat)
    ensures v / Pow2(n + 1) == (v / 2) / Pow2(n)
    ensures v / Pow2(n + 1) == (v / Pow2(n)) / 2
    ensures v % Pow2(n + 1) == v % 2 + 2 * ((v / 2) % Pow2(n))
  {
    assert Pow2(n + 1) == 2 * Pow2(n);
    hide *;
    var p := Pow2(n);
    var h := v / 2;
    var q := h / p;
    var r := h % p;
    assert h == q * p + r;
    Double(q, p);
    DivModUnique(v, 2 * p, q, 2 * r + v % 2);
    DivHalf(v, p);
  }

  lemma DivHalf(v: nat, p: nat)
    requires p > 0
    ensures v / (2 * p) == v / p / 2
  {
    var s := v / p;
    assert v == s * p + v % p;
    assert s == 2 * (s / 2) + s % 2;
    assert s * p == (2 * (s / 2)) * p + (s % 2) * p;
    assert (2 * (s / 2)) * p == (s / 2) * (2 * p);
    assert (s % 2) * p <= p;
    DivModUnique(v, 2 * p, s / 2, (s % 2) * p + v % p);
  }

  lemma {:induction false} DivDiv(v: nat, a: nat, b: nat)
    ensures (v / Pow2(a)) / Pow2(b) == v / Pow2(a + b)
  {
    if a == 0 {
    } else {
      DivPow2Step(v, a - 1);
      DivPow2Step(v, a - 1 + b);
      DivDiv(v / 2, a - 1, b);
    }
  }

  lemma DivLt(v: nat, a: nat, b: nat)
    requires v < Pow2(a + b)
    ensures v / Pow2(a) < Pow2(b)
  {
    Pow2Add(a, b);
    DivBelow(v, Pow2(a), Pow2(b));
  }

  // --- The C operators |, &, ^, << and >> on unsigned integers ---

  function Or(a: nat, b: nat): (r: nat) {
    if a == 0 then b
    else if b == 0 then a
    else (if a % 2 == 1 || b % 2 == 1 then 1 else 0) + 2 * Or(a / 2, b / 2)
  }

  function And(a: nat, b: nat): (r: nat) {
    if a == 0 || b == 0 then 0
    else (if a % 2 == 1 && b % 2 == 1 then 1 else 0) + 2 * And(a / 2, b / 2)
  }

  function Xor(a: nat, b: nat): (r: nat) {
    if a == 0 then b
    else if b == 0 then a
    else (if a % 2 != b % 2 then 1 else 0) + 2 * Xor(a / 2, b / 2)
  }

  function Shl(a: nat, n: nat): (r: nat) { a * Pow2(n) }

  function Shr(a: nat, n: nat): (r: nat) {
    if n == 0 then a else Shr(a / 2, n - 1)
  }

  lemma {:induction false} ShrDiv(a: nat, n: nat)
    ensures Shr(a, n) == a / Pow2(n)
    decreases n
  {
    if n > 0 {
      ShrDiv(a / 2, n - 1);
      DivPow2Step(a, n - 1);
    }
  }

  // bits that do not overlap are combined by addition
  lemma {:induction false} OrDisjoint(a: nat, b: nat, n: nat)
    requires a < Pow2(n)
    ensures Or(a, b * Pow2(n)) == a + b * Pow2(n)
    decreases n
  {
    if a == 0 || b == 0 {
      if b == 0 { assert b * Pow2(n) == 0; }
    } else {
      assert n > 0;
      var m := b * Pow2(n - 1);
      assert b * Pow2(n) == 2 * m;
      OrDisjoint(a / 2, b, n - 1);
    }
  }

  lemma {:induction false} AndMask(a: nat, n: nat)
    ensures And(a, Pow2(n) - 1) == a % Pow2(n)
    decreases n
  {
    if n > 0 {
      AndMask(a / 2, n - 1);
      DivPow2Step(a, n - 1);
      assert (Pow2(n) - 1) / 2 == Pow2(n - 1) - 1;
      assert (Pow2(n) - 1) % 2 == 1;
    }
  }

  // testing and toggling one bit
  lemma {:induction false} OneBit(a: nat, n: nat)
    ensures And(a, Pow2(n)) == (if (a / Pow2(n)) % 2 == 1 then Pow2(n) else 0)
    ensures Xor(a, Pow2(n)) == (if (a / Pow2(n)) % 2 == 1 then a - Pow2(n) else a + Pow2(n))
    decreases n
  {
    if n > 0 {
      OneBit(a / 2, n - 1);
      DivPow2Step(a, n - 1);
      assert Pow2(n) / 2 == Pow2(n - 1) && Pow2(n) % 2 == 0;
      if a == 0 { assert 0 / Pow2(n) == 0; }
    } else {
      if a > 0 { assert And(a / 2, 0) == 0 && Xor(a / 2, 0) == a / 2; }
    }
  }

  // --- Bit strings ---

  // the n low bits of v, least significant first: how plain values travel
  function BitsOf(v: nat, n: nat): (s: seq<Bit>)
    ensures |s| == n
  {
    if n == 0 then [] else [v % 2] + BitsOf(v / 2, n - 1)
  }

  // the value of a bit string, least significant bit first
  function Val(s: seq<Bit>): (v: nat)
    ensures v < Pow2(|s|)
  {
    if s == [] then 0 else s[0] + 2 * Val(s[1..])
  }

  // the n-bit code c, most significant bit first: how Huffman codes travel
  function CodeBits(c: nat, n: nat): (s: seq<Bit>)
    ensures |s| == n
  {
    if n == 0 then [] else CodeBits(c / 2, n - 1) + [c % 2]
  }

  // the value of a bit string, most significant bit first
  function Msb(s: seq<Bit>): (v: nat)
    ensures v < Pow2(|s|)
  {
    if s == [] then 0 else 2 * Msb(s[..|s| - 1]) + s[|s| - 1]
  }

  lemma {:induction false} ValBits(v: nat, n: nat)
    ensures Val(BitsOf(v, n)) == v % Pow2(n)
    decreases n
  {
    if n > 0 {
      ValBits(v / 2, n - 1);
      DivPow2Step(v, n - 1);
      assert BitsOf(v, n)[1..] == BitsOf(v / 2, n - 1);
    }
  }

  lemma {:induction false} BitsVal(s: seq<Bit>)
    ensures BitsOf(Val(s), |s|) == s
  {
    if s != [] {
      BitsVal(s[1..]);
      assert Val(s) / 2 == Val(s[1..]) && Val(s) % 2 == s[0];
      assert s == [s[0]] + s[1..];
    }
  }

  lemma {:induction false} ValAppend(a: seq<Bit>, b: seq<Bit>)
    ensures Val(a + b) == Val(a) + Val(b) * Pow2(|a|)
  {
    if a == [] {
      assert a + b == b;
    } else {
      ValAppend(a[1..], b);
      assert (a + b)[1..] == a[1..] + b;
      Double(Val(b), Pow2(|a| - 1));
    }
  }

  lemma Double(x: int, p: int)
    ensures 2 * (x * p) == x * (2 * p)
  {
  }

  lemma {:induction false} BitsSplit(v: nat, a: nat, b: nat)
    ensures BitsOf(v, a + b) == BitsOf(v, a) + BitsOf(Shr(v, a), b)
    decreases a
  {
    if a > 0 {
      BitsSplit(v / 2, a - 1, b);
      assert a + b - 1 == (a - 1) + b;
    }
  }

  // only the low n bits matter
  lemma BitsMod(v: nat, n: nat)
    ensures BitsOf(v % Pow2(n), n) == BitsOf(v, n)
  {
    hide *;
    ValBits(v, n);
    BitsVal(BitsOf(v, n));
  }

  // two fields packed into one integer
  lemma BitsJoin(u: nat, a: nat, v: nat, b: nat)
    requires u < Pow2(a)
    ensures BitsOf(u + v * Pow2(a), a + b) == BitsOf(u, a) + BitsOf(v, b)
  {
    hide *;
    SplitAt(u, v, a);
    BitsSplit(u + v * Pow2(a), a, b);
    ShrDiv(u + v * Pow2(a), a);
    BitsMod(u + v * Pow2(a), a);
  }

  lemma {:induction false} MsbCode(c: nat, n: nat)
    requires c < Pow2(n)
    ensures Msb(CodeBits(c, n)) == c
    decreases n
  {
    if n > 0 {
      MsbCode(c / 2, n - 1);
      assert CodeBits(c, n)[..n - 1] == CodeBits(c / 2, n - 1);
    }
  }

  lemma {:induction false} CodeMsb(s: seq<Bit>)
    ensures CodeBits(Msb(s), |s|) == s
  {
    if s != [] {
      CodeMsb(s[..|s| - 1]);
      assert Msb(s) / 2 == Msb(s[..|s| - 1]) && Msb(s) % 2 == s[|s| - 1];
      assert s == s[..|s| - 1] + [s[|s| - 1]];
    }
  }

  // the first w bits of a code are its w most significant bits
  lemma {:induction false} CodeTop(c: nat, n: nat, w: nat)
    requires w <= n
    ensures CodeBits(c, n)[..w] == CodeBits(c / Pow2(n - w), w)
    decreases n
  {
    if w == n {
      assert CodeBits(c, n)[..w] == CodeBits(c, n);
    } else {
      CodeTop(c / 2, n - 1, w);
      DivPow2Step(c, n - 1 - w);
      assert CodeBits(c, n)[..w] == CodeBits(c / 2, n - 1)[..w];
    }
  }

  function Reverse(s: seq<Bit>): (r: seq<Bit>)
    ensures |r| == |s|
  {
    if s == [] then [] else Reverse(s[1..]) + [s[0]]
  }

  // the same value read from either end
  lemma {:induction false} ReverseBits(c: nat, n: nat)
    ensures Reverse(BitsOf(c, n)) == CodeBits(c, n)
    decreases n
  {
    if n > 0 {
      ReverseBits(c / 2, n - 1);
      assert BitsOf(c, n)[1..] == BitsOf(c / 2, n - 1);
    }
  }

  // --- Bytes as bits: section 3.1.1 of RFC 1951 ---

  function ByteBits(b: Byte): (s: seq<Bit>)
    ensures |s| == 8
  {
    BitsOf(b, 8)
  }

  lemma ByteBitsVal(b: Byte)
    ensures Val(ByteBits(b)) == b
  {
    hide Val, BitsOf;
    ValBits(b, 8);
    Pow2Eight();
    hide Pow2;
  }

  lemma Pow2Eight()
    ensures Pow2(8) == 256
  {
  }

  function BytesToBits(s: seq<Byte>): (r: seq<Bit>)
    ensures |r| == 8 * |s|
  {
    if s == [] then [] else ByteBits(s[0]) + BytesToBits(s[1..])
  }

  lemma {:induction false} BytesAppend(a: seq<Byte>, b: seq<Byte>)
    ensures BytesToBits(a + b) == BytesToBits(a) + BytesToBits(b)
  {
    if a == [] {
      assert a + b == b;
      assert BytesToBits(a) + BytesToBits(b) == BytesToBits(b);
    } else {
      BytesAppend(a[1..], b);
      assert (a + b)[1..] == a[1..] + b;
      assert ByteBits(a[0]) + (BytesToBits(a[1..]) + BytesToBits(b))
          == (ByteBits(a[0]) + BytesToBits(a[1..])) + BytesToBits(b);
    }
  }

  lemma {:induction false} BytesInjective(a: seq<Byte>, b: seq<Byte>)
    requires BytesToBits(a) == BytesToBits(b)
    ensures a == b
  {
    if a != [] {
      assert BytesToBits(a)[..8] == ByteBits(a[0]) && BytesToBits(b)[..8] == ByteBits(b[0]);
      assert BytesToBits(a)[8..] == BytesToBits(a[1..]) && BytesToBits(b)[8..] == BytesToBits(b[1..]);
      ByteBitsVal(a[0]);
      ByteBitsVal(b[0]);
      BytesInjective(a[1..], b[1..]);
      assert a == [a[0]] + a[1..] && b == [b[0]] + b[1..];
    }
  }

  lemma Assoc<T>(a: seq<T>, b: seq<T>, c: seq<T>)
    ensures a + (b + c) == a + b + c
  {
  }

  lemma Distribute(x: int, y: int, z: int)
    ensures (x + y) * z == x * z + y * z
  {
  }
}
