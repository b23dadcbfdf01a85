/**
 UPDATE_HASH: a rolling hash of which three updates forget everything older.
 */
module Hash {
  import opened Bits

  const HASH_SIZE := 0x8000

  function Update(h: nat, c: Byte): (r: nat)
    ensures r < HASH_SIZE
  {
    Xor(h * 32, c) % HASH_SIZE
  }

  // the hash of three bytes
  function Key(a: Byte, b: Byte, c: Byte): (h: nat)
    ensures h < HASH_SIZE
  {
    Update(Update(a, b), c)
  }

  // what the next update uses of h is the two bytes a and b
  ghost predicate Rolled(h: nat, a: Byte, b: Byte) {
    h % 1024 == Xor(a * 32, b) % 1024
  }

  lemma XorStep(a: nat, b: nat)
    ensures Xor(a, b) == (if a % 2 != b % 2 then 1 else 0) + 2 * Xor(a / 2, b / 2)
  {
  }

  lemma ModDouble(x: nat, p: nat)
    requires p > 0
    ensures x % (2 * p) == x % 2 + 2 * (x / 2 % p)
  {
    var q, r := x / 2 / p, x / 2 % p;
    assert x / 2 == p * q + r;
    assert x == 2 * (x / 2) + x % 2;
    assert 2 * (p * q) == (2 * p) * q;
    DivModUnique(x, 2 * p, q, x % 2 + 2 * r);
  }

  lemma XorPair(p: nat, x: nat, q: nat, y: nat)
    requires p < 2 && q < 2
    ensures Xor(p + 2 * x, q + 2 * y) == (if p != q then 1 else 0) + 2 * Xor(x, y)
  {
    hide Xor;
    XorStep(p + 2 * x, q + 2 * y);
  }

  lemma XorModDouble(a: nat, b: nat, p: nat)
    requires p > 0 && Xor(a / 2, b / 2) % p == Xor(a / 2 % p, b / 2 % p)
    ensures Xor(a, b) % (2 * p) == Xor(a % (2 * p), b % (2 * p))
  {
    hide Xor;
    ModDouble(a, p);
    ModDouble(b, p);
    XorPair(a % 2, a / 2 % p, b % 2, b / 2 % p);
    XorStep(a, b);
    ModDouble(Xor(a, b), p);
  }

  lemma {:induction false} XorMod(a: nat, b: nat, n: nat)
    ensures Xor(a, b) % Pow2(n) == Xor(a % Pow2(n), b % Pow2(n))
    decreases n
  {
    if n > 0 {
      XorMod(a / 2, b / 2, n - 1);
      hide Xor;
      XorModDouble(a, b, Pow2(n - 1));
    }
  }

  lemma {:induction false} XorCancel(a: nat, b: nat, c: nat)
    requires Xor(a, b) == Xor(a, c)
    ensures b == c
    decreases a + b + c
  {
    if a + b + c > 0 {
      XorStep(a, b);
      XorStep(a, c);
      XorCancel(a / 2, b / 2, c / 2);
    }
  }

  lemma Powers()
    ensures Pow2(5) == 32 && Pow2(10) == 1024 && Pow2(15) == HASH_SIZE
  {
    assert Pow2(5) == 32;
    Pow2Add(5, 5);
    Pow2Add(10, 5);
  }

  lemma Shifted(x: nat)
    ensures x * 32 % 1024 == x % 32 * 32 && x * 32 % HASH_SIZE == x % 1024 * 32 && x * 32 % 32 == 0
  {
  }

  lemma ModMod(x: nat)
    ensures x % HASH_SIZE % 1024 == x % 1024 && x % 1024 % 32 == x % 32 && x % HASH_SIZE % 32 == x % 32
  {
    Inner(x, 1024, 32);
    Inner(x, 32, 32);
    Inner(x, 32, 1024);
  }

  lemma Inner(x: nat, d: nat, k: nat)
    requires d > 0 && k > 0
    ensures d * k > 0 && x % (d * k) % d == x % d
  {
    var q, r := x / (d * k), x % (d * k);
    assert x == d * k * q + r;
    assert d * k * q == d * (k * q);
    assert r == d * (r / d) + r % d;
    assert d * (k * q) + d * (r / d) == d * (k * q + r / d);
    DivModUnique(x, d, k * q + r / d, r % d);
  }

  // three updates give the hash of the last three bytes
  lemma KeyOf(h: nat, a: Byte, b: Byte, c: Byte)
    requires Rolled(h, a, b)
    ensures Update(h, c) == Key(a, b, c)
  {
    hide Xor, Pow2;
    Powers();
    XorMod(h * 32, c, 15);
    XorMod(Update(a, b) * 32, c, 15);
    Shifted(h);
    Shifted(Update(a, b));
    ModMod(Xor(a * 32, b));
  }

  lemma Roll(h: nat, a: Byte, b: Byte, c: Byte)
    requires Rolled(h, a, b)
    ensures Rolled(Update(h, c), b, c)
  {
    hide Xor, Pow2;
    Powers();
    ModMod(h);
    ModMod(Xor(a * 32, b));
    ModMod(Xor(h * 32, c));
    LowByte(a, b);
    assert h % 32 == b % 32;
    XorMod(h * 32, c, 10);
    XorMod(b * 32, c, 10);
    Shifted(h);
    Shifted(b);
  }

  lemma LowByte(h: nat, a: Byte)
    ensures Xor(h * 32, a) % 32 == a % 32
  {
    hide Xor, Pow2;
    Powers();
    XorMod(h * 32, a, 5);
    Shifted(h);
    XorZero(a % 32);
  }

  lemma XorZero(b: nat)
    ensures Xor(0, b) == b
  {
  }

  // two updates suffice for the next key
  lemma Started(h: nat, a: Byte, b: Byte)
    ensures Rolled(Update(Update(h, a), b), a, b) && Rolled(Update(a, b), a, b)
  {
    hide Xor, Pow2;
    Powers();
    var u := Update(h, a);
    LowByte(h, a);
    ModMod(Xor(h * 32, a));
    ModMod(Xor(u * 32, b));
    ModMod(Xor(a * 32, b));
    XorMod(u * 32, b, 10);
    XorMod(a * 32, b, 10);
    Shifted(u);
    Shifted(a);
  }

  // byte 2 need not be compared when the others and the keys agree
  lemma ThirdByte(a: Byte, b: Byte, c: Byte, d: Byte)
    requires Key(a, b, c) == Key(a, b, d)
    ensures c == d
  {
    hide Xor, Pow2;
    Powers();
    var x := Update(a, b) * 32;
    XorMod(x, c, 15);
    XorMod(x, d, 15);
    XorCancel(x % HASH_SIZE, c, d);
  }
}
