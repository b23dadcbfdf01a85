/**
 updcrc: the table-driven CRC-32 against the bit-by-bit definition of section 8 of
 RFC 1952.
 */
module Crc {
  import opened Bits

  // --- The definition ---

  // the four bits of a hexadecimal digit
  function Nibble(k: nat): (v: bv32)
    requires k < 16
  {
    match k
    case 0 => 0x0 case 1 => 0x1 case 2 => 0x2 case 3 => 0x3 case 4 => 0x4 case 5 => 0x5 case 6 => 0x6 case 7 => 0x7
    case 8 => 0x8 case 9 => 0x9 case 10 => 0xa case 11 => 0xb case 12 => 0xc case 13 => 0xd case 14 => 0xe case _ => 0xf
  }

  function Digit(v: bv32): (k: nat)
    ensures k < 16
  {
    if v == 0x0 then 0 else if v == 0x1 then 1 else if v == 0x2 then 2 else if v == 0x3 then 3
    else if v == 0x4 then 4 else if v == 0x5 then 5 else if v == 0x6 then 6 else if v == 0x7 then 7
    else if v == 0x8 then 8 else if v == 0x9 then 9 else if v == 0xa then 10 else if v == 0xb then 11
    else if v == 0xc then 12 else if v == 0xd then 13 else if v == 0xe then 14 else 15
  }

  // a byte, digit by digit, and the low byte of a word
  function Bv(b: Byte): (v: bv32) { (Nibble(b / 16) << 4) | Nibble(b % 16) }

  function Low(x: bv32): (i: nat)
    ensures i < 256
  {
    16 * Digit((x >> 4) & 0xf) + Digit(x & 0xf)
  }

  function Mix(x: bv32, y: bv32): (r: bv32) { x ^ y }

  // one bit of the shift register
  function Shift(c: bv32): (r: bv32) { if c & 1 == 1 then (c >> 1) ^ 0xedb88320 else c >> 1 }

  function Shift8(c: bv32): (r: bv32) { Shift(Shift(Shift(Shift(Shift(Shift(Shift(Shift(c)))))))) }

  // the register after the bytes s
  function Register(c: bv32, s: seq<Byte>): (r: bv32)
    decreases |s|
  {
    if s == [] then c else Register(Shift8(Mix(c, Bv(s[0]))), s[1..])
  }

  function Crc32(s: seq<Byte>): (r: bv32) { Register(0xffffffff, s) ^ 0xffffffff }

  // the usual check value: the checksum of the digits 1 to 9
  lemma CheckValue()
    ensures Crc32([49, 50, 51, 52, 53, 54, 55, 56, 57]) == 0xcbf43926
  {
    hide Register;
    var s: seq<Byte> := [49, 50, 51, 52, 53, 54, 55, 56, 57];
    FirstDigits(s);
    Next(0x340ac5e3, s, 5, 54, 0xf68d2c9e);
    Next(0xf68d2c9e, s, 6, 55, 0xaffc9660);
    Next(0xaffc9660, s, 7, 56, 0x651f2550);
    Next(0x651f2550, s, 8, 57, 0x340bc6d9);
    assert s[0..] == s && s[9..] == [];
    NoMore(0x340bc6d9);
  }

  lemma FirstDigits(s: seq<Byte>)
    requires |s| >= 5 && s[0] == 49 && s[1] == 50 && s[2] == 51 && s[3] == 52 && s[4] == 53
    ensures Register(0xffffffff, s[0..]) == Register(0x340ac5e3, s[5..])
  {
    hide Register;
    Next(0xffffffff, s, 0, 49, 0x7c231048);
    Next(0x7c231048, s, 1, 50, 0xb0acbb32);
    Next(0xb0acbb32, s, 2, 51, 0x77b79c2d);
    Next(0x77b79c2d, s, 3, 52, 0x641c1f5c);
    Next(0x641c1f5c, s, 4, 53, 0x340ac5e3);
  }

  lemma Next(c: bv32, s: seq<Byte>, i: nat, b: Byte, r: bv32)
    requires i < |s| && s[i] == b && Shift8(Mix(c, Bv(b))) == r
    ensures Register(c, s[i..]) == Register(r, s[i + 1..])
  {
    hide Shift8, Mix, Bv;
    assert s[i..][0] == b && s[i..][1..] == s[i + 1..];
  }

  lemma NoMore(c: bv32)
    ensures Register(c, []) == c
  {
  }

  // chunks may be split anywhere
  lemma {:induction false} RegisterSplit(c: bv32, a: seq<Byte>, b: seq<Byte>)
    ensures Register(c, a + b) == Register(Register(c, a), b)
    decreases |a|
  {
    hide Shift8, Bv, Mix;
    if a == [] {
      assert a + b == b;
    } else {
      assert (a + b)[0] == a[0] && (a + b)[1..] == a[1..] + b;
      RegisterSplit(Shift8(Mix(c, Bv(a[0]))), a[1..], b);
    }
  }

  // --- The table, sixteen entries to a row ---

  const CRC_TAB_0: seq<bv32> := [
    0x00000000, 0x77073096, 0xee0e612c, 0x990951ba, 0x076dc419, 0x706af48f, 0xe963a535, 0x9e6495a3,
    0x0edb8832, 0x79dcb8a4, 0xe0d5e91e, 0x97d2d988, 0x09b64c2b, 0x7eb17cbd, 0xe7b82d07, 0x90bf1d91]
  const CRC_TAB_1: seq<bv32> := [
    0x1db71064, 0x6ab020f2, 0xf3b97148, 0x84be41de, 0x1adad47d, 0x6ddde4eb, 0xf4d4b551, 0x83d385c7,
    0x136c9856, 0x646ba8c0, 0xfd62f97a, 0x8a65c9ec, 0x14015c4f, 0x63066cd9, 0xfa0f3d63, 0x8d080df5]
  const CRC_TAB_2: seq<bv32> := [
    0x3b6e20c8, 0x4c69105e, 0xd56041e4, 0xa2677172, 0x3c03e4d1, 0x4b04d447, 0xd20d85fd, 0xa50ab56b,
    0x35b5a8fa, 0x42b2986c, 0xdbbbc9d6, 0xacbcf940, 0x32d86ce3, 0x45df5c75, 0xdcd60dcf, 0xabd13d59]
  const CRC_TAB_3: seq<bv32> := [
    0x26d930ac, 0x51de003a, 0xc8d75180, 0xbfd06116, 0x21b4f4b5, 0x56b3c423, 0xcfba9599, 0xb8bda50f,
    0x2802b89e, 0x5f058808, 0xc60cd9b2, 0xb10be924, 0x2f6f7c87, 0x58684c11, 0xc1611dab, 0xb6662d3d]
  const CRC_TAB_4: seq<bv32> := [
    0x76dc4190, 0x01db7106, 0x98d220bc, 0xefd5102a, 0x71b18589, 0x06b6b51f, 0x9fbfe4a5, 0xe8b8d433,
    0x7807c9a2, 0x0f00f934, 0x9609a88e, 0xe10e9818, 0x7f6a0dbb, 0x086d3d2d, 0x91646c97, 0xe6635c01]
  const CRC_TAB_5: seq<bv32> := [
    0x6b6b51f4, 0x1c6c6162, 0x856530d8, 0xf262004e, 0x6c0695ed, 0x1b01a57b, 0x8208f4c1, 0xf50fc457,
    0x65b0d9c6, 0x12b7e950, 0x8bbeb8ea, 0xfcb9887c, 0x62dd1ddf, 0x15da2d49, 0x8cd37cf3, 0xfbd44c65]
  const CRC_TAB_6: seq<bv32> := [
    0x4db26158, 0x3ab551ce, 0xa3bc0074, 0xd4bb30e2, 0x4adfa541, 0x3dd895d7, 0xa4d1c46d, 0xd3d6f4fb,
    0x4369e96a, 0x346ed9fc, 0xad678846, 0xda60b8d0, 0x44042d73, 0x33031de5, 0xaa0a4c5f, 0xdd0d7cc9]
  const CRC_TAB_7: seq<bv32> := [
    0x5005713c, 0x270241aa, 0xbe0b1010, 0xc90c2086, 0x5768b525, 0x206f85b3, 0xb966d409, 0xce61e49f,
    0x5edef90e, 0x29d9c998, 0xb0d09822, 0xc7d7a8b4, 0x59b33d17, 0x2eb40d81, 0xb7bd5c3b, 0xc0ba6cad]
  const CRC_TAB_8: seq<bv32> := [
    0xedb88320, 0x9abfb3b6, 0x03b6e20c, 0x74b1d29a, 0xead54739, 0x9dd277af, 0x04db2615, 0x73dc1683,
    0xe3630b12, 0x94643b84, 0x0d6d6a3e, 0x7a6a5aa8, 0xe40ecf0b, 0x9309ff9d, 0x0a00ae27, 0x7d079eb1]
  const CRC_TAB_9: seq<bv32> := [
    0xf00f9344, 0x8708a3d2, 0x1e01f268, 0x6906c2fe, 0xf762575d, 0x806567cb, 0x196c3671, 0x6e6b06e7,
    0xfed41b76, 0x89d32be0, 0x10da7a5a, 0x67dd4acc, 0xf9b9df6f, 0x8ebeeff9, 0x17b7be43, 0x60b08ed5]
  const CRC_TAB_A: seq<bv32> := [
    0xd6d6a3e8, 0xa1d1937e, 0x38d8c2c4, 0x4fdff252, 0xd1bb67f1, 0xa6bc5767, 0x3fb506dd, 0x48b2364b,
    0xd80d2bda, 0xaf0a1b4c, 0x36034af6, 0x41047a60, 0xdf60efc3, 0xa867df55, 0x316e8eef, 0x4669be79]
  const CRC_TAB_B: seq<bv32> := [
    0xcb61b38c, 0xbc66831a, 0x256fd2a0, 0x5268e236, 0xcc0c7795, 0xbb0b4703, 0x220216b9, 0x5505262f,
    0xc5ba3bbe, 0xb2bd0b28, 0x2bb45a92, 0x5cb36a04, 0xc2d7ffa7, 0xb5d0cf31, 0x2cd99e8b, 0x5bdeae1d]
  const CRC_TAB_C: seq<bv32> := [
    0x9b64c2b0, 0xec63f226, 0x756aa39c, 0x026d930a, 0x9c0906a9, 0xeb0e363f, 0x72076785, 0x05005713,
    0x95bf4a82, 0xe2b87a14, 0x7bb12bae, 0x0cb61b38, 0x92d28e9b, 0xe5d5be0d, 0x7cdcefb7, 0x0bdbdf21]
  const CRC_TAB_D: seq<bv32> := [
    0x86d3d2d4, 0xf1d4e242, 0x68ddb3f8, 0x1fda836e, 0x81be16cd, 0xf6b9265b, 0x6fb077e1, 0x18b74777,
    0x88085ae6, 0xff0f6a70, 0x66063bca, 0x11010b5c, 0x8f659eff, 0xf862ae69, 0x616bffd3, 0x166ccf45]
  const CRC_TAB_E: seq<bv32> := [
    0xa00ae278, 0xd70dd2ee, 0x4e048354, 0x3903b3c2, 0xa7672661, 0xd06016f7, 0x4969474d, 0x3e6e77db,
    0xaed16a4a, 0xd9d65adc, 0x40df0b66, 0x37d83bf0, 0xa9bcae53, 0xdebb9ec5, 0x47b2cf7f, 0x30b5ffe9]
  const CRC_TAB_F: seq<bv32> := [
    0xbdbdf21c, 0xcabac28a, 0x53b39330, 0x24b4a3a6, 0xbad03605, 0xcdd70693, 0x54de5729, 0x23d967bf,
    0xb3667a2e, 0xc4614ab8, 0x5d681b02, 0x2a6f2b94, 0xb40bbe37, 0xc30c8ea1, 0x5a05df1b, 0x2d02ef8d]

  function Row(r: nat): (s: seq<bv32>)
    requires r < 16
    ensures |s| == 16
  {
    match r
    case 0 => CRC_TAB_0
    case 1 => CRC_TAB_1
    case 2 => CRC_TAB_2
    case 3 => CRC_TAB_3
    case 4 => CRC_TAB_4
    case 5 => CRC_TAB_5
    case 6 => CRC_TAB_6
    case 7 => CRC_TAB_7
    case 8 => CRC_TAB_8
    case 9 => CRC_TAB_9
    case 10 => CRC_TAB_A
    case 11 => CRC_TAB_B
    case 12 => CRC_TAB_C
    case 13 => CRC_TAB_D
    case 14 => CRC_TAB_E
    case _ => CRC_TAB_F
  }

  // crc_32_tab
  function Tab(i: nat): (v: bv32)
    requires i < 256
  {
    Row(i / 16)[i % 16]
  }

  // --- Every entry comes from the first row and the first column ---

  lemma Row0()
    ensures forall k :: 0 <= k < 16 ==> CRC_TAB_0[k] == Mix(CRC_TAB_0[0], CRC_TAB_0[k])
  {
  }

  lemma Row1()
    ensures forall k :: 0 <= k < 16 ==> CRC_TAB_1[k] == Mix(CRC_TAB_1[0], CRC_TAB_0[k])
  {
  }

  lemma Row2()
    ensures forall k :: 0 <= k < 16 ==> CRC_TAB_2[k] == Mix(CRC_TAB_2[0], CRC_TAB_0[k])
  {
  }

  lemma Row3()
    ensures forall k :: 0 <= k < 16 ==> CRC_TAB_3[k] == Mix(CRC_TAB_3[0], CRC_TAB_0[k])
  {
  }

  lemma Row4()
    ensures forall k :: 0 <= k < 16 ==> CRC_TAB_4[k] == Mix(CRC_TAB_4[0], CRC_TAB_0[k])
  {
  }

  lemma Row5()
    ensures forall k :: 0 <= k < 16 ==> CRC_TAB_5[k] == Mix(CRC_TAB_5[0], CRC_TAB_0[k])
  {
  }

  lemma Row6()
    ensures forall k :: 0 <= k < 16 ==> CRC_TAB_6[k] == Mix(CRC_TAB_6[0], CRC_TAB_0[k])
  {
  }

  lemma Row7()
    ensures forall k :: 0 <= k < 16 ==> CRC_TAB_7[k] == Mix(CRC_TAB_7[0], CRC_TAB_0[k])
  {
  }

  lemma Row8()
    ensures forall k :: 0 <= k < 16 ==> CRC_TAB_8[k] == Mix(CRC_TAB_8[0], CRC_TAB_0[k])
  {
  }

  lemma Row9()
    ensures forall k :: 0 <= k < 16 ==> CRC_TAB_9[k] == Mix(CRC_TAB_9[0], CRC_TAB_0[k])
  {
  }

  lemma RowA()
    ensures forall k :: 0 <= k < 16 ==> CRC_TAB_A[k] == Mix(CRC_TAB_A[0], CRC_TAB_0[k])
  {
  }

  lemma RowB()
    ensures forall k :: 0 <= k < 16 ==> CRC_TAB_B[k] == Mix(CRC_TAB_B[0], CRC_TAB_0[k])
  {
  }

  lemma RowC()
    ensures forall k :: 0 <= k < 16 ==> CRC_TAB_C[k] == Mix(CRC_TAB_C[0], CRC_TAB_0[k])
  {
  }

  lemma RowD()
    ensures forall k :: 0 <= k < 16 ==> CRC_TAB_D[k] == Mix(CRC_TAB_D[0], CRC_TAB_0[k])
  {
  }

  lemma RowE()
    ensures forall k :: 0 <= k < 16 ==> CRC_TAB_E[k] == Mix(CRC_TAB_E[0], CRC_TAB_0[k])
  {
  }

  lemma RowF()
    ensures forall k :: 0 <= k < 16 ==> CRC_TAB_F[k] == Mix(CRC_TAB_F[0], CRC_TAB_0[k])
  {
  }

  lemma RowAt(r: nat, k: nat)
    requires r < 16 && k < 16
    ensures Row(r)[k] == Mix(Row(r)[0], Row(0)[k])
  {
    hide Mix;
    match r
    case 0 => Row0();
    case 1 => Row1();
    case 2 => Row2();
    case 3 => Row3();
    case 4 => Row4();
    case 5 => Row5();
    case 6 => Row6();
    case 7 => Row7();
    case 8 => Row8();
    case 9 => Row9();
    case 10 => RowA();
    case 11 => RowB();
    case 12 => RowC();
    case 13 => RowD();
    case 14 => RowE();
    case _ => RowF();
  }

  lemma Digits0()
    ensures Shift8(0x0) == 0x00000000 && Shift8(0x1) == 0x77073096 && Shift8(0x2) == 0xee0e612c &&
        Shift8(0x3) == 0x990951ba
    ensures Shift8(0x4) == 0x076dc419 && Shift8(0x5) == 0x706af48f && Shift8(0x6) == 0xe963a535 &&
        Shift8(0x7) == 0x9e6495a3
    ensures Shift8(0x8) == 0x0edb8832 && Shift8(0x9) == 0x79dcb8a4 && Shift8(0xa) == 0xe0d5e91e &&
        Shift8(0xb) == 0x97d2d988
    ensures Shift8(0xc) == 0x09b64c2b && Shift8(0xd) == 0x7eb17cbd && Shift8(0xe) == 0xe7b82d07 &&
        Shift8(0xf) == 0x90bf1d91
  {
  }

  lemma FirstRow(k: nat)
    requires k < 16
    ensures Row(0)[k] == Shift8(Nibble(k))
  {
    Digits0();
    hide Shift8;
    var row := CRC_TAB_0;
    assert row[0] == 0x00000000 && row[1] == 0x77073096 && row[2] == 0xee0e612c && row[3] == 0x990951ba;
  }

  lemma FirstColumn(r: nat)
    requires r < 16
    ensures Row(r)[0] == Shift8(Nibble(r) << 4)
  {
  }

  // --- A table step is eight bit steps ---

  lemma LowBit(x: bv32, y: bv32)
    ensures ((x ^ y) & 1 == 1) <==> ((x & 1 == 1) != (y & 1 == 1))
  {
  }

  lemma HalfXor(x: bv32, y: bv32)
    ensures (x ^ y) >> 1 == (x >> 1) ^ (y >> 1)
  {
  }

  lemma MixXor(x: bv32, y: bv32, p: bv32)
    ensures (x ^ p) ^ (y ^ p) == x ^ y && (x ^ p) ^ y == (x ^ y) ^ p && x ^ (y ^ p) == (x ^ y) ^ p
  {
  }

  lemma Linear(x: bv32, y: bv32)
    ensures Shift(Mix(x, y)) == Mix(Shift(x), Shift(y))
  {
    LowBit(x, y);
    HalfXor(x, y);
    MixXor(x >> 1, y >> 1, 0xedb88320);
  }

  lemma Linear8(x0: bv32, y0: bv32)
    ensures Shift8(Mix(x0, y0)) == Mix(Shift8(x0), Shift8(y0))
  {
    hide Shift, Mix;
    var x1, y1 := Shift(x0), Shift(y0);
    var x2, y2 := Shift(x1), Shift(y1);
    var x3, y3 := Shift(x2), Shift(y2);
    var x4, y4 := Shift(x3), Shift(y3);
    Linear(x0, y0);
    Linear(x1, y1);
    Linear(x2, y2);
    Linear(x3, y3);
    Linear(x4, y4);
    Linear(Shift(x4), Shift(y4));
    Linear(Shift(Shift(x4)), Shift(Shift(y4)));
    Linear(Shift(Shift(Shift(x4))), Shift(Shift(Shift(y4))));
  }

  lemma TabAt(i: nat)
    requires i < 256
    ensures Tab(i) == Shift8(Bv(i))
  {
    hide Shift8, Row, Bv, Nibble, Mix;
    var r, k := i / 16, i % 16;
    RowAt(r, k);
    FirstRow(k);
    FirstColumn(r);
    Linear8(Nibble(r) << 4, Nibble(k));
    TwoNibbles(i);
  }

  lemma TwoNibbles(i: nat)
    requires i < 256
    ensures Mix(Nibble(i / 16) << 4, Nibble(i % 16)) == Bv(i)
  {
    var hi, lo := Nibble(i / 16), Nibble(i % 16);
    OneDigit(i / 16);
    OneDigit(i % 16);
    hide Nibble;
    assert (hi << 4) ^ lo == (hi << 4) | lo;
  }

  lemma OneDigit(k: nat)
    requires k < 16
    ensures Nibble(k) < 16 && Digit(Nibble(k)) == k
  {
  }

  lemma DigitBack(v: bv32)
    requires v < 16
    ensures Nibble(Digit(v)) == v
  {
  }

  lemma HighBytes(x: bv32)
    requires x & 0xff == 0
    ensures Shift8(x) == x >> 8
  {
  }

  lemma SmallByte(b: Byte)
    ensures Bv(b) & 0xffffff00 == 0
  {
    OneDigit(b / 16);
    OneDigit(b % 16);
    hide Nibble, Digit;
  }

  // the low byte and the rest
  lemma Parts(x: bv32)
    ensures x == Mix(x & 0xff, x & 0xffffff00) && (x & 0xffffff00) & 0xff == 0 && (x & 0xffffff00) >> 8 == x >> 8
    ensures (x & 0xff) & 0xffffff00 == 0
  {
  }

  function Down(c: bv32): (r: bv32) { c >> 8 }

  lemma SameHigh(c: bv32, d: bv32)
    requires d & 0xffffff00 == 0
    ensures Down(Mix(c, d)) == Down(c)
  {
  }

  lemma LowPart(x: bv32)
    ensures Bv(Low(x)) == x & 0xff
  {
    LowBits(x);
    LowDigits((x >> 4) & 0xf, x & 0xf);
    hide Nibble, Digit, Bv;
  }

  lemma LowDigits(hi: bv32, lo: bv32)
    requires hi < 16 && lo < 16
    ensures Bv(16 * Digit(hi) + Digit(lo)) == (hi << 4) | lo
  {
    DigitBack(hi);
    DigitBack(lo);
    hide Nibble, Digit;
    DigitsApart(Digit(hi), Digit(lo));
  }

  lemma LowBits(x: bv32)
    ensures (x >> 4) & 0xf < 16 && x & 0xf < 16 && (((x >> 4) & 0xf) << 4) | (x & 0xf) == x & 0xff
  {
  }

  lemma DigitsApart(h: nat, l: nat)
    requires l < 16
    ensures (16 * h + l) / 16 == h && (16 * h + l) % 16 == l
  {
  }

  lemma TabOfLow(x: bv32)
    ensures Tab(Low(x)) == Shift8(x & 0xff)
  {
    LowPart(x);
    hide Shift8, Bv, Tab, Low;
    TabAt(Low(x));
  }

  lemma HighShift(x: bv32)
    ensures Shift8(x & 0xffffff00) == Down(x)
  {
    Parts(x);
    hide Shift8;
    HighBytes(x & 0xffffff00);
  }

  lemma Joined(x: bv32, low: bv32, high: bv32, t: bv32, d: bv32)
    requires x == Mix(low, high) && t == Shift8(low) && d == Shift8(high)
    ensures Mix(t, d) == Shift8(x)
  {
    hide Shift8, Mix;
    Linear8(low, high);
  }

  lemma TabLow(x: bv32)
    ensures Mix(Tab(Low(x)), Down(x)) == Shift8(x)
  {
    Parts(x);
    hide Shift8, Tab, Low, Mix, Down;
    TabOfLow(x);
    HighShift(x);
    Joined(x, x & 0xff, x & 0xffffff00, Tab(Low(x)), Down(x));
  }

  lemma TabStep(c: bv32, b: Byte)
    ensures Mix(Tab(Low(Mix(c, Bv(b)))), Down(c)) == Shift8(Mix(c, Bv(b)))
  {
    hide Shift8, Bv, Tab, Low, Mix, Down;
    TabLow(Mix(c, Bv(b)));
    HighSame(c, b);
  }

  lemma HighSame(c: bv32, b: Byte)
    ensures Down(Mix(c, Bv(b))) == Down(c)
  {
    hide Mix, Bv, Down;
    SmallByte(b);
    SameHigh(c, Bv(b));
  }

  // the static shift register of updcrc
  class Checksum {
    var crc: bv32

    constructor ()
      ensures crc == 0xffffffff
    {
      crc := 0xffffffff;
    }

    // updcrc(NULL, 0)
    method Clear() returns (r: bv32)
      modifies this
      ensures crc == Register(0xffffffff, []) && r == Crc32([])
    {
      crc := 0xffffffff;
      r := crc ^ 0xffffffff;
    }

    // updcrc(s, n), given that the bytes so far were the bytes before
    method Update(s: seq<Byte>, ghost before: seq<Byte>) returns (r: bv32)
      requires crc == Register(0xffffffff, before)
      modifies this
      ensures crc == Register(0xffffffff, before + s) && r == Crc32(before + s)
    {
      hide Shift8, Bv, Tab, Low, Mix, Down;
      var c := crc;
      var n := 0;
      assert before + s[..0] == before;
      while n < |s|
        invariant 0 <= n <= |s| && c == Register(0xffffffff, before + s[..n])
      {
        TabStep(c, s[n]);
        OneMore(before, s, n);
        c := Mix(Tab(Low(Mix(c, Bv(s[n])))), Down(c));
        n := n + 1;
      }
      assert s[..n] == s;
      crc := c;
      r := c ^ 0xffffffff;
    }
  }

  lemma OneMore(before: seq<Byte>, s: seq<Byte>, n: nat)
    requires n < |s|
    ensures Register(0xffffffff, before + s[..n + 1]) == Shift8(Mix(Register(0xffffffff, before + s[..n]), Bv(s[n])))
  {
    hide Shift8, Bv, Mix;
    var a := before + s[..n];
    RegisterSplit(0xffffffff, a, [s[n]]);
    assert before + s[..n + 1] == a + [s[n]];
    assert [s[n]][1..] == [];
  }
}
