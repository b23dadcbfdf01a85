/**
 What is written with send_bits and bi_windup is read back with NEEDBITS and DUMPBITS.
 */
module ReadBack {
  import opened Bits
  import opened BitIO

  // a value and the number of its bits
  datatype Field = Field(value: nat, length: nat)

  predicate FieldOk(f: Field) { f.length <= 16 && f.value < Pow2(f.length) }

  ghost function FieldsBits(fs: seq<Field>): (s: seq<Bit>) {
    if fs == [] then [] else BitsOf(fs[0].value, fs[0].length) + FieldsBits(fs[1..])
  }

  lemma {:induction false} FieldsSnoc(fs: seq<Field>, f: Field)
    ensures FieldsBits(fs + [f]) == FieldsBits(fs) + BitsOf(f.value, f.length)
  {
    if fs == [] {
      assert fs + [f] == [f] && FieldsBits([f][1..]) == [];
    } else {
      FieldsSnoc(fs[1..], f);
      assert (fs + [f])[1..] == fs[1..] + [f];
    }
  }

  method WriteRead(fs: seq<Field>) returns (back: seq<nat>)
    requires forall i :: 0 <= i < |fs| ==> FieldOk(fs[i])
    ensures |back| == |fs| && forall i :: 0 <= i < |fs| ==> back[i] == fs[i].value
  {
    var bytes := Write(fs);
    back := Read(bytes, fs);
  }

  method Read(bytes: seq<Byte>, fs: seq<Field>) returns (back: seq<nat>)
    requires (forall i :: 0 <= i < |fs| ==> FieldOk(fs[i])) && FieldsBits(fs) <= BytesToBits(bytes)
    ensures |back| == |fs| && forall i :: 0 <= i < |fs| ==> back[i] == fs[i].value
  {
    hide BitsOf, BytesToBits, FieldsBits, InSync, Unread, Val;
    var r := new BitReader(bytes);
    back := [];
    ghost var pad := r.Rest()[|FieldsBits(fs)|..];
    assert fs[0..] == fs && r.Rest() == FieldsBits(fs) + pad;
    while |back| < |fs|
      invariant |back| <= |fs| && r.Valid() && r.Rest() == FieldsBits(fs[|back|..]) + pad
      invariant forall i :: 0 <= i < |back| ==> back[i] == fs[i].value
    {
      First(fs, |back|, pad);
      var ok, v := r.TakeBits(fs[|back|].length);
      back := back + [v];
    }
  }

  method Write(fs: seq<Field>) returns (bytes: seq<Byte>)
    requires forall i :: 0 <= i < |fs| ==> FieldOk(fs[i])
    ensures FieldsBits(fs) <= BytesToBits(bytes)
  {
    hide BitsOf, BytesToBits;
    var w := new BitWriter();
    for i := 0 to |fs|
      invariant w.Valid() && w.Sent() == FieldsBits(fs[..i]) && fresh(w) && fresh(w.outbuf)
    {
      FieldsSnoc(fs[..i], fs[i]);
      assert fs[..i + 1] == fs[..i] + [fs[i]];
      w.SendBits(fs[i].value, fs[i].length);
    }
    assert fs[..|fs|] == fs;
    w.BiWindup();
    bytes := w.written + w.outbuf[..w.outcnt];
  }

  lemma First(fs: seq<Field>, n: nat, pad: seq<Bit>)
    requires n < |fs| && FieldOk(fs[n])
    ensures var f, s := fs[n], FieldsBits(fs[n..]) + pad;
            f.length <= |s| && Val(s[..f.length]) == f.value && s[f.length..] == FieldsBits(fs[n + 1..]) + pad
  {
    hide Val, BitsOf;
    var f := fs[n];
    assert fs[n..][1..] == fs[n + 1..];
    ValBits(f.value, f.length);
    ModSmall(f.value, Pow2(f.length));
    Assoc(BitsOf(f.value, f.length), FieldsBits(fs[n + 1..]), pad);
    Front(BitsOf(f.value, f.length), FieldsBits(fs[n + 1..]) + pad);
  }

  lemma Front(a: seq<Bit>, b: seq<Bit>)
    ensures (a + b)[..|a|] == a && (a + b)[|a|..] == b
  {
  }

  lemma ModSmall(v: nat, m: nat)
    requires v < m
    ensures v % m == v
  {
  }
}
