/**
 zip and unzip: whatever the level, the reads and the contents of unset memory,
 decompressing a compressed file gives back the input and passes the checks.
 */
module Gzip {
  import opened Bits
  import opened BitIO
  import opened Canonical
  import opened Lz
  import opened Stream
  import opened BlockLists
  import opened Huft
  import opened HuftBuild
  import opened InflateData
  import opened InflateBlocks
  import opened Window
  import opened Crc
  import opened Coder
  import opened Output
  import opened Chains
  import opened Matching
  import opened Deflate

  const ORIG_NAME := 8
  const DEFLATED := 8
  const OS_CODE := 3

  // --- The file ---

  // magic number, method, flags and time before lm_init, the rest after it
  function Header1(stamp: nat, named: bool): (h: seq<Byte>) {
    [0x1f, 0x8b, DEFLATED, if named then ORIG_NAME else 0] + Long(stamp)
  }

  function Header2(flags: Byte, name: Option<seq<Byte>>): (h: seq<Byte>) {
    [flags, OS_CODE] + match name case None => [] case Some(n) => n + [0]
  }

  // the checksum as a number
  function CrcOf(text: seq<Byte>): (c: nat) { Crc32(text) as int }

  function Trailer(text: seq<Byte>): (t: seq<Byte>)
    ensures |t| == 8
  {
    Long(CrcOf(text)) + Long(|text|)
  }

  // the bytes file are header, a complete stream for text and the trailer of text
  ghost predicate ZipFile(file: seq<Byte>, header: seq<Byte>, text: seq<Byte>) {
    exists x :: ZipBits(file, header, text, x)
  }

  ghost predicate ZipBits(file: seq<Byte>, header: seq<Byte>, text: seq<Byte>, x: seq<Bit>) {
    var s := BytesToBits(header);
    Encodes(x, |s|, text) && BytesToBits(file) == s + x + Padding(|s + x|) + BytesToBits(Trailer(text))
  }

  // the state that zip starts from: empty buffers, nothing read
  method Setup(text: seq<Byte>, sizes: nat -> nat) returns (d: Deflater)
    ensures d.Disjoint() && d.m.Shape() && d.m.src.Valid() && d.m.src.seen == [] && d.m.src.rest == text
    ensures d.e.Valid() && d.e.Roomy() && d.e.bs == [] && d.e.ts == [] && d.e.start == []
    ensures d.e.enc.out.biValid == 0 && d.e.enc.out.biBuf == 0
    ensures fresh(d) && fresh(d.m.Footprint()) && fresh(d.e.repr)
  {
    hide Emitter.Valid, Source.Valid, Matcher.Shape;
    var e := NewEmitter();
    var m := NewMatcher(text, sizes);
    assert m.Footprint() !! e.repr && m.Footprint() !! e.tables;
    d := new Deflater(m, e);
  }

  method NewEmitter() returns (e: Emitter)
    ensures e.Valid() && e.Roomy() && e.bs == [] && e.ts == [] && e.start == []
    ensures e.enc.out.biValid == 0 && e.enc.out.biBuf == 0
    ensures fresh(e) && fresh(e.repr) && fresh(e.tables) && allocated(e.repr) && allocated(e.tables)
  {
    hide Emitter.Valid;
    var w := new BitWriter();
    e := new Emitter(w);
  }

  method NewMatcher(text: seq<Byte>, sizes: nat -> nat) returns (m: Matcher)
    ensures m.Shape() && m.src.Valid() && m.src.seen == [] && m.src.rest == text
    ensures fresh(m) && fresh(m.Footprint())
  {
    hide Source.Valid;
    var src := new Source(text, sizes);
    m := new Matcher(src);
  }

  method Zip(text: seq<Byte>, level: int, sizes: nat -> nat, stamp: nat, name: Option<seq<Byte>>)
    returns (ok: bool, file: seq<Byte>, header: seq<Byte>)
    ensures ok <==> 1 <= level <= 9
    ensures ok ==> ZipFile(file, header, text)
    ensures ok ==> |header| >= 10 && header[..4] == [0x1f, 0x8b, 8, if name.Some? then 8 else 0]
    ensures ok ==> header[4..8] == [stamp % 256, stamp / 256 % 256, stamp / 65536 % 256, stamp / 16777216 % 256]
    ensures ok ==> header[8] == (if level == 1 then 4 else if level == 9 then 2 else 0) && header[9] == 3
    ensures ok ==> header[10..] == match name case None => [] case Some(n) => n + [0]
    ensures ok ==> |header| + 8 <= |file| && file[..|header|] == header &&
                   var t, c, n := file[|file| - 8..], CrcOf(text), |text|;
                   t[..4] == [c % 256, c / 256 % 256, c / 65536 % 256, c / 16777216 % 256] &&
                       t[4..] == [n % 256, n / 256 % 256, n / 65536 % 256, n / 16777216 % 256]
  {
    hide Emitter.Valid, Source.Valid, ZipFile, Matcher.Shape, BytesToBits, Deflater.Ready, CrcOf, Header1, Header2,
        Trailer;
    var d := Setup(text, sizes);
    var flags;
    file, header := [], Header1(stamp, name.Some?);
    d.e.PutHeader(header);
    ok, flags := d.LmInit(level);
    if ok {
      var more := Header2(flags, name);
      PutMore(d, more);
      BytesAppend(header, more);
      header := header + more;
      file := Body(d, header, text);
      Framed(file, header, text);
      HeaderIs(stamp, flags, name);
      TrailerIs(text);
    }
  }

  lemma HeaderIs(stamp: nat, flags: Byte, name: Option<seq<Byte>>)
    ensures var h := Header1(stamp, name.Some?) + Header2(flags, name);
            && |h| >= 10 && h[..4] == [0x1f, 0x8b, 8, if name.Some? then 8 else 0] && h[8] == flags && h[9] == 3
            && h[4..8] == [stamp % 256, stamp / 256 % 256, stamp / 65536 % 256, stamp / 16777216 % 256]
            && h[10..] == match name case None => [] case Some(n) => n + [0]
  {
  }

  lemma TrailerIs(text: seq<Byte>)
    ensures var t, c, n := Trailer(text), CrcOf(text), |text|;
            && t[..4] == [c % 256, c / 256 % 256, c / 65536 % 256, c / 16777216 % 256]
            && t[4..] == [n % 256, n / 256 % 256, n / 65536 % 256, n / 16777216 % 256]
  {
    hide CrcOf;
  }

  // the file starts with its header and ends with its trailer
  lemma Framed(file: seq<Byte>, header: seq<Byte>, text: seq<Byte>)
    requires ZipFile(file, header, text)
    ensures |header| + 8 <= |file| && file[..|header|] == header && file[|file| - 8..] == Trailer(text)
  {
    hide BytesToBits, Encodes, Padding, Trailer, ZipBits;
    var x :| ZipBits(file, header, text, x);
    FileParts(file, header, text, x);
    Fronted(file, header, text, x);
    var front := file[..|header|];
    assert file == front + file[|header|..];
    BytesAppend(front, file[|header|..]);
    assert BytesToBits(front) == BytesToBits(file)[..8 * |header|] == BytesToBits(header);
    BytesInjective(file[..|header|], header);
  }

  lemma Fronted(file: seq<Byte>, header: seq<Byte>, text: seq<Byte>, x: seq<Bit>)
    requires ZipBits(file, header, text, x)
    ensures BytesToBits(header) <= BytesToBits(file)
  {
  }

  // the extra flags, the system and the name
  method PutMore(d: Deflater, more: seq<Byte>)
    requires d.Ready() && d.e.bs == [] && d.e.ts == [] && d.e.enc.out.biValid == 0 && d.e.enc.out.biBuf == 0
    modifies d.e.repr
    ensures d.Ready() && d.e.start == old(d.e.start) + BytesToBits(more)
  {
    hide Emitter.Valid, Source.Valid, Covers, TextOf, FlatOf, Chained, Buffered, BytesToBits;
    d.e.PutHeader(more);
  }

  // deflate and the trailer
  method Body(d: Deflater, ghost header: seq<Byte>, ghost text: seq<Byte>) returns (file: seq<Byte>)
    requires d.Ready() && d.m.src.seen + d.m.src.rest == text && d.e.start == BytesToBits(header)
    modifies d.m.Footprint(), d.e.repr
    ensures ZipFile(file, header, text)
  {
    hide Emitter.Valid, ZipFile, BytesToBits, Deflater.Ready, Encodes, Padding, Packed;
    var w, src := d.e.enc.out, d.m.src;
    var len;
    ghost var x;
    OutOwned(d);
    len, x := d.Deflate();
    ghost var b := w.Bytes();
    w.PutLong(src.crc as int);
    w.PutLong(src.isize);
    ghost var b' := w.Bytes();
    w.FlushOutbuf();
    file := w.written;
    assert file == b' == b + Long(src.crc as int) + Long(src.isize);
    Filed(file, b, header, text, x);
  }

  lemma OutOwned(d: Deflater)
    requires d.Ready()
    ensures d.e.enc.out in d.e.repr && d.e.enc.out.outbuf in d.e.repr && d.m.Footprint() !! d.e.repr
  {
  }

  lemma Filed(file: seq<Byte>, b: seq<Byte>, header: seq<Byte>, text: seq<Byte>, x: seq<Bit>)
    requires var s := BytesToBits(header); Encodes(x, |s|, text) && BytesToBits(b) == s + x + Padding(|s + x|)
    requires file == b + Long(CrcOf(text)) + Long(|text|)
    ensures ZipFile(file, header, text)
  {
    hide BytesToBits, Encodes, Padding, Long, CrcOf;
    var c, n := Long(CrcOf(text)), Long(|text|);
    assert b + c + n == b + (c + n);
    BytesAppend(b, Trailer(text));
    assert ZipBits(file, header, text, x);
  }

  // --- unzip ---

  datatype Outcome = Ok | FormatViolated | UnexpectedEnd | CrcError | LengthError | Fault

  // what the reference decoder makes of the input from at on, and where the stream ends
  ghost function StreamEnd(input: seq<Byte>, at: nat, before: seq<Byte>): (r: Option<(seq<Byte>, nat)>)
    requires at <= |input|
    ensures r.Some? ==> r.value.1 <= |input|
  {
    match DecodeStream(BytesToBits(input[at..]), before)
    case None => None
    case Some((o, t)) => Some((o, |input| - |t| / 8))
  }

  // junk is what the window happens to hold; an unsigned long has width bits
  method Unzip(bits: BitReader, junk: seq<Byte>, width: nat) returns (outcome: Outcome, out: seq<Byte>)
    requires bits.inptr <= |bits.input| && |junk| == WSIZE
    modifies bits
    ensures var end := StreamEnd(bits.input, old(bits.inptr), junk);
            end.Some? && end.value.1 + 8 <= |bits.input| ==>
              && junk + out == end.value.0 && bits.inptr == end.value.1 + 8
              && var t := bits.input[end.value.1..end.value.1 + 8];
                 var crcRight, lengthRight := LongOf(t[..4]) == CrcOf(out),
                     LongOf(t[4..]) == |out| % Pow2(width);
                 (outcome == Ok <==> crcRight && lengthRight) && (outcome == CrcError <==> !crcRight) &&
                     (outcome == LengthError <==> crcRight && !lengthRight)
    ensures outcome == Ok ==>
        8 <= bits.inptr <= |bits.input| && var t := bits.input[bits.inptr - 8..bits.inptr];
            LongOf(t[..4]) == CrcOf(out) && LongOf(t[4..]) == |out| % Pow2(width)
    ensures var end := StreamEnd(bits.input, old(bits.inptr), junk);
            var s := BytesToBits(bits.input[old(bits.inptr)..]);
            && (end.None? ==> outcome == FormatViolated || outcome == Fault || OddStream(s, junk))
            && (NullStream(s, junk, 16) ==> outcome == Fault)
            && (end.Some? && end.value.1 + 2 <= |bits.input| < end.value.1 + 8 ==> outcome == UnexpectedEnd)
  {
    hide StreamEnd, OddStream, NullStream, BytesToBits, CrcOf, Crc32, Register, Pow2, LongOf, Inflated, DecodeStream;
    var sum := new Checksum();
    var start := sum.Clear();
    var win := new Slide(junk, sum);
    ghost var at := bits.inptr;
    var code := Inflate(bits, win);
    out := win.written;
    EndAt(bits.input, at, bits.inptr, junk, out, code == OK);
    if code == FAULT { return Fault, out; }
    if code != OK { return FormatViolated, out; }
    var full, buf := GetTrailer(bits);
    if !full { return UnexpectedEnd, out; }
    outcome := Validate(sum, win.bytesOut, buf, width, out);
  }

  method Validate(sum: Checksum, bytesOut: nat, buf: seq<Byte>, width: nat, ghost out: seq<Byte>)
      returns (outcome: Outcome)
    requires |buf| == 8 && Summed(sum.crc, bytesOut, out)
    modifies sum
    ensures outcome == Ok || outcome == CrcError || outcome == LengthError
    ensures outcome == CrcError <==> LongOf(buf[..4]) != CrcOf(out)
    ensures outcome == Ok <==> LongOf(buf[..4]) == CrcOf(out) && LongOf(buf[4..]) == |out| % Pow2(width)
  {
    hide Register, LongOf, Pow2, Crc32;
    assert out + [] == out;
    var crc := sum.Update([], out);
    if LongOf(buf[..4]) != crc as int { return CrcError; }
    if LongOf(buf[4..]) != bytesOut % Pow2(width) { return LengthError; }
    return Ok;
  }

  // eight calls of get_byte
  method GetTrailer(bits: BitReader) returns (full: bool, buf: seq<Byte>)
    requires bits.inptr <= |bits.input|
    modifies bits`inptr
    ensures bits.inptr <= |bits.input| && (full <==> old(bits.inptr) + 8 <= |bits.input|)
    ensures full ==> |buf| == 8 && bits.inptr == old(bits.inptr) + 8 && buf == bits.input[old(bits.inptr)..bits.inptr]
  {
    buf := [];
    while |buf| < 8
      invariant |buf| <= 8 && bits.inptr == old(bits.inptr) + |buf| <= |bits.input|
      invariant buf == bits.input[old(bits.inptr)..bits.inptr]
    {
      if bits.inptr == |bits.input| { return false, buf; }
      buf := buf + [bits.input[bits.inptr]];
      bits.inptr := bits.inptr + 1;
    }
    full := true;
  }

  // inflate stops at the first byte boundary after the stream, or fails because fewer than two bytes follow
  lemma EndAt(input: seq<Byte>, at: nat, end: nat, junk: seq<Byte>, out: seq<Byte>, ok: bool)
    requires at <= |input| && end <= |input|
    requires var s := BytesToBits(input[at..]);
             var r := DecodeStream(s, junk);
             if ok then Inflated(r, junk, out, input[end..]) || (r.None? && OddStream(s, junk))
             else r.None? || |r.value.1| < 16
    ensures var r := StreamEnd(input, at, junk);
            if ok then r == Some((junk + out, end)) || (r.None? && OddStream(BytesToBits(input[at..]), junk))
            else r.Some? ==> |input| < r.value.1 + 2
  {
    hide DecodeStream, BytesToBits, OddStream;
    var r := DecodeStream(BytesToBits(input[at..]), junk);
    if r.Some? && Inflated(r, junk, out, input[end..]) {
      var t := r.value.1;
      assert 8 * (|input| - end) == |BytesToBits(input[end..])| == |t| - |t| % 8;
    }
  }

  // --- Back again ---

  // the compressed file, cut at a byte boundary
  lemma FileParts(file: seq<Byte>, header: seq<Byte>, text: seq<Byte>, x: seq<Bit>)
    requires ZipBits(file, header, text, x)
    ensures |header| + 8 <= |file| && file[|file| - 8..] == Trailer(text)
    ensures BytesToBits(file[|header|..]) == x + (Padding(|BytesToBits(header) + x|) + BytesToBits(Trailer(text)))
  {
    hide BytesToBits, Encodes, Padding, Trailer;
    var h, p, t := BytesToBits(header), Padding(|BytesToBits(header) + x|), BytesToBits(Trailer(text));
    Cut(h, x, p, t);
    BytesAt(file, |header|);
    BytesAt(file, |file| - 8);
    BytesInjective(file[|file| - 8..], Trailer(text));
  }

  lemma Cut(h: seq<Bit>, x: seq<Bit>, p: seq<Bit>, t: seq<Bit>)
    ensures (h + x + p + t)[|h|..] == x + (p + t) && (h + x + p + t)[|h| + |x| + |p|..] == t
  {
  }

  lemma ZipDecodes(file: seq<Byte>, header: seq<Byte>, text: seq<Byte>, more: seq<Byte>, junk: seq<Byte>)
    requires ZipFile(file, header, text)
    ensures |header| + 8 <= |file| && file[|file| - 8..] == Trailer(text)
    ensures StreamEnd(file + more, |header|, junk) == Some((junk + text, |file| - 8))
  {
    hide BytesToBits, Encodes, DecodeStream, Trailer, ZipBits, PadLen;
    var x :| ZipBits(file, header, text, x);
    FileParts(file, header, text, x);
    var p, t := Padding(|BytesToBits(header) + x|), BytesToBits(Trailer(text));
    var rest := file[|header|..];
    assert (file + more)[|header|..] == rest + more;
    BytesAppend(rest, more);
    var left := p + t + BytesToBits(more);
    Regroup(x, p, t, BytesToBits(more));
    StreamOfFile(file, header, text, x);
    EncodesDecode(x, |BytesToBits(header)|, text, left, junk);
  }

  lemma Regroup(x: seq<Bit>, p: seq<Bit>, t: seq<Bit>, m: seq<Bit>)
    ensures x + (p + t) + m == x + (p + t + m)
  {
  }

  lemma StreamOfFile(file: seq<Byte>, header: seq<Byte>, text: seq<Byte>, x: seq<Bit>)
    requires ZipBits(file, header, text, x)
    ensures Encodes(x, |BytesToBits(header)|, text)
  {
  }

  lemma TrailerVerdict(text: seq<Byte>, width: nat)
    ensures LongOf(Trailer(text)[..4]) == CrcOf(text)
    ensures LongOf(Trailer(text)[4..]) == |text| % Pow2(width) <==> |text| % Pow2(width) == |text| % 0x1_0000_0000
  {
    hide LongOf, CrcOf, Pow2, Trailer;
    TrailerRead(text);
  }

  lemma TrailerRead(text: seq<Byte>)
    ensures LongOf(Trailer(text)[..4]) == CrcOf(text) && LongOf(Trailer(text)[4..]) == |text| % 0x1_0000_0000
  {
    hide Long, LongOf, Crc32;
    var c := Crc32(text);
    LongRead(c as int);
    LongRead(|text|);
    assert Trailer(text)[..4] == Long(c as int) && Trailer(text)[4..] == Long(|text|);
    Low32(c as int);
  }

  lemma Low32(n: nat)
    requires n < 0x1_0000_0000
    ensures n % 0x1_0000_0000 == n
  {
  }

  // zip and then unzip, for every input, level, division into reads and content of unset memory,
  // and whatever follows the file
  method RoundTrip(text: seq<Byte>, level: int, sizes: nat -> nat, stamp: nat, name: Option<seq<Byte>>, more: seq<Byte>,
                   junk: seq<Byte>, width: nat) returns (outcome: Outcome, out: seq<Byte>, left: seq<Byte>)
    requires 1 <= level <= 9 && |junk| == WSIZE && width >= 32
    ensures out == text && left == more
    ensures outcome == if |text| % Pow2(width) == |text| % 0x1_0000_0000 then Ok else LengthError
    ensures |text| < 0x1_0000_0000 ==> outcome == Ok
  {
    hide StreamEnd, ZipFile, Pow2, CrcOf, LongOf, Trailer, OddStream, NullStream, BytesToBits;
    var ok, file, header := Zip(text, level, sizes, stamp, name);
    ZipDecodes(file, header, text, more, junk);
    TrailerVerdict(text, width);
    Widths(|text|, width);
    var bits := new BitReader(file + more);
    bits.inptr := |header|;
    outcome, out := Unzip(bits, junk, width);
    assert (file + more)[|file| - 8..|file|] == file[|file| - 8..];
    assert junk + out == junk + text;
    assert out == (junk + out)[|junk|..] && text == (junk + text)[|junk|..];
    left := bits.input[bits.inptr..];
  }

  lemma Widths(n: nat, width: nat)
    requires width >= 32
    ensures n < 0x1_0000_0000 ==> n % Pow2(width) == n % 0x1_0000_0000
  {
    Pow32();
    Pow2Mono(32, width);
    hide Pow2;
    if n < 0x1_0000_0000 {
      DivModUnique(n, Pow2(width), 0, n);
      Low32(n);
    }
  }

  lemma Pow32()
    ensures Pow2(32) == 0x1_0000_0000
  {
    hide Pow2;
    Pow2Eight();
    Pow2Add(8, 8);
    Pow2Add(16, 16);
  }
}
