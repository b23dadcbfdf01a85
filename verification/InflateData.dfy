/**
 inflate_codes: decoding the compressed data of a block with lookup tables into
 the output window, against the reference decoder DecodeTokens.
 */
module InflateData {
  import opened Bits
  import opened BitIO
  import opened Canonical
  import opened Lz
  import opened Symbols
  import opened BlockData
  import opened Huft
  import opened HuftBuild
  import opened Window

  const OK := 0
  const BAD := 1   // also where the program exits at the end of the input
  const FAULT := 5 // no return code of the program: it has read through a null pointer

  // tables that decode the code b; there are none if b has no codes
  ghost predicate Loose(tables: seq<seq<Huft>>, l: nat, b: seq<nat>, s: nat, d: seq<nat>, e: seq<nat>) {
    && Decodable(b)
    && (if tables == [] then AllZero(b)
        else 1 <= l <= 9 && Sane(tables, l) && Known(tables, l, s, d, e) && Decodes(tables, l, b, s, d, e))
  }

  // ... and that refuse everything else
  ghost predicate Tight(tables: seq<seq<Huft>>, l: nat, b: seq<nat>, s: nat, d: seq<nat>, e: seq<nat>) {
    Loose(tables, l, b, s, d, e) && Refuses(tables, l, b, s, d, e)
  }

  // one table lookup
  lemma WalkStep(tables: seq<seq<Huft>>, w: nat, t: nat, nb: nat, s: seq<Bit>)
    requires WalkOk(tables, w, t, nb, s) && |s| >= nb
    ensures nb <= w && t < |tables| && Val(s[..nb]) < |tables[t]|
    ensures var q := tables[t][Val(s[..nb])];
            && (q.e == 99 ==> Walk(tables, t, nb, s).None?)
            && (q.e != 99 ==> 1 <= q.b <= nb)
            && (q.e <= 16 ==> Walk(tables, t, nb, s) == Some(Found(q.e, q.v, q.b)))
            && (q.e > 16 && q.e != 99 ==>
                  && t < q.v < |tables| && WalkOk(tables, w, q.v, q.e - 16, s[q.b..])
                  && Walk(tables, t, nb, s) == Bump(Walk(tables, q.v, q.e - 16, s[q.b..]), q.b))
  {
    hide Bump, Val;
  }

  lemma WalkShort(tables: seq<seq<Huft>>, t: nat, nb: nat, s: seq<Bit>)
    requires |s| < nb
    ensures Walk(tables, t, nb, s).None?
  {
  }

  lemma WalkNone(l: nat, s: seq<Bit>)
    ensures Walk([], 0, l, s).None?
  {
  }

  lemma BumpNone(n: nat)
    ensures Bump(None, n) == None
  {
  }

  // the lookup loop
  method ReadSym(bits: BitReader, tables: seq<seq<Huft>>, l: nat) returns (code: nat, e: nat, v: nat)
    requires bits.Calm() && (tables != [] ==> 1 <= l <= 9 && Sane(tables, l))
    modifies bits
    ensures bits.Valid() && (code == OK ==> bits.Calm()) && |bits.Rest()| <= |old(bits.Rest())|
    ensures var w := Walk(tables, 0, l, old(bits.Rest()));
            if code == OK then w.Some? && w.value.e == e <= 16 && w.value.v == v &&
                1 <= w.value.bits <= |old(bits.Rest())|
                       && bits.Rest() == old(bits.Rest())[w.value.bits..]
            else w.None?
    ensures (code == FAULT <==> tables == []) && (code == OK ==> l <= |old(bits.Rest())|)
  {
    hide Walk, WalkOk, Bump, Val, Sane, InSync, Unread;
    if tables == [] {
      WalkNone(l, bits.Rest());
      return FAULT, 0, 0;
    }
    ghost var s0, used: nat := bits.Rest(), 0;
    var t: nat, nb: nat := 0, l;
    SaneAt(tables, l, s0);
    BumpZero(Walk(tables, 0, l, s0));
    assert s0[0..] == s0;
    code, e, v := BAD, 0, 0;
    while true
      invariant code == BAD && bits.Calm() && used <= |s0| && bits.Rest() == s0[used..] && nb <= l
      invariant WalkOk(tables, l, t, nb, bits.Rest()) && (l <= |s0| || (used == 0 && nb == l))
      invariant Walk(tables, 0, l, s0) == Bump(Walk(tables, t, nb, bits.Rest()), used)
      decreases |tables| - t
    {
      var more := bits.NeedBits(nb);
      if !more {
        WalkShort(tables, t, nb, bits.Rest());
        BumpNone(used);
        return;
      }
      WalkStep(tables, l, t, nb, bits.Rest());
      var q := tables[t][bits.Peek(nb)];
      if q.e == 99 {
        BumpNone(used);
        return;
      }
      ghost var s := bits.Rest();
      bits.DumpBits(q.b);
      assert s0[used..][q.b..] == s0[used + q.b..];
      if q.e <= 16 {
        BumpSome(q, used);
        return OK, q.e, q.v;
      }
      BumpBump(Walk(tables, q.v, q.e - 16, bits.Rest()), q.b, used);
      used := used + q.b;
      t, nb := q.v, q.e - 16;
      WalkOkWidth(tables, l, t, nb, bits.Rest());
    }
  }

  lemma SaneAt(tables: seq<seq<Huft>>, l: nat, s: seq<Bit>)
    requires Sane(tables, l)
    ensures WalkOk(tables, l, 0, l, s)
  {
  }

  lemma BumpZero(r: Option<Found>)
    ensures Bump(r, 0) == r
  {
  }

  lemma BumpSome(q: Huft, used: nat)
    ensures Bump(Some(Found(q.e, q.v, q.b)), used) == Some(Found(q.e, q.v, q.b + used))
  {
  }

  lemma WalkOkWidth(tables: seq<seq<Huft>>, w: nat, t: nat, nb: nat, s: seq<Bit>)
    requires WalkOk(tables, w, t, nb, s)
    ensures nb <= w
  {
  }

  // --- Lookups against the reference decoder ---

  // what a lookup that fails means: no symbol there, or the input ends within 16 bits after it
  lemma LookupFails(tables: seq<seq<Huft>>, l: nat, b: seq<nat>, s: nat, d: seq<nat>, e: seq<nat>, str: seq<Bit>)
    requires Loose(tables, l, b, s, d, e) && Walk(tables, 0, l, str).None?
    ensures var r := Lookup(b, s, d, e, str); r.None? || (|str| < r.value.bits + 16 && tables != [])
  {
    hide Walk, Lookup, Decodes, Refuses, Sane, Known, Decodable;
    var r := Lookup(b, s, d, e, str);
    if r.Some? {
      if tables == [] {
        LookupZero(b, s, d, e, str);
      } else if |str| >= r.value.bits + l {
        WalkComplete(tables, l, b, s, d, e, str);
      }
    }
  }

  lemma LookupZero(b: seq<nat>, s: nat, d: seq<nat>, e: seq<nat>, str: seq<Bit>)
    requires AllZero(b)
    ensures Lookup(b, s, d, e, str).None?
  {
    if DecodeSym(b, str).Some? { DecodeSound(b, str); }
  }

  // what a lookup that succeeds means
  lemma LookupFound(tables: seq<seq<Huft>>, l: nat, b: seq<nat>, s: nat, d: seq<nat>, e: seq<nat>, str: seq<Bit>)
    requires Loose(tables, l, b, s, d, e) && Walk(tables, 0, l, str).Some?
    ensures Lookup(b, s, d, e, str) == Walk(tables, 0, l, str)
            || (Lookup(b, s, d, e, str).None? && !Tight(tables, l, b, s, d, e))
    ensures IsEntry(s, d, e, Walk(tables, 0, l, str).value)
  {
    hide Lookup, Decodes, Refuses, Sane, Decodable;
    assert tables != [];
    if Lookup(b, s, d, e, str).Some? {
      WalkLoose(tables, l, b, s, d, e, str);
    } else if Tight(tables, l, b, s, d, e) {
      WalkSound(tables, l, b, s, d, e, str);
    }
  }

  lemma LooseSane(tables: seq<seq<Huft>>, l: nat, b: seq<nat>, s: nat, d: seq<nat>, e: seq<nat>)
    requires Loose(tables, l, b, s, d, e)
    ensures tables != [] ==> 1 <= l <= 9 && Sane(tables, l)
  {
  }

  lemma DistStep(dl: seq<nat>, s: seq<Bit>)
    requires |dl| <= D_CODES
    ensures var r := Lookup(dl, 0, CPDIST, CPDEXT, s);
            if r.None? then ReadDist(dl, s).None?
            else r.value.e <= 13 && r.value.bits <= |s|
                 && ReadDist(dl, s) == ReadExtra(s[r.value.bits..], r.value.v, r.value.e)
                 && (ReadDist(dl, s).Some? ==> 1 <= ReadDist(dl, s).value.0 <= WSIZE)
  {
    hide DecodeSym, Pow2, Val;
    if DecodeSym(dl, s).Some? {
      var (c, n) := DecodeSym(dl, s).value;
      DistRange(c);
      ExtraBounds(0, c);
    }
  }

  // no distance code reaches past the window
  lemma DistRange(c: nat)
    requires c < D_CODES
    ensures 1 <= CPDIST[c] && CPDIST[c] + Pow2(CPDEXT[c]) <= WSIZE + 1
  {
    SmallPowers();
    if c < 29 { DistMono(c, 29); }
  }

  // a length code with the copy it asks for
  function MatchFrom(dl: seq<nat>, s: seq<Bit>, base: nat, ext: nat, out: seq<Byte>): (r: Option<(seq<Byte>, seq<Bit>)>)
    ensures r.Some? ==> |r.value.1| <= |s|
  {
    match ReadExtra(s, base, ext)
    case None => None
    case Some((len, s1)) =>
      match ReadDist(dl, s1)
      case None => None
      case Some((dist, s2)) =>
        match Copied(out, len, dist)
        case None => None
        case Some(o) => Some((o, s2))
  }

  function AfterMatch(ll: seq<nat>, dl: seq<nat>,
      m: Option<(seq<Byte>, seq<Bit>)>): (r: Option<(seq<Byte>, seq<Bit>)>) {
    match m
    case None => None
    case Some((o, t)) => DecodeTokens(ll, dl, t, o)
  }

  // one symbol of the reference decoder, told from the table entry
  lemma SymStep(ll: seq<nat>, dl: seq<nat>, s: seq<Bit>, out: seq<Byte>)
    requires |ll| <= 288
    ensures var r := Lookup(ll, 257, CPLENS, CPLEXT, s);
            && (r.None? ==> DecodeTokens(ll, dl, s, out).None?)
            && (r.Some? ==>
                  var Found(e, v, n) := r.value;
                  && n <= |s|
                  && (e == 16 ==> v < 256 && DecodeTokens(ll, dl, s, out) == DecodeTokens(ll, dl, s[n..], out + [v]))
                  && (e == 15 ==> DecodeTokens(ll, dl, s, out) == Some((out, s[n..])))
                  && (e < 15 ==>
                      e <= 5 && DecodeTokens(ll, dl, s, out) == AfterMatch(ll, dl, MatchFrom(dl, s[n..], v, e, out)))
                  && (e <= 16))
  {
    hide DecodeSym, ReadDist, ReadExtra, Copied;
    if DecodeSym(ll, s).Some? {
      var (sym, n) := DecodeSym(ll, s).value;
      if sym > END_BLOCK { SymMatch(ll, dl, s, out, sym, n); }
    }
  }

  lemma SymMatch(ll: seq<nat>, dl: seq<nat>, s: seq<Bit>, out: seq<Byte>, sym: nat, n: nat)
    requires DecodeSym(ll, s) == Some((sym, n)) && END_BLOCK < sym < 288 && n <= |s|
    ensures var e := SymE(257, CPLEXT, sym);
            if e <= 16 then e <= 5 && DecodeTokens(ll, dl, s, out)
                              == AfterMatch(ll, dl, MatchFrom(dl, s[n..], SymV(257, CPLENS, sym), e, out))
            else DecodeTokens(ll, dl, s, out).None?
  {
    hide DecodeSym, DecodeMatch, MatchFrom, SymE, SymV;
    var c := sym - 257;
    SymEntry(sym);
    MatchSame(dl, s[n..], c, out);
  }

  lemma SymEntry(sym: nat)
    requires END_BLOCK < sym < 288
    ensures var c := sym - 257;
            if c < LENGTH_CODES then SymE(257, CPLEXT, sym) == CPLEXT[c] <= 5 && SymV(257, CPLENS, sym) == CPLENS[c]
            else SymE(257, CPLEXT, sym) == 99
  {
    var c := sym - 257;
    assert c < LENGTH_CODES || c == 29 || c == 30;
    if c < LENGTH_CODES { ExtraBounds(c, 0); }
  }

  lemma MatchSame(dl: seq<nat>, s: seq<Bit>, c: nat, out: seq<Byte>)
    requires c < 31
    ensures DecodeMatch(dl, s, c, out) == if c < LENGTH_CODES then MatchFrom(dl, s, CPLENS[c], CPLEXT[c], out) else None
  {
    hide ReadDist, ReadExtra, Copied;
  }

  // --- Where the program has no table to look into ---

  // a length code with its extra bits comes after literals only, and k bits follow
  ghost predicate FirstLength(ll: seq<nat>, s: seq<Bit>, k: nat)
    decreases |s|
  {
    match DecodeSym(ll, s)
    case None => false
    case Some((sym, n)) =>
      if sym < LITERALS then FirstLength(ll, s[n..], k)
      else sym > END_BLOCK && var r := ReadLen(s[n..], sym - LITERALS - 1); r.Some? && |r.value.1| >= k
  }

  // there is no code for literals and lengths, or one for distances is needed and there is none
  ghost predicate TokensFault(ll: seq<nat>, dl: seq<nat>, s: seq<Bit>, k: nat) {
    AllZero(ll) || (AllZero(dl) && FirstLength(ll, s, k))
  }

  lemma {:induction false} FirstLong(ll: seq<nat>, s: seq<Bit>, k: nat)
    requires FirstLength(ll, s, k)
    ensures |s| >= k
    decreases |s|
  {
    hide DecodeSym;
    var (sym, n) := DecodeSym(ll, s).value;
    if sym < LITERALS { FirstLong(ll, s[n..], k); }
  }

  lemma FirstStep(ll: seq<nat>, s: seq<Bit>, k: nat)
    requires |ll| <= 288
    ensures var r := Lookup(ll, 257, CPLENS, CPLEXT, s);
            if r.None? then !FirstLength(ll, s, k)
            else
              var Found(e, v, n) := r.value;
              && n <= |s| && e <= 16 && (e == 16 ==> (FirstLength(ll, s, k) <==> FirstLength(ll, s[n..], k)))
              && (e == 15 ==> !FirstLength(ll, s, k)) && (e < 15 ==> (FirstLength(ll, s, k) <==> |s| >= n + e + k))
  {
    hide DecodeSym, SymV;
    if DecodeSym(ll, s).Some? {
      var (sym, n) := DecodeSym(ll, s).value;
      if sym > END_BLOCK { SymEntry(sym); }
    }
  }

  // a symbol for which there are too few bits is not followed by a length code with enough
  lemma FirstShort(ll: seq<nat>, s: seq<Bit>)
    requires |ll| <= 288
    requires var r := Lookup(ll, 257, CPLENS, CPLEXT, s); r.None? || |s| < r.value.bits + 16
    ensures !FirstLength(ll, s, 16)
  {
    hide Lookup, FirstLength, CPLENS, CPLEXT;
    FirstStep(ll, s, 16);
    var r := Lookup(ll, 257, CPLENS, CPLEXT, s);
    if r.Some? && FirstLength(ll, s[r.value.bits..], 16) { FirstLong(ll, s[r.value.bits..], 16); }
  }

  // --- The methods ---

  // table entries for distances stay within the window
  lemma DistEntry(f: Found)
    requires IsEntry(0, CPDIST, CPDEXT, f) && f.e <= 16
    ensures f.e <= 13 && 1 <= f.v && f.v + Pow2(f.e) <= WSIZE + 1
  {
    var sym: nat :| f.e == SymE(0, CPDEXT, sym) && f.v == SymV(0, CPDIST, sym);
    DistRange(sym);
    ExtraBounds(0, sym);
  }

  lemma LitEntry(f: Found)
    requires IsEntry(257, CPLENS, CPLEXT, f) && f.e <= 16
    ensures f.e == 16 ==> f.v < 256
    ensures f.e < 15 ==> f.e <= 5
  {
    var sym: nat :| f.e == SymE(257, CPLEXT, sym) && f.v == SymV(257, CPLENS, sym);
    if 257 <= sym < 288 { SymEntry(sym); }
  }

  // a distance code with its extra bits
  method ReadDistance(bits: BitReader, td: seq<seq<Huft>>, bd: nat, ghost dl: seq<nat>) returns (code: nat, dist: nat)
    requires bits.Calm() && |dl| <= D_CODES && Loose(td, bd, dl, 0, CPDIST, CPDEXT)
    modifies bits
    ensures bits.Valid() && (code == OK ==> bits.Calm()) && |bits.Rest()| <= |old(bits.Rest())| &&
        (code == OK ==> 1 <= dist <= WSIZE)
    ensures code == OK ==> ReadDist(dl, old(bits.Rest())) == Some((dist, bits.Rest()))
                           || (ReadDist(dl, old(bits.Rest())).None? && !Tight(td, bd, dl, 0, CPDIST, CPDEXT))
    ensures (code == FAULT <==> td == []) && (code == FAULT ==> ReadDist(dl, old(bits.Rest())).None?)
    ensures code != OK ==> var r := ReadDist(dl, old(bits.Rest())); r.None? || |r.value.1| < 16
  {
    hide Walk, Lookup, ReadDist, Loose, Tight, Val, IsEntry, Pow2, InSync, Unread;
    ghost var s := bits.Rest();
    DistStep(dl, s);
    LooseSane(td, bd, dl, 0, CPDIST, CPDEXT);
    var e, v;
    code, e, v := ReadSym(bits, td, bd);
    dist := 0;
    if code != OK {
      LookupFails(td, bd, dl, 0, CPDIST, CPDEXT, s);
      return;
    }
    LookupFound(td, bd, dl, 0, CPDIST, CPDEXT, s);
    DistEntry(Walk(td, 0, bd, s).value);
    var ok, x := bits.TakeBits(e);
    if ok { dist := v + x; } else { code := BAD; }
  }

  // the rest of a match: extra length bits, distance, copy
  method ReadMatch(bits: BitReader, win: Slide, td: seq<seq<Huft>>, bd: nat, ghost dl: seq<nat>, v: nat, e: nat)
      returns (code: nat)
    requires bits.Calm() && win.Valid() && |dl| <= D_CODES && Loose(td, bd, dl, 0, CPDIST, CPDEXT) && e <= 5
    modifies bits, win, win.slide, win.sum
    ensures bits.Valid() && (code == OK ==> bits.Calm()) && win.Valid() && |bits.Rest()| <= |old(bits.Rest())|
    ensures var r := MatchFrom(dl, old(bits.Rest()), v, e, old(win.All()));
            if code == OK then r == Some((win.All(), bits.Rest())) || (r.None? && !Tight(td, bd, dl, 0, CPDIST, CPDEXT))
            else r.None? || (|r.value.1| < 16 && code != FAULT)
    ensures (code == FAULT <==> td == [] && e <= |old(bits.Rest())|) && (td == [] ==> code != OK)
  {
    hide Val, CopyMatch, ReadDist, Loose, Tight, InSync, Unread, Ring, Flat, Pow2;
    var ok, x := bits.TakeBits(e);
    if !ok { return BAD; }
    var dist;
    code, dist := ReadDistance(bits, td, bd, dl);
    if code != OK { return; }
    win.Copy(v + x, dist);
  }

  ghost predicate BothTight(tl: seq<seq<Huft>>, td: seq<seq<Huft>>, bl: nat, bd: nat, ll: seq<nat>, dl: seq<nat>) {
    Tight(tl, bl, ll, 257, CPLENS, CPLEXT) && Tight(td, bd, dl, 0, CPDIST, CPDEXT)
  }

  ghost predicate BothLoose(tl: seq<seq<Huft>>, td: seq<seq<Huft>>, bl: nat, bd: nat, ll: seq<nat>, dl: seq<nat>) {
    && |ll| <= 288 && |dl| <= D_CODES
    && Loose(tl, bl, ll, 257, CPLENS, CPLEXT) && Loose(td, bd, dl, 0, CPDIST, CPDEXT)
  }

  // the output and the rest of the input agree with the reference decoder
  ghost predicate Agrees(r: Option<(seq<Byte>, seq<Bit>)>, code: nat, all: seq<Byte>, rest: seq<Bit>) {
    if code == OK then r == Some((all, rest)) else r.None? || |r.value.1| < 16
  }

  // what r, decoded before a symbol, has to do with r', decoded after it
  ghost predicate Continues(r: Option<(seq<Byte>, seq<Bit>)>, r': Option<(seq<Byte>, seq<Bit>)>, tight: bool) {
    r' == r || (r.None? && !tight)
  }

  // one round of the loop
  method OneSymbol(bits: BitReader, win: Slide, tl: seq<seq<Huft>>, td: seq<seq<Huft>>, bl: nat, bd: nat,
                   ghost ll: seq<nat>, ghost dl: seq<nat>) returns (more: bool, code: nat)
    requires bits.Calm() && win.Valid() && BothLoose(tl, td, bl, bd, ll, dl)
    modifies bits, win, win.slide, win.sum
    ensures bits.Valid() && (more || code == OK ==> bits.Calm()) && win.Valid() && |bits.Rest()| <= |old(bits.Rest())|
    ensures var r, tight := DecodeTokens(ll, dl, old(bits.Rest()), old(win.All())), BothTight(tl, td, bl, bd, ll, dl);
            if more then code == OK && Continues(r, DecodeTokens(ll, dl, bits.Rest(), win.All()), tight) &&
                |bits.Rest()| < |old(bits.Rest())|
            else (Agrees(r, code, win.All(), bits.Rest()) || (r.None? && !tight)) && (code == FAULT ==> r.None?)
    ensures more || code == OK ==> bl <= |old(bits.Rest())|
    ensures var tight, s := BothTight(tl, td, bl, bd, ll, dl), old(bits.Rest());
            && (code == FAULT ==> tl == [] || (td == [] && (FirstLength(ll, s, 0) || !tight)))
            && (tl == [] || (td == [] && !more && FirstLength(ll, s, 16)) ==> code == FAULT)
            && (more && td == [] ==>
                  && (FirstLength(ll, s, 16) ==> FirstLength(ll, bits.Rest(), 16))
                  && (FirstLength(ll, bits.Rest(), 0) ==> FirstLength(ll, s, 0) || !tight))
  {
    hide FirstLength, Walk, Lookup, DecodeTokens, MatchFrom, Loose, Tight, IsEntry, CPLENS, CPLEXT, InSync, Unread,
        Ring, Flat;
    LooseSane(tl, bl, ll, 257, CPLENS, CPLEXT);
    ghost var s := bits.Rest();
    SymStep(ll, dl, s, win.All());
    var e, v;
    code, e, v := ReadSym(bits, tl, bl);
    if code != OK {
      LookupFails(tl, bl, ll, 257, CPLENS, CPLEXT, s);
      ShortAfter(ll, dl, s, win.All());
      FirstShort(ll, s);
      return false, code;
    }
    LookupFound(tl, bl, ll, 257, CPLENS, CPLEXT, s);
    FirstStep(ll, s, 0);
    FirstStep(ll, s, 16);
    LitEntry(Walk(tl, 0, bl, s).value);
    if e == 16 {
      win.Put(v);
      return true, OK;
    }
    if e == 15 { return false, OK; }
    ghost var m := MatchFrom(dl, bits.Rest(), v, e, win.All());
    code := ReadMatch(bits, win, td, bd, dl, v, e);
    AfterShort(ll, dl, m);
    more := code == OK;
  }

  method InflateCodes(bits: BitReader, win: Slide, tl: seq<seq<Huft>>, td: seq<seq<Huft>>, bl: nat, bd: nat,
                      ghost ll: seq<nat>, ghost dl: seq<nat>) returns (code: nat)
    requires bits.Calm() && win.Valid() && BothLoose(tl, td, bl, bd, ll, dl)
    modifies bits, win, win.slide, win.sum
    ensures bits.Valid() && (code == OK ==> bits.Calm()) && win.Valid() && |bits.Rest()| <= |old(bits.Rest())|
    ensures var r := DecodeTokens(ll, dl, old(bits.Rest()), old(win.All()));
            (Agrees(r, code, win.All(), bits.Rest()) || (r.None? && !BothTight(tl, td, bl, bd, ll, dl))) &&
                (code == FAULT ==> r.None?)
    ensures code == OK ==> bl <= |old(bits.Rest())|
    ensures var tight, s := BothTight(tl, td, bl, bd, ll, dl), old(bits.Rest());
            && (code == FAULT ==> tl == [] || (td == [] && (FirstLength(ll, s, 0) || !tight)))
            && (tl == [] || (td == [] && FirstLength(ll, s, 16)) ==> code == FAULT)
  {
    hide FirstLength, DecodeTokens, BothLoose, BothTight, Agrees, InSync, Unread, Ring, Flat;
    var more := true;
    code := OK;
    ghost var r, s0, tight := DecodeTokens(ll, dl, bits.Rest(), win.All()), bits.Rest(),
        BothTight(tl, td, bl, bd, ll, dl);
    while more
      invariant bits.Valid() && (code == OK ==> bits.Calm()) && win.Valid() && |bits.Rest()| <= |old(bits.Rest())|
      invariant (more ==> code == OK) && (code == FAULT ==> r.None?)
      invariant (more && bits.Rest() == s0) || code != OK || bl <= |s0|
      invariant code == FAULT ==> tl == [] || (td == [] && (FirstLength(ll, s0, 0) || !tight))
      invariant !more && (tl == [] || (td == [] && FirstLength(ll, s0, 16))) ==> code == FAULT
      invariant more && td == [] ==>
                  && (FirstLength(ll, s0, 16) ==> FirstLength(ll, bits.Rest(), 16))
                  && (FirstLength(ll, bits.Rest(), 0) ==> FirstLength(ll, s0, 0) || !tight)
      invariant if more then Continues(r, DecodeTokens(ll, dl, bits.Rest(), win.All()), tight)
                else Agrees(r, code, win.All(), bits.Rest()) || (r.None? && !tight)
      decreases more, |bits.Rest()|
    {
      more, code := OneSymbol(bits, win, tl, td, bl, bd, ll, dl);
    }
  }

  // too few bits after a symbol are too few at the end of the block
  lemma ShortAfter(ll: seq<nat>, dl: seq<nat>, s: seq<Bit>, out: seq<Byte>)
    requires |ll| <= 288
    requires var r := Lookup(ll, 257, CPLENS, CPLEXT, s); r.None? || |s| < r.value.bits + 16
    ensures var r := DecodeTokens(ll, dl, s, out); r.None? || |r.value.1| < 16
  {
    hide Lookup, DecodeTokens, MatchFrom;
    SymStep(ll, dl, s, out);
  }

  lemma AfterShort(ll: seq<nat>, dl: seq<nat>, m: Option<(seq<Byte>, seq<Bit>)>)
    ensures AfterMatch(ll, dl, m).Some? ==> m.Some? && |AfterMatch(ll, dl, m).value.1| <= |m.value.1|
    ensures m.Some? ==> AfterMatch(ll, dl, m) == DecodeTokens(ll, dl, m.value.1, m.value.0)
  {
  }
}
