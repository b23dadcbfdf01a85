/**
 deflate and deflate_fast: the tokens they tally stand for exactly the input.
 */
module Deflate {
  import opened Bits
  import opened BitIO
  import opened Canonical
  import opened Lz
  import opened Hash
  import opened Chains
  import opened Longest
  import opened BlockLists
  import opened TokenBuffer
  import opened Frequencies
  import opened Stream
  import opened Coder
  import opened Output
  import opened Matching

  const TOO_FAR := 4096
  const FAST := 4
  const SLOW := 2

  // configuration_table: good_length, max_lazy, nice_length, max_chain
  const CONFIGURATION: seq<(nat, nat, nat, nat)> := [
    (0, 0, 0, 0), (4, 4, 8, 4), (4, 5, 16, 8), (4, 6, 32, 32), (4, 4, 16, 16),
    (8, 16, 32, 32), (8, 16, 128, 128), (8, 32, 128, 256), (32, 128, 258, 1024), (32, 258, 258, 4096)]

  method Configuration(level: int) returns (good: nat, lazy: nat, nice: nat, chain: nat)
    requires 1 <= level <= 9
    ensures CONFIGURATION[level] == (good, lazy, nice, chain) && MIN_MATCH < lazy <= MAX_MATCH && chain >= 4
  {
    var c := CONFIGURATION[level];
    good, lazy, nice, chain := c.0, c.1, c.2, c.3;
  }

  // the len bytes at pos are repeated from dist bytes before
  ghost predicate Found(seen: seq<Byte>, pos: nat, dist: nat, len: nat) {
    1 <= dist <= pos && pos + len <= |seen| && seen[pos..pos + len] == seen[pos - dist..pos - dist + len]
  }

  // the string at index start repeats the len bytes at index s
  ghost predicate Matched(seen: seq<Byte>, base: nat, s: nat, start: nat, len: nat) {
    start < s && s - start <= MAX_DIST && Found(seen, base + s, s - start, len)
  }

  // the same for the string before index s, with distances as unsigned numbers
  ghost predicate Held(seen: seq<Byte>, base: nat, s: nat, start: nat, len: nat, lookahead: nat) {
    s >= 1 && len <= lookahead + 1 && Sub32(s - 1, start) <= MAX_DIST &&
        Found(seen, base + s - 1, Sub32(s - 1, start), len)
  }

  // a match in the window is a match in the input, as far as there is input
  lemma FoundIn(win: seq<Byte>, seen: seq<Byte>, base: nat, end: nat, s: nat, start: nat, best: nat, len: nat)
    requires Buffered(win, seen, base, end) && start < s && MatchAt(win, start, s, best) && len <= best &&
        s + len <= end
    ensures Found(seen, base + s, s - start, len)
  {
    MatchLess(win, start, s, best, len);
    var a, b := seen[base + s..base + s + len], seen[base + start..base + start + len];
    forall i | 0 <= i < len ensures a[i] == b[i] {
      hide MatchAt;
      MatchByte(win, start, s, len, i);
      BufferedAt(win, seen, base, end, s + i);
      BufferedAt(win, seen, base, end, start + i);
    }
  }

  lemma FoundLater(seen: seq<Byte>, seen': seq<Byte>, pos: nat, dist: nat, len: nat)
    requires Found(seen, pos, dist, len) && seen <= seen'
    ensures Found(seen', pos, dist, len)
  {
    assert seen'[pos..pos + len] == seen[pos..pos + len];
    assert seen'[pos - dist..pos - dist + len] == seen[pos - dist..pos - dist + len];
  }

  // replaying a match that was found gives the input
  lemma FoundCopy(seen: seq<Byte>, pos: nat, dist: nat, len: nat)
    requires Found(seen, pos, dist, len)
    ensures CopyMatch(seen[..pos], len, dist) == seen[..pos + len]
  {
    var r := seen[..pos + len];
    forall i | pos <= i < |r| ensures r[i] == r[i - dist] {
      assert seen[pos..pos + len][i - pos] == seen[pos - dist..pos - dist + len][i - pos];
    }
    CopyUnique(seen[..pos], len, dist, r);
  }

  // the text so far is the input up to pos, and the current block starts at position start of it
  ghost predicate Covers(text: seq<Byte>, flat: seq<Byte>, seen: seq<Byte>, start: int, pos: nat) {
    pos <= |seen| && text == seen[..pos] && |flat| == start && flat <= text
  }

  lemma CoversMore(text: seq<Byte>, flat: seq<Byte>, seen: seq<Byte>, seen': seq<Byte>, start: int, pos: nat)
    requires Covers(text, flat, seen, start, pos) && seen <= seen'
    ensures Covers(text, flat, seen', start, pos)
  {
    assert seen'[..pos] == seen[..pos];
  }

  lemma CoversLiteral(text: seq<Byte>, flat: seq<Byte>, seen: seq<Byte>, start: int, pos: nat)
    requires Covers(text, flat, seen, start, pos) && pos < |seen|
    ensures Covers(Apply(text, Literal(seen[pos])), flat, seen, start, pos + 1)
  {
    assert seen[..pos + 1] == seen[..pos] + [seen[pos]];
  }

  lemma CoversMatch(text: seq<Byte>, flat: seq<Byte>, seen: seq<Byte>, start: int, pos: nat, dist: nat, len: nat)
    requires Covers(text, flat, seen, start, pos) && Found(seen, pos, dist, len) && MIN_MATCH <= len <= MAX_MATCH &&
        dist <= WSIZE
    ensures TokenOk(Match(len, dist), |text|) && Covers(Apply(text, Match(len, dist)), flat, seen, start, pos + len)
  {
    FoundCopy(seen, pos, dist, len);
  }

  // the data of a stored block
  lemma CoversData(text: seq<Byte>, flat: seq<Byte>, seen: seq<Byte>, base: nat, blockStart: int, s: nat,
      win: seq<Byte>, end: nat)
    requires Covers(text, flat, seen, base + blockStart, base + s) && Buffered(win, seen, base, end) && s <= end &&
        0 <= blockStart
    ensures blockStart <= s && flat + win[blockStart..s] == text
  {
    forall i | blockStart <= i < s ensures win[i] == text[base + i] { BufferedAt(win, seen, base, end, i); }
    assert win[blockStart..s] == text[base + blockStart..];
  }

  lemma CoversFlat(text: seq<Byte>, flat: seq<Byte>, seen: seq<Byte>, start: int, pos: nat)
    requires Covers(text, flat, seen, start, pos)
    ensures Covers(text, text, seen, pos, pos) && 0 <= start <= pos
  {
  }

  function AtMost(a: nat, b: nat): (r: nat) { if a > b then b else a }

  // a match of three bytes or more is taken
  ghost function Greedy(len: nat, s: nat, start: nat, c: Byte): (t: Token) {
    if len >= 3 && start < s then Match(len, s - start) else Literal(c)
  }

  // best is the length of the longest match within reach of the search
  ghost predicate Reaches(win: seq<Byte>, ins: set<nat>, base: nat, s: nat, best: nat, nice: nat, patience: nat)
  {
    s + 2 < |win| && exists lo: nat :: Searched(win, ins, base, s, best, lo, nice, patience)
  }

  // what is found is longer than the match before it, and so taken instead: the best match is, as far as there
  // is input, and it is not one of three bytes from too far away
  ghost predicate Better(found: nat, prevLength: nat, best: nat, maxLazy: nat, lookahead: nat, dist: nat) {
    var len := AtMost(best, lookahead);
    && (found >= 3 && found > prevLength <==>
        prevLength < maxLazy && len >= 3 && len > prevLength && !(len == 3 && dist > 4096))
    && (found >= 3 && found > prevLength ==> found == len)
  }

  // the last string with the key of the one at s is too far away, or there is none
  lemma OutOfReach(win: seq<Byte>, ins: set<nat>, base: nat, s: nat, hashHead: nat, best: nat, nice: nat, patience: nat)
    requires |win| == ROOM && s < WINDOW_SIZE && best >= 1
    requires Linked(win, ins, base, hashHead, KeyAt(win, s), s)
    ensures hashHead == NIL || hashHead + MAX_DIST < s ==> Reaches(win, ins, base, s, best, nice, patience)
  {
    hide MatchAt, KeyAt;
    if hashHead == NIL || hashHead + MAX_DIST < s {
      var lo := Limit(s) + 1;
      forall q | q in ins && base + lo <= q < base + s ensures !MatchAt(win, q - base, s, News(best)) {
        if MatchAt(win, q - base, s, News(best)) { SameKeys(win, q - base, s, News(best)); }
      }
      assert Searched(win, ins, base, s, best, lo, nice, patience);
    }
  }

  // the string at s itself does not count
  lemma Earlier(win: seq<Byte>, ins: set<nat>, base: nat, s: nat, best: nat, nice: nat, patience: nat)
    requires Reaches(win, ins + {base + s}, base, s, best, nice, patience)
    ensures Reaches(win, ins, base, s, best, nice, patience)
  {
    hide MatchAt, KeyAt;
    var lo: nat :| Searched(win, ins + {base + s}, base, s, best, lo, nice, patience);
    assert Chain(win, ins + {base + s}, base, lo, s) == Chain(win, ins, base, lo, s);
    assert Chain(win, ins + {base + s}, base, Limit(s) + 1, s) == Chain(win, ins, base, Limit(s) + 1, s);
    assert Searched(win, ins, base, s, best, lo, nice, patience);
  }

  class Deflater {
    const m: Matcher
    const e: Emitter
    var level: int
    var maxLazy: nat
    var goodMatch: nat
    var niceMatch: nat
    var maxChain: nat

    constructor (m0: Matcher, e0: Emitter)
      ensures m == m0 && e == e0
    {
      m, e := m0, e0;
      level, maxLazy, goodMatch, niceMatch, maxChain := 6, 16, 8, 128, 128;
    }

    ghost predicate Disjoint() {
      m.Footprint() !! (e.repr + e.tables) && this !in m.Footprint() && this !in e.repr && this !in e.tables
    }

    // pos bytes of the input have been tallied
    ghost predicate Going(pos: nat)
      reads this, m, m.src, e, e.repr, e.tables
    {
      && Disjoint() && e.Valid() && Covers(e.Text(), e.Flat(), m.src.seen, m.base + m.blockStart, pos)
    }

    // FLUSH_BLOCK(0), block_start = strstart
    method FlushBlock()
      requires Going(m.base + m.strstart) && m.Shape() && Buffered(m.window[..], m.src.seen, m.base, m.end) &&
          m.strstart <= m.end && m.strstart <= WINDOW_SIZE - 2
      modifies m`blockStart, e.repr
      ensures Going(m.base + m.strstart) && e.Roomy() && m.blockStart == m.strstart && e.start == old(e.start) &&
          e.log == old(e.log)
    {
      hide Covers, Buffered, Emitter.Valid, TextOf, FlatOf, Fits;
      CoversFlat(e.Text(), e.Flat(), m.src.seen, m.base + m.blockStart, m.base + m.strstart);
      var data, storedLen := BlockData();
      e.Flush(data, storedLen);
      m.blockStart := m.strstart;
    }

    method BlockData() returns (data: Option<seq<Byte>>, storedLen: nat)
      requires Going(m.base + m.strstart) && m.Shape() && Buffered(m.window[..], m.src.seen, m.base, m.end) &&
          m.strstart <= m.end && m.strstart <= WINDOW_SIZE - 2
      ensures Fits(data, storedLen, e.Flat(), e.Text()) && (data.Some? ==> storedLen <= 65534)
    {
      hide Covers, Buffered, Emitter.Valid, TextOf, FlatOf;
      CoversFlat(e.Text(), e.Flat(), m.src.seen, m.base + m.blockStart, m.base + m.strstart);
      storedLen := m.strstart - m.blockStart;
      if m.blockStart >= 0 {
        data := Some(m.window[m.blockStart..m.strstart]);
        CoversData(e.Text(), e.Flat(), m.src.seen, m.base, m.blockStart, m.strstart, m.window[..], m.end);
      } else {
        data := None;
      }
    }

    method TallyLiteral(c: Byte, ghost pos: nat) returns (flush: bool)
      requires Going(pos) && e.Roomy() && pos < |m.src.seen| && c == m.src.seen[pos] && pos <= m.base + m.strstart
      modifies e.repr
      ensures Going(pos + 1) && (!flush ==> e.Roomy()) && e.start == old(e.start) &&
          e.log == old(e.log) + [Literal(c)]
    {
      hide Covers, Emitter.Valid, TextOf, FlatOf, EndsBlock;
      CoversFlat(e.Text(), e.Flat(), m.src.seen, m.base + m.blockStart, pos);
      CoversLiteral(e.Text(), e.Flat(), m.src.seen, m.base + m.blockStart, pos);
      flush := e.Tally(0, c, level, m.strstart - m.blockStart, Literal(c));
    }

    method TallyMatch(dist: nat, len: nat, ghost pos: nat) returns (flush: bool)
      requires Going(pos) && e.Roomy() && Found(m.src.seen, pos, dist, len) && MIN_MATCH <= len <= MAX_MATCH &&
          dist <= MAX_DIST && pos <= m.base + m.strstart
      modifies e.repr
      ensures Going(pos + len) && (!flush ==> e.Roomy()) && e.start == old(e.start) &&
          e.log == old(e.log) + [Match(len, dist)]
    {
      hide Covers, Found, Emitter.Valid, TextOf, FlatOf, EndsBlock;
      CoversFlat(e.Text(), e.Flat(), m.src.seen, m.base + m.blockStart, pos);
      CoversMatch(e.Text(), e.Flat(), m.src.seen, m.base + m.blockStart, pos, dist, len);
      PositiveDist(m.src.seen, pos, dist, len);
      flush := e.Tally(dist, len - MIN_MATCH, level, m.strstart - m.blockStart, Match(len, dist));
    }

    // the end of an iteration: flush if asked to, and keep enough lookahead
    method Wind(flush: bool, ghost w: nat)
      requires m.Valid(0) && m.InStep() && w <= m.strstart && Going(m.base + m.strstart - w) &&
          (if flush then w == 0 else e.Roomy()) && (m.eofile || m.lookahead >= 2)
      modifies m.Footprint(), e.repr
      ensures m.Valid(0) && m.InStep() && w <= m.base + m.strstart && Going(m.base + m.strstart - w) && e.Roomy() &&
          (m.eofile || m.lookahead >= MIN_LOOKAHEAD) && e.start == old(e.start) && e.log == old(e.log)
      ensures m.base + m.strstart == old(m.base + m.strstart) &&
          m.src.seen + m.src.rest == old(m.src.seen + m.src.rest) && old(m.src.seen) <= m.src.seen
      ensures Sub32(m.strstart, m.matchStart) == old(Sub32(m.strstart, m.matchStart)) && m.lookahead >= old(m.lookahead)
      ensures m.strstart == old(m.strstart) || m.strstart >= MAX_DIST
    {
      hide Covers, Emitter.Valid, TextOf, FlatOf, Chained, Source.Valid, Buffered, Rolled, Sub32;
      if flush { FlushBlock(); }
      ghost var text, flat, seen, pos := e.Text(), e.Flat(), m.src.seen, m.base + m.strstart - w;
      CoversFlat(text, flat, seen, m.base + m.blockStart, pos);
      m.Refill();
      CoversMore(text, flat, seen, m.src.seen, m.base + m.blockStart, pos);
    }

    // a match for the string at strstart, no longer than the input
    method FindMatch(hashHead: nat, prevLength: nat) returns (len: nat, ghost best: nat)
      requires m.Valid(1) && m.InStep() && 0 < hashHead < m.strstart < m.end && m.strstart - hashHead <= MAX_DIST
      requires Linked(m.window[..], m.ins, m.base, hashHead, KeyAt(m.window[..], m.strstart), m.strstart)
      requires 1 <= prevLength < MAX_MATCH && maxChain >= 4
      modifies m`matchStart
      ensures 1 <= len <= MAX_MATCH && len <= m.lookahead
      ensures len > prevLength ==> Matched(m.src.seen, m.base, m.strstart, m.matchStart, len)
      ensures len == AtMost(best, m.lookahead) &&
          Best(m.window[..], m.strstart, prevLength, old(m.matchStart), best, m.matchStart)
      ensures Reaches(m.window[..], m.ins, m.base, m.strstart, best, niceMatch, Patience(prevLength, maxChain,
          goodMatch))
    {
      hide Chained, Buffered, Source.Valid, Linked, Rolled, MatchAt, Found, Searched;
      len := m.Search(hashHead, prevLength, maxChain, goodMatch, niceMatch);
      best := len;
      if len > m.lookahead { len := m.lookahead; }
      if best > prevLength {
        FoundIn(m.window[..], m.src.seen, m.base, m.end, m.strstart, m.matchStart, best, len);
      }
    }

    // the strings of a match of deflate_fast
    method SkipMatch(len: nat)
      requires m.Valid(1) && len >= 3 && m.strstart + len <= m.end
      modifies m`strstart, m`insH, m`ins, m.head, m.prev
      ensures m.Valid(0) && m.strstart == old(m.strstart) + len
    {
      hide Chained, Buffered, Source.Valid, Rolled;
      if len <= maxLazy {
        m.InsertRun(len - 1);
        m.strstart := m.strstart + 1;
      } else {
        m.Jump(len);
      }
    }

    method FastFind(hashHead: nat, matchLength0: nat) returns (matchLength: nat, ghost best: nat)
      requires m.Valid(1) && m.InStep() && m.lookahead > 0 && maxChain >= 4 && matchLength0 < MIN_MATCH
      requires Linked(m.window[..], m.ins, m.base, hashHead, KeyAt(m.window[..], m.strstart), m.strstart)
      modifies m`matchStart
      ensures Reaches(m.window[..], m.ins, m.base, m.strstart, best, niceMatch, Patience(MIN_MATCH - 1, maxChain,
          goodMatch))
      ensures best >= MIN_MATCH ==> m.matchStart < m.strstart && MatchAt(m.window[..], m.matchStart, m.strstart, best)
      ensures if AtMost(best, m.lookahead) >= MIN_MATCH then matchLength == AtMost(best, m.lookahead)
              else matchLength < MIN_MATCH
      ensures matchLength >= MIN_MATCH ==>
          matchLength <= MAX_MATCH && matchLength <= m.lookahead && Matched(m.src.seen, m.base,
              m.strstart, m.matchStart, matchLength)
    {
      hide Chained, Buffered, Source.Valid, Linked, Rolled, Matched, KeyAt, Reaches, MatchAt, Patience;
      matchLength, best := matchLength0, MIN_MATCH - 1;
      OutOfReach(m.window[..], m.ins, m.base, m.strstart, hashHead, MIN_MATCH - 1, niceMatch, Patience(MIN_MATCH - 1,
          maxChain, goodMatch));
      if hashHead != NIL {
        BeforeHere(m.window[..], m.ins, m.base, hashHead, KeyAt(m.window[..], m.strstart), m.strstart);
        if m.strstart - hashHead <= MAX_DIST {
          matchLength, best := FindMatch(hashHead, MIN_MATCH - 1);
        }
      }
    }

    // one iteration of deflate_fast: the longest match that patience allows is taken, or a literal
    method FastStep(matchLength0: nat) returns (matchLength: nat, ghost best: nat, ghost start: nat)
      requires m.Valid(0) && m.InStep() && m.lookahead > 0 && (m.eofile || m.lookahead >= MIN_LOOKAHEAD) &&
          maxChain >= 4
      requires Going(m.base + m.strstart) && e.Roomy() && matchLength0 < MIN_MATCH
      modifies m.Footprint(), e.repr
      ensures m.Valid(0) && m.InStep() && (m.eofile || m.lookahead >= MIN_LOOKAHEAD) && Going(m.base + m.strstart) &&
          e.Roomy() && matchLength < MIN_MATCH
      ensures m.base + m.strstart > old(m.base + m.strstart) &&
          m.src.seen + m.src.rest == old(m.src.seen + m.src.rest) && e.start == old(e.start)
      ensures Reaches(old(m.window[..]), old(m.ins), old(m.base), old(m.strstart), best, niceMatch,
          Patience(MIN_MATCH - 1, maxChain, goodMatch))
      ensures best >= MIN_MATCH ==> start < old(m.strstart) && old(MatchAt(m.window[..], start, m.strstart, best))
      ensures e.log == old(e.log) + [Greedy(AtMost(best, old(m.lookahead)), old(m.strstart), start,
          old(m.window[m.strstart]))]
    {
      hide Covers, Emitter.Valid, TextOf, FlatOf, Chained, Source.Valid, Buffered, Rolled, Linked, KeyAt, Found,
          Reaches, MatchAt, Matched, Patience;
      ghost var win, ins, base, s := m.window[..], m.ins, m.base, m.strstart;
      var hashHead := m.InsertString();
      matchLength, best := FastFind(hashHead, matchLength0);
      start := m.matchStart;
      Earlier(win, ins, base, s, best, niceMatch, Patience(MIN_MATCH - 1, maxChain, goodMatch));
      var flush := FastEmit(matchLength);
      Wind(flush, 0);
      if matchLength >= MIN_MATCH { matchLength := 0; }
    }

    method FastMatch(len: nat) returns (flush: bool)
      requires m.Valid(1) && m.InStep() && Going(m.base + m.strstart) && e.Roomy()
      requires MIN_MATCH <= len <= MAX_MATCH && len <= m.lookahead
      requires Matched(m.src.seen, m.base, m.strstart, m.matchStart, len)
      modifies m`lookahead, m`strstart, m`insH, m`ins, m.head, m.prev, e.repr
      ensures m.Valid(0) && m.InStep() && Going(m.base + m.strstart) && (!flush ==> e.Roomy()) &&
          e.start == old(e.start)
      ensures m.base == old(m.base) && m.src.seen == old(m.src.seen) && m.strstart == old(m.strstart) + len
      ensures m.matchStart < old(m.strstart) && e.log == old(e.log) + [Match(len, old(m.strstart) - m.matchStart)]
    {
      hide Covers, Emitter.Valid, TextOf, FlatOf, Chained, Source.Valid, Buffered, Rolled, Found;
      flush := TallyMatch(m.strstart - m.matchStart, len, m.base + m.strstart);
      m.lookahead := m.lookahead - len;
      SkipMatch(len);
    }

    method FastEmit(len: nat) returns (flush: bool)
      requires m.Valid(1) && m.InStep() && m.lookahead > 0 && Going(m.base + m.strstart) && e.Roomy()
      requires len >= MIN_MATCH ==>
          len <= MAX_MATCH && len <= m.lookahead && Matched(m.src.seen, m.base, m.strstart, m.matchStart, len)
      modifies m`lookahead, m`strstart, m`insH, m`ins, m.head, m.prev, e.repr
      ensures m.Valid(0) && m.InStep() && Going(m.base + m.strstart) && (!flush ==> e.Roomy()) &&
          e.start == old(e.start)
      ensures m.base == old(m.base) && m.src.seen == old(m.src.seen) &&
          m.strstart == old(m.strstart) + (if len >= MIN_MATCH then len else 1)
      ensures e.log == old(e.log) + [Greedy(len, old(m.strstart), m.matchStart, old(m.window[m.strstart]))]
    {
      hide Covers, Emitter.Valid, TextOf, FlatOf, Chained, Source.Valid, Buffered, Rolled, Found;
      ghost var pos := m.base + m.strstart;
      if len >= MIN_MATCH {
        flush := FastMatch(len);
      } else {
        BufferedAt(m.window[..], m.src.seen, m.base, m.end, m.strstart);
        flush := TallyLiteral(m.window[m.strstart], pos);
        m.lookahead := m.lookahead - 1;
        m.strstart := m.strstart + 1;
      }
    }

    // the stream is complete and stands for text
    ghost predicate Done(x: seq<Bit>, start: seq<Bit>, text: seq<Byte>, len: nat)
      reads e.enc.out, e.enc.out.outbuf
    {
      && e.enc.out.Valid() && Encodes(x, |start|, text)
      && e.enc.out.Sent() == start + x + Padding(|start + x|) == BytesToBits(e.enc.out.Bytes())
      && len == (|e.enc.out.Sent()| - |start|) / 8
    }

    // FLUSH_BLOCK(1)
    method FinishBlock() returns (len: nat, ghost x: seq<Bit>)
      requires m.Base(0) && Going(m.base + m.strstart) && m.strstart == m.end && m.eofile
      modifies e.repr
      ensures Done(x, old(e.start), m.src.seen, len) && m.src.rest == []
    {
      hide Covers, Buffered, Emitter.Valid, TextOf, FlatOf, Chained, Source.Valid, Encodes, Padding, BytesToBits,
          Packed, WriterOk;
      WholeInput(e.Text(), e.Flat(), m.src.seen, m.base, m.blockStart, m.window[..], m.end);
      var data, storedLen := BlockData();
      len, x := e.Finish(data, storedLen);
    }

    method DeflateFast() returns (len: nat, ghost x: seq<Bit>)
      requires m.Valid(0) && m.InStep() && (m.eofile || m.lookahead >= MIN_LOOKAHEAD) && maxChain >= 4 &&
          Going(m.base + m.strstart) && e.Roomy()
      modifies m.Footprint(), e.repr
      ensures Done(x, old(e.start), old(m.src.seen + m.src.rest), len) && m.src.seen == old(m.src.seen + m.src.rest) &&
          m.src.Valid()
    {
      hide Covers, Emitter.Valid, TextOf, FlatOf, Chained, Source.Valid, Buffered, Rolled, Found, Encodes, Padding,
          BytesToBits;
      var matchLength: nat := 0;
      ghost var text := m.src.seen + m.src.rest;
      while m.lookahead != 0
        invariant m.Valid(0) && m.InStep() && (m.eofile || m.lookahead >= MIN_LOOKAHEAD) &&
            Going(m.base + m.strstart) && e.Roomy()
        invariant matchLength < MIN_MATCH && m.src.seen + m.src.rest == text && e.start == old(e.start)
        decreases |text| - (m.base + m.strstart)
      {
        ghost var best, start;
        matchLength, best, start := FastStep(matchLength);
      }
      len, x := FinishBlock();
      assert m.src.seen + [] == m.src.seen;
    }

    // --- Lazy evaluation ---

    // how far the text goes: the string before strstart waits for a decision
    ghost function Waiting(avail: bool): (n: nat) { if avail then 1 else 0 }

    // the match for the string before strstart
    ghost predicate Pending(avail: bool, matchLength: nat)
      reads m, m.src
    {
      && 1 <= matchLength <= MAX_MATCH && (avail ==> m.strstart >= 1) && (!avail ==> matchLength < MIN_MATCH)
      && (matchLength >= MIN_MATCH ==> Held(m.src.seen, m.base, m.strstart, m.matchStart, matchLength, m.lookahead))
    }

    // a match for the string at strstart that is longer than prevLength, if there is one
    method LazyFind(hashHead: nat, prevLength: nat) returns (matchLength: nat, ghost best: nat)
      requires m.Valid(1) && m.InStep() && m.lookahead > 0 && 1 <= prevLength && maxLazy <= MAX_MATCH && maxChain >= 4
      requires Linked(m.window[..], m.ins, m.base, hashHead, KeyAt(m.window[..], m.strstart), m.strstart)
      modifies m`matchStart
      ensures 1 <= matchLength <= MAX_MATCH && (matchLength >= MIN_MATCH ==> matchLength <= m.lookahead)
      ensures matchLength >= MIN_MATCH && matchLength > prevLength ==>
          Matched(m.src.seen, m.base, m.strstart, m.matchStart, matchLength)
      ensures prevLength < maxLazy ==>
          Reaches(m.window[..], m.ins, m.base, m.strstart, best, niceMatch, Patience(prevLength, maxChain, goodMatch))
      ensures Better(matchLength, prevLength, best, maxLazy, m.lookahead, Sub32(m.strstart, m.matchStart))
    {
      hide Chained, Buffered, Source.Valid, Linked, Rolled, Matched, KeyAt, Reaches, Best;
      matchLength, best := MIN_MATCH - 1, prevLength;
      OutOfReach(m.window[..], m.ins, m.base, m.strstart, hashHead, prevLength, niceMatch, Patience(prevLength,
          maxChain, goodMatch));
      if hashHead != NIL {
        BeforeHere(m.window[..], m.ins, m.base, hashHead, KeyAt(m.window[..], m.strstart), m.strstart);
        if prevLength < maxLazy && m.strstart - hashHead <= MAX_DIST {
          matchLength, best := FindMatch(hashHead, prevLength);
          // a match of length 3 is dropped if it is too far away
          if matchLength == MIN_MATCH && Sub32(m.strstart, m.matchStart) > TOO_FAR { matchLength := matchLength - 1; }
        }
      }
    }

    // the previous match is taken
    method TakePrevious(prevMatch: nat, prevLength: nat) returns (flush: bool)
      requires m.Valid(1) && m.InStep() && e.Roomy() && m.strstart >= 1 && Going(m.base + m.strstart - 1)
      requires MIN_MATCH <= prevLength <= MAX_MATCH &&
          Held(m.src.seen, m.base, m.strstart, prevMatch, prevLength, m.lookahead)
      modifies m`lookahead, m`strstart, m`insH, m`ins, m.head, m.prev, e.repr
      ensures m.Valid(0) && m.InStep() && Going(m.base + m.strstart) && (!flush ==> e.Roomy()) &&
          e.start == old(e.start)
      ensures m.base == old(m.base) && m.src.seen == old(m.src.seen) && m.strstart == old(m.strstart) + prevLength - 1
      ensures e.log == old(e.log) + [Match(prevLength, Sub32(old(m.strstart) - 1, prevMatch))]
    {
      hide Covers, Emitter.Valid, TextOf, FlatOf, Chained, Source.Valid, Buffered, Rolled, Found, Sub32;
      flush := TallyMatch(Sub32(m.strstart - 1, prevMatch), prevLength, m.base + m.strstart - 1);
      m.lookahead := m.lookahead - (prevLength - 1);
      m.InsertRun(prevLength - 2);
      m.strstart := m.strstart + 1;
    }

    // the previous string starts with a literal
    method TakeLiteral()
      requires m.Valid(1) && m.InStep() && e.Roomy() && m.strstart >= 1 && Going(m.base + m.strstart - 1) &&
          (m.eofile || m.lookahead >= 2)
      modifies m`blockStart, e.repr
      ensures m.Valid(1) && m.InStep() && Going(m.base + m.strstart) && e.Roomy() && e.start == old(e.start)
      ensures e.log == old(e.log) + [Literal(m.window[m.strstart - 1])]
    {
      hide Covers, Emitter.Valid, TextOf, FlatOf, Chained, Source.Valid, Buffered, Rolled, Found, Sub32;
      BufferedAt(m.window[..], m.src.seen, m.base, m.end, m.strstart - 1);
      var flush := TallyLiteral(m.window[m.strstart - 1], m.base + m.strstart - 1);
      if flush { FlushBlock(); }
    }

    // one iteration of deflate
    method LazyStep(prevLength: nat, avail0: bool)
      returns (matchLength: nat, avail: bool, ghost found: nat, ghost best: nat, ghost start: nat)
      requires m.Valid(0) && m.InStep() && m.lookahead > 0 && (m.eofile || m.lookahead >= MIN_LOOKAHEAD) &&
          maxLazy <= MAX_MATCH && maxChain >= 4
      requires Pending(avail0, prevLength) && Going(m.base + m.strstart - Waiting(avail0)) && e.Roomy()
      modifies m.Footprint(), e.repr
      ensures m.Valid(0) && m.InStep() && (m.eofile || m.lookahead >= MIN_LOOKAHEAD) && Pending(avail, matchLength)
      ensures Waiting(avail) <= m.base + m.strstart && Going(m.base + m.strstart - Waiting(avail)) && e.Roomy() &&
          e.start == old(e.start)
      ensures m.base + m.strstart > old(m.base + m.strstart) && m.src.seen + m.src.rest == old(m.src.seen + m.src.rest)
      ensures prevLength < maxLazy ==> Reaches(old(m.window[..]), old(m.ins), old(m.base), old(m.strstart), best,
          niceMatch, Patience(prevLength, maxChain, goodMatch))
      ensures Better(found, prevLength, best, maxLazy, old(m.lookahead), Sub32(old(m.strstart), start))
      ensures var take := prevLength >= 3 && found <= prevLength;
              && (if take then !avail && matchLength == 2 else avail && matchLength == found)
              && e.log == old(e.log) +
                     if take then [Match(prevLength, old(Sub32(m.strstart - 1, m.matchStart)))]
                     else if avail0 then [Literal(old(m.window[m.strstart - 1]))] else []
    {
      hide Covers, Emitter.Valid, TextOf, FlatOf, Chained, Source.Valid, Buffered, Rolled, Found, Sub32, Linked, KeyAt,
          Held, Matched, Reaches, Better, Patience;
      ghost var win, ins, base, s := m.window[..], m.ins, m.base, m.strstart;
      var hashHead := m.InsertString();
      var prevMatch := m.matchStart;
      matchLength, best := LazyFind(hashHead, prevLength);
      found, start := matchLength, m.matchStart;
      if prevLength < maxLazy {
        Earlier(win, ins, base, s, best, niceMatch, Patience(prevLength, maxChain, goodMatch));
      }
      matchLength, avail := Choose(prevMatch, prevLength, matchLength, avail0);
    }

    // between the match held back and the one just found
    method Choose(prevMatch: nat, prevLength: nat, found: nat, avail0: bool) returns (matchLength: nat, avail: bool)
      requires m.Valid(1) && m.InStep() && m.lookahead > 0 && (m.eofile || m.lookahead >= MIN_LOOKAHEAD) &&
          1 <= found <= MAX_MATCH && prevLength <= MAX_MATCH
      requires (avail0 ==> m.strstart >= 1) && Going(m.base + m.strstart - Waiting(avail0)) && e.Roomy()
      requires prevLength >= MIN_MATCH ==>
          avail0 && Held(m.src.seen, m.base, m.strstart, prevMatch, prevLength, m.lookahead)
      requires found >= MIN_MATCH && found > prevLength ==>
          found <= m.lookahead && Matched(m.src.seen, m.base, m.strstart, m.matchStart, found)
      modifies m.Footprint(), e.repr
      ensures m.Valid(0) && m.InStep() && (m.eofile || m.lookahead >= MIN_LOOKAHEAD) && Pending(avail, matchLength)
      ensures Waiting(avail) <= m.base + m.strstart && Going(m.base + m.strstart - Waiting(avail)) && e.Roomy() &&
          e.start == old(e.start)
      ensures m.base + m.strstart > old(m.base + m.strstart) && m.src.seen + m.src.rest == old(m.src.seen + m.src.rest)
      ensures var take := prevLength >= 3 && found <= prevLength;
              && (if take then !avail && matchLength == 2 else avail && matchLength == found)
              && e.log == old(e.log) +
                     if take then [Match(prevLength, Sub32(old(m.strstart) - 1, prevMatch))]
                     else if avail0 then [Literal(old(m.window[m.strstart - 1]))] else []
    {
      hide Covers, Emitter.Valid, TextOf, FlatOf, Chained, Source.Valid, Buffered, Rolled, Sub32, Held, Matched;
      matchLength := found;
      if prevLength >= MIN_MATCH && matchLength <= prevLength {
        TakeHeld(prevMatch, prevLength);
        avail, matchLength := false, MIN_MATCH - 1;
      } else {
        Postpone(matchLength, avail0);
        avail := true;
      }
    }

    // the match held back is the better one
    method TakeHeld(prevMatch: nat, prevLength: nat)
      requires m.Valid(1) && m.InStep() && e.Roomy() && m.strstart >= 1 && Going(m.base + m.strstart - 1)
      requires MIN_MATCH <= prevLength <= MAX_MATCH && (m.eofile || m.lookahead >= MIN_LOOKAHEAD)
      requires Held(m.src.seen, m.base, m.strstart, prevMatch, prevLength, m.lookahead)
      modifies m.Footprint(), e.repr
      ensures m.Valid(0) && m.InStep() && (m.eofile || m.lookahead >= MIN_LOOKAHEAD)
      ensures Going(m.base + m.strstart) && e.Roomy() && e.start == old(e.start)
      ensures m.base + m.strstart > old(m.base + m.strstart) && m.src.seen + m.src.rest == old(m.src.seen + m.src.rest)
      ensures e.log == old(e.log) + [Match(prevLength, Sub32(old(m.strstart) - 1, prevMatch))]
    {
      hide Covers, Emitter.Valid, TextOf, FlatOf, Chained, Source.Valid, Buffered, Rolled, Sub32, Held;
      HeldFits(m.src.seen, m.base, m.strstart, prevMatch, prevLength, m.lookahead);
      var flush := TakePrevious(prevMatch, prevLength);
      Wind(flush, 0);
    }

    // the string at strstart has to wait
    method Postpone(matchLength: nat, avail: bool)
      requires m.Valid(1) && m.InStep() && m.lookahead > 0 && (m.eofile || m.lookahead >= MIN_LOOKAHEAD) &&
          1 <= matchLength <= MAX_MATCH
      requires (avail ==> m.strstart >= 1) && Going(m.base + m.strstart - Waiting(avail)) && e.Roomy()
      requires matchLength >= MIN_MATCH ==>
          matchLength <= m.lookahead && Matched(m.src.seen, m.base, m.strstart, m.matchStart, matchLength)
      modifies m.Footprint(), e.repr
      ensures m.Valid(0) && m.InStep() && (m.eofile || m.lookahead >= MIN_LOOKAHEAD) && Pending(true, matchLength)
      ensures m.base + m.strstart >= 1 && Going(m.base + m.strstart - 1) && e.Roomy() && e.start == old(e.start)
      ensures m.base + m.strstart == old(m.base + m.strstart) + 1 &&
          m.src.seen + m.src.rest == old(m.src.seen + m.src.rest)
      ensures e.log == old(e.log) + if avail then [Literal(old(m.window[m.strstart - 1]))] else []
    {
      hide Covers, Emitter.Valid, TextOf, FlatOf, Chained, Source.Valid, Buffered, Rolled, Found, Sub32, Held, Matched;
      if matchLength >= MIN_MATCH {
        MatchedHeld(m.src.seen, m.base, m.strstart, m.matchStart, matchLength, m.lookahead);
      }
      if avail { TakeLiteral(); }
      m.Advance();
      ghost var seen, base, s, start, la := m.src.seen, m.base, m.strstart, m.matchStart, m.lookahead;
      Wind(false, 1);
      if matchLength >= MIN_MATCH {
        HeldLater(seen, base, s, start, la, matchLength, m.src.seen, m.base, m.strstart, m.matchStart, m.lookahead);
      }
    }

    method DeflateLazy() returns (len: nat, ghost x: seq<Bit>)
      requires m.Valid(0) && m.InStep() && (m.eofile || m.lookahead >= MIN_LOOKAHEAD) && maxLazy <= MAX_MATCH &&
          maxChain >= 4
      requires Going(m.base + m.strstart) && e.Roomy()
      modifies m.Footprint(), e.repr
      ensures Done(x, old(e.start), old(m.src.seen + m.src.rest), len) && m.src.seen == old(m.src.seen + m.src.rest) &&
          m.src.Valid()
    {
      hide Covers, Emitter.Valid, TextOf, FlatOf, Chained, Source.Valid, Buffered, Rolled, Found, Held, Encodes,
          Padding, BytesToBits, Sub32;
      var matchLength: nat, avail := MIN_MATCH - 1, false;
      ghost var text := m.src.seen + m.src.rest;
      while m.lookahead != 0
        invariant m.Valid(0) && m.InStep() && (m.eofile || m.lookahead >= MIN_LOOKAHEAD) && Pending(avail, matchLength)
        invariant Waiting(avail) <= m.base + m.strstart && Going(m.base + m.strstart - Waiting(avail)) && e.Roomy()
        invariant m.src.seen + m.src.rest == text && e.start == old(e.start)
        decreases |text| - (m.base + m.strstart)
      {
        ghost var found, best, start;
        matchLength, avail, found, best, start := LazyStep(matchLength, avail);
      }
      if avail { LastLiteral(); }
      len, x := FinishBlock();
      assert m.src.seen + [] == m.src.seen;
    }

    method LastLiteral()
      requires m.Base(0) && e.Roomy() && m.strstart >= 1 && Going(m.base + m.strstart - 1)
      modifies e.repr
      ensures Going(m.base + m.strstart) && e.start == old(e.start)
    {
      hide Covers, Emitter.Valid, TextOf, FlatOf, Chained, Source.Valid, Buffered;
      BufferedAt(m.window[..], m.src.seen, m.base, m.end, m.strstart - 1);
      var flush := TallyLiteral(m.window[m.strstart - 1], m.base + m.strstart - 1);
    }

    // where lm_init leaves off and deflate begins
    ghost predicate Ready()
      reads this, m.Footprint(), e, e.repr, e.tables
    {
      && m.Valid(0) && m.InStep() && (m.eofile || m.lookahead >= MIN_LOOKAHEAD) && m.base + m.strstart == 0
      && MIN_MATCH < maxLazy <= MAX_MATCH && maxChain >= 4 && Going(0) && e.Roomy()
    }

    // lm_init; it refuses pack levels outside 1 to 9
    method LmInit(packLevel: int) returns (ok: bool, flags: nat)
      requires Disjoint() && m.Shape() && m.src.Valid() && m.src.seen == [] && e.Valid() && e.Roomy() && e.bs == [] &&
          e.ts == []
      modifies this, m.Footprint()
      ensures ok <==> 1 <= packLevel <= 9
      ensures ok ==> Ready() && level == packLevel && m.src.seen + m.src.rest == old(m.src.rest)
      ensures ok ==> (goodMatch, maxLazy, niceMatch, maxChain) == CONFIGURATION[packLevel]
      ensures flags == if packLevel == 1 then FAST else if packLevel == 9 then SLOW else 0
    {
      hide Covers, Emitter.Valid, TextOf, FlatOf, Chained, Source.Valid, Buffered, Rolled;
      flags := 0;
      if packLevel < 1 || packLevel > 9 { return false, 0; }
      ok, level := true, packLevel;
      goodMatch, maxLazy, niceMatch, maxChain := Configuration(packLevel);
      if packLevel == 1 { flags := FAST; } else if packLevel == 9 { flags := SLOW; }
      NoText();
      m.LmInit();
      StartCovers(m.src.seen);
    }

    method Deflate() returns (len: nat, ghost x: seq<Bit>)
      requires Ready()
      modifies m.Footprint(), e.repr
      ensures Done(x, old(e.start), old(m.src.seen + m.src.rest), len) && m.src.seen == old(m.src.seen + m.src.rest) &&
          m.src.Valid()
    {
      hide Covers, Emitter.Valid, TextOf, FlatOf, Chained, Source.Valid, Buffered, Rolled, Encodes, Padding,
          BytesToBits;
      if level <= 3 {
        len, x := DeflateFast();
      } else {
        len, x := DeflateLazy();
      }
    }
  }

  lemma NoText()
    ensures TextOf([], []) == [] && FlatOf([]) == []
  {
  }

  lemma StartCovers(seen: seq<Byte>)
    ensures Covers([], [], seen, 0, 0)
  {
  }

  lemma HeldFits(seen: seq<Byte>, base: nat, s: nat, start: nat, len: nat, lookahead: nat)
    requires Held(seen, base, s, start, len, lookahead)
    ensures len <= lookahead + 1
  {
  }

  lemma MatchedHeld(seen: seq<Byte>, base: nat, s: nat, start: nat, len: nat, lookahead: nat)
    requires Matched(seen, base, s, start, len) && 1 <= len <= lookahead && s < WINDOW_SIZE
    ensures Held(seen, base, s + 1, start, len, lookahead - 1)
  {
    hide Found;
  }

  // the window may have moved, and there may be more input
  lemma SubLess(s: nat, start: nat, s': nat, start': nat)
    requires s >= 1 && s' >= 1 && Sub32(s', start') == Sub32(s, start)
    ensures Sub32(s' - 1, start') == Sub32(s - 1, start)
  {
    SameLess(s' - start', s - start, 0x1_0000_0000);
  }

  lemma SameLess(a: int, b: int, m: nat)
    requires m > 0 && a % m == b % m
    ensures (a - 1) % m == (b - 1) % m
  {
    var q, q', p := a / m, b / m, (b - 1) / m;
    assert a == m * q + a % m && b == m * q' + b % m && b - 1 == m * p + (b - 1) % m;
    Regrouped(m, p, q, q');
    DivModUnique(a - 1, m, p + q - q', (b - 1) % m);
  }

  lemma Regrouped(m: int, p: int, q: int, q': int)
    ensures m * (p + q - q') == m * p + m * q - m * q'
  {
  }

  lemma HeldLater(seen: seq<Byte>, base: nat, s: nat, start: nat, la: nat, len: nat, seen': seq<Byte>, base': nat,
      s': nat, start': nat, la': nat)
    requires Held(seen, base, s, start, len, la) && seen <= seen' && base' + s' == base + s && s' >= 1 && la <= la'
    requires Sub32(s', start') == Sub32(s, start)
    ensures Held(seen', base', s', start', len, la')
  {
    hide Found, Sub32;
    SubLess(s, start, s', start');
    FoundLater(seen, seen', base + s - 1, Sub32(s - 1, start), len);
  }

  lemma WholeInput(text: seq<Byte>, flat: seq<Byte>, seen: seq<Byte>, base: nat, blockStart: int, win: seq<Byte>,
      end: nat)
    requires Covers(text, flat, seen, base + blockStart, base + end) && Buffered(win, seen, base, end)
    ensures text == seen
  {
  }

  lemma BeforeHere(win: seq<Byte>, ins: set<nat>, base: nat, p: nat, h: nat, s: nat)
    requires Linked(win, ins, base, p, h, s) && p != NIL
    ensures p < s
  {
  }

  lemma PositiveDist(seen: seq<Byte>, pos: nat, dist: nat, len: nat)
    requires Found(seen, pos, dist, len)
    ensures dist >= 1
  {
  }
}
