/**
 The window and dictionary of deflate.c: reading input, inserting strings,
 sliding the window down, and searching for matches.
 */
module Matching {
  import opened Bits
  import opened Lz
  import opened Hash
  import opened Chains
  import opened Longest
  import opened Crc

  // the input file: read may deliver fewer bytes than asked for
  class Source {
    var rest: seq<Byte>          // still to be read
    ghost var seen: seq<Byte>    // read so far
    var isize: nat
    var crc: bv32                // the check value of the bytes read so far
    const register: Checksum
    const chunk: nat -> nat      // how much read delivers the nth time
    var calls: nat

    ghost predicate Valid()
      reads this, register
    {
      isize == |seen| && crc == Crc32(seen) && register.crc == Register(0xffffffff, seen)
    }

    constructor (text: seq<Byte>, sizes: nat -> nat)
      ensures Valid() && rest == text && seen == [] && fresh(register) && chunk == sizes
    {
      var r := new Checksum();
      var c := r.Clear();
      crc, register, rest, seen, isize, chunk, calls := c, r, text, [], 0, sizes, 0;
    }

    // file_read
    method FileRead(size: nat) returns (data: seq<Byte>)
      requires Valid() && size >= 2
      modifies this, register
      ensures Valid() && |data| <= size && (data == [] <==> old(rest) == [])
      ensures old(rest) == data + rest && seen == old(seen) + data
    {
      if rest == [] { return []; }
      var most := if |rest| < size then |rest| else size;
      var len := 1 + chunk(calls) % most;
      calls := calls + 1;
      data := rest[..len];
      rest := rest[len..];
      crc := register.Update(data, seen);
      seen := seen + data;
      isize := isize + len;
    }
  }

  // the window holds the input from position base on, up to index end
  ghost predicate Buffered(win: seq<Byte>, seen: seq<Byte>, base: nat, end: nat) {
    |win| == ROOM && end <= WINDOW_SIZE && base + end == |seen| && win[..end] == seen[base..]
  }

  lemma BufferedAt(win: seq<Byte>, seen: seq<Byte>, base: nat, end: nat, i: nat)
    requires Buffered(win, seen, base, end) && i < end
    ensures base + i < |seen| && i < |win| && win[i] == seen[base + i]
  {
    assert win[..end][i] == seen[base..][i];
  }

  // unsigned subtraction
  function Sub32(a: nat, b: nat): (r: nat)
    ensures r < 0x1_0000_0000
  {
    (a - b) % 0x1_0000_0000
  }

  class Matcher {
    const window: array<Byte>
    const head: array<nat>
    const prev: array<nat>
    const src: Source
    var insH: nat
    var strstart: nat
    var matchStart: nat
    var lookahead: nat
    var eofile: bool
    var blockStart: int
    ghost var base: nat
    ghost var end: nat
    ghost var ins: set<nat>

    // the contents of window and prev are left over from an earlier file
    constructor (s: Source)
      ensures Shape() && src == s && fresh(window) && fresh(head) && fresh(prev)
    {
      window, head, prev := new Byte[ROOM], new nat[HASH_SIZE], new nat[WSIZE];
      src := s;
      insH, strstart, matchStart, lookahead, eofile, blockStart, base, end, ins := 0, 0, 0, 0, false, 0, 0, 0, {};
    }

    ghost function Footprint(): (s: set<object>) { {this, window, head, prev, src, src.register} }

    ghost predicate Shape() {
      window.Length == ROOM && head.Length == HASH_SIZE && prev.Length == WSIZE && head != prev
    }

    // the strings before index strstart + k are in the dictionary
    ghost predicate Base(k: nat)
      reads this, window, head, prev, src, src.register
    {
      && Shape() && src.Valid() && Buffered(window[..], src.seen, base, end) && strstart + k <= end <= WINDOW_SIZE &&
          base + end == |src.seen|
      && Chained(window[..], head[..], prev[..], ins, base, strstart + k)
      && (eofile ==> end <= WINDOW_SIZE - 2 && src.rest == [])
    }

    ghost predicate Valid(k: nat)
      reads this, window, head, prev, src, src.register
    {
      Base(k) && (strstart + k < end ==> Rolled(insH, window[strstart + k], window[strstart + k + 1]))
    }

    ghost predicate InStep()
      reads this
    {
      end == strstart + lookahead
    }

    // INSERT_STRING(strstart, hashHead)
    method InsertString() returns (hashHead: nat)
      requires Valid(0) && strstart < end
      modifies this`insH, this`ins, head, prev
      ensures Valid(1) && ins == old(ins) + {base + strstart}
      ensures Linked(window[..], ins, base, hashHead, KeyAt(window[..], strstart), strstart)
    {
      hide Chained, Linked, Buffered, Rolled, Key, Update, Source.Valid;
      ghost var win: seq<Byte>, h0: seq<nat>, p0: seq<nat> := window[..], head[..], prev[..];
      var c := window[strstart + 2];
      KeyOf(insH, window[strstart], window[strstart + 1], c);
      Roll(insH, window[strstart], window[strstart + 1], c);
      insH := Update(insH, c);
      Inserted(win, h0, p0, ins, base, strstart, insH);
      HeadLink(win, h0, p0, ins, base, strstart, insH);
      hashHead := Push(insH, strstart % WSIZE);
      ins := ins + {base + strstart};
    }

    // the string at strstart becomes the head of chain h
    method Push(h: nat, i: nat) returns (hashHead: nat)
      requires head != prev && h < head.Length && i < prev.Length
      modifies head, prev
      ensures hashHead == old(head[h])
      ensures head[..] == old(head[..])[h := strstart] && prev[..] == old(prev[..])[i := hashHead]
    {
      hashHead := head[h];
      prev[i] := hashHead;
      head[h] := strstart;
    }

    // the part of fill_window that moves the upper half of the window down
    method Slide()
      requires Base(0) && InStep() && WSIZE <= strstart && strstart + 2 <= end
      modifies this`matchStart, this`strstart, this`blockStart, this`base, this`end, window, head, prev
      ensures Base(0) && InStep() && base == old(base) + WSIZE && strstart == old(strstart) - WSIZE &&
          blockStart == old(blockStart) - WSIZE
      ensures Sub32(strstart, matchStart) == old(Sub32(strstart, matchStart))
      ensures window[strstart] == old(window[strstart]) && window[strstart + 1] == old(window[strstart + 1])
    {
      hide Chained, Buffered, Source.Valid, Moved, SlidTable, Sub32;
      ghost var win: seq<Byte>, h0: seq<nat>, p0: seq<nat> := window[..], head[..], prev[..];
      MoveDown(window, win);
      SlideTable(head, h0);
      SlideTable(prev, p0);
      SlideDown(win, h0, p0, window[..], head[..], prev[..], ins, base, strstart);
      SlideView(win, window[..], src.seen, base, end, strstart);
      SlideSub(strstart, matchStart);
      matchStart := Sub32(matchStart, WSIZE);
      strstart := strstart - WSIZE;
      blockStart := blockStart - WSIZE;
      base, end := base + WSIZE, end - WSIZE;
    }

    // reading into the free space of the window
    method ReadIn(more: nat)
      requires Base(0) && InStep() && !eofile && 2 <= more && end + more <= WINDOW_SIZE &&
          (strstart + 2 <= end || (ins == {} && strstart == 0))
      requires src.rest == [] ==> end <= WINDOW_SIZE - 2
      modifies this`eofile, this`lookahead, this`end, window, src, src.register
      ensures Base(0) && InStep() && window[..old(end)] == old(window[..end]) && lookahead >= old(lookahead) &&
          (!eofile ==> lookahead > old(lookahead))
      ensures old(src.seen) <= src.seen && src.seen + src.rest == old(src.seen + src.rest) &&
          (eofile || |src.rest| < |old(src.rest)|)
    {
      hide Chained, Buffered, Source.Valid;
      ghost var win: seq<Byte>, seen := window[..], src.seen;
      var data := src.FileRead(more);
      if data == [] {
        eofile := true;
        assert src.seen == seen;
      } else {
        CopyIn(window, strstart + lookahead, data, win);
        ReadView(win, window[..], seen, data, base, end);
        ReadChains(win, window[..], head[..], prev[..], ins, base, strstart, end);
        lookahead := lookahead + |data|;
        end := end + |data|;
      }
    }

    method FillWindow()
      requires Base(0) && InStep() && !eofile && lookahead < MIN_LOOKAHEAD &&
          (lookahead >= 2 || (ins == {} && strstart == 0))
      modifies this`matchStart, this`strstart, this`blockStart, this`base, this`end, this`eofile, this`lookahead,
          window, head, prev, src, src.register
      ensures Base(0) && InStep() && base + strstart == old(base + strstart) &&
          base + blockStart == old(base + blockStart)
      ensures Sub32(strstart, matchStart) == old(Sub32(strstart, matchStart)) && lookahead >= old(lookahead) &&
          (strstart == old(strstart) || strstart >= MAX_DIST)
      ensures old(lookahead) >= 2 ==>
          window[strstart] == old(window[strstart]) && window[strstart + 1] == old(window[strstart + 1])
      ensures old(src.seen) <= src.seen && src.seen + src.rest == old(src.seen + src.rest) &&
          (eofile || |src.rest| < |old(src.rest)|)
    {
      hide Chained, Buffered, Source.Valid, Sub32;
      var more := WINDOW_SIZE - lookahead - strstart;
      if strstart >= WSIZE + MAX_DIST {
        Slide();
        more := more + WSIZE;
      }
      ReadIn(more);
    }

    // to the next string
    method Advance()
      requires Valid(1) && InStep() && lookahead > 0
      modifies this`strstart, this`lookahead
      ensures Valid(0) && InStep() && strstart == old(strstart) + 1 && lookahead == old(lookahead) - 1
    {
      hide Chained, Buffered, Source.Valid, Rolled;
      strstart := strstart + 1;
      lookahead := lookahead - 1;
    }

    // n strings after the one at strstart
    method InsertRun(n: nat)
      requires Valid(1) && strstart + n < end
      modifies this`strstart, this`insH, this`ins, head, prev
      ensures Valid(1) && strstart == old(strstart) + n
    {
      hide Chained, Buffered, Source.Valid, Rolled, Linked;
      var i := n;
      while i > 0
        invariant 0 <= i <= n && Valid(1) && strstart + i == old(strstart) + n
      {
        strstart := strstart + 1;
        var hashHead := InsertString();
        i := i - 1;
      }
    }

    // past a match whose strings are not inserted
    method Jump(len: nat)
      requires Valid(1) && len >= 1 && strstart + len <= end
      modifies this`strstart, this`insH
      ensures Valid(0) && strstart == old(strstart) + len
    {
      hide Chained, Buffered, Source.Valid, Rolled, Update;
      ChainedUp(window[..], head[..], prev[..], ins, base, strstart + 1, strstart + len);
      strstart := strstart + len;
      insH := window[strstart];
      insH := Update(insH, window[strstart + 1]);
      Started(0, window[strstart], window[strstart + 1]);
    }

    // while (lookahead < MIN_LOOKAHEAD && !eofile) fill_window()
    method Refill()
      requires Valid(0) && InStep() && (eofile || lookahead >= 2)
      modifies this`matchStart, this`strstart, this`blockStart, this`base, this`end, this`eofile, this`lookahead,
          window, head, prev, src, src.register
      ensures Valid(0) && InStep() && (eofile || lookahead >= MIN_LOOKAHEAD) &&
          base + strstart == old(base + strstart) && base + blockStart == old(base + blockStart)
      ensures Sub32(strstart, matchStart) == old(Sub32(strstart, matchStart)) && lookahead >= old(lookahead) &&
          (strstart == old(strstart) || strstart >= MAX_DIST)
      ensures old(src.seen) <= src.seen && src.seen + src.rest == old(src.seen + src.rest)
    {
      hide Chained, Buffered, Source.Valid, Sub32, Rolled;
      while lookahead < MIN_LOOKAHEAD && !eofile
        invariant Valid(0) && InStep() && (eofile || lookahead >= 2) && base + strstart == old(base + strstart) &&
            base + blockStart == old(base + blockStart)
        invariant Sub32(strstart, matchStart) == old(Sub32(strstart, matchStart)) && lookahead >= old(lookahead) &&
            (strstart == old(strstart) || strstart >= MAX_DIST)
        invariant old(src.seen) <= src.seen && src.seen + src.rest == old(src.seen + src.rest)
        decreases |src.rest|, !eofile
      {
        FillWindow();
      }
    }

    // lm_init, after the parameters have been set
    method LmInit()
      requires Shape() && src.Valid() && src.seen == []
      modifies this, window, head, prev, src, src.register
      ensures Valid(0) && InStep() && (eofile || lookahead >= MIN_LOOKAHEAD) && base + strstart == 0 &&
          base + blockStart == 0
      ensures src.seen + src.rest == old(src.rest)
    {
      hide Chained, Buffered, Source.Valid, Sub32, Rolled, Update;
      ghost var text := src.rest;
      ClearHead(head);
      strstart, blockStart, lookahead, eofile := 0, 0, 0, false;
      base, end, ins := 0, 0, {};
      NoChains(window[..], head[..], prev[..]);
      NothingRead(window[..]);
      ReadIn(WINDOW_SIZE);
      if lookahead == 0 {
        eofile := true;
        return;
      }
      while lookahead < MIN_LOOKAHEAD && !eofile
        invariant Base(0) && InStep() && strstart == 0 && base == 0 && blockStart == 0 && ins == {} &&
            src.seen + src.rest == text
        decreases |src.rest|, !eofile
      {
        FillWindow();
      }
      insH := 0;
      insH := Update(insH, window[0]);
      insH := Update(insH, window[1]);
      Started(0, window[0], window[1]);
    }

    // longest_match
    method Search(hashHead: nat, prevLength: nat, maxChain: nat, goodMatch: nat, niceMatch: nat) returns (best: nat)
      requires Valid(1) && strstart < end && 0 < hashHead < strstart && strstart - hashHead <= MAX_DIST
      requires Linked(window[..], ins, base, hashHead, KeyAt(window[..], strstart), strstart) &&
          1 <= prevLength < MAX_MATCH && maxChain >= 4
      modifies this`matchStart
      ensures Best(window[..], strstart, prevLength, old(matchStart), best, matchStart)
      ensures exists lo: nat :: Searched(window[..], ins, base, strstart, best, lo, niceMatch,
          Patience(prevLength, maxChain, goodMatch))
    {
      hide Chained, Buffered, Source.Valid, Linked, Best, Searched, Patience;
      ghost var lo;
      best, matchStart, lo := LongestMatch(window, prev, hashHead, strstart, prevLength, matchStart, maxChain,
          goodMatch, niceMatch, head[..], ins, base);
      assert Searched(window[..], ins, base, strstart, best, lo, niceMatch, Patience(prevLength, maxChain, goodMatch));
    }
  }

  method ClearHead(head: array<nat>)
    modifies head
    ensures forall h :: 0 <= h < head.Length ==> head[h] == NIL
  {
    var i := 0;
    while i < head.Length
      invariant 0 <= i <= head.Length && forall h :: 0 <= h < i ==> head[h] == NIL
    {
      head[i] := NIL;
      i := i + 1;
    }
  }

  lemma NothingRead(win: seq<Byte>)
    requires |win| == ROOM
    ensures Buffered(win, [], 0, 0)
  {
  }

  method CopyIn(window: array<Byte>, at: nat, data: seq<Byte>, ghost win: seq<Byte>)
    requires at + |data| <= window.Length && window[..] == win
    modifies window
    ensures window[..at] == win[..at] && window[at..at + |data|] == data
  {
    var i := 0;
    while i < |data|
      invariant 0 <= i <= |data|
      invariant forall k :: 0 <= k < at ==> window[k] == win[k]
      invariant forall k :: at <= k < at + i ==> window[k] == data[k - at]
    {
      window[at + i] := data[i];
      i := i + 1;
    }
  }

  lemma ReadView(win: seq<Byte>, win': seq<Byte>, seen: seq<Byte>, data: seq<Byte>, base: nat, end: nat)
    requires Buffered(win, seen, base, end) && |win'| == ROOM && end + |data| <= WINDOW_SIZE
    requires win'[..end] == win[..end] && win'[end..end + |data|] == data
    ensures Buffered(win', seen + data, base, end + |data|)
  {
    assert win'[..end + |data|] == win'[..end] + win'[end..end + |data|];
    assert (seen + data)[base..] == seen[base..] + data;
  }

  lemma ReadChains(win: seq<Byte>, win': seq<Byte>, head: seq<nat>, prev: seq<nat>, ins: set<nat>, base: nat, s: nat,
      end: nat)
    requires Chained(win, head, prev, ins, base, s) && |win'| == ROOM && end <= ROOM && win'[..end] == win[..end]
    requires s + 2 <= end || (ins == {} && s == 0)
    ensures Chained(win', head, prev, ins, base, s)
  {
    if s + 2 <= end {
      hide Chained;
      assert win'[..s + 2] == win'[..end][..s + 2] && win[..s + 2] == win[..end][..s + 2];
      ReadMore(win, win', head, prev, ins, base, s);
    }
  }

  lemma SlideSub(a: nat, m: nat)
    requires a >= WSIZE
    ensures Sub32(a - WSIZE, Sub32(m, WSIZE)) == Sub32(a, m)
  {
  }

  lemma SlideView(win: seq<Byte>, win': seq<Byte>, seen: seq<Byte>, base: nat, end: nat, s: nat)
    requires Buffered(win, seen, base, end) && Moved(win, win') && WSIZE <= s && s + 2 <= end
    ensures Buffered(win', seen, base + WSIZE, end - WSIZE) && win'[s - WSIZE] == win[s] &&
        win'[s - WSIZE + 1] == win[s + 1]
  {
    forall i | 0 <= i < end - WSIZE ensures win'[i] == seen[base + WSIZE..][i] {
      BufferedAt(win, seen, base, end, WSIZE + i);
    }
    assert win'[s - WSIZE] == win[WSIZE + (s - WSIZE)] && win'[s - WSIZE + 1] == win[WSIZE + (s - WSIZE + 1)];
  }

  // memcpy of the upper half
  method MoveDown(window: array<Byte>, ghost win: seq<Byte>)
    requires window.Length == ROOM && window[..] == win
    modifies window
    ensures Moved(win, window[..])
  {
    var i := 0;
    while i < WSIZE
      invariant 0 <= i <= WSIZE
      invariant forall k :: 0 <= k < i ==> window[k] == win[WSIZE + k]
      invariant forall k :: i <= k < ROOM ==> window[k] == win[k]
    {
      window[i] := window[WSIZE + i];
      i := i + 1;
    }
  }

  method SlideTable(t: array<nat>, ghost old_: seq<nat>)
    requires t[..] == old_
    modifies t
    ensures SlidTable(old_, t[..])
  {
    var n := 0;
    while n < t.Length
      invariant 0 <= n <= t.Length
      invariant forall k :: 0 <= k < n ==> t[k] == Slid(old_[k])
      invariant forall k :: n <= k < t.Length ==> t[k] == old_[k]
    {
      var m := t[n];
      t[n] := if m >= WSIZE then m - WSIZE else NIL;
      n := n + 1;
    }
  }

  lemma HeadLink(win: seq<Byte>, head: seq<nat>, prev: seq<nat>, ins: set<nat>, base: nat, s: nat, h: nat)
    requires Chained(win, head, prev, ins, base, s) && h < HASH_SIZE
    ensures Linked(win, ins + {base + s}, base, head[h], h, s)
  {
    hide Linked, LinkOf;
    LinkedMore(win, ins, base + s, base, head[h], h, s);
  }
}
