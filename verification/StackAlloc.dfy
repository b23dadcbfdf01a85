/**
 The stack allocator of dash: memalloc.c. Storage is given out from the top of a chain
 of blocks, a string can be grown in the free space above it, and marks bring back an
 earlier state.
 */
module StackAlloc {
  const ALIGN := 8
  const MINSIZE := 504

  // SHELL_ALIGN
  function Aligned(n: nat): (r: nat)
    ensures n <= r < n + ALIGN && r % ALIGN == 0 && (n % ALIGN == 0 ==> r == n)
  {
    (n + ALIGN - 1) / ALIGN * ALIGN
  }

  class Block {
    const prev: Block?
    const space: array<char>

    constructor (p: Block?, size: nat)
      ensures prev == p && fresh(space) && space.Length == size
    {
      prev := p;
      space := new char[size];
    }
  }

  datatype Ptr = Ptr(block: Block, off: nat)

  datatype Mark = Mark(stackp: Block, stacknxt: Ptr, stacknleft: nat)

  // storage that has been given out, in the block at this level of the chain
  datatype Held = Held(level: nat, p: Ptr, size: nat)

  // a mark, the level of its block and what was held when it was set
  datatype Saved = Saved(mark: Mark, level: nat, held: set<Held>)

  function End(a: Held): (r: nat) { a.p.off + a.size }

  // --- Invariants ---

  // the bottom block is static, the others are linked down to it
  ghost predicate Chained(chain: seq<Block>, base: Block) {
    && |chain| > 0 && chain[0] == base
    && (forall i :: 0 < i < |chain| ==> chain[i].prev == chain[i - 1])
    && (forall i, j :: 0 <= i < j < |chain| ==> chain[i] != chain[j] && chain[i].space != chain[j].space)
    && (forall i :: 0 <= i < |chain| ==> chain[i].space.Length >= MINSIZE)
  }

  // exactly the blocks above the bottom are allocated
  ghost predicate NoLeak(chain: seq<Block>, live: set<Block>) {
    && (forall b :: b in live ==> exists i :: 0 < i < |chain| && chain[i] == b)
    && (forall i :: 0 < i < |chain| ==> chain[i] in live)
  }

  // what is held lies in the chain, below the free space that starts at nxt of the top block
  ghost predicate Inside(chain: seq<Block>, allocs: set<Held>, nxt: nat) {
    forall a :: a in allocs ==>
      && a.size > 0 && a.level < |chain| && chain[a.level] == a.p.block && End(a) <= a.p.block.space.Length
      && (a.level == |chain| - 1 ==> End(a) <= nxt)
  }

  ghost predicate Disjoint(allocs: set<Held>) {
    forall a, b :: a in allocs && b in allocs && a != b ==>
        a.p.block != b.p.block || End(a) <= b.p.off || End(b) <= a.p.off
  }

  // free space never starts below this in the block of a mark
  function Floor(s: Saved): (r: nat) { if s.mark.stacknxt.off == 0 && s.level > 0 then ALIGN else s.mark.stacknxt.off }

  ghost predicate MarkOk(chain: seq<Block>, allocs: set<Held>, nxt: nat, s: Saved) {
    && s.level < |chain| && chain[s.level] == s.mark.stackp == s.mark.stacknxt.block
    && s.mark.stacknxt.off + s.mark.stacknleft == s.mark.stackp.space.Length
    && s.mark.stacknxt.off % ALIGN == 0 && s.mark.stacknleft % ALIGN == 0
    && s.held <= allocs && Inside(chain[..s.level + 1], s.held, s.mark.stacknxt.off)
    && (s.level == |chain| - 1 ==> Floor(s) <= nxt)
  }

  ghost predicate Nested(marks: seq<Saved>) {
    forall i, j :: 0 <= i < j < |marks| ==>
      && marks[i].level <= marks[j].level && marks[i].held <= marks[j].held
      && (marks[i].level == marks[j].level ==> Floor(marks[i]) <= marks[j].mark.stacknxt.off)
  }

  ghost predicate MarksOk(chain: seq<Block>, allocs: set<Held>, nxt: nat, marks: seq<Saved>) {
    Nested(marks) && forall i :: 0 <= i < |marks| ==> MarkOk(chain, allocs, nxt, marks[i])
  }

  class Stack {
    const stackbase: Block
    var stackp: Block
    var stacknxt: Ptr
    var stacknleft: nat
    var sstrend: Ptr
    ghost var live: set<Block>
    ghost var chain: seq<Block>
    ghost var allocs: set<Held>
    ghost var marks: seq<Saved>

    // the top block and the free space at its end
    ghost predicate Top()
      reads this
    {
      && Chained(chain, stackbase) && NoLeak(chain, live) && chain[|chain| - 1] == stackp
      && stacknxt.block == stackp && stacknxt.off + stacknleft == stackp.space.Length
      && sstrend == Ptr(stackp, stacknxt.off + stacknleft)
      && stacknxt.off % ALIGN == 0 && stacknleft % ALIGN == 0
    }

    ghost predicate Valid()
      reads this
    {
      && Top() && Disjoint(allocs) && Inside(chain, allocs, stacknxt.off) && MarksOk(chain, allocs, stacknxt.off, marks)
    }

    // the lowest place to which the free space may be brought back
    ghost function Lowest(): (r: nat)
      reads this
      requires Top()
    {
      if marks != [] && marks[|marks| - 1].level == |chain| - 1 then Floor(marks[|marks| - 1]) else 0
    }

    constructor ()
      ensures Valid() && allocs == {} && marks == [] && live == {} && fresh(stackbase) && fresh(stackbase.space)
    {
      var b := new Block(null, MINSIZE);
      stackbase, stackp, stacknxt, stacknleft, sstrend := b, b, Ptr(b, 0), MINSIZE, Ptr(b, MINSIZE);
      live, chain, allocs, marks := {}, [b], {}, [];
    }

    method Stalloc(nbytes: nat) returns (p: Ptr)
      requires Valid()
      modifies this
      ensures Valid() && marks == old(marks)
      ensures allocs == if nbytes == 0 then old(allocs) else old(allocs) + {Held(|chain| - 1, p, nbytes)}
      ensures p.block == stackp && stacknxt == Ptr(stackp, p.off + Aligned(nbytes))
      ensures p.off % 8 == 0 && (Aligned(nbytes) <= old(stacknleft) ==>
          p == old(stacknxt) && chain == old(chain) && live == old(live) && stackp == old(stackp))
      ensures Aligned(nbytes) > old(stacknleft) ==>
          fresh(stackp) && fresh(stackp.space) && p.off == 0 && chain == old(chain) + [stackp] &&
              stackp.space.Length == if Aligned(nbytes) < 504 then 504 else Aligned(nbytes)
    {
      hide Chained, NoLeak, Inside, Disjoint, MarksOk, Aligned;
      var aligned := Aligned(nbytes);
      if aligned > stacknleft {
        Extend(if aligned < MINSIZE then MINSIZE else aligned);
      }
      p := stacknxt;
      OnlyTop(chain, stackbase);
      Given(chain, allocs, p, nbytes, aligned, marks);
      stacknxt := Ptr(stackp, stacknxt.off + aligned);
      stacknleft := stacknleft - aligned;
      allocs := if nbytes == 0 then allocs else allocs + {Held(|chain| - 1, p, nbytes)};
    }

    // a new block on top
    method Extend(blocksize: nat)
      requires Valid() && blocksize >= MINSIZE && blocksize % ALIGN == 0
      modifies this`stackp, this`stacknxt, this`stacknleft, this`sstrend, this`live, this`chain
      ensures Valid() && fresh(stackp) && fresh(stackp.space) && chain == old(chain) + [stackp]
      ensures stacknxt == Ptr(stackp, 0) && stacknleft == blocksize
    {
      hide NoLeak, Inside, Disjoint, MarksOk;
      var sp := new Block(stackp, blocksize);
      Pushed(chain, live, allocs, stacknxt.off, marks, stackbase, sp);
      stacknxt, stacknleft, sstrend := Ptr(sp, 0), blocksize, Ptr(sp, blocksize);
      stackp := sp;
      chain, live := chain + [sp], live + {sp};
    }

    method Stunalloc(p: Ptr)
      requires Valid() && p.block == stackp && Lowest() <= p.off <= stacknxt.off && p.off % ALIGN == 0
      modifies this`stacknxt, this`stacknleft, this`allocs
      ensures Valid() && stacknxt == p && stacknleft == old(stacknleft) + (old(stacknxt).off - p.off)
      ensures allocs == Below(old(allocs), p)
    {
      hide Chained, NoLeak, Disjoint, Inside, MarksOk, Below, Floor;
      Cut(chain, stackbase, allocs, stacknxt.off, p, marks);
      StillAligned(stacknleft, stacknxt.off, p.off);
      stacknleft := stacknleft + (stacknxt.off - p.off);
      stacknxt := p;
      allocs := Below(allocs, p);
    }

    method SetStackMark() returns (m: Mark)
      requires Valid()
      modifies this
      ensures Valid() && m == Mark(old(stackp), old(stacknxt), old(stacknleft))
      ensures marks == old(marks) + [Saved(m, |old(chain)| - 1, old(allocs))] && old(allocs) <= allocs
    {
      hide NoLeak, Disjoint, Inside, MarksOk, Aligned;
      m := Mark(stackp, stacknxt, stacknleft);
      ghost var s := Saved(m, |chain| - 1, allocs);
      ghost var chain0, allocs0 := chain, allocs;
      var len := if stacknxt.off == 0 && stackp != stackbase then 1 else 0;
      var p := Stalloc(len);
      assert chain == chain0 && chain[..|chain|] == chain;
      Marked(chain0, allocs0, m.stacknxt.off, allocs, stacknxt.off, marks, s);
      marks := marks + [s];
    }

    // only the mark that was set last, and only once
    method PopStackMark(m: Mark)
      requires Valid() && marks != [] && marks[|marks| - 1].mark == m
      modifies this
      ensures Valid() && marks == old(marks)[..|old(marks)| - 1] && allocs == old(marks)[|old(marks)| - 1].held
      ensures stackp == m.stackp && stacknxt == m.stacknxt && stacknleft == m.stacknleft
      ensures sstrend == Ptr(m.stackp, m.stacknxt.off + m.stacknleft)
      ensures chain == old(chain)[..old(marks)[|old(marks)| - 1].level + 1]
    {
      hide Disjoint, NoLeak, Inside, MarksOk, Chained;
      ghost var s := marks[|marks| - 1];
      LastMark(chain, allocs, stacknxt.off, marks);
      while stackp != m.stackp
        invariant s.level < |chain| <= |old(chain)| && chain == old(chain)[..|chain|] && Chained(chain, stackbase) &&
            NoLeak(chain, live)
        invariant chain[|chain| - 1] == stackp && chain[s.level] == m.stackp
        decreases |chain|
        modifies this`stackp, this`live, this`chain
      {
        var sp := stackp;
        Freed(chain, live, stackbase);
        stackp := sp.prev;
        Free(sp);
        chain := chain[..|chain| - 1];
      }
      OnlyTop(chain, stackbase);
      Popped(old(chain), chain, allocs, old(stacknxt).off, marks);
      stacknxt := m.stacknxt;
      stacknleft := m.stacknleft;
      sstrend := Ptr(m.stacknxt.block, m.stacknxt.off + m.stacknleft);
      allocs, marks := s.held, marks[..|marks| - 1];
    }

    // --- The string in the free space ---

    method GrowStackBlock()
      requires Valid()
      modifies this
      ensures Valid() && allocs == old(allocs) && marks == old(marks) && fresh(stackp) && fresh(stackp.space)
      ensures stacknleft > old(stacknleft)
      ensures var n := 2 * old(stacknleft) + if old(stacknleft) < 64 then 128 else 0;
              stacknleft == if n < 504 then 504 else n
      ensures stackp.space[stacknxt.off..stacknxt.off + old(stacknleft)] == old(stackp.space[stacknxt.off..])
    {
      hide NoLeak, Inside, Disjoint, MarksOk, Chained;
      var newlen := stacknleft * 2;
      if newlen < 128 { newlen := newlen + 128; }
      LinkedTop(chain, stackbase);
      if stacknxt.off == 0 && stackp != stackbase {
        Realloc(newlen);
      } else {
        Relocate(newlen);
      }
    }

    // the free space is moved to a block of its own
    method Relocate(newlen: nat)
      requires Valid() && newlen > stacknleft && newlen % ALIGN == 0
      modifies this
      ensures Valid() && allocs == old(allocs) && marks == old(marks) && fresh(stackp) && fresh(stackp.space)
      ensures stacknxt.off == 0 && stacknleft == if newlen < 504 then 504 else newlen
      ensures stackp.space[..old(stacknleft)] == old(stackp.space[stacknxt.off..])
    {
      hide NoLeak, Inside, Disjoint, MarksOk, Chained, Aligned;
      ghost var chain0, allocs0 := chain, allocs;
      var oldspace, oldlen := stacknxt, stacknleft;
      var p := Stalloc(newlen);
      MemCpy(p.block, oldspace, oldlen);
      GivenBack(chain0, chain, stackbase, allocs0, oldspace.off, Held(|chain| - 1, p, newlen), stacknxt.off, marks);
      stacknxt := p;
      stacknleft := stacknleft + newlen;
      allocs := allocs0;
    }

    // ckrealloc of the top block, which holds nothing else
    method Realloc(newlen: nat)
      requires Valid() && stacknxt.off == 0 && |chain| > 1 && newlen >= stacknleft && newlen % ALIGN == 0
      modifies this`stackp, this`stacknxt, this`stacknleft, this`sstrend, this`live, this`chain
      ensures Valid() && fresh(stackp) && fresh(stackp.space) && stacknxt.off == 0 && stacknleft == newlen
      ensures stackp.space[..old(stacknleft)] == old(stackp.space[..])
    {
      hide NoLeak, Inside, Disjoint, MarksOk;
      var sp := new Block(stackp.prev, newlen);
      MemCpy(sp, stacknxt, stacknleft);
      Exchanged(chain, live, allocs, marks, stackbase, sp);
      chain, live := chain[..|chain| - 1] + [sp], live - {stackp} + {sp};
      stackp := sp;
      stacknxt, stacknleft, sstrend := Ptr(sp, 0), newlen, Ptr(sp, newlen);
    }

    // p points len characters into the free space, and is moved with it
    method MakeStrSpace(newlen: nat, p: Ptr) returns (q: Ptr)
      requires Valid() && p.block == stackp && stacknxt.off <= p.off <= stacknxt.off + stacknleft
      modifies this
      ensures Valid() && allocs == old(allocs) && marks == old(marks) &&
          (stackp == old(stackp) || (fresh(stackp) && fresh(stackp.space)))
      ensures q.block == stackp && stacknxt.off <= q.off && q.off + newlen <= stacknxt.off + stacknleft
      ensures stackp.space[stacknxt.off..q.off] == old(stackp.space[stacknxt.off..p.off])
      ensures stackp == old(stackp) ==> stacknxt == old(stacknxt)
    {
      hide Top, Inside, Disjoint, MarksOk, Chained, NoLeak;
      var len := p.off - stacknxt.off;
      Fits();
      ghost var text := stackp.space[stacknxt.off..p.off];
      while stacknleft - len < newlen
        invariant Valid() && allocs == old(allocs) && marks == old(marks) &&
            (stackp == old(stackp) || (fresh(stackp) && fresh(stackp.space)))
        invariant len <= stacknleft && stacknxt.block == stackp && stacknxt.off + stacknleft == stackp.space.Length
        invariant stackp.space[stacknxt.off..stacknxt.off + len] == text
        invariant stackp == old(stackp) ==> stacknxt == old(stacknxt)
        decreases newlen + len - stacknleft
      {
        GrowText(len);
      }
      q := Ptr(stackp, stacknxt.off + len);
    }

    // the first len characters of the free space are kept
    method GrowText(ghost len: nat)
      requires Valid() && len <= stacknleft
      requires stacknxt.off + stacknleft == stackp.space.Length
      modifies this
      ensures Valid() && allocs == old(allocs) && marks == old(marks) && fresh(stackp) && fresh(stackp.space)
      ensures stacknleft > old(stacknleft) && stacknxt.block == stackp &&
          stacknxt.off + stacknleft == stackp.space.Length
      ensures stackp.space[stacknxt.off..stacknxt.off + len] == old(stackp.space[stacknxt.off..stacknxt.off + len])
    {
      hide Top, Inside, Disjoint, MarksOk, Chained, NoLeak;
      ghost var free, left := stackp.space[stacknxt.off..], stacknleft;
      assert stackp.space[stacknxt.off..stacknxt.off + len] == free[..len];
      GrowStackBlock();
      Fits();
      ghost var now, off := stackp.space[..], stacknxt.off;
      assert now[off..off + left] == free;
      Shorter(now, off, left, len);
    }

    static lemma Shorter(s: seq<char>, off: nat, n: nat, len: nat)
      requires off + n <= |s| && len <= n
      ensures s[off..off + n][..len] == s[off..off + len]
    {
    }

    lemma Fits()
      requires Valid()
      ensures stacknxt.block == stackp && stacknxt.off + stacknleft == stackp.space.Length
    {
    }

    // STPUTC: the string up to p gets one character more, and nothing that is held changes
    method PutC(c: char, p: Ptr) returns (q: Ptr)
      requires Valid() && p.block == stackp && stacknxt.off <= p.off <= stacknxt.off + stacknleft
      modifies this, stackp.space
      ensures Valid() && allocs == old(allocs) && marks == old(marks) &&
          (stackp == old(stackp) || (fresh(stackp) && fresh(stackp.space)))
      ensures q.block == stackp && stacknxt.off <= q.off <= stacknxt.off + stacknleft
      ensures stackp.space[stacknxt.off..q.off] == old(stackp.space[stacknxt.off..p.off]) + [c]
      ensures forall a :: a in allocs ==> a.p.block.space[a.p.off..End(a)] == old(a.p.block.space[a.p.off..End(a)])
    {
      hide Inside, Disjoint, MarksOk, Chained, NoLeak;
      q := p;
      ghost var text := stackp.space[stacknxt.off..p.off];
      if p == sstrend {
        var len := stacknleft;
        GrowStackBlock();
        q := Ptr(stackp, stacknxt.off + len);
      }
      Apart(chain, stackbase, allocs, stacknxt.off);
      assert stackp.space[stacknxt.off..q.off] == text;
      stackp.space[q.off] := c;
      q := Ptr(q.block, q.off + 1);
      assert stackp.space[stacknxt.off..q.off] == stackp.space[stacknxt.off..q.off - 1] + [c];
    }

    // stnputs: the same for a whole string
    method StnPuts(s: string, p: Ptr) returns (q: Ptr)
      requires Valid() && p.block == stackp && stacknxt.off <= p.off <= stacknxt.off + stacknleft
      modifies this, stackp.space
      ensures Valid() && allocs == old(allocs) && marks == old(marks) &&
          (stackp == old(stackp) || (fresh(stackp) && fresh(stackp.space)))
      ensures q.block == stackp && stacknxt.off <= q.off <= stacknxt.off + stacknleft
      ensures stackp.space[stacknxt.off..q.off] == old(stackp.space[stacknxt.off..p.off]) + s
      ensures forall a :: a in allocs ==> a.p.block.space[a.p.off..End(a)] == old(a.p.block.space[a.p.off..End(a)])
    {
      hide Inside, Disjoint, MarksOk, Chained, NoLeak;
      q := MakeStrSpace(|s|, p);
      Apart(chain, stackbase, allocs, stacknxt.off);
      ghost var text, start := stackp.space[stacknxt.off..q.off], q.off;
      forall i | q.off <= i < q.off + |s| {
        stackp.space[i] := s[i - q.off];
      }
      q := Ptr(q.block, q.off + |s|);
      assert stackp.space[stacknxt.off..start] == text;
      assert stackp.space[start..q.off] == s;
      assert stackp.space[stacknxt.off..q.off] == stackp.space[stacknxt.off..start] + stackp.space[start..q.off];
    }

    // grabstackstr: the string stays where it is
    method GrabStackStr(p: Ptr) returns (s: Ptr)
      requires Valid() && p.block == stackp && stacknxt.off <= p.off <= stacknxt.off + stacknleft
      modifies this
      ensures Valid() && marks == old(marks) && s == old(stacknxt) && stackp == old(stackp)
      ensures allocs == if p == s then old(allocs) else old(allocs) + {Held(|chain| - 1, s, p.off - s.off)}
    {
      hide Inside, Disjoint, MarksOk, Chained, NoLeak, Aligned;
      Room(p.off - stacknxt.off, stacknleft);
      s := Stalloc(p.off - stacknxt.off);
    }

    // ckfree
    method Free(sp: Block)
      requires sp in live
      modifies this`live
      ensures live == old(live) - {sp}
    {
      live := live - {sp};
    }
  }

  lemma OnlyTop(chain: seq<Block>, base: Block)
    requires Chained(chain, base)
    ensures |chain| > 0 && forall i :: 0 <= i < |chain| - 1 ==> chain[i] != chain[|chain| - 1]
  {
  }

  lemma Pushed(chain: seq<Block>, live: set<Block>, allocs: set<Held>, nxt: nat, marks: seq<Saved>, base: Block,
      sp: Block)
    requires Chained(chain, base) && NoLeak(chain, live) && Inside(chain, allocs, nxt) &&
        MarksOk(chain, allocs, nxt, marks)
    requires sp !in chain && sp.prev == chain[|chain| - 1] && sp.space.Length >= MINSIZE
    requires forall i :: 0 <= i < |chain| ==> chain[i].space != sp.space
    ensures Chained(chain + [sp], base) && NoLeak(chain + [sp], live + {sp})
    ensures Inside(chain + [sp], allocs, 0) && MarksOk(chain + [sp], allocs, 0, marks)
  {
    var chain' := chain + [sp];
    assert chain'[|chain|] == sp;
    forall b | b in live + {sp} ensures exists i :: 0 < i < |chain'| && chain'[i] == b {
      if b in live {
        var i :| 0 < i < |chain| && chain[i] == b;
        assert chain'[i] == b;
      }
    }
    forall i | 0 <= i < |marks| ensures MarkOk(chain', allocs, 0, marks[i]) {
      assert chain'[..marks[i].level + 1] == chain[..marks[i].level + 1];
    }
  }

  // the front of the free space is given out
  lemma Given(chain: seq<Block>, allocs: set<Held>, p: Ptr, n: nat, aligned: nat, marks: seq<Saved>)
    requires |chain| > 0 && p.block == chain[|chain| - 1] && Disjoint(allocs) && Inside(chain, allocs, p.off) &&
        MarksOk(chain, allocs, p.off, marks)
    requires n <= aligned && p.off + aligned <= p.block.space.Length
    requires forall i :: 0 <= i < |chain| - 1 ==> chain[i] != p.block
    ensures var allocs' := if n == 0 then allocs else allocs + {Held(|chain| - 1, p, n)};
            Disjoint(allocs') && Inside(chain, allocs', p.off + aligned) &&
                MarksOk(chain, allocs', p.off + aligned, marks)
  {
    var a := Held(|chain| - 1, p, n);
    var allocs' := if n == 0 then allocs else allocs + {a};
    forall b | b in allocs && b.p.block == p.block ensures End(b) <= p.off { assert b.level == |chain| - 1; }
    forall i | 0 <= i < |marks| ensures MarkOk(chain, allocs', p.off + aligned, marks[i]) {
      assert MarkOk(chain, allocs, p.off, marks[i]);
    }
  }

  lemma StillAligned(left: nat, a: nat, b: nat)
    requires left % ALIGN == 0 && a % ALIGN == 0 && b % ALIGN == 0
    ensures (left + (a - b)) % ALIGN == 0
  {
  }

  // what is held below p
  ghost function Below(allocs: set<Held>, p: Ptr): (r: set<Held>) {
    set a | a in allocs && (a.p.block == p.block ==> End(a) <= p.off)
  }

  lemma Cut(chain: seq<Block>, base: Block, allocs: set<Held>, nxt: nat, p: Ptr, marks: seq<Saved>)
    requires Chained(chain, base) && p.block == chain[|chain| - 1] && p.off <= nxt && Disjoint(allocs) &&
        Inside(chain, allocs, nxt)
    requires MarksOk(chain, allocs, nxt, marks)
    requires marks != [] && marks[|marks| - 1].level == |chain| - 1 ==> Floor(marks[|marks| - 1]) <= p.off
    ensures var rest := Below(allocs, p);
        Disjoint(rest) && Inside(chain, rest, p.off) && MarksOk(chain, rest, p.off, marks)
  {
    var rest := Below(allocs, p);
    var n := |marks| - 1;
    forall i | 0 <= i < |marks| ensures MarkOk(chain, rest, p.off, marks[i]) {
      var s := marks[i];
      assert s.level == |chain| - 1 ==> i == n || (marks[n].level == s.level && Floor(s) <= marks[n].mark.stacknxt.off);
      forall a | a in s.held ensures a in rest {
        if a.p.block == p.block {
          assert chain[..s.level + 1][a.level] == p.block;
          assert a.level == |chain| - 1;
        }
      }
    }
  }

  lemma Marked(chain: seq<Block>, allocs0: set<Held>, nxt0: nat, allocs: set<Held>, nxt: nat, marks: seq<Saved>,
      s: Saved)
    requires |chain| > 0 && MarksOk(chain, allocs0, nxt0, marks) && MarksOk(chain, allocs, nxt, marks) &&
        allocs0 <= allocs
    requires s.level == |chain| - 1 && s.held == allocs0 && s.mark.stacknxt.off == nxt0 && MarkOk(chain, allocs, nxt, s)
    ensures MarksOk(chain, allocs, nxt, marks + [s])
  {
    var marks' := marks + [s];
    forall i | 0 <= i < |marks|
        ensures MarkOk(chain, allocs0, nxt0, marks'[i]) && MarkOk(chain, allocs, nxt, marks'[i]) {
      assert marks'[i] == marks[i];
    }
  }

  lemma Freed(chain: seq<Block>, live: set<Block>, base: Block)
    requires Chained(chain, base) && NoLeak(chain, live) && |chain| > 0
    ensures |chain| > 1 ==> chain[|chain| - 1].prev == chain[|chain| - 2]
    ensures |chain| > 1 ==> var b := chain[|chain| - 1];
        b in live && Chained(chain[..|chain| - 1], base) && NoLeak(chain[..|chain| - 1], live - {b})
  {
    var rest := chain[..|chain| - 1];
    forall i | 0 <= i < |rest| ensures rest[i] == chain[i] { }
    forall b | |chain| > 1 && b in live && b != chain[|chain| - 1] ensures exists i :: 0 < i < |rest| && rest[i] == b {
      var i :| 0 < i < |chain| && chain[i] == b;
      assert rest[i] == b;
    }
  }

  lemma LastMark(chain: seq<Block>, allocs: set<Held>, nxt: nat, marks: seq<Saved>)
    requires marks != [] && MarksOk(chain, allocs, nxt, marks)
    ensures var s := marks[|marks| - 1]; s.level < |chain| && chain[s.level] == s.mark.stackp == s.mark.stacknxt.block
    ensures var m := marks[|marks| - 1].mark;
            m.stacknxt.off + m.stacknleft == m.stackp.space.Length && m.stacknxt.off % ALIGN == 0 &&
                m.stacknleft % ALIGN == 0
  {
  }

  lemma Popped(chain0: seq<Block>, chain: seq<Block>, allocs: set<Held>, nxt: nat, marks: seq<Saved>)
    requires marks != [] && MarksOk(chain0, allocs, nxt, marks) && Disjoint(allocs)
    requires chain == chain0[..marks[|marks| - 1].level + 1]
    ensures var s := marks[|marks| - 1];
            Disjoint(s.held) && Inside(chain, s.held, s.mark.stacknxt.off) &&
                MarksOk(chain, s.held, s.mark.stacknxt.off, marks[..|marks| - 1])
  {
    var n := |marks| - 1;
    var s, rest := marks[n], marks[..n];
    assert MarkOk(chain0, allocs, nxt, s);
    forall i | 0 <= i < n ensures MarkOk(chain, s.held, s.mark.stacknxt.off, rest[i]) {
      assert rest[i] == marks[i] && MarkOk(chain0, allocs, nxt, marks[i]);
      assert chain[..marks[i].level + 1] == chain0[..marks[i].level + 1];
    }
  }

  // memcpy to the start of another block
  method MemCpy(dst: Block, src: Ptr, n: nat)
    requires dst.space != src.block.space && n <= dst.space.Length && src.off + n <= src.block.space.Length
    modifies dst.space
    ensures dst.space[..n] == src.block.space[src.off..src.off + n]
  {
    forall i | 0 <= i < n {
      dst.space[i] := src.block.space[src.off + i];
    }
  }

  lemma LinkedTop(chain: seq<Block>, base: Block)
    requires Chained(chain, base)
    ensures |chain| > 0 && (chain[|chain| - 1] != base ==> |chain| > 1) && (chain[|chain| - 1] == base ==> |chain| == 1)
    ensures chain[|chain| - 1].space.Length >= MINSIZE
  {
  }

  // the space of a string that is to grow is allocated and freed again
  lemma GivenBack(chain0: seq<Block>, chain: seq<Block>, base: Block, allocs: set<Held>, nxt0: nat, a: Held, nxt: nat,
      marks: seq<Saved>)
    requires Chained(chain, base) && |chain| == |chain0| + 1 && chain[..|chain0|] == chain0 &&
        Inside(chain0, allocs, nxt0)
    requires MarksOk(chain0, allocs, nxt0, marks) && Disjoint(allocs + {a}) && Inside(chain, allocs + {a}, nxt) &&
        MarksOk(chain, allocs + {a}, nxt, marks)
    requires a.p == Ptr(chain[|chain0|], 0) && a.size > 0
    ensures Disjoint(allocs) && Inside(chain, allocs, 0) && MarksOk(chain, allocs, 0, marks)
  {
    forall i | 0 <= i < |marks|
        ensures MarkOk(chain0, allocs, nxt0, marks[i]) && MarkOk(chain, allocs + {a}, nxt, marks[i]) { }
    Cut(chain, base, allocs + {a}, nxt, a.p, marks);
    forall b | b in allocs ensures b in Below(allocs + {a}, a.p) {
      assert chain0[b.level] == chain[b.level] == b.p.block;
    }
    assert Below(allocs + {a}, a.p) == allocs - {a};
    assert a !in allocs;
  }

  // the top block is replaced: no mark is in it, and nothing that is held
  lemma Exchanged(chain: seq<Block>, live: set<Block>, allocs: set<Held>, marks: seq<Saved>, base: Block, sp: Block)
    requires Chained(chain, base) && NoLeak(chain, live) && Inside(chain, allocs, 0) &&
        MarksOk(chain, allocs, 0, marks) && |chain| > 1
    requires sp !in chain && sp.prev == chain[|chain| - 2] && sp.space.Length >= MINSIZE
    requires forall i :: 0 <= i < |chain| ==> chain[i].space != sp.space
    ensures var chain', live' := chain[..|chain| - 1] + [sp], live - {chain[|chain| - 1]} + {sp};
            Chained(chain', base) && NoLeak(chain', live') && Inside(chain', allocs, 0) &&
                MarksOk(chain', allocs, 0, marks)
  {
    var rest := chain[..|chain| - 1];
    var live1 := live - {chain[|chain| - 1]};
    hide NoLeak;
    Freed(chain, live, base);
    forall i | 0 <= i < |marks| ensures MarkOk(rest, allocs, rest[|rest| - 1].space.Length, marks[i]) {
      assert MarkOk(chain, allocs, 0, marks[i]);
      assert rest[..marks[i].level + 1] == chain[..marks[i].level + 1];
    }
    Pushed(rest, live1, allocs, rest[|rest| - 1].space.Length, marks, base, sp);
  }

  // what is held is not in the free space
  lemma Apart(chain: seq<Block>, base: Block, allocs: set<Held>, nxt: nat)
    requires Chained(chain, base) && Inside(chain, allocs, nxt)
    ensures forall a :: a in allocs ==>
        End(a) <= a.p.block.space.Length && (a.p.block.space == chain[|chain| - 1].space ==> End(a) <= nxt)
  {
    forall a | a in allocs
        ensures End(a) <= a.p.block.space.Length && (a.p.block.space == chain[|chain| - 1].space ==> End(a) <= nxt) {
      assert chain[a.level] == a.p.block;
    }
  }

  // a string never outgrows the free space it is in by being rounded up
  lemma Room(n: nat, left: nat)
    requires n <= left && left % ALIGN == 0
    ensures Aligned(n) <= left
  {
  }
}
