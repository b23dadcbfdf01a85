/**
 The output window of inflate.c: a ring of WSIZE bytes that is flushed whenever
 it is full, and out of which matches are copied.
 */
module Window {
  import opened Bits
  import opened Lz
  import opened Crc

  // --- The ring as a value ---

  // behind the write position wp the window still holds the end of what was flushed
  ghost predicate Ring(sl: seq<Byte>, wp: nat, flushed: seq<Byte>) {
    && |sl| == WSIZE && wp <= WSIZE && |flushed| >= WSIZE
    && sl[wp..] == flushed[|flushed| - WSIZE + wp..]
  }

  // everything put into the window so far
  ghost function Flat(sl: seq<Byte>, wp: nat, flushed: seq<Byte>): (s: seq<Byte>)
    requires Ring(sl, wp, flushed)
    ensures |s| == |flushed| + wp
  {
    flushed + sl[..wp]
  }

  lemma RingAppend(sl: seq<Byte>, wp: nat, flushed: seq<Byte>, c: Byte)
    requires Ring(sl, wp, flushed) && wp < WSIZE
    ensures Ring(sl[wp := c], wp + 1, flushed)
    ensures Flat(sl[wp := c], wp + 1, flushed) == Flat(sl, wp, flushed) + [c]
  {
    assert sl[wp := c][wp + 1..] == sl[wp..][1..];
    assert sl[wp := c][..wp + 1] == sl[..wp] + [c];
  }

  lemma RingWrap(sl: seq<Byte>, flushed: seq<Byte>)
    requires Ring(sl, WSIZE, flushed)
    ensures Ring(sl, 0, flushed + sl) && Flat(sl, 0, flushed + sl) == Flat(sl, WSIZE, flushed)
  {
    assert sl[0..] == sl && sl[..WSIZE] == sl && sl[..0] == [];
  }

  // the byte dist back is at d, whichever side of the write position d is on
  lemma Back(sl: seq<Byte>, wp: nat, flushed: seq<Byte>, d: nat, dist: nat, i: nat)
    requires Ring(sl, wp, flushed) && 1 <= dist <= WSIZE && i < dist && d + i < WSIZE
    requires wp == d + dist || wp + WSIZE == d + dist
    ensures var a := Flat(sl, wp, flushed); sl[d + i] == a[|a| - dist + i]
  {
    if wp + WSIZE == d + dist {
      assert sl[wp..][d + i - wp] == sl[d + i];
    }
  }

  // a stretch of the window that does not run past the write position
  lemma RingCopy(sl: seq<Byte>, wp: nat, flushed: seq<Byte>, d: nat, e: nat, dist: nat, sl': seq<Byte>)
    requires Ring(sl, wp, flushed) && 1 <= dist <= WSIZE && wp + e <= WSIZE && d + e <= WSIZE && e <= dist
    requires wp == d + dist || wp + WSIZE == d + dist
    requires sl' == sl[..wp] + sl[d..d + e] + sl[wp + e..]
    ensures Ring(sl', wp + e, flushed)
    ensures Flat(sl', wp + e, flushed) == CopyMatch(Flat(sl, wp, flushed), e, dist)
  {
    hide CopyMatch;
    var a := Flat(sl, wp, flushed);
    assert Ring(sl', wp + e, flushed) by {
      assert sl'[wp + e..] == sl[wp..][e..];
    }
    var r := Flat(sl', wp + e, flushed);
    assert r == a + sl[d..d + e];
    forall i | |a| <= i < |r| ensures r[i] == r[i - dist] {
      Back(sl, wp, flushed, d, dist, i - |a|);
    }
    CopyUnique(a, e, dist, r);
  }

  // the register and the counter agree with what was written
  ghost predicate Summed(crc: bv32, bytesOut: nat, written: seq<Byte>) {
    crc == Register(0xffffffff, written) && bytesOut == |written|
  }

  class Slide {
    const slide: array<Byte>
    var wp: nat
    var written: seq<Byte>            // everything flush_window has written
    var bytesOut: nat
    const sum: Checksum               // the shift register of updcrc
    ghost const before: seq<Byte>     // what the window held at the start

    // the window may be full
    ghost predicate Room()
      reads this, slide, sum
    {
      && Summed(sum.crc, bytesOut, written)
      && |before| == WSIZE && |written| % WSIZE == 0 && Ring(slide[..], wp, before + written)
    }

    ghost predicate Valid()
      reads this, slide, sum
    {
      Room() && wp < WSIZE
    }

    // what the window held at the start, and then the bytes produced so far
    ghost function All(): (s: seq<Byte>)
      reads this, slide, sum
      requires Room()
      ensures |s| >= WSIZE
    {
      Flat(slide[..], wp, before + written)
    }

    constructor (junk: seq<Byte>, register: Checksum)
      requires |junk| == WSIZE && register.crc == Register(0xffffffff, [])
      ensures Valid() && fresh(slide) && sum == register && before == junk && All() == junk && wp == 0 && written == []
    {
      slide := new Byte[WSIZE](i requires 0 <= i < |junk| => junk[i]);
      wp, written, bytesOut, sum, before := 0, [], 0, register, junk;
      new;
      assert slide[..] == junk;
      assert before + written == junk;
    }

    // flush_output(w): hand over the window up to w
    method Flush()
      requires slide.Length == WSIZE && wp <= WSIZE && Summed(sum.crc, bytesOut, written)
      modifies this`wp, this`written, this`bytesOut, sum
      ensures wp == 0 && written == old(written + slide[..wp]) && Summed(sum.crc, bytesOut, written)
    {
      if wp == 0 {
        assert written + slide[..wp] == written;
        return;
      }
      var crc := sum.Update(slide[..wp], written);
      written := written + slide[..wp];
      bytesOut := bytesOut + wp;
      wp := 0;
    }

    // flush if the window is full
    method Wrap()
      requires Room()
      modifies this`wp, this`written, this`bytesOut, sum
      ensures Valid() && All() == old(All())
      ensures wp == if old(wp) == WSIZE then 0 else old(wp)
    {
      if wp == WSIZE {
        RingWrap(slide[..], before + written);
        Flush();
        assert old(slide[..wp]) == slide[..];
        assert before + written == old(before + written) + slide[..];
      }
    }

    // slide[w++] = c
    method Append(c: Byte)
      requires Valid()
      modifies this`wp, slide
      ensures Room() && wp == old(wp) + 1 && All() == old(All()) + [c]
    {
      hide Flat, Ring, Summed;
      RingShape();
      RingAppend(slide[..], wp, before + written, c);
      slide[wp] := c;
      wp := wp + 1;
      assert slide[..] == old(slide[..])[wp - 1 := c];
    }

    lemma RingShape()
      requires Room()
      ensures slide.Length == WSIZE && wp <= WSIZE
    {
    }

    method Put(c: Byte)
      requires Valid()
      modifies this`wp, this`written, this`bytesOut, slide, sum
      ensures Valid() && All() == old(All()) + [c]
    {
      Append(c);
      Wrap();
    }

    // memcpy(slide + w, slide + d, e)
    method MemCpy(d: nat, e: nat, dist: nat)
      requires Room() && 1 <= dist <= WSIZE && wp + e <= WSIZE && d + e <= WSIZE && e <= dist
      requires wp == d + dist || wp + WSIZE == d + dist
      requires dist <= MAX_DIST && e <= MAX_MATCH ==> d + e <= wp || wp + e <= d
      modifies this`wp, slide
      ensures Room() && wp == old(wp) + e && All() == CopyMatch(old(All()), e, dist)
    {
      hide Flat, Ring, CopyMatch, Summed;
      RingShape();
      ghost var sl := slide[..];
      ghost var sl' := sl[..wp] + sl[d..d + e] + sl[wp + e..];
      RingCopy(sl, wp, before + written, d, e, dist, sl');
      forall i | wp <= i < wp + e {
        slide[i] := slide[i - wp + d];
      }
      wp := wp + e;
      assert slide[..] == sl';
    }

    // one byte at a time: source and destination may overlap
    method CopyBytes(d0: nat, e: nat, dist: nat)
      requires Room() && 1 <= dist <= WSIZE && wp + e <= WSIZE && d0 + e <= WSIZE
      requires wp == d0 + dist || wp + WSIZE == d0 + dist
      modifies this`wp, slide
      ensures Room() && wp == old(wp) + e && All() == CopyMatch(old(All()), e, dist)
    {
      hide CopyMatch, Flat, Ring, Summed;
      var d, k := d0, 0;
      CopyNone(All(), dist);
      while k < e
        invariant k <= e && d == d0 + k && wp == old(wp) + k && Room()
        invariant All() == CopyMatch(old(All()), k, dist)
      {
        RingShape();
        Back(slide[..], wp, before + written, d, dist, 0);
        CopySnoc(old(All()), k, dist);
        Append(slide[d]);
        d := d + 1;
        k := k + 1;
      }
    }

    // one chunk of a match
    method CopyChunk(d: nat, e: nat, dist: nat)
      requires Valid() && 1 <= dist <= WSIZE && 1 <= e && wp + e <= WSIZE && d + e <= WSIZE
      requires wp == d + dist || wp + WSIZE == d + dist
      modifies this`wp, slide
      ensures Room() && wp == old(wp) + e && All() == CopyMatch(old(All()), e, dist)
    {
      hide CopyMatch, Flat, Ring, Summed;
      // w - d >= e for unsigned w and d
      if wp < d || wp - d >= e {
        if e <= MAX_MATCH { Disjoint(wp, d, e, dist); }
        MemCpy(d, e, dist);
      } else {
        CopyBytes(d, e, dist);
      }
    }

    // the chunked copy of inflate_codes
    method Copy(len: nat, dist: nat)
      requires Valid() && 1 <= dist <= WSIZE
      modifies this`wp, this`written, this`bytesOut, slide, sum
      ensures Valid() && All() == CopyMatch(old(All()), len, dist)
    {
      hide CopyMatch, Flat, Ring, Summed;
      var n: nat := len;
      // d may be below zero: unsigned in the program, and masked before use
      var d: int := wp - dist;
      assert wp - d == dist;
      CopyNone(All(), dist);
      while n > 0
        invariant Valid() && n <= len
        invariant All() == CopyMatch(old(All()), len - n, dist)
        invariant (wp - d) % WSIZE == dist % WSIZE
      {
        Masked(wp, d, dist);
        d := d % WSIZE;
        var e: nat := WSIZE - (if d > wp then d else wp);
        if e > n { e := n; }
        CopyMore(old(All()), len - n, e, dist);
        n := n - e;
        CopyChunk(d, e, dist);
        d := d + e;
        Apart(wp, d, dist);
        Wrap();
      }
    }
  }

  lemma Apart(wp: nat, d: int, dist: nat)
    requires wp <= WSIZE && (wp == d + dist || wp + WSIZE == d + dist)
    ensures (wp - d) % WSIZE == dist % WSIZE && (0 - d) % WSIZE == (WSIZE - d) % WSIZE
  {
  }

  // source position and write position are dist apart, around the ring
  lemma Masked(wp: nat, d: int, dist: nat)
    requires wp < WSIZE && 1 <= dist <= WSIZE && (wp - d) % WSIZE == dist % WSIZE
    ensures wp == d % WSIZE + dist || wp + WSIZE == d % WSIZE + dist
  {
  }

  // where the program takes memcpy, source and destination overlap exactly if the
  // source is after the write position and the distance nearly fills the window
  lemma Disjoint(wp: nat, d: nat, e: nat, dist: nat)
    requires wp < WSIZE && d < WSIZE && 1 <= e <= MAX_MATCH && 1 <= dist <= WSIZE
    requires wp == d + dist || wp + WSIZE == d + dist
    requires wp < d || wp - d >= e
    ensures (d + e <= wp || wp + e <= d) <==> (wp >= d || dist + e <= WSIZE)
    ensures dist <= MAX_DIST ==> d + e <= wp || wp + e <= d
  {
  }

  // the program calls memcpy on ranges that overlap
  ghost predicate Clash(wp: nat, d: nat, e: nat, dist: nat) {
    && wp < d < WSIZE && 1 <= e <= MAX_MATCH && wp + WSIZE == d + dist && e <= WSIZE - d
    && wp < d + e && d < wp + e
  }

  // a match of full length at distance WSIZE - 1, from index 1 to index 0
  lemma Overlap()
    ensures exists wp, d, e, dist :: dist == WSIZE - 1 && Clash(wp, d, e, dist)
  {
    var dist := WSIZE - 1;
    assert Clash(0, 1, MAX_MATCH, dist);
  }

  lemma CopyNone(a: seq<Byte>, dist: nat)
    requires 1 <= dist <= |a|
    ensures CopyMatch(a, 0, dist) == a
  {
  }

  lemma {:induction false} CopySnoc(a: seq<Byte>, k: nat, dist: nat)
    requires 1 <= dist <= |a|
    ensures var r := CopyMatch(a, k, dist); CopyMatch(a, k + 1, dist) == r + [r[|r| - dist]]
    decreases k
  {
    if k > 0 { CopySnoc(a + [a[|a| - dist]], k - 1, dist); }
  }

  // a copy in two parts
  lemma {:induction false} CopyMore(a: seq<Byte>, k: nat, e: nat, dist: nat)
    requires 1 <= dist <= |a|
    ensures CopyMatch(a, k + e, dist) == CopyMatch(CopyMatch(a, k, dist), e, dist)
    decreases k
  {
    if k > 0 { CopyMore(a + [a[|a| - dist]], k - 1, e, dist); }
  }
}
