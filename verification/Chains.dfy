/**
 The hash chains of deflate.c: head gives the latest string with a hash key, and
 prev, indexed modulo WSIZE, the one before it. Window positions change when the
 window slides, so strings are identified by their position in the input; base is
 the position in the input of window index 0.
 */
module Chains {
  import opened Bits
  import opened Lz
  import opened Hash

  const NIL := 0
  const WINDOW_SIZE := 2 * WSIZE
  // room for the bytes after the window that longest_match may look at
  const ROOM := WINDOW_SIZE + MAX_MATCH

  ghost function KeyAt(win: seq<Byte>, p: nat): (h: nat)
    requires p + 2 < |win|
    ensures h < HASH_SIZE
  {
    Key(win[p], win[p + 1], win[p + 2])
  }

  // m is NIL or a string in the dictionary before index below whose key is h
  ghost predicate Known(win: seq<Byte>, ins: set<nat>, base: nat, m: nat, h: nat, below: nat) {
    m == NIL || (m < below && m + 2 < |win| && base + m in ins && KeyAt(win, m) == h)
  }

  // no string between m and below has the key h
  ghost predicate Latest(win: seq<Byte>, ins: set<nat>, base: nat, m: nat, h: nat, below: nat) {
    forall q :: q in ins && base + m < q < base + below && q - base + 2 < |win| ==> KeyAt(win, q - base) != h
  }

  // m is the last string before index below whose key is h, or NIL if it is gone
  ghost predicate Linked(win: seq<Byte>, ins: set<nat>, base: nat, m: nat, h: nat, below: nat) {
    Known(win, ins, base, m, h, below) && Latest(win, ins, base, m, h, below)
  }

  // prev has the link of string q, unless its slot was reused
  ghost predicate LinkOf(win: seq<Byte>, prev: seq<nat>, ins: set<nat>, base: nat, q: nat)
    requires |prev| == WSIZE
  {
    q >= base && q + WSIZE !in ins ==>
        q - base + 2 < |win| && Linked(win, ins, base, prev[q % WSIZE], KeyAt(win, q - base), q - base)
  }

  // every string in the dictionary is before index top
  ghost predicate Chained(win: seq<Byte>, head: seq<nat>, prev: seq<nat>, ins: set<nat>, base: nat, top: nat) {
    && |win| == ROOM && |head| == HASH_SIZE && |prev| == WSIZE && base % WSIZE == 0 && top <= WINDOW_SIZE
    && (forall q :: q in ins ==> q < base + top)
    && (forall h :: 0 <= h < HASH_SIZE ==> Linked(win, ins, base, head[h], h, top))
    && (forall q :: q in ins ==> LinkOf(win, prev, ins, base, q))
  }

  // an empty dictionary
  lemma NoChains(win: seq<Byte>, head: seq<nat>, prev: seq<nat>)
    requires |win| == ROOM && |head| == HASH_SIZE && |prev| == WSIZE && forall h :: 0 <= h < HASH_SIZE ==>
        head[h] == NIL
    ensures Chained(win, head, prev, {}, 0, 0)
  {
  }

  lemma ChainSizes(win: seq<Byte>, head: seq<nat>, prev: seq<nat>, ins: set<nat>, base: nat, top: nat)
    requires Chained(win, head, prev, ins, base, top)
    ensures |win| == ROOM && |head| == HASH_SIZE && |prev| == WSIZE && base % WSIZE == 0
  {
  }

  // following the link of a string that is not too old
  lemma Follow(win: seq<Byte>, head: seq<nat>, prev: seq<nat>, ins: set<nat>, base: nat, top: nat, p: nat)
    requires Chained(win, head, prev, ins, base, top) && base + p in ins && p + WSIZE >= top
    ensures p + 2 < |win| && Linked(win, ins, base, prev[p % WSIZE], KeyAt(win, p), p)
  {
    hide KeyAt;
    assert LinkOf(win, prev, ins, base, base + p);
    SameSlot(base, p);
  }

  lemma SameSlot(base: nat, p: nat)
    requires base % WSIZE == 0
    ensures (base + p) % WSIZE == p % WSIZE
  {
  }

  lemma ChainedUp(win: seq<Byte>, head: seq<nat>, prev: seq<nat>, ins: set<nat>, base: nat, top: nat, top': nat)
    requires Chained(win, head, prev, ins, base, top) && top <= top' <= WINDOW_SIZE
    ensures Chained(win, head, prev, ins, base, top')
  {
    hide KeyAt, LinkOf;
    forall h | 0 <= h < HASH_SIZE ensures Linked(win, ins, base, head[h], h, top') {
      assert Linked(win, ins, base, head[h], h, top);
    }
  }

  // --- INSERT_STRING ---

  lemma SlotFree(base: nat, s: nat, q: nat)
    requires base % WSIZE == 0 && base <= q < base + s && s < WINDOW_SIZE && q + WSIZE != base + s
    ensures q % WSIZE != (base + s) % WSIZE
  {
  }

  // a string at or after below changes nothing before below
  lemma LinkedMore(win: seq<Byte>, ins: set<nat>, x: nat, base: nat, m: nat, h: nat, below: nat)
    requires Linked(win, ins, base, m, h, below) && x >= base + below
    ensures Linked(win, ins + {x}, base, m, h, below)
  {
    hide KeyAt;
  }

  lemma LinkedOther(win: seq<Byte>, ins: set<nat>, base: nat, m: nat, h: nat, s: nat)
    requires Linked(win, ins, base, m, h, s) && s + 2 < |win| && KeyAt(win, s) != h && forall q :: q in ins ==>
        q < base + s
    ensures Linked(win, ins + {base + s}, base, m, h, s + 1)
  {
    hide KeyAt;
  }

  lemma InsertedHead(win: seq<Byte>, head: seq<nat>, prev: seq<nat>, ins: set<nat>, base: nat, s: nat, h: nat, k: nat)
    requires Chained(win, head, prev, ins, base, s) && s < WINDOW_SIZE && h == KeyAt(win, s) && k < HASH_SIZE
    ensures Linked(win, ins + {base + s}, base, head[h := s][k], k, s + 1)
  {
    hide KeyAt, Linked, LinkOf;
    if k == h { Self(win, ins + {base + s}, base, s); } else { LinkedOther(win, ins, base, head[k], k, s); }
  }

  lemma InsertedPrev(win: seq<Byte>, head: seq<nat>, prev: seq<nat>, ins: set<nat>, base: nat, s: nat, h: nat, q: nat)
    requires Chained(win, head, prev, ins, base, s) && s < WINDOW_SIZE && h == KeyAt(win, s) && q in ins + {base + s}
    ensures LinkOf(win, prev[s % WSIZE := head[h]], ins + {base + s}, base, q)
  {
    hide KeyAt, Linked;
    SameSlot(base, s);
    var ins' := ins + {base + s};
    if q == base + s {
      LinkedMore(win, ins, base + s, base, head[h], h, s);
    } else if q >= base && q + WSIZE !in ins' {
      assert LinkOf(win, prev, ins, base, q);
      SlotFree(base, s, q);
      LinkedMore(win, ins, base + s, base, prev[q % WSIZE], KeyAt(win, q - base), q - base);
    }
  }

  lemma Inserted(win: seq<Byte>, head: seq<nat>, prev: seq<nat>, ins: set<nat>, base: nat, s: nat, h: nat)
    requires Chained(win, head, prev, ins, base, s) && s < WINDOW_SIZE && h == KeyAt(win, s)
    ensures Chained(win, head[h := s], prev[s % WSIZE := head[h]], ins + {base + s}, base, s + 1)
  {
    hide KeyAt, Linked, LinkOf;
    var head', prev', ins' := head[h := s], prev[s % WSIZE := head[h]], ins + {base + s};
    forall k | 0 <= k < HASH_SIZE ensures Linked(win, ins', base, head'[k], k, s + 1) {
      InsertedHead(win, head, prev, ins, base, s, h, k);
    }
    forall q | q in ins' ensures LinkOf(win, prev', ins', base, q) {
      InsertedPrev(win, head, prev, ins, base, s, h, q);
    }
  }

  lemma Self(win: seq<Byte>, ins: set<nat>, base: nat, s: nat)
    requires s + 2 < |win| && base + s in ins
    ensures Linked(win, ins, base, s, KeyAt(win, s), s + 1)
  {
  }

  // --- Reading more input ---

  lemma ReadMore(win: seq<Byte>, win': seq<Byte>, head: seq<nat>, prev: seq<nat>, ins: set<nat>, base: nat, top: nat)
    requires Chained(win, head, prev, ins, base, top) && |win'| == ROOM && win'[..top + 2] == win[..top + 2]
    ensures Chained(win', head, prev, ins, base, top)
  {
    hide KeyAt, Linked;
    forall h | 0 <= h < HASH_SIZE ensures Linked(win', ins, base, head[h], h, top) {
      LinkedSame(win, win', ins, base, head[h], h, top, top);
    }
    forall q | q in ins ensures LinkOf(win', prev, ins, base, q) {
      assert LinkOf(win, prev, ins, base, q);
      if q >= base && q + WSIZE !in ins {
        SameKey(win, win', top, q - base);
        LinkedSame(win, win', ins, base, prev[q % WSIZE], KeyAt(win, q - base), q - base, top);
      }
    }
  }

  lemma SameKey(win: seq<Byte>, win': seq<Byte>, top: nat, p: nat)
    requires p < top && top + 2 <= |win| && top + 2 <= |win'| && win'[..top + 2] == win[..top + 2]
    ensures KeyAt(win', p) == KeyAt(win, p)
  {
    assert win'[..top + 2][p] == win[p] && win'[..top + 2][p + 1] == win[p + 1] && win'[..top + 2][p + 2] == win[p + 2];
  }

  lemma LinkedSame(win: seq<Byte>, win': seq<Byte>, ins: set<nat>, base: nat, m: nat, h: nat, below: nat, top: nat)
    requires Linked(win, ins, base, m, h, below) && below <= top && top + 2 <= |win| == |win'| &&
        win'[..top + 2] == win[..top + 2]
    ensures Linked(win', ins, base, m, h, below)
  {
    hide KeyAt;
    if m != NIL { SameKey(win, win', top, m); }
    forall q | q in ins && base + m < q < base + below && q - base + 2 < |win| ensures KeyAt(win', q - base) != h {
      SameKey(win, win', top, q - base);
    }
  }

  // --- Sliding the window ---

  function Slid(m: nat): (r: nat) { if m >= WSIZE then m - WSIZE else NIL }

  ghost predicate Moved(win: seq<Byte>, win': seq<Byte>) {
    |win| == |win'| == ROOM && (forall i :: 0 <= i < WSIZE ==> win'[i] == win[WSIZE + i]) &&
        forall i :: WSIZE <= i < ROOM ==> win'[i] == win[i]
  }

  ghost predicate SlidTable(t: seq<nat>, t': seq<nat>) {
    |t'| == |t| && forall i :: 0 <= i < |t| ==> t'[i] == Slid(t[i])
  }

  lemma MovedKey(win: seq<Byte>, win': seq<Byte>, p: nat)
    requires Moved(win, win') && WSIZE <= p && p + 2 < WINDOW_SIZE
    ensures KeyAt(win', p - WSIZE) == KeyAt(win, p)
  {
    assert win'[p - WSIZE] == win[WSIZE + (p - WSIZE)];
    assert win'[p - WSIZE + 1] == win[WSIZE + (p - WSIZE + 1)];
    assert win'[p - WSIZE + 2] == win[WSIZE + (p - WSIZE + 2)];
  }

  lemma LinkedSlid(win: seq<Byte>, win': seq<Byte>, ins: set<nat>, base: nat, m: nat, h: nat, below: nat)
    requires Linked(win, ins, base, m, h, below) && Moved(win, win') && WSIZE <= below && below + 2 <= WINDOW_SIZE
    ensures Linked(win', ins, base + WSIZE, Slid(m), h, below - WSIZE)
  {
    hide KeyAt, Moved;
    MovedSize(win, win');
    if m > WSIZE { MovedKey(win, win', m); }
    forall q | q in ins && base + WSIZE + Slid(m) < q < base + below ensures KeyAt(win', q - base - WSIZE) != h {
      MovedKey(win, win', q - base);
    }
  }

  lemma SlideDown(win: seq<Byte>, head: seq<nat>, prev: seq<nat>, win': seq<Byte>, head': seq<nat>, prev': seq<nat>,
      ins: set<nat>, base: nat, top: nat)
    requires Chained(win, head, prev, ins, base, top) && Moved(win, win') && SlidTable(head, head') &&
        SlidTable(prev, prev')
    requires WSIZE <= top && top + 2 <= WINDOW_SIZE
    ensures Chained(win', head', prev', ins, base + WSIZE, top - WSIZE)
  {
    hide KeyAt, Linked, Moved, Slid;
    MovedSize(win, win');
    forall h | 0 <= h < HASH_SIZE ensures Linked(win', ins, base + WSIZE, head'[h], h, top - WSIZE) {
      LinkedSlid(win, win', ins, base, head[h], h, top);
    }
    forall q | q in ins ensures LinkOf(win', prev', ins, base + WSIZE, q) {
      assert LinkOf(win, prev, ins, base, q);
      if q >= base + WSIZE && q + WSIZE !in ins {
        MovedKey(win, win', q - base);
        LinkedSlid(win, win', ins, base, prev[q % WSIZE], KeyAt(win, q - base), q - base);
      }
    }
  }

  lemma MovedSize(win: seq<Byte>, win': seq<Byte>)
    requires Moved(win, win')
    ensures |win| == |win'| == ROOM
  {
  }
}
