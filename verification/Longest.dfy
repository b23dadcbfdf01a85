/**
 longest_match: following a hash chain for the longest string equal to the current
 one. The third byte is never compared.
 */
module Longest {
  import opened Bits
  import opened Lz
  import opened Hash
  import opened Chains

  ghost predicate MatchAt(win: seq<Byte>, m: nat, s: nat, n: nat) {
    m + n <= |win| && s + n <= |win| && win[m..m + n] == win[s..s + n]
  }

  lemma MatchStep(win: seq<Byte>, m: nat, s: nat, n: nat)
    requires MatchAt(win, m, s, n) && m + n < |win| && s + n < |win|
    ensures MatchAt(win, m, s, n + 1) <==> win[m + n] == win[s + n]
  {
    assert win[m..m + n + 1] == win[m..m + n] + [win[m + n]];
    assert win[s..s + n + 1] == win[s..s + n] + [win[s + n]];
  }

  lemma MatchLess(win: seq<Byte>, m: nat, s: nat, n: nat, k: nat)
    requires MatchAt(win, m, s, n) && k <= n
    ensures MatchAt(win, m, s, k)
  {
    assert win[m..m + k] == win[m..m + n][..k];
    assert win[s..s + k] == win[s..s + n][..k];
  }

  lemma MatchByte(win: seq<Byte>, m: nat, s: nat, n: nat, i: nat)
    requires MatchAt(win, m, s, n) && i < n
    ensures win[m + i] == win[s + i]
  {
    assert win[m..m + n][i] == win[s..s + n][i];
  }

  // equal keys and two equal bytes are three equal bytes
  lemma ThreeBytes(win: seq<Byte>, m: nat, s: nat)
    requires m + 2 < |win| && s + 2 < |win| && KeyAt(win, m) == KeyAt(win, s) && win[m] == win[s] &&
        win[m + 1] == win[s + 1]
    ensures MatchAt(win, m, s, 3)
  {
    hide Key;
    ThirdByte(win[m], win[m + 1], win[m + 2], win[s + 2]);
    assert win[m..m + 3] == [win[m], win[m + 1], win[m + 2]];
    assert win[s..s + 3] == [win[s], win[s + 1], win[s + 2]];
  }

  lemma SameKeys(win: seq<Byte>, m: nat, s: nat, n: nat)
    requires MatchAt(win, m, s, n) && n >= 3
    ensures KeyAt(win, m) == KeyAt(win, s)
  {
    hide Key;
    MatchByte(win, m, s, n, 0);
    MatchByte(win, m, s, n, 1);
    MatchByte(win, m, s, n, 2);
  }

  // the comparison loop, unrolled eight times
  method Compare(window: array<Byte>, m: nat, s: nat) returns (len: nat)
    requires window.Length == ROOM && m < s < WINDOW_SIZE && MatchAt(window[..], m, s, 3)
    ensures 3 <= len <= MAX_MATCH && MatchAt(window[..], m, s, len)
    ensures len < MAX_MATCH ==> window[m + len] != window[s + len]
  {
    hide MatchAt;
    ghost var win := window[..];
    var strend := s + MAX_MATCH;
    var scan, match_, eq := s + 2, m + 2, true;
    while eq && scan < strend
      invariant s + 2 <= scan <= strend && match_ - m == scan - s
      invariant eq ==> (scan - s) % 8 == 2 && MatchAt(win, m, s, scan - s + 1)
      invariant !eq ==> scan - s >= 3 && MatchAt(win, m, s, scan - s) && window[match_] != window[scan]
      decreases strend - scan, eq
    {
      var k := 0;
      ghost var start := scan;
      while eq && k < 8
        invariant k <= 8 && scan == start + k && match_ - m == scan - s && start + 8 <= strend &&
            (start - s) % 8 == 2 && start >= s + 2
        invariant eq ==> MatchAt(win, m, s, scan - s + 1)
        invariant !eq ==> k > 0 && MatchAt(win, m, s, scan - s) && window[match_] != window[scan]
        decreases 8 - k, eq
      {
        scan, match_ := scan + 1, match_ + 1;
        MatchStep(win, m, s, scan - s);
        eq := window[scan] == window[match_];
        k := k + 1;
      }
    }
    len := MAX_MATCH - (strend - scan);
    if eq { MatchLess(win, m, s, len + 1, len); }
  }

  // the shortest match that would be news
  function News(best: nat): (n: nat) { if best < 2 then 3 else best + 1 }

  // no string of the dictionary between lo and s matches n bytes
  ghost predicate NoMatch(win: seq<Byte>, ins: set<nat>, base: nat, lo: nat, s: nat, n: nat) {
    forall q :: q in ins && base + lo < q < base + s ==> !MatchAt(win, q - base, s, n)
  }

  lemma NoMatchMore(win: seq<Byte>, ins: set<nat>, base: nat, lo: nat, s: nat, n: nat, k: nat)
    requires NoMatch(win, ins, base, lo, s, n) && n <= k
    ensures NoMatch(win, ins, base, lo, s, k)
  {
    hide MatchAt;
    forall q | q in ins && base + lo < q < base + s ensures !MatchAt(win, q - base, s, k) {
      if MatchAt(win, q - base, s, k) { MatchLess(win, q - base, s, k, n); }
    }
  }

  // strings with another key do not match
  lemma OtherKeys(win: seq<Byte>, ins: set<nat>, base: nat, m: nat, cur: nat, s: nat, n: nat)
    requires s + 2 < |win| && cur <= s && n >= 3 && Latest(win, ins, base, m, KeyAt(win, s), cur)
    requires NoMatch(win, ins, base, cur, s, n) && (cur < s ==> !MatchAt(win, cur, s, n))
    ensures NoMatch(win, ins, base, m, s, n)
  {
    hide MatchAt, KeyAt;
    forall q | q in ins && base + m < q < base + s ensures !MatchAt(win, q - base, s, n) {
      if q < base + cur && MatchAt(win, q - base, s, n) { SameKeys(win, q - base, s, n); }
    }
  }

  // what is known while the chain is followed
  ghost predicate Best(win: seq<Byte>, s: nat, prevLength: nat, start0: nat, best: nat, start: nat) {
    && prevLength <= best && (best == prevLength ==> start == start0)
    && (best > prevLength ==>
        3 <= best <= MAX_MATCH && start < s && s - start <= MAX_DIST && MatchAt(win, start, s, best))
  }

  // one candidate
  method TryMatch(window: array<Byte>, cur: nat, s: nat, best0: nat, start0: nat, scanEnd1: Byte, scanEnd: Byte)
      returns (best: nat, start: nat)
    requires window.Length == ROOM && 0 < cur < s < WINDOW_SIZE && KeyAt(window[..], cur) == KeyAt(window[..], s) &&
        1 <= best0 <= MAX_MATCH
    requires scanEnd1 == window[s + best0 - 1] && scanEnd == window[s + best0]
    ensures best >= best0 && (best == best0 ==> start == start0)
    ensures best > best0 ==> 3 <= best <= MAX_MATCH && start == cur && MatchAt(window[..], cur, s, best)
    ensures best < MAX_MATCH ==> !MatchAt(window[..], cur, s, News(best))
  {
    hide MatchAt, KeyAt;
    ghost var win := window[..];
    best, start := best0, start0;
    if window[cur + best0] != scanEnd || window[cur + best0 - 1] != scanEnd1 || window[cur] != window[s] ||
        window[cur + 1] != window[s + 1] {
      if best < MAX_MATCH && MatchAt(win, cur, s, News(best)) {
        MatchByte(win, cur, s, News(best), best0);
        MatchByte(win, cur, s, News(best), best0 - 1);
        MatchByte(win, cur, s, News(best), 0);
        MatchByte(win, cur, s, News(best), 1);
      }
      return;
    }
    ThreeBytes(win, cur, s);
    var len := Compare(window, cur, s);
    if len < MAX_MATCH && MatchAt(win, cur, s, len + 1) { MatchByte(win, cur, s, len + 1, len); }
    if len > best {
      best, start := len, cur;
    } else if best < MAX_MATCH && MatchAt(win, cur, s, News(best)) {
      MatchLess(win, cur, s, News(best), len + 1);
    }
  }

  // the strings of the dictionary from index lo up to s that have the key of the string at s
  ghost function Chain(win: seq<Byte>, ins: set<nat>, base: nat, lo: nat, s: nat): (c: set<nat>)
    requires s + 2 < |win|
  {
    set q | q in ins && base + lo <= q < base + s && KeyAt(win, q - base) == KeyAt(win, s)
  }

  // how far longest_match follows the chain
  function Limit(s: nat): (l: nat) { if s > MAX_DIST then s - MAX_DIST else NIL }

  function Patience(prevLength: nat, maxChain: nat, goodMatch: nat): (n: nat) {
    if prevLength >= goodMatch then maxChain / 4 else maxChain
  }

  // best is the longest match among the strings from lo on, and lo is far enough back: a match is good
  // enough, or as many strings with the same key have been looked at as allowed, or there are no more
  ghost predicate Searched(win: seq<Byte>, ins: set<nat>, base: nat, s: nat, best: nat, lo: nat, niceMatch: nat,
      patience: nat)
    requires s + 2 < |win|
  {
    && (best < MAX_MATCH ==> forall q :: q in ins && base + lo <= q < base + s ==>
        !MatchAt(win, q - base, s, News(best)))
    && (best >= niceMatch || |Chain(win, ins, base, lo, s)| == patience ||
        Chain(win, ins, base, Limit(s) + 1, s) <= Chain(win, ins, base, lo, s))
  }

  method LongestMatch(window: array<Byte>, prev: array<nat>, hashHead: nat, s: nat, prevLength: nat, start0: nat,
      maxChain: nat, goodMatch: nat, niceMatch: nat,
                      ghost head: seq<nat>, ghost ins: set<nat>, ghost base: nat)
                          returns (best: nat, start: nat, ghost lo: nat)
    requires Chained(window[..], head, prev[..], ins, base, s + 1) && 0 < hashHead < s < WINDOW_SIZE &&
        s - hashHead <= MAX_DIST
    requires Linked(window[..], ins, base, hashHead, KeyAt(window[..], s), s) && 1 <= prevLength < MAX_MATCH &&
        maxChain >= 4
    ensures Best(window[..], s, prevLength, start0, best, start)
    ensures lo <= s && Searched(window[..], ins, base, s, best, lo, niceMatch,
        Patience(prevLength, maxChain, goodMatch))
  {
    hide MatchAt, KeyAt, NoMatch, Chained, Latest, Linked, Chain, Searched;
    ghost var win := window[..];
    ChainSizes(win, head, prev[..], ins, base, s + 1);
    var chain: nat := maxChain;
    best, start := prevLength, start0;
    var limit := if s > MAX_DIST then s - MAX_DIST else NIL;
    var scanEnd1, scanEnd := window[s + best - 1], window[s + best];
    if prevLength >= goodMatch { chain := chain / 4; }
    ghost var steps: nat, patience := 0, chain;
    var cur: nat := hashHead;
    FirstOnChain(win, ins, base, cur, s, News(best));
    while true
      invariant OnChain(win, ins, base, cur, s) && s - cur <= MAX_DIST
      invariant chain > 0 && steps + chain == patience && |Chain(win, ins, base, cur + 1, s)| == steps
      invariant Best(win, s, prevLength, start0, best, start) && best <= MAX_MATCH &&
          scanEnd1 == window[s + best - 1] && scanEnd == window[s + best]
      invariant best < MAX_MATCH ==> NoMatch(win, ins, base, cur, s, News(best))
      decreases cur
    {
      var best', start' := TryMatch(window, cur, s, best, start, scanEnd1, scanEnd);
      if best' < MAX_MATCH { NoMatchMore(win, ins, base, cur, s, News(best), News(best')); }
      var longer := best' > best;
      best, start := best', start';
      lo := cur;
      ChainGrows(win, ins, base, cur, s);
      steps := steps + 1;
      if longer {
        if best >= niceMatch { SearchedIntro(win, ins, base, s, best, lo, niceMatch, patience); break; }
        scanEnd1, scanEnd := window[s + best - 1], window[s + best];
      }
      var next := prev[cur % WSIZE];
      NextOnChain(win, head, prev[..], ins, base, s, cur, News(best));
      cur := next;
      if cur <= limit {
        ChainEnds(win, ins, base, cur, lo, limit, s); SearchedIntro(win, ins, base, s, best, lo, niceMatch, patience);
            break;
      }
      chain := chain - 1;
      if chain == 0 { SearchedIntro(win, ins, base, s, best, lo, niceMatch, patience); break; }
    }
  }

  lemma SearchedIntro(win: seq<Byte>, ins: set<nat>, base: nat, s: nat, best: nat, lo: nat, niceMatch: nat,
      patience: nat)
    requires s + 2 < |win| && (best < MAX_MATCH ==>
        NoMatch(win, ins, base, lo, s, News(best)) && !MatchAt(win, lo, s, News(best)))
    requires best >= niceMatch || |Chain(win, ins, base, lo, s)| == patience ||
        Chain(win, ins, base, Limit(s) + 1, s) <= Chain(win, ins, base, lo, s)
    ensures Searched(win, ins, base, s, best, lo, niceMatch, patience)
  {
    hide MatchAt, Chain;
  }

  lemma ChainGrows(win: seq<Byte>, ins: set<nat>, base: nat, cur: nat, s: nat)
    requires OnChain(win, ins, base, cur, s)
    ensures |Chain(win, ins, base, cur, s)| == |Chain(win, ins, base, cur + 1, s)| + 1
  {
    hide KeyAt;
    assert Chain(win, ins, base, cur, s) == Chain(win, ins, base, cur + 1, s) + {base + cur};
  }

  lemma ChainEnds(win: seq<Byte>, ins: set<nat>, base: nat, next: nat, cur: nat, limit: nat, s: nat)
    requires s + 2 < |win| && next <= limit && Chain(win, ins, base, next + 1, s) == Chain(win, ins, base, cur, s) &&
        limit == Limit(s)
    ensures Chain(win, ins, base, Limit(s) + 1, s) <= Chain(win, ins, base, cur, s)
  {
    hide KeyAt;
    assert Chain(win, ins, base, Limit(s) + 1, s) <= Chain(win, ins, base, next + 1, s);
  }

  // cur is a string of the dictionary with the key of the string at s
  ghost predicate OnChain(win: seq<Byte>, ins: set<nat>, base: nat, cur: nat, s: nat) {
    0 < cur < s && s + 2 < |win| && base + cur in ins && KeyAt(win, cur) == KeyAt(win, s)
  }

  lemma FirstOnChain(win: seq<Byte>, ins: set<nat>, base: nat, cur: nat, s: nat, n: nat)
    requires 0 < cur < s && s + 2 < |win| && n >= 3 && Linked(win, ins, base, cur, KeyAt(win, s), s)
    ensures OnChain(win, ins, base, cur, s) && NoMatch(win, ins, base, cur, s, n) &&
        Chain(win, ins, base, cur + 1, s) == {}
  {
    hide KeyAt;
    NoneAfter(win, ins, base, cur, s, n);
  }

  lemma NextOnChain(win: seq<Byte>, head: seq<nat>, prev: seq<nat>, ins: set<nat>, base: nat, s: nat, cur: nat, n: nat)
    requires Chained(win, head, prev, ins, base, s + 1) && OnChain(win, ins, base, cur, s) && s - cur <= MAX_DIST &&
        n >= 3
    ensures var next := prev[cur % WSIZE];
            && next < cur && (next > NIL ==> OnChain(win, ins, base, next, s))
            && (NoMatch(win, ins, base, cur, s, n) && !MatchAt(win, cur, s, n) ==> NoMatch(win, ins, base, next, s, n))
            && Chain(win, ins, base, next + 1, s) == Chain(win, ins, base, cur, s)
  {
    hide KeyAt, MatchAt, NoMatch, Chained;
    ChainSizes(win, head, prev, ins, base, s + 1);
    Follow(win, head, prev, ins, base, s + 1, cur);
    var next := prev[cur % WSIZE];
    if NoMatch(win, ins, base, cur, s, n) && !MatchAt(win, cur, s, n) { OtherKeys(win, ins, base, next, cur, s, n); }
  }

  lemma NoneAfter(win: seq<Byte>, ins: set<nat>, base: nat, m: nat, s: nat, n: nat)
    requires s + 2 < |win| && n >= 3 && Latest(win, ins, base, m, KeyAt(win, s), s)
    ensures NoMatch(win, ins, base, m, s, n)
  {
    hide MatchAt, KeyAt;
    OtherKeys(win, ins, base, m, s, s, n);
  }
}
