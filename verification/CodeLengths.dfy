/**
 Code lengths in run-length form: section 3.2.7 of RFC 1951.
 */
module CodeLengths {
  import opened Bits
  import opened Canonical
  import opened Symbols
  import opened BlockData

  const REP_3_6 := 16
  const REPZ_3_10 := 17
  const REPZ_11_138 := 18

  // one symbol of the code length code with its repeat count
  datatype Op = Len(v: nat) | Rep(n: nat) | Zeros(n: nat) | ManyZeros(n: nat)

  predicate OpOk(op: Op) {
    match op
    case Len(v) => v <= MAX_BITS
    case Rep(n) => 3 <= n <= 6
    case Zeros(n) => 3 <= n <= 10
    case ManyZeros(n) => 11 <= n <= 138
  }

  function OpSym(op: Op): (r: nat)
    requires OpOk(op)
    ensures r < BL_CODES
  {
    match op
    case Len(v) => v
    case Rep(_) => REP_3_6
    case Zeros(_) => REPZ_3_10
    case ManyZeros(_) => REPZ_11_138
  }

  // value and width of the repeat count
  function OpExtra(op: Op): (r: (nat, nat))
    requires OpOk(op)
    ensures r.0 < Pow2(r.1) && r.1 <= 7
  {
    SmallPowers();
    match op
    case Len(_) => (0, 0)
    case Rep(n) => (n - 3, 2)
    case Zeros(n) => (n - 3, 3)
    case ManyZeros(n) => (n - 11, 7)
  }

  function OpLen(op: Op): (n: nat)
    requires OpOk(op)
    ensures n >= 1
  {
    if op.Len? then 1 else op.n
  }

  function Run(v: nat, n: nat): (s: seq<nat>)
    ensures |s| == n && forall i :: 0 <= i < n ==> s[i] == v
  {
    seq(n, _ => v)
  }

  // the length carried over from symbol to symbol
  function Last(acc: seq<nat>): (r: nat) {
    if acc == [] then 0 else acc[|acc| - 1]
  }

  function ApplyOp(acc: seq<nat>, op: Op): (r: seq<nat>)
    requires OpOk(op)
    ensures |r| == |acc| + OpLen(op) && acc <= r
  {
    match op
    case Len(v) => acc + [v]
    case Rep(n) => acc + Run(Last(acc), n)
    case Zeros(n) => acc + Run(0, n)
    case ManyZeros(n) => acc + Run(0, n)
  }

  predicate OpsOk(ops: seq<Op>) {
    forall i :: 0 <= i < |ops| ==> OpOk(ops[i])
  }

  function ExpandOps(acc: seq<nat>, ops: seq<Op>): (r: seq<nat>)
    requires OpsOk(ops)
    ensures |r| >= |acc| + |ops|
    decreases |ops|
  {
    if ops == [] then acc else ExpandOps(ApplyOp(acc, ops[0]), ops[1..])
  }

  lemma {:induction false} ExpandOpsAppend(acc: seq<nat>, ops: seq<Op>, op: Op)
    requires OpsOk(ops) && OpOk(op)
    ensures ExpandOps(acc, ops + [op]) == ApplyOp(ExpandOps(acc, ops), op)
    decreases |ops|
  {
    hide ApplyOp;
    if ops == [] {
      assert ops + [op] == [op] && [op][1..] == [];
    } else {
      ExpandOpsAppend(ApplyOp(acc, ops[0]), ops[1..], op);
      assert (ops + [op])[1..] == ops[1..] + [op];
    }
  }

  lemma {:induction false} ExpandOpsConcat(acc: seq<nat>, a: seq<Op>, b: seq<Op>)
    requires OpsOk(a) && OpsOk(b)
    ensures ExpandOps(acc, a + b) == ExpandOps(ExpandOps(acc, a), b)
    decreases |a|
  {
    hide ApplyOp;
    if a == [] {
      assert a + b == b;
    } else {
      ExpandOpsConcat(ApplyOp(acc, a[0]), a[1..], b);
      assert (a + b)[1..] == a[1..] + b;
    }
  }

  // --- Bits ---

  predicate OpsUsable(bl: seq<nat>, ops: seq<Op>) {
    OpsOk(ops) && forall i :: 0 <= i < |ops| ==> Usable(bl, OpSym(ops[i]))
  }

  function OpBits(bl: seq<nat>, op: Op): (s: seq<Bit>)
    requires OpOk(op) && Usable(bl, OpSym(op))
  {
    Codeword(bl, OpSym(op)) + BitsOf(OpExtra(op).0, OpExtra(op).1)
  }

  function OpsBits(bl: seq<nat>, ops: seq<Op>): (s: seq<Bit>)
    requires OpsUsable(bl, ops)
  {
    if ops == [] then [] else OpBits(bl, ops[0]) + OpsBits(bl, ops[1..])
  }

  lemma {:induction false} OpsBitsConcat(bl: seq<nat>, a: seq<Op>, b: seq<Op>)
    requires OpsUsable(bl, a) && OpsUsable(bl, b)
    ensures OpsBits(bl, a + b) == OpsBits(bl, a) + OpsBits(bl, b)
    decreases |a|
  {
    hide OpBits, OpSym, OpOk;
    if a == [] {
      assert a + b == b;
    } else {
      OpsBitsConcat(bl, a[1..], b);
      assert (a + b)[1..] == a[1..] + b;
    }
  }

  // --- The reference decoder ---

  // what symbol sym and the bits after it stand for
  function OpFrom(sym: nat, t: seq<Bit>): (r: Option<(Op, seq<Bit>)>)
    ensures r.Some? ==> OpOk(r.value.0) && |r.value.1| <= |t|
  {
    SmallPowers();
    if sym <= MAX_BITS then Some((Len(sym), t))
    else if sym == REP_3_6 then
      if |t| < 2 then None else Some((Rep(3 + Val(t[..2])), t[2..]))
    else if sym == REPZ_3_10 then
      if |t| < 3 then None else Some((Zeros(3 + Val(t[..3])), t[3..]))
    else if sym == REPZ_11_138 then
      if |t| < 7 then None else Some((ManyZeros(11 + Val(t[..7])), t[7..]))
    else None
  }

  function ReadOp(bl: seq<nat>, s: seq<Bit>): (r: Option<(Op, seq<Bit>)>)
    ensures r.Some? ==> OpOk(r.value.0) && |r.value.1| < |s|
  {
    match DecodeSym(bl, s)
    case None => None
    case Some((sym, n)) => OpFrom(sym, s[n..])
  }

  // read lengths until there are n
  function DecodeLens(bl: seq<nat>, s: seq<Bit>, n: nat, acc: seq<nat>): (r: Option<(seq<nat>, seq<Bit>)>)
    requires |acc| <= n
    ensures r.Some? ==> |r.value.0| == n && |r.value.1| <= |s|
    decreases |s|
  {
    if |acc| == n then Some((acc, s))
    else
      match ReadOp(bl, s)
      case None => None
      case Some((op, t)) =>
        if |acc| + OpLen(op) > n then None else DecodeLens(bl, t, n, ApplyOp(acc, op))
  }

  lemma ReadOpBits(bl: seq<nat>, op: Op, s: seq<Bit>)
    requires Decodable(bl) && OpOk(op) && Usable(bl, OpSym(op))
    ensures ReadOp(bl, OpBits(bl, op) + s) == Some((op, s))
  {
    hide Codeword, DecodeSym, Decodable, BitsOf, Val, Pow2;
    var (v, w) := OpExtra(op);
    var x := BitsOf(v, w);
    assert OpBits(bl, op) + s == Codeword(bl, OpSym(op)) + (x + s);
    DecodeFront(bl, OpSym(op), x + s);
    assert (x + s)[..w] == x && (x + s)[w..] == s;
    ValBits(v, w);
    DivModUnique(v, Pow2(w), 0, v);
  }

  // decoding inverts the run-length form
  lemma {:induction false} OpsRoundTrip(bl: seq<nat>, ops: seq<Op>, s: seq<Bit>, n: nat, acc: seq<nat>)
    requires Decodable(bl) && OpsUsable(bl, ops) && |ExpandOps(acc, ops)| == n
    ensures |acc| <= n && DecodeLens(bl, OpsBits(bl, ops) + s, n, acc) == Some((ExpandOps(acc, ops), s))
    decreases |ops|
  {
    hide Decodable, OpBits, ReadOp, ApplyOp, OpSym;
    if ops == [] {
      assert OpsBits(bl, ops) + s == s;
    } else {
      var rest := OpsBits(bl, ops[1..]) + s;
      assert OpsBits(bl, ops) + s == OpBits(bl, ops[0]) + rest;
      ReadOpBits(bl, ops[0], rest);
      OpsRoundTrip(bl, ops[1..], s, n, ApplyOp(acc, ops[0]));
    }
  }

  // --- The lengths of the code length code ---

  // where a symbol stands in BL_ORDER
  const BL_RANK: seq<nat> := [3, 17, 15, 13, 11, 9, 7, 5, 4, 6, 8, 10, 12, 14, 16, 18, 0, 1, 2]

  lemma OrderRank(i: nat)
    requires i < BL_CODES
    ensures BL_RANK[i] < BL_CODES && BL_ORDER[BL_RANK[i]] == i
    ensures BL_ORDER[i] < BL_CODES && BL_RANK[BL_ORDER[i]] == i
  {
  }

  // the lengths in symbol order, from the values in transmission order
  function Unordered(vals: seq<nat>): (bl: seq<nat>)
    requires |vals| <= BL_CODES
    ensures |bl| == BL_CODES
    ensures forall i :: 0 <= i < BL_CODES ==> bl[i] == if BL_RANK[i] < |vals| then vals[BL_RANK[i]] else 0
  {
    seq(BL_CODES, i requires 0 <= i < BL_CODES => if BL_RANK[i] < |vals| then vals[BL_RANK[i]] else 0)
  }

  // the values sent: the first nb lengths in transmission order
  function Ordered(bl: seq<nat>, nb: nat): (vals: seq<nat>)
    requires |bl| == BL_CODES && nb <= BL_CODES
    ensures |vals| == nb
    ensures forall j :: 0 <= j < nb ==> BL_ORDER[j] < BL_CODES && vals[j] == bl[BL_ORDER[j]]
  {
    OrderInRange();
    seq(nb, j requires 0 <= j < nb => bl[BL_ORDER[j]])
  }

  lemma OrderInRange()
    ensures forall j :: 0 <= j < BL_CODES ==> BL_ORDER[j] < BL_CODES
  {
  }

  lemma OrderedRoundTrip(bl: seq<nat>, nb: nat)
    requires |bl| == BL_CODES && nb <= BL_CODES
    requires forall j :: nb <= j < BL_CODES ==> BL_ORDER[j] < BL_CODES && bl[BL_ORDER[j]] == 0
    ensures Unordered(Ordered(bl, nb)) == bl
  {
    var r := Unordered(Ordered(bl, nb));
    forall i | 0 <= i < BL_CODES ensures r[i] == bl[i] {
      OrderRank(i);
    }
  }

  function ValsBits(vals: seq<nat>): (s: seq<Bit>)
    ensures |s| == 3 * |vals|
  {
    if vals == [] then [] else BitsOf(vals[0], 3) + ValsBits(vals[1..])
  }

  function ReadVals(s: seq<Bit>, n: nat): (r: seq<nat>)
    requires 3 * n <= |s|
    ensures |r| == n && forall i :: 0 <= i < n ==> r[i] < 8
    decreases n
  {
    SmallPowers();
    if n == 0 then [] else [Val(s[..3])] + ReadVals(s[3..], n - 1)
  }

  lemma ValFront(v: nat, s: seq<Bit>)
    requires v < 8
    ensures (BitsOf(v, 3) + s)[..3] == BitsOf(v, 3) && (BitsOf(v, 3) + s)[3..] == s
    ensures Val(BitsOf(v, 3)) == v
  {
    hide BitsOf, Val;
    SmallPowers();
    ValBits(v, 3);
    DivModUnique(v, 8, 0, v);
  }

  lemma {:induction false} ValsRoundTrip(vals: seq<nat>, s: seq<Bit>)
    requires forall i :: 0 <= i < |vals| ==> vals[i] < 8
    ensures ReadVals(ValsBits(vals) + s, |vals|) == vals
    decreases |vals|
  {
    if vals != [] {
      hide BitsOf, Val, ReadVals, Pow2;
      var b, rest := BitsOf(vals[0], 3), ValsBits(vals[1..]);
      ValFront(vals[0], rest + s);
      Assoc(b, rest, s);
      ReadFirst(ValsBits(vals) + s, |vals|);
      ValsRoundTrip(vals[1..], s);
      assert vals == [vals[0]] + vals[1..];
    }
  }

  lemma ReadFirst(s: seq<Bit>, n: nat)
    requires 0 < n && 3 * n <= |s|
    ensures ReadVals(s, n) == [Val(s[..3])] + ReadVals(s[3..], n - 1)
  {
    hide Val;
  }
}
