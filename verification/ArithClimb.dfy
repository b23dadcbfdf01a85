/**
 Precedence climbing, as binop2 does it, builds the tree of the stratified grammar.
 */
module ArithClimb {
  import opened Canonical
  import opened ArithSyntax

  // the loop of binop2 with the operands as trees: e op ..., where ts follows op, for all operators
  // that bind tighter than prec
  function Climb(e: Expr, op: nat, prec: nat, ts: seq<Lex>, stop: nat): (r: Parsed)
    requires Lexed(ts) && IsBinop(op)
    ensures r.Some? ==> |r.value.1| < |ts| && Lexed(r.value.1)
    decreases |ts|
  {
    match ParsePrimary(ts, stop)
    case None => None
    case Some((b, u)) =>
      match Inner(b, op, u, stop, |ts|)
      case None => None
      case Some((b', w)) =>
        var a := Binary(op, e, b');
        if w == [] || !IsBinop(w[0].kind) || Prec(w[0].kind) >= prec then Some((a, w))
        else Climb(a, w[0].kind, prec, w[1..], stop)
  }

  // the right operand of op
  function Inner(b: Expr, op: nat, u: seq<Lex>, stop: nat, bound: nat): (r: Parsed)
    requires Lexed(u) && IsBinop(op) && |u| < bound
    ensures r.Some? ==> |r.value.1| <= |u| && Lexed(r.value.1)
    decreases |u|, 0
  {
    if u != [] && IsBinop(u[0].kind) && Prec(u[0].kind) < Prec(op) then Climb(b, u[0].kind, Prec(op), u[1..], stop)
    else Some((b, u))
  }

  // levels above p and up to q, with e to the left
  function Up(p: nat, q: nat, e: Expr, ts: seq<Lex>, stop: nat): (r: Parsed)
    requires Lexed(ts) && p <= q
    ensures r.Some? ==> |r.value.1| <= |ts| && Lexed(r.value.1)
    decreases q - p
  {
    if p == q then Some((e, ts))
    else
      match ParseTail(p + 1, e, ts, stop)
      case None => None
      case Some((e', u)) => Up(p + 1, q, e', u, stop)
  }

  // a level is a primary and everything that binds tighter
  lemma {:induction false} LevelUp(q: nat, ts: seq<Lex>, stop: nat)
    requires Lexed(ts)
    ensures ParseLevel(q, ts, stop) == match ParsePrimary(ts, stop)
                                       case None => None
                                       case Some((e, u)) => Up(0, q, e, u, stop)
    decreases q
  {
    hide ParsePrimary, ParseTail;
    if q > 0 {
      LevelUp(q - 1, ts, stop);
      if ParsePrimary(ts, stop).Some? {
        var (e, u) := ParsePrimary(ts, stop).value;
        UpSnoc(0, q, e, u, stop);
      }
    }
  }

  lemma {:induction false} UpSnoc(p: nat, q: nat, e: Expr, ts: seq<Lex>, stop: nat)
    requires Lexed(ts) && p < q
    ensures Up(p, q, e, ts, stop) == match Up(p, q - 1, e, ts, stop)
                                     case None => None
                                     case Some((e', u)) => ParseTail(q, e', u, stop)
    decreases q - p
  {
    hide ParseTail;
    if p + 1 < q {
      if ParseTail(p + 1, e, ts, stop).Some? {
        var (e', u) := ParseTail(p + 1, e, ts, stop).value;
        UpSnoc(p + 1, q, e', u, stop);
      }
    } else if ParseTail(q, e, ts, stop).Some? {
      var (e', u) := ParseTail(q, e, ts, stop).value;
      assert Up(q, q, e', u, stop) == Some((e', u));
    }
  }

  // an operator of precedence k is left alone below level k
  ghost predicate NextIs(ts: seq<Lex>, k: nat) { ts != [] && IsBinop(ts[0].kind) && Prec(ts[0].kind) == k }

  ghost predicate Stops(ts: seq<Lex>, q: nat) { ts == [] || !IsBinop(ts[0].kind) || Prec(ts[0].kind) >= q }

  lemma {:induction false} UpSkip(p: nat, k: nat, q: nat, e: Expr, ts: seq<Lex>, stop: nat)
    requires Lexed(ts) && p <= k < q && NextIs(ts, k)
    ensures Up(p, q, e, ts, stop) == Up(k, q, e, ts, stop)
    decreases k - p
  {
    if p < k { UpSkip(p + 1, k, q, e, ts, stop); }
  }

  lemma {:induction false} UpStops(p: nat, q: nat, e: Expr, ts: seq<Lex>, stop: nat)
    requires Lexed(ts) && p <= q && Stops(ts, q)
    ensures Up(p, q, e, ts, stop) == Some((e, ts))
    decreases q - p
  {
    if p < q { UpStops(p + 1, q, e, ts, stop); }
  }

  // what comes after a level does not belong to it
  lemma {:induction false} TailStops(level: nat, e: Expr, ts: seq<Lex>, stop: nat)
    requires Lexed(ts) && level >= 1 && Stops(ts, level - 1)
    ensures var r := ParseTail(level, e, ts, stop); r.Some? ==> Stops(r.value.1, level)
    decreases |ts|
  {
    hide ParseLevel;
    if NextIs(ts, level - 1) && ParseLevel(level - 1, ts[1..], stop).Some? {
      var (b, u) := ParseLevel(level - 1, ts[1..], stop).value;
      LevelStops(level - 1, ts[1..], stop);
      TailStops(level, Binary(ts[0].kind, e, b), u, stop);
    }
  }

  lemma {:induction false} LevelStops(level: nat, ts: seq<Lex>, stop: nat)
    requires Lexed(ts)
    ensures var r := ParseLevel(level, ts, stop); r.Some? ==> Stops(r.value.1, level)
    decreases |ts|, level
  {
    hide ParseTail, ParsePrimary;
    if level > 0 && ParseLevel(level - 1, ts, stop).Some? {
      var (e, u) := ParseLevel(level - 1, ts, stop).value;
      LevelStops(level - 1, ts, stop);
      TailStops(level, e, u, stop);
    }
  }

  // the right operand of an operator of precedence k is a level k
  lemma InnerLevel(b: Expr, op: nat, u: seq<Lex>, stop: nat, bound: nat)
    requires Lexed(u) && IsBinop(op) && |u| < bound
    requires u != [] && IsBinop(u[0].kind) && Prec(u[0].kind) < Prec(op) ==>
               Climb(b, u[0].kind, Prec(op), u[1..], stop) == Up(Prec(u[0].kind), Prec(op), b, u, stop)
    ensures Inner(b, op, u, stop, bound) == Up(0, Prec(op), b, u, stop)
  {
    hide Climb, Up, Prec;
    if u != [] && IsBinop(u[0].kind) && Prec(u[0].kind) < Prec(op) {
      UpSkip(0, Prec(u[0].kind), Prec(op), b, u, stop);
    } else {
      UpStops(0, Prec(op), b, u, stop);
    }
  }

  // precedence climbing is the stratified grammar
  lemma {:induction false} ClimbIsUp(e: Expr, prec: nat, ts: seq<Lex>, stop: nat)
    requires Lexed(ts) && ts != [] && IsBinop(ts[0].kind) && Prec(ts[0].kind) < prec
    ensures Climb(e, ts[0].kind, prec, ts[1..], stop) == Up(Prec(ts[0].kind), prec, e, ts, stop)
    decreases |ts|
  {
    hide Prec, ParsePrimary, ParseLevel, Up;
    var op, t := ts[0].kind, ts[1..];
    var k := Prec(op);
    LevelUp(k, t, stop);
    UpTail(k, prec, e, ts, stop);
    if ParsePrimary(t, stop).Some? {
      var (b, u) := ParsePrimary(t, stop).value;
      if u != [] && IsBinop(u[0].kind) && Prec(u[0].kind) < k { ClimbIsUp(b, k, u, stop); }
      InnerLevel(b, op, u, stop, |t|);
      if Inner(b, op, u, stop, |t|).Some? {
        var (b', w) := Inner(b, op, u, stop, |t|).value;
        LevelStops(k, t, stop);
        var a := Binary(op, e, b');
        ClimbNext(k, prec, a, w, stop);
        if !Stops(w, prec) { ClimbIsUp(a, prec, w, stop); }
      }
    }
  }

  // one operator of level k and its right operand
  lemma UpTail(k: nat, prec: nat, e: Expr, ts: seq<Lex>, stop: nat)
    requires Lexed(ts) && k < prec && NextIs(ts, k)
    ensures Up(k, prec, e, ts, stop) == match ParseLevel(k, ts[1..], stop)
                                        case None => None
                                        case Some((b, u)) => Up(k, prec, Binary(ts[0].kind, e, b), u, stop)
  {
    hide ParseLevel, Prec;
    if ParseLevel(k, ts[1..], stop).Some? {
      var (b, u) := ParseLevel(k, ts[1..], stop).value;
      assert ParseTail(k + 1, e, ts, stop) == ParseTail(k + 1, Binary(ts[0].kind, e, b), u, stop);
    }
  }

  // what follows the right operand
  lemma ClimbNext(k: nat, prec: nat, a: Expr, w: seq<Lex>, stop: nat)
    requires Lexed(w) && k < prec && Stops(w, k)
    ensures Stops(w, prec) ==> Up(k, prec, a, w, stop) == Some((a, w))
    ensures !Stops(w, prec) ==> Up(k, prec, a, w, stop) == Up(Prec(w[0].kind), prec, a, w, stop)
  {
    hide Up, Prec;
    if Stops(w, prec) { UpStops(k, prec, a, w, stop); } else { UpSkip(k, Prec(w[0].kind), prec, a, w, stop); }
  }
}
