/**
 The one-pass evaluator of arith_yacc.c: it parses and evaluates at the same time,
 and parses without evaluating where noeval is set. It gives the value and the
 variables that evaluating the tree gives.
 */
module Arith {
  import opened Canonical
  import opened ArithSyntax
  import opened ArithClimb

  // a value, or an error that leaves the evaluator
  datatype Outcome = Ok(v: int) | Fail

  // what a parser has done: u is left, of which the first token has been read into last_token; a Fail
  // is a syntax error in the tree or a division by zero in its value, and under noeval nothing is set
  ghost predicate Did(p: Parsed, noeval: bool, env0: Env, env: Env, r: Outcome, last: nat, unread: seq<Lex>,
      stop: nat) {
    && (noeval ==> env == env0)
    && match p
       case None => r == Fail
       case Some((e, u)) =>
         if noeval then r.Ok? && last == Kind(u, stop) && unread == Rest(u)
         else
           match Eval(e, env0)
           case Error(env1) => r == Fail && env == env1
           case Value(v, env1) => r == Ok(v) && env == env1 && last == Kind(u, stop) && unread == Rest(u)
  }

  // token and op have been read from the front of ts, with their values
  ghost predicate Loaded(ts: seq<Lex>, token: nat, val: Val, op: nat, yylval: Val, unread: seq<Lex>, stop: nat) {
    && Lexed(ts) && token == Kind(ts, stop) && op == Kind(Rest(ts), stop) && unread == Rest(Rest(ts))
    && (token == ARITH_NUM || token == ARITH_VAR ==> ts != [] && val == ts[0].val)
    && (op == ARITH_NUM || op == ARITH_VAR ==> |ts| >= 2 && yylval == ts[1].val)
  }

  class Evaluator {
    const text: seq<Lex>
    const stop: nat          // what yylex returns after text
    var pos: nat
    var lastToken: nat
    var yylval: Val
    var vars: Env

    constructor (ts: seq<Lex>, bad: bool, env: Env)
      requires Lexed(ts)
      ensures Valid() && text == ts && pos == 0 && vars == env && (stop == if bad then ARITH_BAD else ARITH_EOF)
    {
      text, stop, pos, lastToken, yylval, vars := ts, if bad then ARITH_BAD else ARITH_EOF, 0, 0, IntVal(0), env;
    }

    ghost predicate Valid()
      reads this
    {
      pos <= |text| && Lexed(text) && (stop == ARITH_EOF || stop == ARITH_BAD)
    }

    ghost function Unread(): (ts: seq<Lex>)
      reads this
      requires Valid()
    {
      text[pos..]
    }

    // the last two tokens read are the first two of ts
    ghost predicate Holds(ts: seq<Lex>, token: nat, val: Val, op: nat)
      reads this
    {
      Valid() && Loaded(ts, token, val, op, yylval, Unread(), stop)
    }

    method Yylex() returns (k: nat)
      requires Valid()
      modifies this`pos, this`yylval
      ensures Valid() && k == Kind(old(Unread()), stop) && Unread() == Rest(old(Unread()))
      ensures k == ARITH_NUM || k == ARITH_VAR ==> old(Unread()) != [] && yylval == old(Unread())[0].val
      ensures !(k == ARITH_NUM || k == ARITH_VAR) ==> yylval == old(yylval)
    {
      if pos == |text| { return stop; }
      k := text[pos].kind;
      if k == ARITH_NUM || k == ARITH_VAR { yylval := text[pos].val; }
      pos := pos + 1;
    }

    method Primary(token0: nat, val0: Val, op0: nat, noeval: bool, ghost ts0: seq<Lex>) returns (r: Outcome)
      requires Holds(ts0, token0, val0, op0)
      modifies this
      ensures Valid() && Did(ParsePrimary(ts0, stop), noeval, old(vars), vars, r, lastToken, Unread(), stop)
      decreases |ts0|, 1
    {
      hide ParsePrimary, Did;
      var token, val, op := token0, val0, op0;
      ghost var ts := ts0;
      while token == ARITH_ADD
        invariant Holds(ts, token, val, op) && ParsePrimary(ts0, stop) == ParsePrimary(ts, stop) && vars == old(vars) &&
            |ts| <= |ts0|
        decreases |ts|
      {
        PlusSpec(ts, stop);
        token, val := op, yylval;
        op := Yylex();
        ts := Rest(ts);
      }
      r := Operand(token, val, op, noeval, ts);
    }

    // a primary without plus signs in front
    method Operand(token: nat, val0: Val, op: nat, noeval: bool, ghost ts: seq<Lex>) returns (r: Outcome)
      requires Holds(ts, token, val0, op) && token != ARITH_ADD
      modifies this
      ensures Valid() && Did(ParsePrimary(ts, stop), noeval, old(vars), vars, r, lastToken, Unread(), stop)
      decreases |ts|, 0
    {
      hide ParsePrimary, ParseAssign, Did, DoUnary;
      ghost var env0 := vars;
      var val := val0;
      if token == ARITH_LPAREN {
        r := Assignment(op, noeval, Rest(ts));
        ParenDone(ts, noeval, env0, vars, r, lastToken, Unread(), stop);
        if r.Fail? { return; }
        if lastToken != ARITH_RPAREN { return Fail; }
        lastToken := Yylex();
      } else if token == ARITH_NUM {
        lastToken := op;
        r := Ok(val.n);
        AtomDone(ts, noeval, vars, r, stop);
      } else if token == ARITH_VAR {
        lastToken := op;
        var bits: int := *;   // what the pointer to the name reads as
        r := Ok(if noeval then bits else Lookup(vars, val.s));
        AtomDone(ts, noeval, vars, r, stop);
      } else if token == ARITH_SUB || token == ARITH_NOT || token == ARITH_BNOT {
        val := yylval;
        var next := Yylex();
        r := Primary(op, val, next, noeval, Rest(ts));
        UnaryDone(ts, noeval, env0, vars, r, lastToken, Unread(), stop);
        if r.Ok? { r := Ok(DoUnary(token, r.v)); }
      } else {
        r := Fail;
        NoPrimary(ts, noeval, env0, lastToken, Unread(), stop);
      }
    }

    // binop2: a is the value of the tree e, after which op has been read
    method Binop2(a0: int, op0: nat, prec: nat, noeval: bool, ghost e0: Expr, ghost ts0: seq<Lex>, ghost env0: Env)
        returns (r: Outcome)
      requires Valid() && IsBinop(op0) && Prec(op0) < prec && Unread() == ts0 && Reached(e0, a0, noeval, env0, vars)
      modifies this
      ensures Valid() && Did(Climb(e0, op0, prec, ts0, stop), noeval, env0, vars, r, lastToken, Unread(), stop)
      decreases |ts0|, 3
    {
      hide DoBinop, Prec, ParsePrimary, Climb, Inner, Did, Reached, RightOf;
      var a, op := a0, op0;
      ghost var e, ts := e0, ts0;
      while true
        invariant Valid() && IsBinop(op) && Prec(op) < prec && Unread() == ts && |ts| <= |ts0|
        invariant Climb(e0, op0, prec, ts0, stop) == Climb(e, op, prec, ts, stop)
        invariant Reached(e, a, noeval, env0, vars)
        decreases |ts|
      {
        ghost var env1 := vars;
        var b := RightOperand(op, noeval, ts);
        var op2 := lastToken;
        StepDone(e, a, op, prec, ts, noeval, env0, env1, vars, b, lastToken, Unread(), stop);
        if b.Fail? { return Fail; }
        e := Binary(op, e, RightOf(op, ts, stop).value.0);
        if noeval {
          a := b.v;
        } else {
          var x := DoBinop(op, a, b.v);
          if x.None? { return Fail; }
          a := x.value;
        }
        if !IsBinop(op2) || Prec(op2) >= prec { return Ok(a); }
        op := op2;
        ts := Unread();
      }
    }

    // primary, and what binds tighter than op after it
    method RightOperand(op: nat, noeval: bool, ghost ts: seq<Lex>) returns (r: Outcome)
      requires Valid() && IsBinop(op) && Unread() == ts
      modifies this
      ensures Valid() && Did(RightOf(op, ts, stop), noeval, old(vars), vars, r, lastToken, Unread(), stop)
      decreases |ts|, 2
    {
      hide Prec, ParsePrimary, Climb, Did;
      ghost var env0 := vars;
      var token := Yylex();
      var val := yylval;
      var next := Yylex();
      r := Primary(token, val, next, noeval, ts);
      RightStart(op, ts, noeval, env0, vars, r, lastToken, Unread(), stop);
      if r.Fail? { return; }
      var op2 := lastToken;
      if IsBinop(op2) && Prec(op2) < Prec(op) {
        r := Binop2(r.v, op2, Prec(op), noeval, ParsePrimary(ts, stop).value.0, Unread(), env0);
      }
    }

    method Binop(token: nat, val: Val, op0: nat, noeval: bool, ghost ts: seq<Lex>) returns (r: Outcome)
      requires Holds(ts, token, val, op0)
      modifies this
      ensures Valid() && Did(ParseLevel(ARITH_MAX_PREC, ts, stop), noeval, old(vars), vars, r, lastToken, Unread(),
          stop)
      decreases |ts|, 4
    {
      hide Prec, ParsePrimary, ParseLevel, Climb, Did, Reached;
      ghost var env0 := vars;
      r := Primary(token, val, op0, noeval, ts);
      BinopStart(ts, noeval, env0, vars, r, lastToken, Unread(), stop);
      if r.Fail? { return; }
      var op := lastToken;
      if !IsBinop(op) { return; }
      r := Binop2(r.v, op, ARITH_MAX_PREC, noeval, ParsePrimary(ts, stop).value.0, Unread(), env0);
    }

    method And(token0: nat, val0: Val, op0: nat, noeval: bool, ghost ts: seq<Lex>) returns (r: Outcome)
      requires Holds(ts, token0, val0, op0)
      modifies this
      ensures Valid() && Did(ParseAnd(ts, stop), noeval, old(vars), vars, r, lastToken, Unread(), stop)
      decreases |ts|, 5
    {
      hide ParseLevel, ParseAnd, Did;
      ghost var env0 := vars;
      r := Binop(token0, val0, op0, noeval, ts);
      AndStart(ts, noeval, env0, vars, r, lastToken, Unread(), stop);
      if r.Fail? || lastToken != ARITH_AND { return; }
      ghost var u, env1 := Unread(), vars;
      var token := Yylex();
      var val := yylval;
      var op := Yylex();
      var b := And(token, val, op, noeval || r.v == 0, u);
      AndDone(ts, noeval, env0, env1, vars, r, b, u, lastToken, Unread(), stop);
      r := if b.Fail? then Fail else Ok(Truth(r.v != 0 && b.v != 0));
    }

    method Or(token0: nat, val0: Val, op0: nat, noeval: bool, ghost ts: seq<Lex>) returns (r: Outcome)
      requires Holds(ts, token0, val0, op0)
      modifies this
      ensures Valid() && Did(ParseOr(ts, stop), noeval, old(vars), vars, r, lastToken, Unread(), stop)
      decreases |ts|, 6
    {
      hide ParseAnd, ParseOr, Did;
      ghost var env0 := vars;
      r := And(token0, val0, op0, noeval, ts);
      OrStart(ts, noeval, env0, vars, r, lastToken, Unread(), stop);
      if r.Fail? || lastToken != ARITH_OR { return; }
      ghost var u, env1 := Unread(), vars;
      var token := Yylex();
      var val := yylval;
      var op := Yylex();
      var b := Or(token, val, op, noeval || r.v != 0, u);
      OrDone(ts, noeval, env0, env1, vars, r, b, u, lastToken, Unread(), stop);
      r := if b.Fail? then Fail else Ok(Truth(r.v != 0 || b.v != 0));
    }

    method Cond(token0: nat, val0: Val, op0: nat, noeval: bool, ghost ts: seq<Lex>) returns (r: Outcome)
      requires Holds(ts, token0, val0, op0)
      modifies this
      ensures Valid() && Did(ParseCond(ts, stop), noeval, old(vars), vars, r, lastToken, Unread(), stop)
      decreases |ts|, 7
    {
      hide ParseOr, ParseCond, ParseAssign, Did;
      ghost var env0 := vars;
      var a := Or(token0, val0, op0, noeval, ts);
      CondStart(ts, noeval, env0, vars, a, lastToken, Unread(), stop);
      if a.Fail? || lastToken != ARITH_QMARK { return a; }
      ghost var u, env1 := Unread(), vars;
      var token := Yylex();
      var b := Assignment(token, noeval || a.v == 0, u);
      ghost var w, env2 := Unread(), vars;
      CondMiddle(ts, noeval, env0, env1, env2, a, b, u, lastToken, w, stop);
      if b.Fail? || lastToken != ARITH_COLON { return Fail; }
      token := Yylex();
      var val := yylval;
      var op := Yylex();
      var c := Cond(token, val, op, noeval || a.v != 0, w);
      CondDone(ts, noeval, env0, env1, env2, vars, a, b, c, u, w, lastToken, Unread(), stop);
      r := if c.Fail? then Fail else if a.v != 0 then b else c;
    }

    method Assignment(var_: nat, noeval: bool, ghost ts: seq<Lex>) returns (r: Outcome)
      requires Valid() && Lexed(ts) && var_ == Kind(ts, stop) && Unread() == Rest(ts)
      requires var_ == ARITH_NUM || var_ == ARITH_VAR ==> ts != [] && yylval == ts[0].val
      modifies this
      ensures Valid() && Did(ParseAssign(ts, stop), noeval, old(vars), vars, r, lastToken, Unread(), stop)
      decreases |ts|, 8
    {
      hide ParseCond, ParseAssign, Did, DoBinop;
      var val := yylval;
      var op := Yylex();
      if var_ != ARITH_VAR || !IsAssign(op) {
        CondCase(ts, stop);
        r := Cond(var_, val, op, noeval, ts);
        return;
      }
      ghost var env0, u := vars, Unread();
      var token := Yylex();
      r := Assignment(token, noeval, u);
      AssignDone(ts, noeval, env0, vars, r, lastToken, Unread(), stop);
      if r.Fail? || noeval { return; }
      if op != ARITH_ASS {
        var x := DoBinop(op - 11, Lookup(vars, val.s), r.v);
        if x.None? { return Fail; }
        r := Ok(x.value);
      }
      vars := vars[val.s := r.v];
    }

    // arith
    method Run() returns (r: Outcome)
      requires Valid() && pos == 0
      modifies this
      ensures var p := ParseAssign(text, stop);
              if stop == ARITH_EOF && p.Some? && p.value.1 == [] then
                match Eval(p.value.0, old(vars))
                case Error(env) => r == Fail && vars == env
                case Value(v, env) => r == Ok(v) && vars == env
              else r == Fail
    {
      hide ParseAssign;
      var token := Yylex();
      assert text[0..] == text;
      r := Assignment(token, false, text);
      if r.Fail? { return; }
      if lastToken != ARITH_EOF { return Fail; }
    }
  }

  // --- What the steps do to the tree and its value ---

  // a is the value of e, unless nothing is evaluated
  ghost predicate Reached(e: Expr, a: int, noeval: bool, env0: Env, env: Env) {
    if noeval then env == env0 else Eval(e, env0) == Value(a, env)
  }

  lemma PlusSpec(ts: seq<Lex>, stop: nat)
    requires Lexed(ts) && Kind(ts, stop) == ARITH_ADD && (stop == ARITH_EOF || stop == ARITH_BAD)
    ensures ts != [] && ParsePrimary(ts, stop) == ParsePrimary(Rest(ts), stop)
  {
  }

  lemma ParenDone(ts: seq<Lex>, noeval: bool, env0: Env, env: Env, r: Outcome, last: nat, unread: seq<Lex>, stop: nat)
    requires Lexed(ts) && Kind(ts, stop) == ARITH_LPAREN && (stop == ARITH_EOF || stop == ARITH_BAD)
    requires Did(ParseAssign(Rest(ts), stop), noeval, env0, env, r, last, unread, stop)
    ensures r.Fail? || last != ARITH_RPAREN ==>
        forall l, u :: Did(ParsePrimary(ts, stop), noeval, env0, env, Fail, l, u, stop)
    ensures r.Ok? && last == ARITH_RPAREN ==>
        Did(ParsePrimary(ts, stop), noeval, env0, env, r, Kind(unread, stop), Rest(unread), stop)
  {
    hide ParseAssign, Eval;
  }

  lemma AtomDone(ts: seq<Lex>, noeval: bool, env: Env, r: Outcome, stop: nat)
    requires Lexed(ts) && ts != [] && r.Ok?
    requires (ts[0].kind == ARITH_NUM && r.v == ts[0].val.n) ||
        (ts[0].kind == ARITH_VAR && (noeval || r.v == Lookup(env, ts[0].val.s)))
    ensures Did(ParsePrimary(ts, stop), noeval, env, env, r, Kind(Rest(ts), stop), Rest(Rest(ts)), stop)
  {
  }

  lemma UnaryDone(ts: seq<Lex>, noeval: bool, env0: Env, env: Env, r: Outcome, last: nat, unread: seq<Lex>, stop: nat)
    requires Lexed(ts) && ts != [] && (ts[0].kind == ARITH_SUB || ts[0].kind == ARITH_NOT || ts[0].kind == ARITH_BNOT)
    requires Did(ParsePrimary(Rest(ts), stop), noeval, env0, env, r, last, unread, stop)
    ensures Did(ParsePrimary(ts, stop), noeval, env0, env, if r.Ok? then Ok(DoUnary(ts[0].kind, r.v))
        else Fail, last, unread, stop)
  {
    hide DoUnary;
  }

  lemma NoPrimary(ts: seq<Lex>, noeval: bool, env: Env, last: nat, unread: seq<Lex>, stop: nat)
    requires Lexed(ts) && (stop == ARITH_EOF || stop == ARITH_BAD)
    requires var k := Kind(ts, stop);
        k != ARITH_LPAREN && k != ARITH_NUM && k != ARITH_VAR && k != ARITH_ADD && k != ARITH_SUB && k != ARITH_NOT &&
        k != ARITH_BNOT
    ensures Did(ParsePrimary(ts, stop), noeval, env, env, Fail, last, unread, stop)
  {
  }

  // the right operand of op
  ghost function RightOf(op: nat, ts: seq<Lex>, stop: nat): (p: Parsed)
    requires Lexed(ts) && IsBinop(op)
    ensures p.Some? ==> |p.value.1| < |ts| && Lexed(p.value.1)
  {
    match ParsePrimary(ts, stop)
    case None => None
    case Some((b, u)) => Inner(b, op, u, stop, |ts|)
  }

  // an error in the leftmost operand is an error of the whole
  lemma {:induction false} ClimbError(e: Expr, op: nat, prec: nat, ts: seq<Lex>, stop: nat, env0: Env, env: Env)
    requires Lexed(ts) && IsBinop(op) && Eval(e, env0) == Error(env)
    ensures var p := Climb(e, op, prec, ts, stop); p.Some? ==> Eval(p.value.0, env0) == Error(env)
    decreases |ts|
  {
    hide ParsePrimary, Inner, Prec, DoBinop;
    ClimbStep(e, op, prec, ts, stop);
    if RightOf(op, ts, stop).Some? {
      var (b, w) := RightOf(op, ts, stop).value;
      var a := Binary(op, e, b);
      assert Eval(a, env0) == Error(env);
      if !Stops(w, prec) { ClimbError(a, w[0].kind, prec, w[1..], stop, env0, env); }
    }
  }

  // one round of the loop
  lemma ClimbStep(e: Expr, op: nat, prec: nat, ts: seq<Lex>, stop: nat)
    requires Lexed(ts) && IsBinop(op)
    ensures var c, p := Climb(e, op, prec, ts, stop), RightOf(op, ts, stop);
            if p.None? then c.None?
            else
              var t, w := Binary(op, e, p.value.0), p.value.1;
              c == if Stops(w, prec) then Some((t, w)) else Climb(t, w[0].kind, prec, w[1..], stop)
  {
    hide ParsePrimary, Inner, Prec;
  }

  lemma RightStart(op: nat, ts: seq<Lex>, noeval: bool, env0: Env, env: Env, r: Outcome, last: nat, unread: seq<Lex>,
      stop: nat)
    requires Lexed(ts) && IsBinop(op) && (stop == ARITH_EOF || stop == ARITH_BAD)
    requires Did(ParsePrimary(ts, stop), noeval, env0, env, r, last, unread, stop)
    ensures r.Fail? ==> Did(RightOf(op, ts, stop), noeval, env0, env, r, last, unread, stop)
    ensures r.Ok? ==> var p := ParsePrimary(ts, stop);
                      && p.Some? && |unread| < |ts| && Reached(p.value.0, r.v, noeval, env0, env)
                      && if IsBinop(last) && Prec(last) < Prec(op)
                         then RightOf(op, ts, stop) == Climb(p.value.0, last, Prec(op), unread, stop)
                         else Did(RightOf(op, ts, stop), noeval, env0, env, r, last, unread, stop)
  {
    hide ParsePrimary, Climb, Prec, Eval;
    var p := ParsePrimary(ts, stop);
    if p.Some? {
      var (b, u) := p.value;
      if r.Fail? && u != [] && IsBinop(u[0].kind) { ClimbError(b, u[0].kind, Prec(op), u[1..], stop, env0, env); }
    }
  }

  lemma StepDone(e: Expr, a: int, op: nat, prec: nat, ts: seq<Lex>, noeval: bool, env0: Env, env1: Env, env: Env,
      b: Outcome, last: nat, unread: seq<Lex>, stop: nat)
    requires Lexed(ts) && IsBinop(op) && (stop == ARITH_EOF || stop == ARITH_BAD) && Reached(e, a, noeval, env0, env1)
    requires Did(RightOf(op, ts, stop), noeval, env1, env, b, last, unread, stop)
    ensures b.Fail? ==> Did(Climb(e, op, prec, ts, stop), noeval, env0, env, Fail, last, unread, stop)
    ensures b.Ok? ==> var p := RightOf(op, ts, stop);
                      && p.Some? && |unread| < |ts|
                      && var t, x := Binary(op, e, p.value.0), if noeval then Some(b.v) else DoBinop(op, a, b.v);
                         if x.None? then Did(Climb(e, op, prec, ts, stop), noeval, env0, env, Fail, last, unread, stop)
                         else
                           && Reached(t, x.value, noeval, env0, env)
                           && if IsBinop(last) && Prec(last) < prec
                               then Climb(e, op, prec, ts, stop) == Climb(t, last, prec, unread, stop)
                              else Did(Climb(e, op, prec, ts, stop), noeval, env0, env, Ok(x.value), last, unread, stop)
  {
    hide ParsePrimary, Climb, Prec, DoBinop, RightOf;
    ClimbStep(e, op, prec, ts, stop);
    var p := RightOf(op, ts, stop);
    if p.Some? {
      var (b', w) := p.value;
      var t := Binary(op, e, b');
      if !noeval && Eval(t, env0) == Error(env) && !Stops(w, prec) {
        ClimbError(t, w[0].kind, prec, w[1..], stop, env0, env);
      }
    }
  }

  lemma BinopStart(ts: seq<Lex>, noeval: bool, env0: Env, env: Env, r: Outcome, last: nat, unread: seq<Lex>, stop: nat)
    requires Lexed(ts) && (stop == ARITH_EOF || stop == ARITH_BAD) &&
        Did(ParsePrimary(ts, stop), noeval, env0, env, r, last, unread, stop)
    ensures r.Fail? || !IsBinop(last) ==>
        Did(ParseLevel(ARITH_MAX_PREC, ts, stop), noeval, env0, env, r, last, unread, stop)
    ensures r.Ok? ==> var p := ParsePrimary(ts, stop);
                      && p.Some? && |unread| < |ts| && Reached(p.value.0, r.v, noeval, env0, env)
                      && (IsBinop(last) ==>
                          Prec(last) < ARITH_MAX_PREC &&
                          ParseLevel(ARITH_MAX_PREC, ts, stop) == Climb(p.value.0, last, ARITH_MAX_PREC, unread, stop))
  {
    hide ParsePrimary, Climb, Prec, ParseLevel, Eval, Up;
    LevelUp(ARITH_MAX_PREC, ts, stop);
    var p := ParsePrimary(ts, stop);
    if p.Some? {
      var (e, u) := p.value;
      if u != [] && IsBinop(u[0].kind) {
        UpSkip(0, Prec(u[0].kind), ARITH_MAX_PREC, e, u, stop);
        ClimbIsUp(e, ARITH_MAX_PREC, u, stop);
        if r.Fail? { ClimbError(e, u[0].kind, ARITH_MAX_PREC, u[1..], stop, env0, env); }
      } else {
        UpStops(0, ARITH_MAX_PREC, e, u, stop);
      }
    }
  }

  // an operand in error is an error of all that is joined to it
  lemma {:induction false} AndError(e: Expr, ts: seq<Lex>, stop: nat, env0: Env, env: Env)
    requires Lexed(ts) && Eval(e, env0) == Error(env)
    ensures var p := AndTail(e, ts, stop); p.Some? ==> Eval(p.value.0, env0) == Error(env)
    decreases |ts|
  {
    hide ParseLevel, DoBinop, DoUnary;
    if ts != [] && ts[0].kind == ARITH_AND && ParseLevel(ARITH_MAX_PREC, ts[1..], stop).Some? {
      var (b, u) := ParseLevel(ARITH_MAX_PREC, ts[1..], stop).value;
      AndError(And(e, b), u, stop, env0, env);
    }
  }

  lemma {:induction false} OrError(e: Expr, ts: seq<Lex>, stop: nat, env0: Env, env: Env)
    requires Lexed(ts) && Eval(e, env0) == Error(env)
    ensures var p := OrTail(e, ts, stop); p.Some? ==> Eval(p.value.0, env0) == Error(env)
    decreases |ts|
  {
    hide ParseAnd, DoBinop, DoUnary;
    if ts != [] && ts[0].kind == ARITH_OR && ParseAnd(ts[1..], stop).Some? {
      var (b, u) := ParseAnd(ts[1..], stop).value;
      OrError(Or(e, b), u, stop, env0, env);
    }
  }

  lemma AndStart(ts: seq<Lex>, noeval: bool, env0: Env, env: Env, r: Outcome, last: nat, unread: seq<Lex>, stop: nat)
    requires Lexed(ts) && (stop == ARITH_EOF || stop == ARITH_BAD) &&
        Did(ParseLevel(ARITH_MAX_PREC, ts, stop), noeval, env0, env, r, last, unread, stop)
    ensures r.Fail? || last != ARITH_AND ==> Did(ParseAnd(ts, stop), noeval, env0, env, r, last, unread, stop)
    ensures r.Ok? ==> |unread| < |ts| && Lexed(unread)
  {
    hide ParseLevel, Eval;
    var p := ParseLevel(ARITH_MAX_PREC, ts, stop);
    if p.Some? && r.Fail? { AndError(p.value.0, p.value.1, stop, env0, env); }
  }

  // trees that mean the same are as good
  lemma DidSame(p: Parsed, q: Parsed, noeval: bool, env0: Env, env: Env, r: Outcome, last: nat, unread: seq<Lex>,
      stop: nat)
    requires Same(p, q) && Did(q, noeval, env0, env, r, last, unread, stop)
    ensures Did(p, noeval, env0, env, r, last, unread, stop)
  {
    hide Eval;
    if p.Some? { assert Eval(p.value.0, env0) == Eval(q.value.0, env0); }
  }

  lemma AndDone(ts: seq<Lex>, noeval: bool, env0: Env, env1: Env, env: Env, a: Outcome, b: Outcome, u: seq<Lex>,
      last: nat, unread: seq<Lex>, stop: nat)
    requires Lexed(ts) && Lexed(u) && (stop == ARITH_EOF || stop == ARITH_BAD) && a.Ok?
    requires Did(ParseLevel(ARITH_MAX_PREC, ts, stop), noeval, env0, env1, a, ARITH_AND, u, stop)
    requires Did(ParseAnd(u, stop), noeval || a.v == 0, env1, env, b, last, unread, stop)
    ensures Did(ParseAnd(ts, stop), noeval, env0, env, if b.Fail? then Fail
        else Ok(Truth(a.v != 0 && b.v != 0)), last, unread, stop)
  {
    hide ParseLevel, ParseAnd, DoBinop, DoUnary, Same;
    AndRecursion(ts, stop);
    var p := ParseLevel(ARITH_MAX_PREC, ts, stop).value;
    var r := if b.Fail? then Fail else Ok(Truth(a.v != 0 && b.v != 0));
    assert p.1[1..] == u;
    assert Did(AndFirst(p.0, ParseAnd(u, stop)), noeval, env0, env, r, last, unread, stop);
    DidSame(ParseAnd(ts, stop), AndFirst(p.0, ParseAnd(u, stop)), noeval, env0, env, r, last, unread, stop);
  }

  lemma OrStart(ts: seq<Lex>, noeval: bool, env0: Env, env: Env, r: Outcome, last: nat, unread: seq<Lex>, stop: nat)
    requires Lexed(ts) && (stop == ARITH_EOF || stop == ARITH_BAD) &&
        Did(ParseAnd(ts, stop), noeval, env0, env, r, last, unread, stop)
    ensures r.Fail? || last != ARITH_OR ==> Did(ParseOr(ts, stop), noeval, env0, env, r, last, unread, stop)
    ensures r.Ok? ==> |unread| < |ts| && Lexed(unread)
  {
    hide ParseAnd, Eval;
    var p := ParseAnd(ts, stop);
    if p.Some? && r.Fail? { OrError(p.value.0, p.value.1, stop, env0, env); }
  }

  lemma OrDone(ts: seq<Lex>, noeval: bool, env0: Env, env1: Env, env: Env, a: Outcome, b: Outcome, u: seq<Lex>,
      last: nat, unread: seq<Lex>, stop: nat)
    requires Lexed(ts) && Lexed(u) && (stop == ARITH_EOF || stop == ARITH_BAD) && a.Ok?
    requires Did(ParseAnd(ts, stop), noeval, env0, env1, a, ARITH_OR, u, stop)
    requires Did(ParseOr(u, stop), noeval || a.v != 0, env1, env, b, last, unread, stop)
    ensures Did(ParseOr(ts, stop), noeval, env0, env, if b.Fail? then Fail
        else Ok(Truth(a.v != 0 || b.v != 0)), last, unread, stop)
  {
    hide ParseAnd, ParseOr, DoBinop, DoUnary, Same;
    OrRecursion(ts, stop);
    var p := ParseAnd(ts, stop).value;
    var r := if b.Fail? then Fail else Ok(Truth(a.v != 0 || b.v != 0));
    assert p.1[1..] == u;
    assert Did(OrFirst(p.0, ParseOr(u, stop)), noeval, env0, env, r, last, unread, stop);
    DidSame(ParseOr(ts, stop), OrFirst(p.0, ParseOr(u, stop)), noeval, env0, env, r, last, unread, stop);
  }

  lemma CondStart(ts: seq<Lex>, noeval: bool, env0: Env, env: Env, r: Outcome, last: nat, unread: seq<Lex>, stop: nat)
    requires Lexed(ts) && (stop == ARITH_EOF || stop == ARITH_BAD) &&
        Did(ParseOr(ts, stop), noeval, env0, env, r, last, unread, stop)
    ensures r.Fail? || last != ARITH_QMARK ==> Did(ParseCond(ts, stop), noeval, env0, env, r, last, unread, stop)
    ensures r.Ok? ==> |unread| < |ts| && Lexed(unread)
  {
    hide ParseOr, ParseAssign, DoBinop, DoUnary;
  }

  lemma CondMiddle(ts: seq<Lex>, noeval: bool, env0: Env, env1: Env, env2: Env, a: Outcome, b: Outcome, u: seq<Lex>,
      last: nat, w: seq<Lex>, stop: nat)
    requires Lexed(ts) && Lexed(u) && (stop == ARITH_EOF || stop == ARITH_BAD) && a.Ok?
    requires Did(ParseOr(ts, stop), noeval, env0, env1, a, ARITH_QMARK, u, stop)
    requires Did(ParseAssign(u, stop), noeval || a.v == 0, env1, env2, b, last, w, stop)
    ensures b.Fail? || last != ARITH_COLON ==> Did(ParseCond(ts, stop), noeval, env0, env2, Fail, last, w, stop)
    ensures b.Ok? ==> |w| < |u| && Lexed(w)
  {
    hide ParseOr, ParseAssign, DoBinop, DoUnary;
  }

  lemma CondDone(ts: seq<Lex>, noeval: bool, env0: Env, env1: Env, env2: Env, env: Env, a: Outcome, b: Outcome,
      c: Outcome,
                 u: seq<Lex>, w: seq<Lex>, last: nat, unread: seq<Lex>, stop: nat)
    requires Lexed(ts) && Lexed(u) && Lexed(w) && (stop == ARITH_EOF || stop == ARITH_BAD) && a.Ok? && b.Ok?
    requires Did(ParseOr(ts, stop), noeval, env0, env1, a, ARITH_QMARK, u, stop)
    requires Did(ParseAssign(u, stop), noeval || a.v == 0, env1, env2, b, ARITH_COLON, w, stop)
    requires Did(ParseCond(w, stop), noeval || a.v != 0, env2, env, c, last, unread, stop)
    ensures Did(ParseCond(ts, stop), noeval, env0, env, if c.Fail? then Fail else if a.v != 0 then b
        else c, last, unread, stop)
  {
    hide ParseOr, ParseAssign, DoBinop, DoUnary;
  }

  lemma CondCase(ts: seq<Lex>, stop: nat)
    requires Lexed(ts) && (stop == ARITH_EOF || stop == ARITH_BAD) &&
        (Kind(ts, stop) != ARITH_VAR || !IsAssign(Kind(Rest(ts), stop)))
    ensures ParseAssign(ts, stop) == ParseCond(ts, stop)
  {
    hide ParseCond;
  }

  // after the right side of an assignment
  lemma AssignDone(ts: seq<Lex>, noeval: bool, env0: Env, env: Env, r: Outcome, last: nat, unread: seq<Lex>, stop: nat)
    requires Lexed(ts) && |ts| >= 2 && ts[0].kind == ARITH_VAR && IsAssign(ts[1].kind)
    requires Did(ParseAssign(ts[2..], stop), noeval, env0, env, r, last, unread, stop)
    ensures r.Fail? || noeval ==> Did(ParseAssign(ts, stop), noeval, env0, env, r, last, unread, stop)
    ensures r.Ok? && !noeval ==>
              var q := Stored(ts[0].val.s, ts[1].kind, r.v, env);
              Did(ParseAssign(ts, stop), noeval, env0, q.env, if q.Value? then Ok(q.v) else Fail, last, unread, stop)
  {
    hide ParseCond, DoBinop, DoUnary;
  }
}
