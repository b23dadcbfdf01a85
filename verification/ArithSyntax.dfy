/**
 Shell arithmetic: the tokens of arith_yacc.h, the stratified left-associative
 grammar of section 6.5 of ISO C99 as XCU section 2.6.4 of POSIX refers to it, and
 evaluation of the tree with short-circuit operators.
 */
module ArithSyntax {
  import opened Canonical

  // --- Tokens ---

  const ARITH_ASS := 1
  const ARITH_OR := 2
  const ARITH_AND := 3
  const ARITH_BAD := 4
  const ARITH_NUM := 5
  const ARITH_VAR := 6
  const ARITH_NOT := 7
  const ARITH_BINOP_MIN := 8
  const ARITH_LE := 8
  const ARITH_GE := 9
  const ARITH_LT := 10
  const ARITH_GT := 11
  const ARITH_EQ := 12
  const ARITH_REM := 13
  const ARITH_BAND := 14
  const ARITH_LSHIFT := 15
  const ARITH_RSHIFT := 16
  const ARITH_MUL := 17
  const ARITH_ADD := 18
  const ARITH_BOR := 19
  const ARITH_SUB := 20
  const ARITH_BXOR := 21
  const ARITH_DIV := 22
  const ARITH_NE := 23
  const ARITH_BINOP_MAX := 24
  const ARITH_ASS_MIN := 24
  const ARITH_REMASS := 24
  const ARITH_BANDASS := 25
  const ARITH_LSHIFTASS := 26
  const ARITH_RSHIFTASS := 27
  const ARITH_MULASS := 28
  const ARITH_ADDASS := 29
  const ARITH_BORASS := 30
  const ARITH_SUBASS := 31
  const ARITH_BXORASS := 32
  const ARITH_DIVASS := 33
  const ARITH_ASS_MAX := 34
  const ARITH_LPAREN := 34
  const ARITH_RPAREN := 35
  const ARITH_BNOT := 36
  const ARITH_QMARK := 37
  const ARITH_COLON := 38
  const ARITH_MAX_PREC := 8
  const ARITH_EOF := 0

  // what yylval holds: a number or a name
  datatype Val = IntVal(n: int) | Name(s: string)

  datatype Lex = Lex(kind: nat, val: Val)

  // the kind of the next token; at the end of the text, or stuck at a bad character, yylex repeats stop
  function Kind(ts: seq<Lex>, stop: nat): (k: nat) { if ts == [] then stop else ts[0].kind }

  function Rest(ts: seq<Lex>): (r: seq<Lex>) { if ts == [] then [] else ts[1..] }

  predicate IsBinop(k: nat) { ARITH_BINOP_MIN <= k < ARITH_BINOP_MAX }

  predicate IsAssign(k: nat) { k == ARITH_ASS || ARITH_ASS_MIN <= k < ARITH_ASS_MAX }

  // tokens that can occur, with the value that goes with them
  predicate LexOk(t: Lex) {
    1 <= t.kind <= ARITH_COLON && t.kind != ARITH_BAD && (t.kind == ARITH_NUM ==> t.val.IntVal?) &&
        (t.kind == ARITH_VAR ==> t.val.Name?)
  }

  predicate Lexed(ts: seq<Lex>) { forall i :: 0 <= i < |ts| ==> LexOk(ts[i]) }

  // the table of precedences: 0 binds tightest
  function Prec(op: nat): (p: nat)
    requires IsBinop(op)
    ensures p < ARITH_MAX_PREC
  {
    if op == ARITH_MUL || op == ARITH_DIV || op == ARITH_REM then 0
    else if op == ARITH_ADD || op == ARITH_SUB then 1
    else if op == ARITH_LSHIFT || op == ARITH_RSHIFT then 2
    else if op == ARITH_LT || op == ARITH_LE || op == ARITH_GT || op == ARITH_GE then 3
    else if op == ARITH_EQ || op == ARITH_NE then 4
    else if op == ARITH_BAND then 5
    else if op == ARITH_BXOR then 6
    else 7
  }

  // --- Trees ---

  datatype Expr =
    | Num(n: int)
    | Var(s: string)
    | Unary(op: nat, e: Expr)
    | Binary(op: nat, a: Expr, b: Expr)
    | And(a: Expr, b: Expr)
    | Or(a: Expr, b: Expr)
    | Cond(c: Expr, a: Expr, b: Expr)
    | Assign(s: string, op: nat, e: Expr)

  type Parsed = Option<(Expr, seq<Lex>)>

  // --- The grammar ---

  function ParsePrimary(ts: seq<Lex>, stop: nat): (r: Parsed)
    requires Lexed(ts)
    ensures r.Some? ==> |r.value.1| < |ts| && Lexed(r.value.1)
    decreases |ts|, 0
  {
    if ts == [] then None
    else
      var k := ts[0].kind;
      if k == ARITH_LPAREN then
        match ParseAssign(ts[1..], stop)
        case None => None
        case Some((e, u)) => if Kind(u, stop) == ARITH_RPAREN && u != [] then Some((e, u[1..])) else None
      else if k == ARITH_NUM then Some((Num(ts[0].val.n), ts[1..]))
      else if k == ARITH_VAR then Some((Var(ts[0].val.s), ts[1..]))
      else if k == ARITH_ADD then ParsePrimary(ts[1..], stop)   // + leaves its operand as it is
      else if k == ARITH_SUB || k == ARITH_NOT || k == ARITH_BNOT then
        match ParsePrimary(ts[1..], stop)
        case None => None
        case Some((e, u)) => Some((Unary(k, e), u))
      else None
  }

  // operands joined by operators of precedence below level; a primary at level 0
  function ParseLevel(level: nat, ts: seq<Lex>, stop: nat): (r: Parsed)
    requires Lexed(ts)
    ensures r.Some? ==> |r.value.1| < |ts| && Lexed(r.value.1)
    decreases |ts|, 1 + level
  {
    if level == 0 then ParsePrimary(ts, stop)
    else
      match ParseLevel(level - 1, ts, stop)
      case None => None
      case Some((e, u)) => ParseTail(level, e, u, stop)
  }

  // more operands to the right of e
  function ParseTail(level: nat, e: Expr, ts: seq<Lex>, stop: nat): (r: Parsed)
    requires Lexed(ts) && level >= 1
    ensures r.Some? ==> |r.value.1| <= |ts| && Lexed(r.value.1)
    decreases |ts|, 0
  {
    if ts != [] && IsBinop(ts[0].kind) && Prec(ts[0].kind) == level - 1 then
      match ParseLevel(level - 1, ts[1..], stop)
      case None => None
      case Some((b, u)) => ParseTail(level, Binary(ts[0].kind, e, b), u, stop)
    else Some((e, ts))
  }

  function ParseAnd(ts: seq<Lex>, stop: nat): (r: Parsed)
    requires Lexed(ts)
    ensures r.Some? ==> |r.value.1| < |ts| && Lexed(r.value.1)
    decreases |ts|, 2 + ARITH_MAX_PREC
  {
    match ParseLevel(ARITH_MAX_PREC, ts, stop)
    case None => None
    case Some((a, u)) => AndTail(a, u, stop)
  }

  function AndTail(e: Expr, ts: seq<Lex>, stop: nat): (r: Parsed)
    requires Lexed(ts)
    ensures r.Some? ==> |r.value.1| <= |ts| && Lexed(r.value.1)
    decreases |ts|, 0
  {
    if ts == [] || ts[0].kind != ARITH_AND then Some((e, ts))
    else
      match ParseLevel(ARITH_MAX_PREC, ts[1..], stop)
      case None => None
      case Some((b, u)) => AndTail(And(e, b), u, stop)
  }

  function ParseOr(ts: seq<Lex>, stop: nat): (r: Parsed)
    requires Lexed(ts)
    ensures r.Some? ==> |r.value.1| < |ts| && Lexed(r.value.1)
    decreases |ts|, 3 + ARITH_MAX_PREC
  {
    match ParseAnd(ts, stop)
    case None => None
    case Some((a, u)) => OrTail(a, u, stop)
  }

  function OrTail(e: Expr, ts: seq<Lex>, stop: nat): (r: Parsed)
    requires Lexed(ts)
    ensures r.Some? ==> |r.value.1| <= |ts| && Lexed(r.value.1)
    decreases |ts|, 0
  {
    if ts == [] || ts[0].kind != ARITH_OR then Some((e, ts))
    else
      match ParseAnd(ts[1..], stop)
      case None => None
      case Some((b, u)) => OrTail(Or(e, b), u, stop)
  }

  function ParseCond(ts: seq<Lex>, stop: nat): (r: Parsed)
    requires Lexed(ts)
    ensures r.Some? ==> |r.value.1| < |ts| && Lexed(r.value.1)
    decreases |ts|, 4 + ARITH_MAX_PREC
  {
    match ParseOr(ts, stop)
    case None => None
    case Some((c, u)) =>
      if u == [] || u[0].kind != ARITH_QMARK then Some((c, u))
      else
        match ParseAssign(u[1..], stop)
        case None => None
        case Some((a, w)) =>
          if w == [] || w[0].kind != ARITH_COLON then None
          else
            match ParseCond(w[1..], stop)
            case None => None
            case Some((b, x)) => Some((Cond(c, a, b), x))
  }

  function ParseAssign(ts: seq<Lex>, stop: nat): (r: Parsed)
    requires Lexed(ts)
    ensures r.Some? ==> |r.value.1| < |ts| && Lexed(r.value.1)
    decreases |ts|, 5 + ARITH_MAX_PREC
  {
    if |ts| >= 2 && ts[0].kind == ARITH_VAR && IsAssign(ts[1].kind) then
      match ParseAssign(ts[2..], stop)
      case None => None
      case Some((e, u)) => Some((Assign(ts[0].val.s, ts[1].kind, e), u))
    else ParseCond(ts, stop)
  }

  // --- Meaning ---

  const TWO63 := 0x8000_0000_0000_0000

  // intmax_t, wrapping around
  function Wrap(x: int): (r: int)
    ensures -TWO63 <= r < TWO63
  {
    (x + TWO63) % (2 * TWO63) - TWO63
  }

  // C division truncates toward zero
  function Quot(a: int, b: int): (q: int)
    requires b != 0
  {
    if (a >= 0) == (b > 0) then Abs(a) / Abs(b) else -(Abs(a) / Abs(b))
  }

  function Abs(a: int): (r: nat) { if a >= 0 then a else -a }

  function Pow(n: nat): (p: nat)
    ensures p >= 1
  {
    if n == 0 then 1 else 2 * Pow(n - 1)
  }

  function Truth(b: bool): (n: int) { if b then 1 else 0 }

  // bit by bit on 64-bit two's complement
  function Bits64(op: int, a: int, b: int): (r: int) {
    Wrap(BitOp(op, a % (2 * TWO63), b % (2 * TWO63), 64))
  }

  function BitOp(op: int, a: nat, b: nat, n: nat): (r: nat) {
    if n == 0 then 0
    else
      var x, y := a % 2 == 1, b % 2 == 1;
      var z := if op == ARITH_BAND then x && y else if op == ARITH_BXOR then x != y else x || y;
      (if z then 1 else 0) + 2 * BitOp(op, a / 2, b / 2, n - 1)
  }

  // do_binop; None where it reports a division by zero
  function DoBinop(op: int, a: int, b: int): (r: Option<int>) {
    if op == ARITH_MUL then Some(Wrap(a * b))
    else if op == ARITH_ADD then Some(Wrap(a + b))
    else if op == ARITH_SUB then Some(Wrap(a - b))
    else if op == ARITH_LSHIFT then Some(Wrap(a * Pow(b % 64)))
    else if op == ARITH_RSHIFT then Some(a / Pow(b % 64))
    else if op == ARITH_LT then Some(Truth(a < b))
    else if op == ARITH_LE then Some(Truth(a <= b))
    else if op == ARITH_GT then Some(Truth(a > b))
    else if op == ARITH_GE then Some(Truth(a >= b))
    else if op == ARITH_EQ then Some(Truth(a == b))
    else if op == ARITH_NE then Some(Truth(a != b))
    else if op == ARITH_BAND || op == ARITH_BXOR || op == ARITH_BOR then Some(Bits64(op, a, b))
    else if b == 0 then None
    else if op == ARITH_REM then Some(a - Quot(a, b) * b)
    else Some(Wrap(Quot(a, b)))
  }

  function DoUnary(op: nat, a: int): (r: int) {
    if op == ARITH_SUB then Wrap(-a)
    else if op == ARITH_NOT then Truth(a == 0)
    else -a - 1
  }

  type Env = map<string, int>

  // a variable that is not set counts as zero
  function Lookup(env: Env, s: string): (v: int) { if s in env then env[s] else 0 }

  // a value and the variables after it, or the variables at a division by zero
  datatype Result = Value(v: int, env: Env) | Error(env: Env)

  function Eval(e: Expr, env: Env): (r: Result) {
    match e
    case Num(n) => Value(n, env)
    case Var(s) => Value(Lookup(env, s), env)
    case Unary(op, a) =>
      (match Eval(a, env)
       case Error(env1) => Error(env1)
       case Value(v, env1) => Value(DoUnary(op, v), env1))
    case Binary(op, a, b) =>
      (match Eval(a, env)
       case Error(env1) => Error(env1)
       case Value(v, env1) =>
         match Eval(b, env1)
         case Error(env2) => Error(env2)
         case Value(w, env2) => Apply(op, v, w, env2))
    case And(a, b) =>
      (match Eval(a, env)
       case Error(env1) => Error(env1)
       case Value(v, env1) => if v == 0 then Value(0, env1) else Truly(Eval(b, env1)))
    case Or(a, b) =>
      (match Eval(a, env)
       case Error(env1) => Error(env1)
       case Value(v, env1) => if v != 0 then Value(1, env1) else Truly(Eval(b, env1)))
    case Cond(c, a, b) =>
      (match Eval(c, env)
       case Error(env1) => Error(env1)
       case Value(v, env1) => if v != 0 then Eval(a, env1) else Eval(b, env1))
    case Assign(s, op, a) =>
      (match Eval(a, env)
       case Error(env1) => Error(env1)
       case Value(v, env1) => Stored(s, op, v, env1))
  }

  function Apply(op: nat, v: int, w: int, env: Env): (r: Result) {
    match DoBinop(op, v, w)
    case None => Error(env)
    case Some(x) => Value(x, env)
  }

  function Truly(r: Result): (t: Result) {
    match r
    case Error(env) => Error(env)
    case Value(v, env) => Value(Truth(v != 0), env)
  }

  // s = v, or s op= v
  function Stored(s: string, op: nat, v: int, env: Env): (r: Result) {
    if op == ARITH_ASS then Value(v, env[s := v])
    else
      match DoBinop(op - 11, Lookup(env, s), v)
      case None => Error(env)
      case Some(x) => Value(x, env[s := x])
  }

  // --- Right recursion for && and || ---

  // the same text is left, and the trees mean the same
  ghost predicate Same(p: Parsed, q: Parsed) {
    p.Some? == q.Some? && (p.Some? ==>
      p.value.1 == q.value.1 && forall env :: Eval(p.value.0, env) == Eval(q.value.0, env))
  }

  // && and || may be grouped either way
  lemma AndAssoc(a: Expr, b: Expr, c: Expr, env: Env)
    ensures Eval(And(And(a, b), c), env) == Eval(And(a, And(b, c)), env)
    ensures Eval(Or(Or(a, b), c), env) == Eval(Or(a, Or(b, c)), env)
  {
    hide DoBinop, DoUnary;
    var r := Eval(a, env);
    if r.Value? { var q := Eval(b, r.env); }
  }

  // a && applied to all of b && ...
  ghost function AndFirst(a: Expr, p: Parsed): (q: Parsed) {
    if p.None? then None else Some((And(a, p.value.0), p.value.1))
  }

  ghost function OrFirst(a: Expr, p: Parsed): (q: Parsed) {
    if p.None? then None else Some((Or(a, p.value.0), p.value.1))
  }

  lemma AndStep(e: Expr, a: Expr, b: Expr, c: Expr)
    requires forall env :: Eval(e, env) == Eval(And(a, b), env)
    ensures forall env :: Eval(And(e, c), env) == Eval(And(a, And(b, c)), env)
  {
    hide DoBinop, DoUnary;
    forall env ensures Eval(And(e, c), env) == Eval(And(a, And(b, c)), env) {
      assert Eval(e, env) == Eval(And(a, b), env);
      AndAssoc(a, b, c, env);
    }
  }

  // what follows a && b can be grouped with b first
  lemma {:induction false} AndRight(e: Expr, a: Expr, b: Expr, ts: seq<Lex>, stop: nat)
    requires Lexed(ts) && forall env :: Eval(e, env) == Eval(And(a, b), env)
    ensures Same(AndTail(e, ts, stop), AndFirst(a, AndTail(b, ts, stop)))
    decreases |ts|
  {
    hide ParseLevel, Eval;
    if ts != [] && ts[0].kind == ARITH_AND && ParseLevel(ARITH_MAX_PREC, ts[1..], stop).Some? {
      var (c, u) := ParseLevel(ARITH_MAX_PREC, ts[1..], stop).value;
      AndStep(e, a, b, c);
      AndRight(And(e, c), a, And(b, c), u, stop);
    }
  }

  lemma OrStep(e: Expr, a: Expr, b: Expr, c: Expr)
    requires forall env :: Eval(e, env) == Eval(Or(a, b), env)
    ensures forall env :: Eval(Or(e, c), env) == Eval(Or(a, Or(b, c)), env)
  {
    hide DoBinop, DoUnary;
    forall env ensures Eval(Or(e, c), env) == Eval(Or(a, Or(b, c)), env) {
      assert Eval(e, env) == Eval(Or(a, b), env);
      AndAssoc(a, b, c, env);
    }
  }

  lemma {:induction false} OrRight(e: Expr, a: Expr, b: Expr, ts: seq<Lex>, stop: nat)
    requires Lexed(ts) && forall env :: Eval(e, env) == Eval(Or(a, b), env)
    ensures Same(OrTail(e, ts, stop), OrFirst(a, OrTail(b, ts, stop)))
    decreases |ts|
  {
    hide ParseAnd, Eval;
    if ts != [] && ts[0].kind == ARITH_OR && ParseAnd(ts[1..], stop).Some? {
      var (c, u) := ParseAnd(ts[1..], stop).value;
      OrStep(e, a, b, c);
      OrRight(Or(e, c), a, Or(b, c), u, stop);
    }
  }

  // the right recursion of the program: an operand, and && before all the rest
  lemma AndRecursion(ts: seq<Lex>, stop: nat)
    requires Lexed(ts)
    ensures var p := ParseLevel(ARITH_MAX_PREC, ts, stop);
            if p.None? then ParseAnd(ts, stop).None?
            else if p.value.1 == [] || p.value.1[0].kind != ARITH_AND then ParseAnd(ts, stop) == p
            else Same(ParseAnd(ts, stop), AndFirst(p.value.0, ParseAnd(p.value.1[1..], stop)))
  {
    hide ParseLevel, Same, Eval;
    var p := ParseLevel(ARITH_MAX_PREC, ts, stop);
    if p.Some? && p.value.1 != [] && p.value.1[0].kind == ARITH_AND {
      var u := p.value.1[1..];
      var q := ParseLevel(ARITH_MAX_PREC, u, stop);
      if q.Some? {
        AndRight(And(p.value.0, q.value.0), p.value.0, q.value.0, q.value.1, stop);
      } else {
        NoAnd(u, stop);
        NoneSame();
      }
    }
  }

  lemma OrRecursion(ts: seq<Lex>, stop: nat)
    requires Lexed(ts)
    ensures var p := ParseAnd(ts, stop);
            if p.None? then ParseOr(ts, stop).None?
            else if p.value.1 == [] || p.value.1[0].kind != ARITH_OR then ParseOr(ts, stop) == p
            else Same(ParseOr(ts, stop), OrFirst(p.value.0, ParseOr(p.value.1[1..], stop)))
  {
    hide ParseAnd, Same, Eval;
    var p := ParseAnd(ts, stop);
    if p.Some? && p.value.1 != [] && p.value.1[0].kind == ARITH_OR {
      var u := p.value.1[1..];
      var q := ParseAnd(u, stop);
      if q.Some? {
        OrRight(Or(p.value.0, q.value.0), p.value.0, q.value.0, q.value.1, stop);
      } else {
        NoOr(u, stop);
        NoneSame();
      }
    }
  }

  lemma NoAnd(ts: seq<Lex>, stop: nat)
    requires Lexed(ts) && ParseLevel(ARITH_MAX_PREC, ts, stop).None?
    ensures ParseAnd(ts, stop).None?
  {
  }

  lemma NoOr(ts: seq<Lex>, stop: nat)
    requires Lexed(ts) && ParseAnd(ts, stop).None?
    ensures ParseOr(ts, stop).None?
  {
  }

  lemma NoneSame()
    ensures Same(None, None)
  {
  }
}
