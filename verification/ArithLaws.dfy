/**
 What the evaluator computes for each operator, in terms of integers and bits.
 */
module ArithLaws {
  import Bits
  import opened Canonical
  import opened ArithSyntax
  import opened ArithGrammar
  import opened ArithShow
  import opened Arith

  // the values of intmax_t
  predicate Int64(a: int) { -0x8000_0000_0000_0000 <= a <= 0x7fff_ffff_ffff_ffff }

  // the same 64 bits
  ghost predicate Congruent(a: int, b: int) { (a - b) % 0x1_0000_0000_0000_0000 == 0 }

  // bit i of a in two's complement
  ghost predicate Bit(a: int, i: nat) { a / Bits.Pow2(i) % 2 == 1 }

  // --- The operators ---

  lemma WrapIs(x: int)
    ensures Int64(Wrap(x)) && Congruent(Wrap(x), x) && (Int64(x) ==> Wrap(x) == x)
  {
    var m := 0x1_0000_0000_0000_0000;
    var q := (x + TWO63) / m;
    assert x + TWO63 == q * m + (x + TWO63) % m;
    assert Wrap(x) - x == -q * m;
    Multiple(-q, m);
  }

  lemma Multiple(q: int, m: int)
    requires m > 0
    ensures q * m % m == 0
  {
    var r := q * m % m;
    var d := q * m / m;
    assert (q - d) * m == r;
    if q - d >= 1 { Larger(q - d, m); }
    if q - d <= -1 { Larger(d - q, m); }
  }

  lemma Larger(k: int, m: int)
    requires k >= 1 && m > 0
    ensures k * m >= m
  {
  }

  // truncated division
  lemma QuotIs(a: int, b: int)
    requires b != 0
    ensures var r := a - Quot(a, b) * b; Abs(r) < Abs(b) && (r > 0 ==> a > 0) && (r < 0 ==> a < 0)
    ensures Abs(Quot(a, b)) <= Abs(a)
  {
    var x, y := Abs(a), Abs(b);
    var q, r := NatQuot(x, y);
    Signs(q, y);
  }

  lemma NatQuot(x: nat, y: nat) returns (q: nat, r: nat)
    requires y > 0
    ensures q == x / y && x == q * y + r && r < y && q <= x
  {
    q, r := x / y, x % y;
    if q > 0 { Larger(y, q); }
  }

  lemma Signs(q: int, y: int)
    ensures -q * y == -(q * y) == q * -y && -q * -y == q * y
  {
  }

  lemma {:induction false} PowIs(n: nat)
    ensures Pow(n) == Bits.Pow2(n)
  {
    if n > 0 { PowIs(n - 1); }
  }

  // --- Bits ---

  lemma BitFirst(a: int)
    ensures Bit(a, 0) <==> a % 2 == 1
  {
  }

  lemma BitStep(a: int, i: nat)
    requires i > 0
    ensures Bit(a, i) <==> Bit(a / 2, i - 1)
  {
    var p := Bits.Pow2(i - 1);
    var z, s := a / 2 / p, a / 2 % p;
    assert a / 2 == z * p + s;
    assert a == 2 * (a / 2) + a % 2;
    assert a == z * (2 * p) + (2 * s + a % 2);
    Bits.DivModUnique(a, 2 * p, z, 2 * s + a % 2);
  }

  ghost function Joins(op: nat, x: bool, y: bool): (z: bool) {
    if op == ARITH_BAND then x && y else if op == ARITH_BXOR then x != y else x || y
  }

  lemma {:induction false} BitOpBits(op: nat, a: nat, b: nat, n: nat, i: nat)
    requires i < n
    ensures Bit(BitOp(op, a, b, n), i) <==> Joins(op, Bit(a, i), Bit(b, i))
    decreases n
  {
    var r := BitOp(op, a, b, n);
    hide Bit;
    BitFirst(a);
    BitFirst(b);
    BitFirst(r);
    var half := BitOp(op, a / 2, b / 2, n - 1);
    assert r / 2 == half;
    if i > 0 {
      BitOpBits(op, a / 2, b / 2, n - 1, i - 1);
      BitStep(a, i);
      BitStep(b, i);
      BitStep(r, i);
    }
  }

  // numbers that are congruent have the same bits
  lemma {:induction false} SameBits(a: int, b: int, k: nat, i: nat)
    requires i < k && (a - b) % Bits.Pow2(k) == 0
    ensures Bit(a, i) <==> Bit(b, i)
    decreases i
  {
    hide Bit;
    var p := Bits.Pow2(k - 1);
    var q := (a - b) / (2 * p);
    assert a - b == q * (2 * p);
    assert a == b + 2 * (q * p);
    BitFirst(a);
    BitFirst(b);
    Halves(a, b, q * p);
    if i > 0 {
      BitStep(a, i);
      BitStep(b, i);
      Multiple(q, p);
      SameBits(a / 2, b / 2, k - 1, i - 1);
    }
  }

  lemma Halves(a: int, b: int, m: int)
    requires a == b + 2 * m
    ensures a % 2 == b % 2 && a / 2 - b / 2 == m
  {
  }

  lemma Pow64()
    ensures Bits.Pow2(64) == 0x1_0000_0000_0000_0000
  {
    hide Bits.Pow2;
    Bits.Pow2Eight();
    Bits.Pow2Add(8, 8);
    Bits.Pow2Add(16, 16);
    Bits.Pow2Add(32, 32);
  }

  lemma Bitwise(op: nat, a: int, b: int, i: nat)
    requires op in {ARITH_BAND, ARITH_BXOR, ARITH_BOR} && i < 64
    ensures var r := Bits64(op, a, b); Int64(r) && (Bit(r, i) <==> Joins(op, Bit(a, i), Bit(b, i)))
  {
    hide Bit, BitOp, Wrap, Joins;
    var m := 0x1_0000_0000_0000_0000;
    var x := BitOp(op, a % m, b % m, 64);
    Pow64();
    WrapIs(x);
    SameBits(Wrap(x), x, 64, i);
    BitOpBits(op, a % m, b % m, 64, i);
    assert a - a % m == a / m * m && b - b % m == b / m * m;
    Multiple(a / m, m);
    Multiple(b / m, m);
    SameBits(a, a % m, 64, i);
    SameBits(b, b % m, 64, i);
  }

  lemma ShiftRight(a: int, p: int)
    requires Int64(a) && p >= 1
    ensures Int64(a / p) && a / p * p <= a < (a / p + 1) * p
  {
    var q := a / p;
    assert a == q * p + a % p;
    assert (q + 1) * p == q * p + p;
    if q >= 1 { Larger(p, q); }
    if q <= -1 { Larger(p, -q); }
  }

  // --- What the program does ---

  // the evaluator on the text of an expression
  method Evaluate(ts: seq<Lex>, env: Env, ghost e: Expr) returns (r: Outcome, vars: Env)
    requires Writable(e) && ts == Show(e)
    ensures match Eval(e, env)
            case Error(env1) => r == Fail && vars == env1
            case Value(v, env1) => r == Ok(v) && vars == env1
  {
    hide Show, Eval, ParseAssign;
    ReadsBack(e, ARITH_EOF);
    var ev := new Evaluator(ts, false, env);
    r := ev.Run();
    vars := ev.vars;
  }

  function Number(a: int): (t: Lex) { Lex(ARITH_NUM, IntVal(a)) }

  // a op b
  method BinaryOp(a: int, op: nat, b: int, env: Env) returns (r: Outcome, vars: Env)
    requires Int64(a) && Int64(b) && 8 <= op < 24
    ensures vars == env && (r.Fail? <==> op in {ARITH_DIV, ARITH_REM} && b == 0) && (r.Ok? ==> Int64(r.v))
    ensures op == ARITH_ADD ==> Congruent(r.v, a + b)
    ensures op == ARITH_SUB ==> Congruent(r.v, a - b)
    ensures op == ARITH_MUL ==> Congruent(r.v, a * b)
    ensures op == ARITH_DIV && b != 0 && !(a == -0x8000_0000_0000_0000 && b == -1) ==>
        var rem := a - r.v * b; Abs(rem) < Abs(b) && (rem > 0 ==> a > 0) && (rem < 0 ==> a < 0)
    ensures op == ARITH_DIV && a == -0x8000_0000_0000_0000 && b == -1 ==> r.v == a
    ensures op == ARITH_REM && b != 0 ==>
        (exists q :: a == q * b + r.v) && Abs(r.v) < Abs(b) && (r.v > 0 ==> a > 0) && (r.v < 0 ==> a < 0)
    ensures op == ARITH_LSHIFT ==> Congruent(r.v, a * Bits.Pow2(b % 64))
    ensures op == ARITH_RSHIFT ==> r.v * Bits.Pow2(b % 64) <= a < (r.v + 1) * Bits.Pow2(b % 64)
    ensures op == ARITH_LT ==> r.v == if a < b then 1 else 0
    ensures op == ARITH_LE ==> r.v == if a <= b then 1 else 0
    ensures op == ARITH_GT ==> r.v == if a > b then 1 else 0
    ensures op == ARITH_GE ==> r.v == if a >= b then 1 else 0
    ensures op == ARITH_EQ ==> r.v == if a == b then 1 else 0
    ensures op == ARITH_NE ==> r.v == if a != b then 1 else 0
    ensures op == ARITH_BAND ==> forall i :: 0 <= i < 64 ==> (Bit(r.v, i) <==> Bit(a, i) && Bit(b, i))
    ensures op == ARITH_BOR ==> forall i :: 0 <= i < 64 ==> (Bit(r.v, i) <==> Bit(a, i) || Bit(b, i))
    ensures op == ARITH_BXOR ==> forall i :: 0 <= i < 64 ==> (Bit(r.v, i) <==> Bit(a, i) != Bit(b, i))
  {
    hide Bit, Bits64, Wrap, Congruent, Quot, Bits.Pow2, Pow, Show;
    ghost var e := Binary(op, Num(a), Num(b));
    ShowBinary(op, a, b);
    r, vars := Evaluate([Number(a), Sign(op), Number(b)], env, e);
    WrapIs(a + b);
    WrapIs(a - b);
    WrapIs(a * b);
    PowIs(b % 64);
    WrapIs(a * Pow(b % 64));
    ShiftRight(a, Pow(b % 64));
    if b != 0 { QuotientLaw(a, b); }
    if op in {ARITH_BAND, ARITH_BXOR, ARITH_BOR} {
      Bitwise(op, a, b, 0);
      forall i | 0 <= i < 64 ensures Bit(r.v, i) <==> Joins(op, Bit(a, i), Bit(b, i)) { Bitwise(op, a, b, i); }
    }
  }

  lemma ShowBinary(op: nat, a: int, b: int)
    requires 8 <= op < 24
    ensures Writable(Binary(op, Num(a), Num(b))) &&
        Show(Binary(op, Num(a), Num(b))) == [Number(a), Sign(op), Number(b)]
  {
    hide Rank;
    assert Operand(Num(a), Rank(op)) == [Number(a)];
    assert Operand(Num(b), Rank(op) - 1) == [Number(b)];
  }

  lemma QuotientLaw(a: int, b: int)
    requires Int64(a) && Int64(b) && b != 0
    ensures var q := Quot(a, b); var r := a - q * b;
            && Abs(r) < Abs(b) && (r > 0 ==> a > 0) && (r < 0 ==> a < 0) && Int64(r) && a == q * b + r
            && (if a == -0x8000_0000_0000_0000 && b == -1 then Wrap(q) == a else Wrap(q) == q && Int64(q))
  {
    QuotIs(a, b);
    var q := Quot(a, b);
    if q == 0x8000_0000_0000_0000 { OnlyOverflow(a, b); }
    if !(a == -0x8000_0000_0000_0000 && b == -1) { WrapIs(q); }
  }

  lemma OnlyOverflow(a: int, b: int)
    requires Int64(a) && b != 0 && Quot(a, b) == 0x8000_0000_0000_0000
    ensures a == -0x8000_0000_0000_0000 && b == -1
  {
    var x, y := Abs(a), Abs(b);
    var q, r := NatQuot(x, y);
    if y >= 2 { Twice(q, y); }
  }

  lemma Twice(q: int, y: int)
    requires q >= 1 && y >= 2
    ensures q * y >= 2 * q
  {
  }

  // op a
  method UnaryOp(op: nat, a: int, env: Env) returns (r: Outcome, vars: Env)
    requires Int64(a) && op in {ARITH_ADD, ARITH_SUB, ARITH_NOT, ARITH_BNOT}
    ensures vars == env && r.Ok? && Int64(r.v)
    ensures op == ARITH_ADD ==> r.v == a
    ensures op == ARITH_SUB ==> Congruent(r.v, -a)
    ensures op == ARITH_NOT ==> r.v == if a == 0 then 1 else 0
    ensures op == ARITH_BNOT ==> forall i :: 0 <= i < 64 ==> (Bit(r.v, i) <==> !Bit(a, i))
  {
    hide Bit, Wrap, Congruent, ParsePrimary;
    WrapIs(-a);
    forall i | 0 <= i < 64 ensures Bit(-a - 1, i) <==> !Bit(a, i) { Flipped(a, i); }
    if op == ARITH_ADD {
      PlusReads(a);
      var ev := new Evaluator([Sign(ARITH_ADD), Number(a)], false, env);
      r := ev.Run();
      vars := ev.vars;
    } else {
      ghost var e := Unary(op, Num(a));
      assert Show(e) == [Sign(op), Number(a)];
      r, vars := Evaluate([Sign(op), Number(a)], env, e);
    }
  }

  lemma {:induction false} Flipped(a: int, i: nat)
    ensures Bit(-a - 1, i) <==> !Bit(a, i)
    decreases i
  {
    hide Bit;
    BitFirst(a);
    BitFirst(-a - 1);
    if i > 0 {
      BitStep(a, i);
      BitStep(-a - 1, i);
      assert (-a - 1) / 2 == -(a / 2) - 1;
      Flipped(a / 2, i - 1);
    }
  }

  // a plus sign in front is dropped
  lemma PlusReads(a: int)
    ensures var ts := [Sign(ARITH_ADD), Number(a)]; Lexed(ts) && ParseAssign(ts, ARITH_EOF) == Some((Num(a), []))
  {
    hide ParseAssign, Text;
    var ts := [Sign(ARITH_ADD), Number(a)];
    assert ts[1..] == [Number(a)];
    FromPrimary(ts[1..], Num(a));
    FromPrimary(ts, Num(a));
    Looser(0, ASSIGN_LEVEL, ts, Num(a));
    ReadsExactly(ts, Num(a), ARITH_EOF);
  }

  // the operator of x op= v
  function Plain(op: nat): (r: nat)
    requires 24 <= op < 34
  {
    if op == ARITH_REMASS then ARITH_REM else if op == ARITH_BANDASS then ARITH_BAND
    else if op == ARITH_LSHIFTASS then ARITH_LSHIFT else if op == ARITH_RSHIFTASS then ARITH_RSHIFT
    else if op == ARITH_MULASS then ARITH_MUL else if op == ARITH_ADDASS then ARITH_ADD
    else if op == ARITH_BORASS then ARITH_BOR else if op == ARITH_SUBASS then ARITH_SUB
    else if op == ARITH_BXORASS then ARITH_BXOR
    else assert op == ARITH_DIVASS; ARITH_DIV
  }

  // x = v, and x op= v, which has the value of x op v
  method AssignOp(x: string, op: nat, v: int, env: Env) returns (r: Outcome, vars: Env, same: Outcome)
    requires op == ARITH_ASS || 24 <= op < 34
    ensures r == if op == ARITH_ASS then Ok(v) else same
    ensures vars == if r.Ok? then env[x := r.v] else env
  {
    hide Show, DoBinop;
    var n := Lex(ARITH_VAR, Name(x));
    ghost var e := Assign(x, op, Num(v));
    ShowAssign(x, op, v);
    r, vars := Evaluate([n, Sign(op), Number(v)], env, e);
    same := Fail;
    if op != ARITH_ASS {
      var k := Plain(op);
      var vars0;
      ShowVar(x, k, v);
      same, vars0 := Evaluate([n, Sign(k), Number(v)], env, Binary(k, Var(x), Num(v)));
    }
  }

  lemma ShowAssign(x: string, op: nat, v: int)
    requires op == ARITH_ASS || 24 <= op < 34
    ensures Writable(Assign(x, op, Num(v))) &&
        Show(Assign(x, op, Num(v))) == [Lex(ARITH_VAR, Name(x)), Sign(op), Number(v)]
  {
    assert Operand(Num(v), ASSIGN_LEVEL) == [Number(v)];
  }

  lemma ShowVar(x: string, op: nat, v: int)
    requires 8 <= op < 24
    ensures Writable(Binary(op, Var(x), Num(v))) &&
        Show(Binary(op, Var(x), Num(v))) == [Lex(ARITH_VAR, Name(x)), Sign(op), Number(v)]
  {
    hide Rank;
    assert Operand(Var(x), Rank(op)) == [Lex(ARITH_VAR, Name(x))];
    assert Operand(Num(v), Rank(op) - 1) == [Number(v)];
  }

  // a variable that is not set counts as zero
  method Variable(x: string, env: Env) returns (r: Outcome, vars: Env)
    ensures r == Ok(if x in env then env[x] else 0) && vars == env
  {
    r, vars := Evaluate([Lex(ARITH_VAR, Name(x))], env, Var(x));
  }

  function Setting(x: string, v: int): (ts: seq<Lex>) {
    [Sign(ARITH_LPAREN), Lex(ARITH_VAR, Name(x)), Sign(ARITH_ASS), Number(v), Sign(ARITH_RPAREN)]
  }

  lemma ShowSetting(x: string, v: int, level: nat)
    requires level < ASSIGN_LEVEL
    ensures Writable(Assign(x, ARITH_ASS, Num(v))) && Operand(Assign(x, ARITH_ASS, Num(v)), level) == Setting(x, v)
  {
    ShowAssign(x, ARITH_ASS, v);
  }

  lemma Sets(x: string, v: int, env: Env)
    ensures Eval(Assign(x, ARITH_ASS, Num(v)), env) == Value(v, env[x := v])
  {
    assert Eval(Num(v), env) == Value(v, env);
  }

  // a && (x = v): the right side is evaluated only if it matters
  method AndOp(a: int, x: string, v: int, env: Env) returns (r: Outcome, vars: Env)
    ensures if a == 0 then r == Ok(0) && vars == env else r == Ok(if v != 0 then 1 else 0) && vars == env[x := v]
  {
    hide Operand;
    ghost var s := Assign(x, ARITH_ASS, Num(v));
    ShowSetting(x, v, AND_LEVEL - 1);
    Sets(x, v, env);
    ShowNumber(a, AND_LEVEL);
    assert Show(And(Num(a), s)) == [Number(a)] + [Sign(ARITH_AND)] + Setting(x, v);
    r, vars := Evaluate([Number(a)] + [Sign(ARITH_AND)] + Setting(x, v), env, And(Num(a), s));
  }

  // a || (x = v)
  method OrOp(a: int, x: string, v: int, env: Env) returns (r: Outcome, vars: Env)
    ensures if a != 0 then r == Ok(1) && vars == env else r == Ok(if v != 0 then 1 else 0) && vars == env[x := v]
  {
    hide Operand;
    ghost var s := Assign(x, ARITH_ASS, Num(v));
    ShowSetting(x, v, OR_LEVEL - 1);
    Sets(x, v, env);
    ShowNumber(a, OR_LEVEL);
    assert Show(Or(Num(a), s)) == [Number(a)] + [Sign(ARITH_OR)] + Setting(x, v);
    r, vars := Evaluate([Number(a)] + [Sign(ARITH_OR)] + Setting(x, v), env, Or(Num(a), s));
  }

  lemma ShowNumber(a: int, level: nat)
    ensures Operand(Num(a), level) == [Number(a)]
  {
  }

  // c ? x = v : (y = w)
  method CondOp(c: int, x: string, v: int, y: string, w: int, env: Env) returns (r: Outcome, vars: Env)
    ensures if c != 0 then r == Ok(v) && vars == env[x := v] else r == Ok(w) && vars == env[y := w]
  {
    hide Operand;
    ghost var s, t := Assign(x, ARITH_ASS, Num(v)), Assign(y, ARITH_ASS, Num(w));
    Sets(x, v, env);
    Sets(y, w, env);
    ShowNumber(c, OR_LEVEL);
    ShowAssign(x, ARITH_ASS, v);
    ShowLoose(x, v);
    ShowSetting(y, w, COND_LEVEL);
    var mid := [Lex(ARITH_VAR, Name(x)), Sign(ARITH_ASS), Number(v)];
    var ts := [Number(c)] + [Sign(ARITH_QMARK)] + mid + [Sign(ARITH_COLON)] + Setting(y, w);
    assert Show(Cond(Num(c), s, t)) == ts;
    r, vars := Evaluate(ts, env, Cond(Num(c), s, t));
  }

  lemma ShowLoose(x: string, v: int)
    ensures Writable(Assign(x, ARITH_ASS, Num(v)))
    ensures Operand(Assign(x, ARITH_ASS, Num(v)), ASSIGN_LEVEL) == Show(Assign(x, ARITH_ASS, Num(v)))
  {
  }

  // (x = v) - x: the left operand comes first
  method LeftFirst(x: string, v: int, env: Env) returns (r: Outcome, vars: Env)
    requires Int64(v)
    ensures r == Ok(0) && vars == env[x := v]
  {
    hide Operand, Rank;
    ghost var s := Assign(x, ARITH_ASS, Num(v));
    var n := Lex(ARITH_VAR, Name(x));
    Minus();
    ShowSetting(x, v, 2);
    ShowName(x, 1);
    Sets(x, v, env);
    WrapIs(0);
    assert Show(Binary(ARITH_SUB, s, Var(x))) == Setting(x, v) + [Sign(ARITH_SUB)] + [n];
    r, vars := Evaluate(Setting(x, v) + [Sign(ARITH_SUB)] + [n], env, Binary(ARITH_SUB, s, Var(x)));
  }

  lemma Minus()
    ensures Rank(ARITH_SUB) == 2
  {
  }

  lemma ShowName(x: string, level: nat)
    ensures Operand(Var(x), level) == [Lex(ARITH_VAR, Name(x))]
  {
  }

  // --- No value leaves intmax_t ---

  ghost predicate EnvOk(env: Env) { forall x :: x in env ==> Int64(env[x]) }

  ghost predicate NumsOk(e: Expr) {
    match e
    case Num(n) => Int64(n)
    case Var(_) => true
    case Unary(_, a) => NumsOk(a)
    case Binary(_, a, b) => NumsOk(a) && NumsOk(b)
    case And(a, b) => NumsOk(a) && NumsOk(b)
    case Or(a, b) => NumsOk(a) && NumsOk(b)
    case Cond(c, a, b) => NumsOk(c) && NumsOk(a) && NumsOk(b)
    case Assign(_, _, a) => NumsOk(a)
  }

  lemma BinopIn(op: int, a: int, b: int)
    requires Int64(a) && Int64(b)
    ensures DoBinop(op, a, b).Some? ==> Int64(DoBinop(op, a, b).value)
  {
    hide Bits64, Quot, Pow, BitOp;
    WrapIs(a);
    ShiftRight(a, Pow(b % 64));
    if b != 0 { QuotientLaw(a, b); }
    if op in {ARITH_BAND, ARITH_BXOR, ARITH_BOR} { Bitwise(op, a, b, 0); }
  }

  ghost predicate ResultOk(r: Result) { EnvOk(r.env) && (r.Value? ==> Int64(r.v)) }

  lemma {:induction false} InRange(e: Expr, env: Env)
    requires NumsOk(e) && EnvOk(env)
    ensures ResultOk(Eval(e, env))
    decreases e
  {
    hide DoBinop, Wrap;
    match e
    case Num(_) =>
    case Var(_) =>
    case Unary(_, a) =>
      InRange(a, env);
      if Eval(a, env).Value? { WrapIs(-Eval(a, env).v); }
    case Binary(op, a, b) =>
      InRange(a, env);
      var x := Eval(a, env);
      if x.Value? {
        InRange(b, x.env);
        if Eval(b, x.env).Value? { BinopIn(op, x.v, Eval(b, x.env).v); }
      }
    case And(a, b) =>
      InRange(a, env);
      if Eval(a, env).Value? { InRange(b, Eval(a, env).env); }
    case Or(a, b) =>
      InRange(a, env);
      if Eval(a, env).Value? { InRange(b, Eval(a, env).env); }
    case Cond(c, a, b) =>
      InRange(c, env);
      if Eval(c, env).Value? {
        InRange(a, Eval(c, env).env);
        InRange(b, Eval(c, env).env);
      }
    case Assign(s, op, a) =>
      InRange(a, env);
      if Eval(a, env).Value? { BinopIn(op - 11, Lookup(Eval(a, env).env, s), Eval(a, env).v); }
  }
}
