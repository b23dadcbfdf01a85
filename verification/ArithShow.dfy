/**
 Expressions written out with as few parentheses as the grammar allows. What is written
 is read as the same expression.
 */
module ArithShow {
  import opened Canonical
  import opened ArithSyntax
  import opened ArithGrammar

  function LevelOf(e: Expr): (l: nat)
    requires Writable(e)
    ensures l <= ASSIGN_LEVEL
  {
    match e
    case Num(_) => 0
    case Var(_) => 0
    case Unary(_, _) => 0
    case Binary(op, _, _) => Rank(op)
    case And(_, _) => AND_LEVEL
    case Or(_, _) => OR_LEVEL
    case Cond(_, _, _) => COND_LEVEL
    case Assign(_, _, _) => ASSIGN_LEVEL
  }

  // the operators are such as can occur
  predicate Writable(e: Expr) {
    match e
    case Num(_) => true
    case Var(_) => true
    case Unary(op, a) => op in {ARITH_SUB, ARITH_NOT, ARITH_BNOT} && Writable(a)
    case Binary(op, a, b) => 8 <= op < 24 && Writable(a) && Writable(b)
    case And(a, b) => Writable(a) && Writable(b)
    case Or(a, b) => Writable(a) && Writable(b)
    case Cond(c, a, b) => Writable(c) && Writable(a) && Writable(b)
    case Assign(_, op, a) => (op == ARITH_ASS || 24 <= op < 34) && Writable(a)
  }

  function Sign(k: nat): (t: Lex) { Lex(k, IntVal(0)) }

  // e as the operand of something of that level: in parentheses if it binds less tightly
  function Operand(e: Expr, level: nat): (ts: seq<Lex>)
    requires Writable(e)
    decreases e, 1
  {
    if LevelOf(e) <= level then Show(e) else [Sign(ARITH_LPAREN)] + Show(e) + [Sign(ARITH_RPAREN)]
  }

  function Show(e: Expr): (ts: seq<Lex>)
    requires Writable(e)
    decreases e, 0
  {
    match e
    case Num(n) => [Lex(ARITH_NUM, IntVal(n))]
    case Var(s) => [Lex(ARITH_VAR, Name(s))]
    case Unary(op, a) => [Sign(op)] + Operand(a, 0)
    case Binary(op, a, b) => Operand(a, Rank(op)) + [Sign(op)] + Operand(b, Rank(op) - 1)
    case And(a, b) => Operand(a, AND_LEVEL) + [Sign(ARITH_AND)] + Operand(b, AND_LEVEL - 1)
    case Or(a, b) => Operand(a, OR_LEVEL) + [Sign(ARITH_OR)] + Operand(b, OR_LEVEL - 1)
    case Cond(c, a, b) =>
      Operand(c, OR_LEVEL) + [Sign(ARITH_QMARK)] + Operand(a, ASSIGN_LEVEL) + [Sign(ARITH_COLON)] +
      Operand(b, COND_LEVEL)
    case Assign(s, op, a) => [Lex(ARITH_VAR, Name(s)), Sign(op)] + Operand(a, ASSIGN_LEVEL)
  }

  lemma {:induction false} ShowLexed(e: Expr)
    requires Writable(e)
    ensures Lexed(Show(e)) && forall l :: Lexed(Operand(e, l))
    decreases e, 1
  {
    hide Show;
    ShownLexed(e);
  }

  lemma {:induction false} ShownLexed(e: Expr)
    requires Writable(e)
    ensures Lexed(Show(e))
    decreases e, 0
  {
    hide Operand, Rank;
    match e
    case Num(_) =>
    case Var(_) =>
    case Unary(_, a) => ShowLexed(a);
    case Binary(_, a, b) => ShowLexed(a); ShowLexed(b);
    case And(a, b) => ShowLexed(a); ShowLexed(b);
    case Or(a, b) => ShowLexed(a); ShowLexed(b);
    case Cond(c, a, b) => ShowLexed(c); ShowLexed(a); ShowLexed(b);
    case Assign(_, _, a) => ShowLexed(a);
  }

  // --- Reading back ---

  lemma {:induction false} OperandText(e: Expr, level: nat)
    requires Writable(e) && level <= ASSIGN_LEVEL
    ensures Lexed(Operand(e, level)) && Text(level, Operand(e, level), e)
    decreases e, 1
  {
    hide Show, Text, Rank;
    ShowLexed(e);
    ShowText(e);
    if LevelOf(e) <= level {
      Looser(LevelOf(e), level, Show(e), e);
    } else {
      var ts := Operand(e, level);
      assert ts[1..|ts| - 1] == Show(e);
      Looser(LevelOf(e), ASSIGN_LEVEL, Show(e), e);
      FromPrimary(ts, e);
      Looser(0, level, ts, e);
    }
  }

  lemma {:induction false} ShowText(e: Expr)
    requires Writable(e)
    ensures Lexed(Show(e)) && Text(LevelOf(e), Show(e), e)
    decreases e, 0
  {
    hide Operand, Text, Rank;
    ShowLexed(e);
    match e
    case Num(_) => FromPrimary(Show(e), e);
    case Var(_) => FromPrimary(Show(e), e);
    case Unary(_, a) =>
      OperandText(a, 0);
      assert Show(e)[1..] == Operand(a, 0);
      FromPrimary(Show(e), e);
    case Binary(op, a, b) =>
      OperandText(a, Rank(op));
      OperandText(b, Rank(op) - 1);
      InfixText(Rank(op), Operand(a, Rank(op)), op, Operand(b, Rank(op) - 1), e);
    case And(a, b) =>
      OperandText(a, AND_LEVEL);
      OperandText(b, AND_LEVEL - 1);
      InfixText(AND_LEVEL, Operand(a, AND_LEVEL), ARITH_AND, Operand(b, AND_LEVEL - 1), e);
    case Or(a, b) =>
      OperandText(a, OR_LEVEL);
      OperandText(b, OR_LEVEL - 1);
      InfixText(OR_LEVEL, Operand(a, OR_LEVEL), ARITH_OR, Operand(b, OR_LEVEL - 1), e);
    case Cond(c, a, b) =>
      OperandText(c, OR_LEVEL);
      OperandText(a, ASSIGN_LEVEL);
      OperandText(b, COND_LEVEL);
      CondText(Operand(c, OR_LEVEL), Sign(ARITH_QMARK), Operand(a, ASSIGN_LEVEL), Sign(ARITH_COLON),
          Operand(b, COND_LEVEL), c, a, b);
    case Assign(s, op, a) =>
      OperandText(a, ASSIGN_LEVEL);
      AssignText(s, op, Operand(a, ASSIGN_LEVEL), a);
  }

  lemma InfixText(level: nat, s: seq<Lex>, op: nat, t: seq<Lex>, e: Expr)
    requires Lexed(s) && Lexed(t) && LexOk(Sign(op)) && 1 <= level <= OR_LEVEL
    requires Infix(level, op, e) && Text(level, s, e.a) && Text(level - 1, t, e.b)
    ensures Text(level, s + [Sign(op)] + t, e)
  {
    var ts := s + [Sign(op)] + t;
    assert ts[..|s|] == s && ts[|s| + 1..] == t;
    assert InfixAt(level, ts, e, |s|);
  }

  lemma AssignText(s: string, op: nat, t: seq<Lex>, a: Expr)
    requires Lexed(t) && (op == ARITH_ASS || 24 <= op < 34) && Text(ASSIGN_LEVEL, t, a)
    ensures Text(ASSIGN_LEVEL, [Lex(ARITH_VAR, Name(s)), Sign(op)] + t, Assign(s, op, a))
  {
    assert ([Lex(ARITH_VAR, Name(s)), Sign(op)] + t)[2..] == t;
  }

  // every expression, written with as few parentheses as C allows, is read as itself
  lemma ReadsBack(e: Expr, stop: nat)
    requires Writable(e)
    ensures Lexed(Show(e)) && ParseAssign(Show(e), stop) == Some((e, []))
  {
    hide Show, ParseAssign, Text;
    ShowText(e);
    Looser(LevelOf(e), ASSIGN_LEVEL, Show(e), e);
    ReadsExactly(Show(e), e, stop);
  }
}
