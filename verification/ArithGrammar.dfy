/**
 The grammar of sections 6.5.3 to 6.5.17 of ISO C99 for the operators of the shell: which
 token sequences are a text of which expression. The parser reads exactly these.
 */
module ArithGrammar {
  import opened Canonical
  import opened ArithSyntax

  // the operators of C from the tightest to the loosest
  const LEVELS: seq<set<nat>> := [
    {ARITH_MUL, ARITH_DIV, ARITH_REM}, {ARITH_ADD, ARITH_SUB}, {ARITH_LSHIFT, ARITH_RSHIFT},
    {ARITH_LT, ARITH_GT, ARITH_LE, ARITH_GE}, {ARITH_EQ, ARITH_NE}, {ARITH_BAND}, {ARITH_BXOR}, {ARITH_BOR}]

  // which of them op belongs to, counted from 1
  function Rank(op: nat): (r: nat)
    requires 8 <= op < 24
    ensures 1 <= r <= 8 && op in LEVELS[r - 1]
  {
    if op in LEVELS[0] then 1 else if op in LEVELS[1] then 2 else if op in LEVELS[2] then 3
    else if op in LEVELS[3] then 4 else if op in LEVELS[4] then 5 else if op in LEVELS[5] then 6
    else if op in LEVELS[6] then 7 else 8
  }

  const AND_LEVEL := 9
  const OR_LEVEL := 10
  const COND_LEVEL := 11
  const ASSIGN_LEVEL := 12

  // ts is a text of e as something that binds at least as tightly as level
  ghost predicate Text(level: nat, ts: seq<Lex>, e: Expr)
    requires Lexed(ts) && level <= ASSIGN_LEVEL
    decreases |ts|, level + 1
  {
    if level == 0 then Primary(ts, e)
    else if level <= OR_LEVEL then
      Text(level - 1, ts, e) || exists i :: 0 <= i < |ts| && InfixAt(level, ts, e, i)
    else if level == COND_LEVEL then
      Text(level - 1, ts, e) || exists i, j :: 0 <= i < j < |ts| && CondAt(ts, e, i, j)
    else
      Text(COND_LEVEL, ts, e) ||
      (e.Assign? && |ts| >= 2 && ts[0] == Lex(ARITH_VAR, Name(e.s)) && ts[1].kind == e.op &&
       (e.op == ARITH_ASS || 24 <= e.op < 34) && Text(ASSIGN_LEVEL, ts[2..], e.e))
  }

  // a number, a name, something in parentheses or behind a sign
  ghost predicate Primary(ts: seq<Lex>, e: Expr)
    requires Lexed(ts)
    decreases |ts|, 0
  {
    ts != [] &&
    var k := ts[0].kind;
    if k == ARITH_NUM then |ts| == 1 && e == Num(ts[0].val.n)
    else if k == ARITH_VAR then |ts| == 1 && e == Var(ts[0].val.s)
    else if k == ARITH_LPAREN then
      |ts| >= 2 && ts[|ts| - 1].kind == ARITH_RPAREN && Text(ASSIGN_LEVEL, ts[1..|ts| - 1], e)
    else if k == ARITH_ADD then Text(0, ts[1..], e)
    else k in {ARITH_SUB, ARITH_NOT, ARITH_BNOT} && e.Unary? && e.op == k && Text(0, ts[1..], e.e)
  }

  // the operator of a level, and its left and right operand
  ghost predicate Infix(level: nat, k: nat, e: Expr) {
    if level == AND_LEVEL then k == ARITH_AND && e.And?
    else if level == OR_LEVEL then k == ARITH_OR && e.Or?
    else 8 <= k < 24 && Rank(k) == level && e.Binary? && e.op == k
  }

  // left-associative: the operand to the right binds tighter
  ghost predicate InfixAt(level: nat, ts: seq<Lex>, e: Expr, i: nat)
    requires Lexed(ts) && 1 <= level <= OR_LEVEL && i < |ts|
    decreases |ts|, 0
  {
    Infix(level, ts[i].kind, e) && Text(level, ts[..i], e.a) && Text(level - 1, ts[i + 1..], e.b)
  }

  ghost predicate CondAt(ts: seq<Lex>, e: Expr, i: nat, j: nat)
    requires Lexed(ts) && i < j < |ts|
    decreases |ts|, 0
  {
    && e.Cond? && ts[i].kind == ARITH_QMARK && ts[j].kind == ARITH_COLON
    && Text(OR_LEVEL, ts[..i], e.c) && Text(ASSIGN_LEVEL, ts[i + 1..j], e.a) && Text(COND_LEVEL, ts[j + 1..], e.b)
  }

  // --- What the grammar allows is read ---

  // the parser of a level
  ghost function ParseAt(level: nat, ts: seq<Lex>, stop: nat): (r: Parsed)
    requires Lexed(ts) && level <= ASSIGN_LEVEL
  {
    if level <= 8 then ParseLevel(level, ts, stop)
    else if level == AND_LEVEL then ParseAnd(ts, stop)
    else if level == OR_LEVEL then ParseOr(ts, stop)
    else if level == COND_LEVEL then ParseCond(ts, stop)
    else ParseAssign(ts, stop)
  }

  // what is read after e at a level of left-associative operators
  ghost function TailAt(level: nat, e: Expr, u: seq<Lex>, stop: nat): (r: Parsed)
    requires Lexed(u) && 1 <= level <= OR_LEVEL
  {
    if level <= 8 then ParseTail(level, e, u, stop)
    else if level == AND_LEVEL then AndTail(e, u, stop) else OrTail(e, u, stop)
  }

  lemma AtIsTail(level: nat, ts: seq<Lex>, stop: nat)
    requires Lexed(ts) && 1 <= level <= OR_LEVEL
    ensures ParseAt(level, ts, stop) == match ParseAt(level - 1, ts, stop)
                                        case None => None
                                        case Some((e, u)) => TailAt(level, e, u, stop)
  {
    hide ParseTail, AndTail, OrTail;
  }

  // u does not go on at a level up to this one
  ghost predicate Quiet(u: seq<Lex>, level: nat) {
    u == [] ||
    var k := u[0].kind;
    (8 <= k < 24 ==> level < Rank(k)) && (k == ARITH_AND ==> level < AND_LEVEL) &&
        (k == ARITH_OR ==> level < OR_LEVEL) &&
        (k == ARITH_QMARK ==> level < COND_LEVEL) && (k == ARITH_ASS || 24 <= k < 34 ==> level < ASSIGN_LEVEL)
  }

  lemma RankPrec(op: nat)
    requires 8 <= op < 24
    ensures IsBinop(op) && Prec(op) + 1 == Rank(op)
  {
  }

  lemma TailQuiet(level: nat, e: Expr, u: seq<Lex>, stop: nat)
    requires Lexed(u) && 1 <= level <= OR_LEVEL && Quiet(u, level)
    ensures TailAt(level, e, u, stop) == Some((e, u))
  {
    hide Rank, Prec;
    if u != [] && 8 <= u[0].kind < 24 { RankPrec(u[0].kind); }
  }

  ghost predicate StartsAssign(ts: seq<Lex>) { |ts| >= 2 && ts[0].kind == ARITH_VAR && IsAssign(ts[1].kind) }

  lemma {:induction false} NotEmpty(level: nat, ts: seq<Lex>, e: Expr)
    requires Lexed(ts) && level <= ASSIGN_LEVEL && Text(level, ts, e)
    ensures ts != []
    decreases level
  {
    if level > 0 && Text(level - 1, ts, e) { NotEmpty(level - 1, ts, e); }
  }

  // only an assignment starts like one
  lemma {:induction false} NoAssign(level: nat, ts: seq<Lex>, e: Expr, u: seq<Lex>)
    requires Lexed(ts) && level <= COND_LEVEL && Text(level, ts, e) && (u == [] || !IsAssign(u[0].kind))
    ensures !StartsAssign(ts + u)
    decreases |ts|, level
  {
    hide Rank;
    if level > 0 {
      if Text(level - 1, ts, e) {
        NoAssign(level - 1, ts, e, u);
      } else if level <= OR_LEVEL {
        var i :| 0 <= i < |ts| && InfixAt(level, ts, e, i);
        NotLeft(level, ts, e.a, i, u);
      } else {
        var i, j :| 0 <= i < j < |ts| && CondAt(ts, e, i, j);
        NotLeft(OR_LEVEL, ts, e.c, i, u);
      }
    }
  }

  lemma {:induction false} NotLeft(level: nat, ts: seq<Lex>, left: Expr, i: nat, u: seq<Lex>)
    requires Lexed(ts) && level <= COND_LEVEL && i < |ts| && Text(level, ts[..i], left) && !IsAssign(ts[i].kind)
    ensures !StartsAssign(ts + u)
    decreases |ts|, 0
  {
    hide Text;
    assert ts + u == ts[..i] + (ts[i..] + u);
    NoAssign(level, ts[..i], left, ts[i..] + u);
  }

  lemma AtZero(ts: seq<Lex>, stop: nat)
    requires Lexed(ts)
    ensures ParseAt(0, ts, stop) == ParsePrimary(ts, stop)
  {
    hide ParsePrimary;
  }

  lemma {:induction false} ReadsPrimary(ts: seq<Lex>, e: Expr, u: seq<Lex>, stop: nat)
    requires Lexed(ts) && Lexed(u) && Primary(ts, e)
    ensures ParsePrimary(ts + u, stop) == Some((e, u))
    decreases |ts|, 0
  {
    hide Text, ParseAt, Rank;
    var all := ts + u;
    if ts[0].kind == ARITH_LPAREN {
      var inner, rest := ts[1..|ts| - 1], [ts[|ts| - 1]] + u;
      assert all[1..] == inner + rest && rest[1..] == u;
      Reads(ASSIGN_LEVEL, inner, e, rest, stop);
      AtAssign(inner + rest, stop);
    } else if ts[0].kind == ARITH_NUM || ts[0].kind == ARITH_VAR {
      assert all[1..] == u;
    } else {
      assert all[1..] == ts[1..] + u;
      Signed(ts[1..], if ts[0].kind == ARITH_ADD then e else e.e);
      ReadsPrimary(ts[1..], if ts[0].kind == ARITH_ADD then e else e.e, u, stop);
    }
  }

  lemma Signed(ts: seq<Lex>, e: Expr)
    requires Lexed(ts) && Text(0, ts, e)
    ensures Primary(ts, e)
  {
  }

  lemma AtAssign(ts: seq<Lex>, stop: nat)
    requires Lexed(ts)
    ensures ParseAt(ASSIGN_LEVEL, ts, stop) == ParseAssign(ts, stop)
  {
  }

  // a text of a level is read at that level, if nothing of the level follows
  lemma {:induction false} Reads(level: nat, ts: seq<Lex>, e: Expr, u: seq<Lex>, stop: nat)
    requires Lexed(ts) && Lexed(u) && level <= ASSIGN_LEVEL && Text(level, ts, e) && (level > 0 ==> Quiet(u, level))
    ensures ParseAt(level, ts + u, stop) == Some((e, u))
    decreases |ts|, 2 * level + 2
  {
    hide ParsePrimary, ParseLevel, ParseAnd, ParseOr, ParseCond, ParseAssign, TailAt, Rank, Primary, InfixAt, CondAt;
    if level == 0 {
      AtZero(ts + u, stop);
      ReadsPrimary(ts, e, u, stop);
    } else if level <= OR_LEVEL {
      QuietLess(u, level - 1, level);
      Before(level, ts, e, u, stop);
      TailQuiet(level, e, u, stop);
    } else if Text(level - 1, ts, e) {
      QuietLess(u, level - 1, level);
      Reads(level - 1, ts, e, u, stop);
      ReadsLooser(level, ts, e, u, stop);
    } else if level == COND_LEVEL {
      var i, j :| 0 <= i < j < |ts| && CondAt(ts, e, i, j);
      ReadsCond(ts, e, i, j, u, stop);
    } else {
      ReadsAssign(ts, e, u, stop);
    }
  }

  lemma QuietLess(u: seq<Lex>, l: nat, level: nat)
    requires Quiet(u, level) && l <= level
    ensures Quiet(u, l)
  {
    hide Rank;
  }

  // the same at the levels without associativity
  lemma ReadsLooser(level: nat, ts: seq<Lex>, e: Expr, u: seq<Lex>, stop: nat)
    requires Lexed(ts) && Lexed(u) && COND_LEVEL <= level <= ASSIGN_LEVEL && Text(level - 1, ts, e) && Quiet(u, level)
    requires ParseAt(level - 1, ts + u, stop) == Some((e, u))
    ensures ParseAt(level, ts + u, stop) == Some((e, u))
  {
    hide ParseOr, Rank, Text;
    if level == ASSIGN_LEVEL { NoAssign(COND_LEVEL, ts, e, u); }
  }

  lemma {:induction false} ReadsCond(ts: seq<Lex>, e: Expr, i: nat, j: nat, u: seq<Lex>, stop: nat)
    requires Lexed(ts) && Lexed(u) && i < j < |ts| && CondAt(ts, e, i, j) && Quiet(u, COND_LEVEL)
    ensures ParseAt(COND_LEVEL, ts + u, stop) == Some((e, u))
    decreases |ts|, 0
  {
    hide ParseOr, ParseAssign, Rank, Text;
    var c, a, b := ts[..i], ts[i + 1..j], ts[j + 1..];
    var last := [ts[j]] + (b + u);
    var rest := [ts[i]] + (a + last);
    assert ts + u == c + rest && rest[1..] == a + last && last[1..] == b + u;
    Reads(OR_LEVEL, c, e.c, rest, stop);
    Reads(ASSIGN_LEVEL, a, e.a, last, stop);
    Reads(COND_LEVEL, b, e.b, u, stop);
  }

  lemma {:induction false} ReadsAssign(ts: seq<Lex>, e: Expr, u: seq<Lex>, stop: nat)
    requires Lexed(ts) && Lexed(u) && Quiet(u, ASSIGN_LEVEL) && e.Assign? && |ts| >= 2
    requires ts[0] == Lex(ARITH_VAR, Name(e.s)) && ts[1].kind == e.op && (e.op == ARITH_ASS || 24 <= e.op < 34)
    requires Text(ASSIGN_LEVEL, ts[2..], e.e)
    ensures ParseAt(ASSIGN_LEVEL, ts + u, stop) == Some((e, u))
    decreases |ts|, 0
  {
    hide ParseCond, Rank, Text;
    assert (ts + u)[2..] == ts[2..] + u;
    Reads(ASSIGN_LEVEL, ts[2..], e.e, u, stop);
  }

  // ... and up to where more operands of the level follow
  lemma {:induction false} Before(level: nat, ts: seq<Lex>, e: Expr, u: seq<Lex>, stop: nat)
    requires Lexed(ts) && Lexed(u) && 1 <= level <= OR_LEVEL && Text(level, ts, e) && Quiet(u, level - 1)
    ensures ParseAt(level, ts + u, stop) == TailAt(level, e, u, stop)
    decreases |ts|, 2 * level + 1
  {
    hide ParseAt, TailAt, Rank, Quiet, Primary;
    if Text(level - 1, ts, e) {
      Reads(level - 1, ts, e, u, stop);
      AtIsTail(level, ts + u, stop);
    } else {
      var i :| 0 <= i < |ts| && InfixAt(level, ts, e, i);
      var right := ts[i + 1..] + u;
      var rest := [ts[i]] + right;
      assert ts + u == ts[..i] + rest;
      InfixQuiet(level, ts[i], e, right);
      Before(level, ts[..i], e.a, rest, stop);
      Reads(level - 1, ts[i + 1..], e.b, u, stop);
      OneMore(level, ts[i], e, right, u, stop);
    }
  }

  lemma InfixQuiet(level: nat, t: Lex, e: Expr, right: seq<Lex>)
    requires 1 <= level <= OR_LEVEL && Infix(level, t.kind, e)
    ensures Quiet([t] + right, level - 1)
  {
  }

  lemma OneMore(level: nat, t: Lex, e: Expr, right: seq<Lex>, u: seq<Lex>, stop: nat)
    requires LexOk(t) && Lexed(right) && Lexed(u) && 1 <= level <= OR_LEVEL && Infix(level, t.kind, e)
    requires ParseAt(level - 1, right, stop) == Some((e.b, u))
    ensures TailAt(level, e.a, [t] + right, stop) == TailAt(level, e, u, stop)
  {
    hide Rank, Prec;
    var rest := [t] + right;
    assert rest[1..] == right && rest[0] == t;
    if 8 <= t.kind < 24 { RankPrec(t.kind); }
  }

  lemma FromPrimary(ts: seq<Lex>, e: Expr)
    requires Lexed(ts) && Primary(ts, e)
    ensures Text(0, ts, e)
  {
  }

  // --- What is read is allowed by the grammar ---

  // the part of ts before u
  ghost function Front(ts: seq<Lex>, u: seq<Lex>): (r: seq<Lex>)
    requires |u| <= |ts|
  {
    ts[..|ts| - |u|]
  }

  // r is a text of the level in front of what is left
  ghost predicate TookAt(level: nat, ts: seq<Lex>, r: Parsed)
    requires Lexed(ts) && level <= ASSIGN_LEVEL
  {
    r.Some? ==>
      var (e, u) := r.value;
      |u| <= |ts| && ts == Front(ts, u) + u && Text(level, Front(ts, u), e)
  }

  lemma {:induction false} TookPrimary(ts: seq<Lex>, stop: nat)
    requires Lexed(ts)
    ensures TookAt(0, ts, ParsePrimary(ts, stop))
    decreases |ts|, 1
  {
    hide ParseAssign, Rank, Text;
    if ts != [] && ParsePrimary(ts, stop).Some? {
      var (e, u) := ParsePrimary(ts, stop).value;
      var k, rest, front := ts[0].kind, ts[1..], Front(ts, u);
      if k == ARITH_LPAREN {
        TookParen(ts, stop);
      } else if k in {ARITH_ADD, ARITH_SUB, ARITH_NOT, ARITH_BNOT} {
        TookPrimary(rest, stop);
        assert front[1..] == Front(rest, u);
        FromPrimary(front, e);
      } else {
        assert u == rest && front == [ts[0]];
        FromPrimary(front, e);
      }
    }
  }

  lemma {:induction false} TookParen(ts: seq<Lex>, stop: nat)
    requires Lexed(ts) && ts != [] && ts[0].kind == ARITH_LPAREN && ParsePrimary(ts, stop).Some?
    ensures TookAt(0, ts, ParsePrimary(ts, stop))
    decreases |ts|, 0
  {
    hide ParseAssign, Rank, Text;
    var (e, u) := ParsePrimary(ts, stop).value;
    var rest := ts[1..];
    TookAssign(rest, stop);
    var (e', w) := ParseAssign(rest, stop).value;
    var front, inner := Front(ts, u), Front(rest, w);
    assert w == [w[0]] + u;
    assert front == [ts[0]] + inner + [w[0]];
    assert front[1..|front| - 1] == inner;
    FromPrimary(front, e);
  }

  // a looser level has the texts of the tighter ones
  lemma {:induction false} Looser(l: nat, level: nat, ts: seq<Lex>, e: Expr)
    requires Lexed(ts) && l <= level <= ASSIGN_LEVEL && Text(l, ts, e)
    ensures Text(level, ts, e)
    decreases level
  {
    if l < level { Looser(l, level - 1, ts, e); }
  }

  lemma {:induction false} TookLevel(level: nat, ts: seq<Lex>, stop: nat)
    requires Lexed(ts) && level <= OR_LEVEL
    ensures TookAt(level, ts, ParseAt(level, ts, stop))
    decreases |ts|, 2 * level + 2
  {
    hide ParsePrimary, ParseAt, TailAt, Text, Rank;
    if level == 0 {
      AtZero(ts, stop);
      TookPrimary(ts, stop);
    } else {
      AtIsTail(level, ts, stop);
      TookLevel(level - 1, ts, stop);
      if ParseAt(level - 1, ts, stop).Some? {
        var (e, u) := ParseAt(level - 1, ts, stop).value;
        Looser(level - 1, level, Front(ts, u), e);
        NotEmpty(level, Front(ts, u), e);
        TookTail(level, ts, e, u, stop);
      }
    }
  }

  // e has been read from the front of ts, and u is left
  lemma {:induction false} TookTail(level: nat, ts: seq<Lex>, e: Expr, u: seq<Lex>, stop: nat)
    requires Lexed(ts) && 1 <= level <= OR_LEVEL && |u| < |ts| && ts == Front(ts, u) + u && Lexed(u)
    requires Text(level, Front(ts, u), e)
    ensures TookAt(level, ts, TailAt(level, e, u, stop))
    decreases |u|, 2 * level
  {
    hide ParseLevel, ParseAnd, Text, Rank, ParseAt;
    if u != [] && Continues(level, u[0].kind) && ParseAt(level - 1, u[1..], stop).Some? {
      var k, right := u[0].kind, u[1..];
      var (b, w) := ParseAt(level - 1, right, stop).value;
      TookLevel(level - 1, right, stop);
      var e' := if level == AND_LEVEL then And(e, b) else if level == OR_LEVEL then Or(e, b) else Binary(k, e, b);
      OneMore(level, u[0], e', right, w, stop);
      assert u == [u[0]] + right;
      TookInfix(level, ts, u, w, e');
      TookTail(level, ts, e', w, stop);
    } else {
      TailEnds(level, e, u, stop);
    }
  }

  ghost predicate Continues(level: nat, k: nat) {
    if level == AND_LEVEL then k == ARITH_AND else if level == OR_LEVEL then k == ARITH_OR
    else 8 <= k < 24 && Rank(k) == level
  }

  lemma TailEnds(level: nat, e: Expr, u: seq<Lex>, stop: nat)
    requires Lexed(u) && 1 <= level <= OR_LEVEL
    requires u == [] || !Continues(level, u[0].kind) || ParseAt(level - 1, u[1..], stop).None?
    ensures TailAt(level, e, u, stop) == None || TailAt(level, e, u, stop) == Some((e, u))
  {
    hide Rank, Prec;
    if u != [] && 8 <= u[0].kind < 24 { RankPrec(u[0].kind); }
  }

  // the operator u[0] and its right operand
  lemma TookInfix(level: nat, ts: seq<Lex>, u: seq<Lex>, w: seq<Lex>, e: Expr)
    requires Lexed(ts) && 1 <= level <= OR_LEVEL && |w| < |u| < |ts| && ts == Front(ts, u) + u && Lexed(u)
    requires Infix(level, u[0].kind, e) && Text(level, Front(ts, u), e.a)
    requires u[1..] == Front(u[1..], w) + w && Text(level - 1, Front(u[1..], w), e.b)
    ensures ts == Front(ts, w) + w && Text(level, Front(ts, w), e)
  {
    hide Infix, Rank;
    var front, i := Front(ts, w), |ts| - |u|;
    assert front[..i] == Front(ts, u) && front[i + 1..] == Front(u[1..], w) && front[i] == u[0];
    assert InfixAt(level, front, e, i);
  }

  lemma {:induction false} TookCond(ts: seq<Lex>, stop: nat)
    requires Lexed(ts)
    ensures TookAt(COND_LEVEL, ts, ParseCond(ts, stop))
    decreases |ts|, 2 * COND_LEVEL + 1
  {
    hide ParseOr, ParseAssign, Rank, Text;
    TookLevel(OR_LEVEL, ts, stop);
    if ParseCond(ts, stop).Some? {
      var (c, u) := ParseOr(ts, stop).value;
      if u == [] || u[0].kind != ARITH_QMARK {
        Looser(OR_LEVEL, COND_LEVEL, Front(ts, u), c);
      } else {
        TookAssign(u[1..], stop);
        var (a, w) := ParseAssign(u[1..], stop).value;
        TookCond(w[1..], stop);
        var (b, x) := ParseCond(w[1..], stop).value;
        CondJoins(ts, u, w, x, c, a, b);
      }
    }
  }

  lemma CondJoins(ts: seq<Lex>, u: seq<Lex>, w: seq<Lex>, x: seq<Lex>, c: Expr, a: Expr, b: Expr)
    requires Lexed(ts) && |x| < |w| < |u| <= |ts| && Lexed(u) && Lexed(w)
    requires ts == Front(ts, u) + u && u[1..] == Front(u[1..], w) + w && w[1..] == Front(w[1..], x) + x
    requires u[0].kind == ARITH_QMARK && w[0].kind == ARITH_COLON && Text(OR_LEVEL, Front(ts, u), c)
    requires Text(ASSIGN_LEVEL, Front(u[1..], w), a) && Text(COND_LEVEL, Front(w[1..], x), b)
    ensures ts == Front(ts, x) + x && Text(COND_LEVEL, Front(ts, x), Cond(c, a, b))
  {
    hide Text;
    var s, t, r := Front(ts, u), Front(u[1..], w), Front(w[1..], x);
    assert u == [u[0]] + u[1..] && w == [w[0]] + w[1..];
    Pieces(ts, s, u[0], t, w[0], r, x);
    CondText(s, u[0], t, w[0], r, c, a, b);
  }

  lemma Pieces(ts: seq<Lex>, s: seq<Lex>, q: Lex, t: seq<Lex>, k: Lex, r: seq<Lex>, x: seq<Lex>)
    requires ts == s + ([q] + (t + ([k] + (r + x))))
    ensures |x| <= |ts| && Front(ts, x) == s + [q] + t + [k] + r && ts == Front(ts, x) + x
    ensures Lexed(ts) ==> Lexed(s) && Lexed(t) && Lexed(r) && LexOk(q) && LexOk(k)
  {
    hide LexOk;
    var all := s + [q] + t + [k] + r;
    assert ts == all + x;
    var u := [q] + (t + ([k] + (r + x)));
    Parts(s, u);
    Parts([q], t + ([k] + (r + x)));
    Parts(t, [k] + (r + x));
    Parts([k], r + x);
    Parts(r, x);
    assert [q][0] == q && [k][0] == k;
  }

  lemma Parts(a: seq<Lex>, b: seq<Lex>)
    ensures Lexed(a + b) <==> Lexed(a) && Lexed(b)
  {
    hide LexOk;
    var ab := a + b;
    assert (forall i :: 0 <= i < |a| ==> ab[i] == a[i]) && forall i :: 0 <= i < |b| ==> ab[|a| + i] == b[i];
  }

  lemma CondText(s: seq<Lex>, q: Lex, t: seq<Lex>, k: Lex, r: seq<Lex>, c: Expr, a: Expr, b: Expr)
    requires Lexed(s) && Lexed(t) && Lexed(r) && LexOk(q) && LexOk(k)
    requires q.kind == ARITH_QMARK && k.kind == ARITH_COLON
    requires Text(OR_LEVEL, s, c) && Text(ASSIGN_LEVEL, t, a) && Text(COND_LEVEL, r, b)
    ensures Text(COND_LEVEL, s + [q] + t + [k] + r, Cond(c, a, b))
  {
    hide Rank, Primary, InfixAt;
    var all, i, j := s + [q] + t + [k] + r, |s|, |s| + 1 + |t|;
    assert all[..i] == s && all[i + 1..j] == t && all[j + 1..] == r;
    assert CondAt(all, Cond(c, a, b), i, j);
  }

  lemma {:induction false} TookAssign(ts: seq<Lex>, stop: nat)
    requires Lexed(ts)
    ensures TookAt(ASSIGN_LEVEL, ts, ParseAssign(ts, stop))
    decreases |ts|, 2 * ASSIGN_LEVEL + 1
  {
    hide ParseCond, Rank, Primary, InfixAt, CondAt;
    if StartsAssign(ts) {
      TookAssign(ts[2..], stop);
      if ParseAssign(ts[2..], stop).Some? {
        var (e, u) := ParseAssign(ts[2..], stop).value;
        assert Front(ts, u)[2..] == Front(ts[2..], u);
      }
    } else {
      TookCond(ts, stop);
    }
  }

  // --- The grammar is what the parser reads ---

  lemma ReadsExactly(ts: seq<Lex>, e: Expr, stop: nat)
    requires Lexed(ts)
    ensures ParseAssign(ts, stop) == Some((e, [])) <==> Text(ASSIGN_LEVEL, ts, e)
  {
    hide ParseAssign, Text;
    AtAssign(ts, stop);
    if Text(ASSIGN_LEVEL, ts, e) {
      Reads(ASSIGN_LEVEL, ts, e, [], stop);
      assert ts + [] == ts;
    }
    TookAssign(ts, stop);
    assert Front(ts, []) == ts;
  }
}
