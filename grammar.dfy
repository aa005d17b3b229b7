// The language the parser accepts, stated independently of the parser, and
// the proof that the parser recognises exactly it.
//
// An expression of the shape `AddShaped` is what two-level precedence with
// left associativity produces: a left-leaning chain of `+`/`-` whose right
// operands are left-leaning chains of `*`/`/` over terms.  `ExprTokens`
// writes any such expression back as tokens.  The round-trip lemmas show the
// parser returns the expression for its tokens; the soundness lemmas show
// everything it returns has that shape and was spelled by exactly the tokens
// it consumed.  Together: the grammar is unambiguous, `*` and `/` bind
// tighter than `+` and `-`, and both levels associate to the left.

module Grammar {
  import opened Int64
  import opened Options
  import opened Tokens
  import opened Ast
  import opened ParserSpec

  predicate IsTerm(e: Expr) {
    e.Number? || e.Var?
  }

  /** A left-leaning chain of `*` and `/` over terms. */
  predicate MulShaped(e: Expr) {
    match e
    case Binary(l, op, r) => (op == '*' || op == '/') && MulShaped(l) && IsTerm(r)
    case _ => true
  }

  /** A left-leaning chain of `+` and `-` whose operands are `MulShaped`. */
  predicate AddShaped(e: Expr) {
    MulShaped(e) ||
    (e.Binary? && (e.op == '+' || e.op == '-') && AddShaped(e.left) && MulShaped(e.right))
  }

  predicate ValidOps(e: Expr) {
    match e
    case Binary(l, op, r) => IsOpChar(op) && ValidOps(l) && ValidOps(r)
    case _ => true
  }

  function OpToken(op: char): Token
    requires IsOpChar(op)
  {
    match op
    case '+' => Plus
    case '-' => Minus
    case '*' => Star
    case '/' => Slash
  }

  /** The tokens that spell an expression. */
  function ExprTokens(e: Expr): seq<Token>
    requires ValidOps(e)
  {
    match e
    case Number(n) => [Token.Number(n)]
    case Var(x) => [Ident(x)]
    case Binary(l, op, r) => ExprTokens(l) + [OpToken(op)] + ExprTokens(r)
  }

  /** Every operator in a shaped expression is one of the four. */
  lemma {:induction false} ShapedOps(e: Expr)
    requires AddShaped(e)
    ensures ValidOps(e)
  {
    if MulShaped(e) {
      MulShapedOps(e);
    } else {
      ShapedOps(e.left);
      MulShapedOps(e.right);
    }
  }

  lemma {:induction false} MulShapedOps(e: Expr)
    requires MulShaped(e)
    ensures ValidOps(e)
  {
    if e.Binary? {
      MulShapedOps(e.left);
    }
  }

  /** Statements whose expressions are all shaped. */
  predicate WellFormed(s: Stmt)
    decreases StmtSize(s), 0
  {
    match s
    case CastOn(_, e) => AddShaped(e) && ValidOps(e)
    case Knit(_, e) => AddShaped(e) && ValidOps(e)
    case Purl(e) => AddShaped(e) && ValidOps(e)
    case Repeat(c, body) => AddShaped(c) && ValidOps(c) && WellFormedBlock(body)
    case BindOff => true
  }

  /** Every statement of the block is well formed. */
  predicate WellFormedBlock(ss: seq<Stmt>)
    decreases BlockSize(ss), 1
  {
    ss == [] || (WellFormed(ss[0]) && WellFormedBlock(ss[1..]))
  }

  /** The tokens that spell `name = expr ;`. */
  function BindingTokens(x: string, e: Expr): seq<Token>
    requires ValidOps(e)
  {
    [Ident(x), Equal] + ExprTokens(e) + [Semicolon]
  }

  /** The tokens that spell a statement. */
  function StmtTokens(s: Stmt): seq<Token>
    requires WellFormed(s)
    decreases StmtSize(s), 0
  {
    match s
    case CastOn(x, e) => [Token.CastOn] + BindingTokens(x, e)
    case Knit(x, e) => [Token.Knit] + BindingTokens(x, e)
    case Purl(e) => [Token.Purl] + ExprTokens(e) + [Semicolon]
    case Repeat(c, body) => [Token.Repeat] + ExprTokens(c) + [LBrace] + BlockTokens(body) + [RBrace]
    case BindOff => [Token.BindOff, Semicolon]
  }

  /** The tokens that spell a sequence of statements. */
  function BlockTokens(ss: seq<Stmt>): seq<Token>
    requires WellFormedBlock(ss)
    decreases BlockSize(ss), 1
  {
    if ss == [] then [] else StmtTokens(ss[0]) + BlockTokens(ss[1..])
  }

  /** The tokens `u` stand at position `p` of `ts`, one after the other. */
  predicate TokensAt(ts: seq<Token>, p: nat, u: seq<Token>)
    decreases |u|
  {
    if u == [] then p <= |ts|
    else p < |ts| && ts[p] == u[0] && TokensAt(ts, p + 1, u[1..])
  }

  lemma {:induction false} TokensAtBound(ts: seq<Token>, p: nat, u: seq<Token>)
    requires TokensAt(ts, p, u)
    ensures p + |u| <= |ts|
    decreases |u|
  {
    if u != [] {
      TokensAtBound(ts, p + 1, u[1..]);
    }
  }

  /** `TokensAt` is the slice of `ts` from `p` being `u`. */
  lemma {:induction false} TokensAtSlice(ts: seq<Token>, p: nat, u: seq<Token>)
    ensures TokensAt(ts, p, u) <==> p + |u| <= |ts| && ts[p..p + |u|] == u
    decreases |u|
  {
    if u != [] {
      TokensAtSlice(ts, p + 1, u[1..]);
      if p + |u| <= |ts| {
        assert ts[p..p + |u|] == [ts[p]] + ts[p + 1..p + |u|];
      }
    }
  }

  lemma {:induction false} TokensAtConcat(ts: seq<Token>, p: nat, a: seq<Token>, b: seq<Token>)
    ensures TokensAt(ts, p, a + b) <==> TokensAt(ts, p, a) && TokensAt(ts, p + |a|, b)
    decreases |a|
  {
    if a == [] {
      assert a + b == b;
      if TokensAt(ts, p, b) {
        TokensAtBound(ts, p, b);
      }
    } else {
      assert (a + b)[0] == a[0] && (a + b)[1..] == a[1..] + b;
      TokensAtConcat(ts, p + 1, a[1..], b);
    }
  }

  lemma TokensAtOne(ts: seq<Token>, p: nat, t: Token)
    ensures TokensAt(ts, p, [t]) <==> At(ts, p, t)
  {
    assert [t][1..] == [];
  }

  lemma TokensAtPair(ts: seq<Token>, p: nat, a: Token, b: Token)
    ensures TokensAt(ts, p, [a, b]) <==> p + 1 < |ts| && ts[p] == a && ts[p + 1] == b
  {
    assert [a, b][1..] == [b];
    TokensAtOne(ts, p + 1, b);
  }

  lemma TokensAtSplit3(ts: seq<Token>, p: nat, a: seq<Token>, b: seq<Token>, c: seq<Token>)
    requires TokensAt(ts, p, a + b + c)
    ensures TokensAt(ts, p, a) && TokensAt(ts, p + |a|, b) && TokensAt(ts, p + |a| + |b|, c)
  {
    TokensAtConcat(ts, p, a + b, c);
    TokensAtConcat(ts, p, a, b);
  }

  lemma TermReads(ts: seq<Token>, p: nat, e: Expr)
    requires IsTerm(e) && TokensAt(ts, p, ExprTokens(e))
    ensures ParseTerm(ts, p) == Ok(e, p + 1)
  {
    TokensAtOne(ts, p, ExprTokens(e)[0]);
  }

  /** A parsed term is the number or name under the cursor. */
  lemma TermSound(ts: seq<Token>, p: nat)
    requires ParseTerm(ts, p).Ok?
    ensures IsTerm(ParseTerm(ts, p).value) && ExprTokens(ParseTerm(ts, p).value) == [ts[p]]
  {
  }

  // ---------------------------------------------------------------------
  // Round trip: the parser reads back the expression its tokens spell.
  // ---------------------------------------------------------------------

  /** `parse_mul_div` reads a whole `MulShaped` expression; its loop then stands after it. */
  lemma {:induction false} MulDivReads(ts: seq<Token>, p: nat, e: Expr)
    requires MulShaped(e) && ValidOps(e) && TokensAt(ts, p, ExprTokens(e))
    ensures ParseMulDiv(ts, p) == MulDivTail(ts, e, p + |ExprTokens(e)|)
  {
    if e.Binary? {
      var l, op, r := e.left, e.op, e.right;
      TokensAtSplit3(ts, p, ExprTokens(l), [OpToken(op)], ExprTokens(r));
      var k := p + |ExprTokens(l)|;
      TokensAtOne(ts, k, OpToken(op));
      MulDivReads(ts, p, l);
      TermReads(ts, k + 1, r);
      MulDivStep(ts, l, k);
    } else {
      TermReads(ts, p, e);
    }
  }

  /**
   * `parse_add_sub` reads a whole `AddShaped` expression followed by anything
   * but `*` or `/`; its loop then stands after it.
   */
  lemma {:induction false} AddSubReads(ts: seq<Token>, p: nat, e: Expr)
    requires AddShaped(e) && ValidOps(e) && TokensAt(ts, p, ExprTokens(e))
    requires p + |ExprTokens(e)| < |ts|
    requires ts[p + |ExprTokens(e)|] != Star && ts[p + |ExprTokens(e)|] != Slash
    ensures ParseAddSub(ts, p) == AddSubTail(ts, e, p + |ExprTokens(e)|)
  {
    if MulShaped(e) {
      MulOnlyReads(ts, p, e);
    } else {
      AddSplit(ts, p, e);
      AddSubReads(ts, p, e.left);
      AddOperandReads(ts, p, e);
    }
  }

  /** An expression without `+`/`-` at its top is read by the first `parse_mul_div` call alone. */
  lemma MulOnlyReads(ts: seq<Token>, p: nat, e: Expr)
    requires MulShaped(e) && ValidOps(e) && TokensAt(ts, p, ExprTokens(e))
    requires p + |ExprTokens(e)| < |ts|
    requires ts[p + |ExprTokens(e)|] != Star && ts[p + |ExprTokens(e)|] != Slash
    ensures ParseAddSub(ts, p) == AddSubTail(ts, e, p + |ExprTokens(e)|)
  {
    MulDivReads(ts, p, e);
    var q := p + |ExprTokens(e)|;
    MulDivStops(ts, e, q);
    AddSubStart(ts, p, e, q);
  }

  /** The `parse_mul_div` loop stops at anything but `*` or `/`. */
  lemma MulDivStops(ts: seq<Token>, acc: Expr, q: nat)
    requires q < |ts| && ts[q] != Star && ts[q] != Slash
    ensures MulDivTail(ts, acc, q) == Ok(acc, q)
  {
  }

  /** `parse_add_sub` hands what its first `parse_mul_div` call read to its loop. */
  lemma AddSubStart(ts: seq<Token>, p: nat, t: Expr, q: nat)
    requires ParseMulDiv(ts, p) == Ok(t, q)
    ensures ParseAddSub(ts, p) == AddSubTail(ts, t, q)
  {
  }

  /** A shaped `+`/`-` expression spelled at `p`: its left side, operator and right side in a row. */
  lemma AddSplit(ts: seq<Token>, p: nat, e: Expr)
    requires AddShaped(e) && !MulShaped(e) && ValidOps(e) && TokensAt(ts, p, ExprTokens(e))
    ensures e.Binary? && (e.op == '+' || e.op == '-')
    ensures AddShaped(e.left) && ValidOps(e.left) && MulShaped(e.right) && ValidOps(e.right)
    ensures TokensAt(ts, p, ExprTokens(e.left))
    ensures TokensAt(ts, p + |ExprTokens(e.left)|, [OpToken(e.op)])
    ensures TokensAt(ts, p + |ExprTokens(e.left)| + 1, ExprTokens(e.right))
    ensures var k := p + |ExprTokens(e.left)|;
            k < |ts| && (ts[k] == Plus || ts[k] == Minus) && p + |ExprTokens(e)| == k + 1 + |ExprTokens(e.right)|
  {
    TokensAtSplit3(ts, p, ExprTokens(e.left), [OpToken(e.op)], ExprTokens(e.right));
    TokensAtOne(ts, p + |ExprTokens(e.left)|, OpToken(e.op));
  }

  /** The last `+`/`-` round of `parse_add_sub` over an expression's tokens. */
  lemma AddOperandReads(ts: seq<Token>, p: nat, e: Expr)
    requires e.Binary? && (e.op == '+' || e.op == '-') && MulShaped(e.right) && ValidOps(e)
    requires TokensAt(ts, p + |ExprTokens(e.left)|, [OpToken(e.op)])
    requires TokensAt(ts, p + |ExprTokens(e.left)| + 1, ExprTokens(e.right))
    requires p + |ExprTokens(e)| < |ts|
    requires ts[p + |ExprTokens(e)|] != Star && ts[p + |ExprTokens(e)|] != Slash
    ensures AddSubTail(ts, e.left, p + |ExprTokens(e.left)|) == AddSubTail(ts, e, p + |ExprTokens(e)|)
  {
    var k := p + |ExprTokens(e.left)|;
    var q := p + |ExprTokens(e)|;
    TokensAtOne(ts, k, OpToken(e.op));
    MulDivReads(ts, k + 1, e.right);
    assert MulDivTail(ts, e.right, q) == Ok(e.right, q);
    AddSubStep(ts, e.left, k);
  }

  /**
   * The parser reads back exactly the expression that its tokens spell,
   * when they are followed by anything but an operator.
   */
  lemma ExprRoundTrip(ts: seq<Token>, p: nat, e: Expr)
    requires AddShaped(e) && ValidOps(e) && TokensAt(ts, p, ExprTokens(e))
    requires p + |ExprTokens(e)| < |ts| && !IsOperator(ts[p + |ExprTokens(e)|])
    ensures ParseAddSub(ts, p) == Ok(e, p + |ExprTokens(e)|)
  {
    AddSubReads(ts, p, e);
  }

  // ---------------------------------------------------------------------
  // Soundness: what the parser returns is shaped and spelled by what it read.
  // ---------------------------------------------------------------------

  /** One round of the `parse_mul_div` loop. */
  lemma MulDivStep(ts: seq<Token>, acc: Expr, p: nat)
    requires p < |ts| && (ts[p] == Star || ts[p] == Slash) && ParseTerm(ts, p + 1).Ok?
    ensures var op := if ts[p] == Star then '*' else '/';
            MulDivTail(ts, acc, p) == MulDivTail(ts, Binary(acc, op, ParseTerm(ts, p + 1).value), p + 2)
  {
  }

  /** One round of the `parse_add_sub` loop. */
  lemma AddSubStep(ts: seq<Token>, acc: Expr, p: nat)
    requires p < |ts| && (ts[p] == Plus || ts[p] == Minus) && ParseMulDiv(ts, p + 1).Ok?
    ensures var op := if ts[p] == Plus then '+' else '-';
            var m := ParseMulDiv(ts, p + 1);
            AddSubTail(ts, acc, p) == AddSubTail(ts, Binary(acc, op, m.value), m.pos)
  {
  }

  /** One round of the `parse_add_sub` loop, the right operand's parse given as `rhs`. */
  lemma AddSubRound(ts: seq<Token>, acc: Expr, p: nat, op: char, rhs: Parsed<Expr>)
    requires p < |ts| && op == (if ts[p] == Plus then '+' else '-')
    requires (ts[p] == Plus || ts[p] == Minus) && rhs == ParseMulDiv(ts, p + 1)
    ensures AddSubTail(ts, acc, p) == if rhs.Err? then Err else AddSubTail(ts, Binary(acc, op, rhs.value), rhs.pos)
  {
  }

  /** One round of the `parse_mul_div` loop, the right operand's parse given as `rhs`. */
  lemma MulDivRound(ts: seq<Token>, acc: Expr, p: nat, op: char, rhs: Parsed<Expr>)
    requires p < |ts| && op == (if ts[p] == Star then '*' else '/')
    requires (ts[p] == Star || ts[p] == Slash) && rhs == ParseTerm(ts, p + 1)
    ensures MulDivTail(ts, acc, p) == if rhs.Err? then Err else MulDivTail(ts, Binary(acc, op, rhs.value), rhs.pos)
  {
  }

  lemma TokensAtJoin3(ts: seq<Token>, p: nat, a: seq<Token>, b: seq<Token>, c: seq<Token>)
    requires TokensAt(ts, p, a) && TokensAt(ts, p + |a|, b) && TokensAt(ts, p + |a| + |b|, c)
    ensures TokensAt(ts, p, a + b + c)
  {
    TokensAtConcat(ts, p, a, b);
    TokensAtConcat(ts, p, a + b, c);
  }

  /** `acc` spelled from `p0` up to the cursor `p`. */
  predicate SpelledUpTo(ts: seq<Token>, p0: nat, acc: Expr, p: nat) {
    ValidOps(acc) && TokensAt(ts, p0, ExprTokens(acc)) && p == p0 + |ExprTokens(acc)|
  }

  lemma {:induction false} MulDivTailSound(ts: seq<Token>, p0: nat, acc: Expr, p: nat)
    requires MulShaped(acc) && SpelledUpTo(ts, p0, acc, p) && MulDivTail(ts, acc, p).Ok?
    ensures var r := MulDivTail(ts, acc, p);
            MulShaped(r.value) && SpelledUpTo(ts, p0, r.value, r.pos) &&
            ts[r.pos] != Star && ts[r.pos] != Slash
    decreases |ts| - p
  {
    if ts[p] == Star || ts[p] == Slash {
      var acc' := MulOperandSound(ts, p0, acc, p);
      MulDivTailSound(ts, p0, acc', p + 2);
    }
  }

  /** One `*`/`/` round of `parse_mul_div` keeps the accumulator shaped and spelled by what was read. */
  lemma MulOperandSound(ts: seq<Token>, p0: nat, acc: Expr, p: nat) returns (acc': Expr)
    requires MulShaped(acc) && SpelledUpTo(ts, p0, acc, p) && MulDivTail(ts, acc, p).Ok?
    requires ts[p] == Star || ts[p] == Slash
    ensures MulDivTail(ts, acc, p) == MulDivTail(ts, acc', p + 2)
    ensures MulShaped(acc') && SpelledUpTo(ts, p0, acc', p + 2)
  {
    var op := if ts[p] == Star then '*' else '/';
    var t := ParseTerm(ts, p + 1);
    acc' := Binary(acc, op, t.value);
    MulDivStep(ts, acc, p);
    TermSound(ts, p + 1);
    TokensAtOne(ts, p, OpToken(op));
    TokensAtOne(ts, p + 1, ts[p + 1]);
    TokensAtJoin3(ts, p0, ExprTokens(acc), [OpToken(op)], ExprTokens(t.value));
  }

  /** What `parse_mul_div` returns is `MulShaped` and spelled by exactly the tokens it read. */
  lemma MulDivSound(ts: seq<Token>, p: nat)
    requires ParseMulDiv(ts, p).Ok?
    ensures var r := ParseMulDiv(ts, p);
            MulShaped(r.value) && SpelledUpTo(ts, p, r.value, r.pos) &&
            ts[r.pos] != Star && ts[r.pos] != Slash
  {
    var t := ParseTerm(ts, p).value;
    TermSound(ts, p);
    TokensAtOne(ts, p, ts[p]);
    MulDivTailSound(ts, p, t, p + 1);
  }

  lemma {:induction false} AddSubTailSound(ts: seq<Token>, p0: nat, acc: Expr, p: nat)
    requires AddShaped(acc) && SpelledUpTo(ts, p0, acc, p) && AddSubTail(ts, acc, p).Ok?
    requires ts[p] != Star && ts[p] != Slash
    ensures var r := AddSubTail(ts, acc, p);
            AddShaped(r.value) && SpelledUpTo(ts, p0, r.value, r.pos) && !IsOperator(ts[r.pos])
    decreases |ts| - p
  {
    if ts[p] == Plus || ts[p] == Minus {
      var acc' := AddOperandSound(ts, p0, acc, p);
      AddSubTailSound(ts, p0, acc', ParseMulDiv(ts, p + 1).pos);
    }
  }

  /** One `+`/`-` round of `parse_add_sub` keeps the accumulator shaped and spelled by what was read. */
  lemma AddOperandSound(ts: seq<Token>, p0: nat, acc: Expr, p: nat) returns (acc': Expr)
    requires AddShaped(acc) && SpelledUpTo(ts, p0, acc, p) && AddSubTail(ts, acc, p).Ok?
    requires ts[p] == Plus || ts[p] == Minus
    ensures ParseMulDiv(ts, p + 1).Ok?
    ensures var m := ParseMulDiv(ts, p + 1);
            AddSubTail(ts, acc, p) == AddSubTail(ts, acc', m.pos) &&
            AddShaped(acc') && SpelledUpTo(ts, p0, acc', m.pos) && ts[m.pos] != Star && ts[m.pos] != Slash
  {
    var op := if ts[p] == Plus then '+' else '-';
    var m := ParseMulDiv(ts, p + 1);
    MulDivSound(ts, p + 1);
    acc' := Binary(acc, op, m.value);
    AddSubStep(ts, acc, p);
    TokensAtOne(ts, p, OpToken(op));
    TokensAtJoin3(ts, p0, ExprTokens(acc), [OpToken(op)], ExprTokens(m.value));
  }

  /**
   * What `parse_expr` returns is `AddShaped` (so every operator in it is one
   * of `+ - * /`), is spelled by exactly the tokens it read, and is followed
   * by a token that is no operator.
   */
  lemma ExprSound(ts: seq<Token>, p: nat)
    requires ParseAddSub(ts, p).Ok?
    ensures var r := ParseAddSub(ts, p);
            AddShaped(r.value) && SpelledUpTo(ts, p, r.value, r.pos) && !IsOperator(ts[r.pos])
  {
    var m := ParseMulDiv(ts, p);
    MulDivSound(ts, p);
    AddSubTailSound(ts, p, m.value, m.pos);
  }

  /** Distinct shaped expressions are spelled differently: the grammar is unambiguous. */
  lemma ExprTokensInjective(e1: Expr, e2: Expr)
    requires AddShaped(e1) && ValidOps(e1) && AddShaped(e2) && ValidOps(e2)
    requires ExprTokens(e1) == ExprTokens(e2)
    ensures e1 == e2
  {
    var ts := ExprTokens(e1) + [Semicolon];
    assert ts[0..|ExprTokens(e1)|] == ExprTokens(e1);
    TokensAtSlice(ts, 0, ExprTokens(e1));
    ExprRoundTrip(ts, 0, e1);
    ExprRoundTrip(ts, 0, e2);
  }

  /** `a - b - c` is `(a - b) - c`: a chain of the same level leans left. */
  lemma LeftAssociative(a: string, b: string, c: string)
    ensures ParseAddSub([Ident(a), Minus, Ident(b), Minus, Ident(c), Semicolon], 0)
         == Ok(Binary(Binary(Var(a), '-', Var(b)), '-', Var(c)), 5)
  {
    var e := Binary(Binary(Var(a), '-', Var(b)), '-', Var(c));
    var ts := [Ident(a), Minus, Ident(b), Minus, Ident(c), Semicolon];
    assert AddShaped(e.left) && ValidOps(e.left);
    assert ExprTokens(e.left) == [Ident(a), Minus, Ident(b)];
    assert ts[0..5] == ExprTokens(e);
    TokensAtSlice(ts, 0, ExprTokens(e));
    ExprRoundTrip(ts, 0, e);
  }

  /** `a + b * c` is `a + (b * c)`: `*` binds tighter than `+`. */
  lemma MulBindsTighter(a: i64, b: i64, c: i64)
    ensures ParseAddSub([Token.Number(a), Plus, Token.Number(b), Star, Token.Number(c), Semicolon], 0)
         == Ok(Binary(Expr.Number(a), '+', Binary(Expr.Number(b), '*', Expr.Number(c))), 5)
  {
    var m := Binary(Expr.Number(b), '*', Expr.Number(c));
    var e := Binary(Expr.Number(a), '+', m);
    var ts := [Token.Number(a), Plus, Token.Number(b), Star, Token.Number(c), Semicolon];
    assert ValidOps(Expr.Number(b)) && ValidOps(Expr.Number(c));
    assert MulShaped(m) && ValidOps(m);
    assert ExprTokens(m) == [Token.Number(b), Star, Token.Number(c)];
    assert ts[0..5] == ExprTokens(e);
    TokensAtSlice(ts, 0, ExprTokens(e));
    ExprRoundTrip(ts, 0, e);
  }

  /** `a * b + c` is `(a * b) + c`. */
  lemma MulBindsTighterLeft(a: i64, b: i64, c: i64)
    ensures ParseAddSub([Token.Number(a), Star, Token.Number(b), Plus, Token.Number(c), Semicolon], 0)
         == Ok(Binary(Binary(Expr.Number(a), '*', Expr.Number(b)), '+', Expr.Number(c)), 5)
  {
    var m := Binary(Expr.Number(a), '*', Expr.Number(b));
    var e := Binary(m, '+', Expr.Number(c));
    var ts := [Token.Number(a), Star, Token.Number(b), Plus, Token.Number(c), Semicolon];
    assert ValidOps(Expr.Number(a)) && ValidOps(Expr.Number(b));
    assert MulShaped(m) && ValidOps(m);
    assert ExprTokens(m) == [Token.Number(a), Star, Token.Number(b)];
    assert ts[0..5] == ExprTokens(e);
    TokensAtSlice(ts, 0, ExprTokens(e));
    ExprRoundTrip(ts, 0, e);
  }

  // ---------------------------------------------------------------------
  // Statements and programs.
  // ---------------------------------------------------------------------

  lemma BlockCons(s: Stmt, rest: seq<Stmt>)
    requires WellFormed(s) && WellFormedBlock(rest)
    ensures WellFormedBlock([s] + rest)
    ensures BlockTokens([s] + rest) == StmtTokens(s) + BlockTokens(rest)
  {
    var ss := [s] + rest;
    assert ss[0] == s && ss[1..] == rest;
  }

  // One step of `parse_stmt` for each keyword.

  lemma BindingStep(ts: seq<Token>, p: nat)
    requires p < |ts| && (ts[p] == Token.CastOn || ts[p] == Token.Knit)
    ensures var b := ParseBinding(ts, p + 1);
            ParseStmt(ts, p) ==
              if b.Err? then Err
              else if ts[p] == Token.CastOn then Ok(Some(Stmt.CastOn(b.value.0, b.value.1)), b.pos)
              else Ok(Some(Stmt.Knit(b.value.0, b.value.1)), b.pos)
  {
  }

  lemma PurlStep(ts: seq<Token>, p: nat)
    requires p < |ts| && ts[p] == Token.Purl
    ensures var e := ParseAddSub(ts, p + 1);
            ParseStmt(ts, p) ==
              if e.Ok? && At(ts, e.pos, Semicolon) then Ok(Some(Stmt.Purl(e.value)), e.pos + 1) else Err
  {
  }

  lemma RepeatStep(ts: seq<Token>, p: nat)
    requires p < |ts| && ts[p] == Token.Repeat
    ensures var c := ParseAddSub(ts, p + 1);
            ParseStmt(ts, p) ==
              if c.Err? || !At(ts, c.pos, LBrace) then Err
              else
                var b := ParseBody(ts, [], c.pos + 1);
                if b.Ok? && At(ts, b.pos, RBrace) then Ok(Some(Stmt.Repeat(c.value, b.value)), b.pos + 1)
                else Err
  {
  }

  lemma BindOffStep(ts: seq<Token>, p: nat)
    requires p < |ts| && ts[p] == Token.BindOff
    ensures ParseStmt(ts, p) == if At(ts, p + 1, Semicolon) then Ok(Some(Stmt.BindOff), p + 2) else Err
  {
  }

  /** Anything but a keyword or `EOF` where a statement starts is an error: a name, a number, a stray `}`. */
  lemma UnknownStart(ts: seq<Token>, p: nat)
    requires p < |ts| && !IsKeyword(ts[p]) && ts[p] != EOF
    ensures ParseStmt(ts, p) == Err
  {
  }

  /** A `repeat` whose count and body parsed: it stands or falls with the closing `}`. */
  lemma RepeatArm(ts: seq<Token>, p: nat, c: Expr, k: nat, body: seq<Stmt>, m: nat)
    requires p < |ts| && ts[p] == Token.Repeat
    requires ParseAddSub(ts, p + 1) == Ok(c, k) && At(ts, k, LBrace)
    requires ParseBody(ts, [], k + 1) == Ok(body, m)
    ensures ParseStmt(ts, p) == if At(ts, m, RBrace) then Ok(Some(Stmt.Repeat(c, body)), m + 1) else Err
  {
  }

  lemma BodyStep(ts: seq<Token>, acc: seq<Stmt>, p: nat, s: Stmt, q: nat)
    requires p < |ts| && ts[p] != RBrace && ts[p] != EOF && ParseStmt(ts, p) == Ok(Some(s), q)
    ensures ParseBody(ts, acc, p) == ParseBody(ts, acc + [s], q)
  {
  }

  lemma ProgramStep(ts: seq<Token>, acc: seq<Stmt>, p: nat, s: Stmt, q: nat)
    requires p < |ts| && ts[p] != EOF && ParseStmt(ts, p) == Ok(Some(s), q)
    ensures ParseProgram(ts, acc, p) == ParseProgram(ts, acc + [s], q)
  {
  }

  // Soundness for statements.

  /** Statement `s` is spelled from `p` up to `q`. */
  predicate StmtSpelled(ts: seq<Token>, p: nat, s: Stmt, q: nat) {
    WellFormed(s) && TokensAt(ts, p, StmtTokens(s)) && q == p + |StmtTokens(s)|
  }

  /** Block `ss` is spelled from `p` up to `q`. */
  predicate BlockSpelled(ts: seq<Token>, p: nat, ss: seq<Stmt>, q: nat) {
    WellFormedBlock(ss) && TokensAt(ts, p, BlockTokens(ss)) && q == p + |BlockTokens(ss)|
  }

  lemma TokensAtTwo(ts: seq<Token>, p: nat)
    requires p + 2 <= |ts|
    ensures TokensAt(ts, p, [ts[p], ts[p + 1]])
  {
    TokensAtPair(ts, p, ts[p], ts[p + 1]);
  }

  /** What `name = expr ;` parsing returns is spelled by exactly the tokens it read. */
  lemma BindingSound(ts: seq<Token>, p: nat)
    requires ParseBinding(ts, p).Ok?
    ensures var r := ParseBinding(ts, p);
            AddShaped(r.value.1) && ValidOps(r.value.1) &&
            TokensAt(ts, p, BindingTokens(r.value.0, r.value.1)) &&
            r.pos == p + |BindingTokens(r.value.0, r.value.1)|
  {
    var e := ParseAddSub(ts, p + 2);
    ExprSound(ts, p + 2);
    TokensAtTwo(ts, p);
    TokensAtOne(ts, e.pos, Semicolon);
    TokensAtJoin3(ts, p, [ts[p], ts[p + 1]], ExprTokens(e.value), [Semicolon]);
  }

  lemma BindingStmtSound(ts: seq<Token>, p: nat)
    requires p < |ts| && (ts[p] == Token.CastOn || ts[p] == Token.Knit)
    requires ParseStmt(ts, p).Ok?
    ensures var r := ParseStmt(ts, p);
            r.value.Some? && StmtSpelled(ts, p, r.value.value, r.pos)
  {
    BindingStep(ts, p);
    var b := ParseBinding(ts, p + 1);
    BindingSound(ts, p + 1);
    TokensAtOne(ts, p, ts[p]);
    TokensAtConcat(ts, p, [ts[p]], BindingTokens(b.value.0, b.value.1));
  }

  lemma PurlSound(ts: seq<Token>, p: nat)
    requires p < |ts| && ts[p] == Token.Purl && ParseStmt(ts, p).Ok?
    ensures var r := ParseStmt(ts, p);
            r.value.Some? && StmtSpelled(ts, p, r.value.value, r.pos)
  {
    PurlStep(ts, p);
    var e := ParseAddSub(ts, p + 1);
    ExprSound(ts, p + 1);
    TokensAtOne(ts, p, Token.Purl);
    TokensAtOne(ts, e.pos, Semicolon);
    TokensAtJoin3(ts, p, [Token.Purl], ExprTokens(e.value), [Semicolon]);
  }

  lemma BindOffSound(ts: seq<Token>, p: nat)
    requires p < |ts| && ts[p] == Token.BindOff && ParseStmt(ts, p).Ok?
    ensures var r := ParseStmt(ts, p);
            r.value.Some? && StmtSpelled(ts, p, r.value.value, r.pos)
  {
    TokensAtTwo(ts, p);
  }

  /** A `repeat` spelled by its count, `{`, its body and `}`. */
  lemma RepeatTokens(ts: seq<Token>, p: nat, c: Expr, k: nat, body: seq<Stmt>, q: nat)
    requires p < |ts| && ts[p] == Token.Repeat && At(ts, k, LBrace) && At(ts, q, RBrace)
    requires AddShaped(c) && SpelledUpTo(ts, p + 1, c, k)
    requires BlockSpelled(ts, k + 1, body, q)
    ensures StmtSpelled(ts, p, Stmt.Repeat(c, body), q + 1)
  {
    TokensAtOne(ts, p, Token.Repeat);
    TokensAtOne(ts, k, LBrace);
    TokensAtOne(ts, q, RBrace);
    TokensAtJoin3(ts, p, [Token.Repeat], ExprTokens(c), [LBrace]);
    TokensAtJoin3(ts, p, [Token.Repeat] + ExprTokens(c) + [LBrace], BlockTokens(body), [RBrace]);
  }

  lemma RepeatSound(ts: seq<Token>, p: nat, c: Expr, k: nat, body: seq<Stmt>, q: nat)
    requires p < |ts| && ts[p] == Token.Repeat
    requires ParseAddSub(ts, p + 1) == Ok(c, k) && At(ts, k, LBrace)
    requires BlockSpelled(ts, k + 1, body, q) && At(ts, q, RBrace)
    ensures StmtSpelled(ts, p, Stmt.Repeat(c, body), q + 1)
  {
    ExprSound(ts, p + 1);
    RepeatTokens(ts, p, c, k, body, q);
  }

  /** What `parse_stmt` returns is well formed and spelled by exactly the tokens it read. */
  lemma {:induction false} StmtSound(ts: seq<Token>, p: nat)
    requires ParseStmt(ts, p).Ok? && ParseStmt(ts, p).value.Some?
    ensures var r := ParseStmt(ts, p);
            StmtSpelled(ts, p, r.value.value, r.pos)
    decreases |ts| - p, 1
  {
    StmtStart(ts, p);
    if ts[p] == Token.Repeat {
      RepeatStmtSound(ts, p);
    } else {
      FlatStmtSound(ts, p);
    }
  }

  lemma {:induction false} RepeatStmtSound(ts: seq<Token>, p: nat)
    requires p < |ts| && ts[p] == Token.Repeat && ParseStmt(ts, p).Ok?
    ensures var r := ParseStmt(ts, p);
            r.value.Some? && StmtSpelled(ts, p, r.value.value, r.pos)
    decreases |ts| - p, 0
  {
    var c, k, body, q := RepeatParsed(ts, p);
    BodySound(ts, [], k + 1);
    assert body[0..] == body;
    RepeatSound(ts, p, c, k, body, q);
  }

  /** The parts of a `repeat` statement that parsed. */
  lemma RepeatParsed(ts: seq<Token>, p: nat) returns (c: Expr, k: nat, body: seq<Stmt>, q: nat)
    requires p < |ts| && ts[p] == Token.Repeat && ParseStmt(ts, p).Ok?
    ensures ParseAddSub(ts, p + 1) == Ok(c, k) && At(ts, k, LBrace)
    ensures ParseBody(ts, [], k + 1) == Ok(body, q) && At(ts, q, RBrace)
    ensures ParseStmt(ts, p) == Ok(Some(Stmt.Repeat(c, body)), q + 1)
  {
    RepeatStep(ts, p);
    c, k := ParseAddSub(ts, p + 1).value, ParseAddSub(ts, p + 1).pos;
    body, q := ParseBody(ts, [], k + 1).value, ParseBody(ts, [], k + 1).pos;
  }

  lemma FlatStmtSound(ts: seq<Token>, p: nat)
    requires p < |ts| && ts[p] != Token.Repeat
    requires ParseStmt(ts, p).Ok? && ParseStmt(ts, p).value.Some?
    ensures var r := ParseStmt(ts, p);
            StmtSpelled(ts, p, r.value.value, r.pos)
  {
    StmtStart(ts, p);
    if ts[p] == Token.CastOn || ts[p] == Token.Knit {
      BindingStmtSound(ts, p);
    } else if ts[p] == Token.Purl {
      PurlSound(ts, p);
    } else {
      BindOffSound(ts, p);
    }
  }

  /** What the body loop returns extends `acc` by well-formed statements spelled by exactly the tokens it read. */
  lemma {:induction false} BodySound(ts: seq<Token>, acc: seq<Stmt>, p: nat)
    requires ParseBody(ts, acc, p).Ok?
    ensures var r := ParseBody(ts, acc, p);
            |acc| <= |r.value| && r.value[..|acc|] == acc &&
            (ts[r.pos] == RBrace || ts[r.pos] == EOF) &&
            BlockSpelled(ts, p, r.value[|acc|..], r.pos)
    decreases |ts| - p, 2
  {
    var r := ParseBody(ts, acc, p);
    if ts[p] == RBrace || ts[p] == EOF {
      assert r.value[|acc|..] == [];
    } else {
      var t := ParseStmt(ts, p);
      var s := t.value.value;
      BodyStep(ts, acc, p, s, t.pos);
      StmtSound(ts, p);
      BodySound(ts, acc + [s], t.pos);
      ExtendSound(ts, acc, s, r.value, p, t.pos, r.pos);
    }
  }

  /** Gluing one statement in front of the rest a loop collected. */
  lemma ExtendSound(ts: seq<Token>, acc: seq<Stmt>, s: Stmt, ss: seq<Stmt>, p: nat, m: nat, q: nat)
    requires StmtSpelled(ts, p, s, m)
    requires |acc + [s]| <= |ss| && ss[..|acc| + 1] == acc + [s]
    requires BlockSpelled(ts, m, ss[|acc| + 1..], q)
    ensures |acc| <= |ss| && ss[..|acc|] == acc
    ensures BlockSpelled(ts, p, ss[|acc|..], q)
  {
    assert ss[..|acc|] == (acc + [s])[..|acc|];
    assert ss[|acc|..] == [s] + ss[|acc| + 1..];
    BlockCons(s, ss[|acc| + 1..]);
    TokensAtConcat(ts, p, StmtTokens(s), BlockTokens(ss[|acc| + 1..]));
  }

  lemma {:induction false} ProgramSound(ts: seq<Token>, acc: seq<Stmt>, p: nat)
    requires ParseProgram(ts, acc, p).Ok?
    ensures var r := ParseProgram(ts, acc, p);
            |acc| <= |r.value| && r.value[..|acc|] == acc && ts[r.pos] == EOF &&
            BlockSpelled(ts, p, r.value[|acc|..], r.pos)
    decreases |ts| - p
  {
    var r := ParseProgram(ts, acc, p);
    if ts[p] == EOF {
      assert r.value[|acc|..] == [];
    } else {
      var t := ParseStmt(ts, p);
      var s := t.value.value;
      ProgramStep(ts, acc, p, s, t.pos);
      StmtSound(ts, p);
      ProgramSound(ts, acc + [s], t.pos);
      ExtendSound(ts, acc, s, r.value, p, t.pos, r.pos);
    }
  }

  /**
   * What `parse` returns is a well-formed program, spelled by exactly the
   * tokens before the `EOF` where it stopped.
   */
  lemma ParseSound(ts: seq<Token>)
    requires Parse(ts).Ok?
    ensures var r := Parse(ts);
            WellFormedBlock(r.value) && ts[r.pos] == EOF && ts[..r.pos] == BlockTokens(r.value)
  {
    ProgramSound(ts, [], 0);
    var r := Parse(ts);
    assert r.value[0..] == r.value;
    TokensAtSlice(ts, 0, BlockTokens(r.value));
    assert ts[..r.pos] == ts[0..r.pos];
  }

  /** On the lexer's output, whose only `EOF` is the last token, a successful parse reads every token before it. */
  lemma ParseReadsAll(ts: seq<Token>)
    requires |ts| > 0 && forall i | 0 <= i < |ts| - 1 :: ts[i] != EOF
    requires Parse(ts).Ok?
    ensures Parse(ts).pos == |ts| - 1
  {
    ParseSound(ts);
  }

  /** `parse_stmt` yields no statement exactly at `EOF`. */
  lemma NoStmtAtEof(ts: seq<Token>, p: nat)
    ensures ParseStmt(ts, p).Ok? && ParseStmt(ts, p).value.None? <==> At(ts, p, EOF)
  {
  }

  /** A statement starts with a keyword or is the end; anything else there (a stray `}`, a name, a number) is an error. */
  lemma StmtStart(ts: seq<Token>, p: nat)
    requires ParseStmt(ts, p).Ok?
    ensures p < |ts| && (IsKeyword(ts[p]) || ts[p] == EOF)
  {
  }
}
