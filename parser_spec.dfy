// What the recursive-descent parser computes, as functions of the token
// sequence and a position in it.
//
// Each function mirrors one method of the source's `Parser`; a panic is `Err`.
// `Parsed.Ok` carries the value and the position after it.  The loops of
// `parse_add_sub`, `parse_mul_div`, the `repeat` body and `parse` are the
// accumulator functions `AddSubTail`, `MulDivTail`, `ParseBody` and
// `ParseProgram`.

module ParserSpec {
  import opened Options
  import opened Tokens
  import opened Ast

  datatype Parsed<T> = Ok(value: T, pos: nat) | Err

  predicate At(ts: seq<Token>, p: nat, t: Token) {
    p < |ts| && ts[p] == t
  }

  predicate IsOperator(t: Token) {
    t == Plus || t == Minus || t == Star || t == Slash
  }

  /** `parse_term`: a number or an identifier, nothing else. */
  function ParseTerm(ts: seq<Token>, p: nat): (r: Parsed<Expr>)
    ensures r.Ok? ==> r.pos == p + 1 <= |ts|
  {
    if p >= |ts| then Err
    else match ts[p]
      case Number(n) => Ok(Expr.Number(n), p + 1)
      case Ident(x) => Ok(Var(x), p + 1)
      case _ => Err
  }

  /**
   * The loop of `parse_mul_div` with `acc` built so far and the cursor at
   * `p`.  Its `Star` and `Slash` arms differ only in the operator they
   * record, so they are one branch here.
   */
  function MulDivTail(ts: seq<Token>, acc: Expr, p: nat): (r: Parsed<Expr>)
    ensures r.Ok? ==> p <= r.pos < |ts|
    decreases |ts| - p
  {
    if p >= |ts| then Err
    else if ts[p] == Star || ts[p] == Slash then
      var op := if ts[p] == Star then '*' else '/';
      match ParseTerm(ts, p + 1)
      case Err => Err
      case Ok(rhs, q) => MulDivTail(ts, Binary(acc, op, rhs), q)
    else Ok(acc, p)
  }

  /** `parse_mul_div`. */
  function ParseMulDiv(ts: seq<Token>, p: nat): (r: Parsed<Expr>)
    ensures r.Ok? ==> p < r.pos < |ts|
  {
    match ParseTerm(ts, p)
    case Err => Err
    case Ok(t, q) => MulDivTail(ts, t, q)
  }

  /** The loop of `parse_add_sub` with `acc` built so far and the cursor at `p`; its `Plus` and `Minus` arms are one branch. */
  function AddSubTail(ts: seq<Token>, acc: Expr, p: nat): (r: Parsed<Expr>)
    ensures r.Ok? ==> p <= r.pos < |ts|
    decreases |ts| - p
  {
    if p >= |ts| then Err
    else if ts[p] == Plus || ts[p] == Minus then
      var op := if ts[p] == Plus then '+' else '-';
      match ParseMulDiv(ts, p + 1)
      case Err => Err
      case Ok(rhs, q) => AddSubTail(ts, Binary(acc, op, rhs), q)
    else Ok(acc, p)
  }

  /** `parse_add_sub`, which is all of `parse_expr`. */
  function ParseAddSub(ts: seq<Token>, p: nat): (r: Parsed<Expr>)
    ensures r.Ok? ==> p < r.pos < |ts|
  {
    match ParseMulDiv(ts, p)
    case Err => Err
    case Ok(t, q) => AddSubTail(ts, t, q)
  }

  /** `expect_ident`. */
  function ExpectIdent(ts: seq<Token>, p: nat): (r: Parsed<string>)
    ensures r.Ok? ==> r.pos == p + 1 <= |ts| && ts[p] == Ident(r.value)
  {
    if p < |ts| && ts[p].Ident? then Ok(ts[p].name, p + 1) else Err
  }

  /** `name = expr ;`, the part shared by `cast_on` and `knit`. */
  function ParseBinding(ts: seq<Token>, p: nat): (r: Parsed<(string, Expr)>)
    ensures r.Ok? ==> p < r.pos <= |ts|
  {
    match ExpectIdent(ts, p)
    case Err => Err
    case Ok(name, q) =>
      if !At(ts, q, Equal) then Err
      else match ParseAddSub(ts, q + 1)
        case Err => Err
        case Ok(e, q') => if At(ts, q', Semicolon) then Ok((name, e), q' + 1) else Err
  }

  /**
   * `parse_stmt`.  It yields `None` exactly when the token under the cursor
   * is `EOF`, and then consumes nothing; a statement consumes at least one
   * token.
   */
  function ParseStmt(ts: seq<Token>, p: nat): (r: Parsed<Option<Stmt>>)
    ensures r.Ok? ==> p <= r.pos <= |ts|
    ensures r.Ok? && r.value.Some? ==> r.pos > p
    ensures r.Ok? && r.value.None? ==> r.pos == p
    decreases |ts| - p, 0
  {
    if p >= |ts| then Err
    else match ts[p]
      case CastOn =>
        (match ParseBinding(ts, p + 1)
         case Err => Err
         case Ok((name, e), q) => Ok(Some(Stmt.CastOn(name, e)), q))
      case Knit =>
        (match ParseBinding(ts, p + 1)
         case Err => Err
         case Ok((name, e), q) => Ok(Some(Stmt.Knit(name, e)), q))
      case Purl =>
        (match ParseAddSub(ts, p + 1)
         case Err => Err
         case Ok(e, q) => if At(ts, q, Semicolon) then Ok(Some(Stmt.Purl(e)), q + 1) else Err)
      case Repeat =>
        (match ParseAddSub(ts, p + 1)
         case Err => Err
         case Ok(count, q) =>
           if !At(ts, q, LBrace) then Err
           else match ParseBody(ts, [], q + 1)
             case Err => Err
             case Ok(body, q') =>
               if At(ts, q', RBrace) then Ok(Some(Stmt.Repeat(count, body)), q' + 1) else Err)
      case BindOff =>
        if At(ts, p + 1, Semicolon) then Ok(Some(Stmt.BindOff), p + 2) else Err
      case EOF => Ok(None, p)
      case _ => Err
  }

  /**
   * The body loop of a `repeat`: statements until `}` or `EOF`, which it
   * does not consume, appended to `acc`.
   */
  function ParseBody(ts: seq<Token>, acc: seq<Stmt>, p: nat): (r: Parsed<seq<Stmt>>)
    ensures r.Ok? ==> p <= r.pos < |ts|
    decreases |ts| - p, 1
  {
    if p >= |ts| then Err
    else if ts[p] == RBrace || ts[p] == EOF then Ok(acc, p)
    else match ParseStmt(ts, p)
      case Err => Err
      case Ok(None, q) => Ok(acc, q)
      case Ok(Some(s), q) => ParseBody(ts, acc + [s], q)
  }

  /** The loop of `parse`: statements until `EOF`, appended to `acc`. */
  function ParseProgram(ts: seq<Token>, acc: seq<Stmt>, p: nat): (r: Parsed<seq<Stmt>>)
    ensures r.Ok? ==> p <= r.pos < |ts|
    decreases |ts| - p
  {
    if p >= |ts| then Err
    else if ts[p] == EOF then Ok(acc, p)
    else match ParseStmt(ts, p)
      case Err => Err
      case Ok(None, q) => Ok(acc, q)
      case Ok(Some(s), q) => ParseProgram(ts, acc + [s], q)
  }

  /** `Parser::new(tokens).parse()`. */
  function Parse(ts: seq<Token>): Parsed<seq<Stmt>> {
    ParseProgram(ts, [], 0)
  }
}
