// The syntax tree shared by the parser and the interpreter.

module Ast {
  import opened Int64

  datatype Expr =
    | Number(value: i64)
    | Var(name: string)
    | Binary(left: Expr, op: char, right: Expr)

  /**
   * The five statements: two bindings (`cast_on` and `knit`), printing a
   * value (`purl`), a counted loop (`repeat`) and stopping (`bind_off`).
   */
  datatype Stmt =
    | CastOn(name: string, expr: Expr)
    | Knit(name: string, expr: Expr)
    | Purl(expr: Expr)
    | Repeat(count: Expr, body: seq<Stmt>)
    | BindOff

  /** A size that shrinks from a `repeat` to its body and from a block to its statements. */
  function StmtSize(s: Stmt): (n: nat)
    ensures n >= 1
  {
    match s
    case Repeat(_, body) => 1 + BlockSize(body)
    case _ => 1
  }

  function BlockSize(ss: seq<Stmt>): nat {
    if ss == [] then 0 else StmtSize(ss[0]) + BlockSize(ss[1..])
  }

  /** Each statement of a block is no larger than the block. */
  lemma {:induction false} ElementSize(ss: seq<Stmt>, j: nat)
    requires j < |ss|
    ensures StmtSize(ss[j]) <= BlockSize(ss)
    decreases j
  {
    if j > 0 {
      ElementSize(ss[1..], j - 1);
    }
  }
}
