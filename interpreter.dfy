// The interpreter as the source writes it: an object whose variable map
// `exec_stmt` updates in place, with nested loops for `repeat` and an early
// return on `bind_off`.  What `println!` prints is appended to `out`.  Each
// method is proved to leave the state that `Semantics` describes.

module Interpreting {
  import opened Int64
  import opened Ast
  import opened Semantics

  class Interpreter {
    var vars: Env
    var out: seq<i64>

    constructor ()
      ensures vars == map[] && out == []
    {
      vars := map[];
      out := [];
    }

    function Current(): State
      reads this
    {
      State(vars, out)
    }

    /** `exec_stmt`: `Stopped` is the source's `true`, `Normal` its `false`. */
    method ExecStmt(s: Stmt) returns (flow: Flow)
      modifies this
      ensures Outcome(Current(), flow) == Exec(s, old(Current()))
      decreases StmtSize(s)
    {
      match s
      case CastOn(x, e) =>
        var v := Eval(e, vars);
        if v.None? {
          return Panicked;
        }
        vars := vars[x := v.value];
        flow := Normal;
      case Knit(x, e) =>
        var v := Eval(e, vars);
        if v.None? {
          return Panicked;
        }
        vars := vars[x := v.value];
        flow := Normal;
      case Purl(e) =>
        var v := Eval(e, vars);
        if v.None? {
          return Panicked;
        }
        out := out + [v.value];
        flow := Normal;
      case Repeat(c, body) =>
        var n := Eval(c, vars);
        if n.None? {
          return Panicked;
        }
        flow := Rounds(n.value, body);
      case BindOff =>
        flow := Stopped;
    }

    /** The nested loops of the `repeat` arm: `for _ in 0..n { for st in body { ... } }`. */
    method Rounds(n: i64, body: seq<Stmt>) returns (flow: Flow)
      modifies this
      ensures Outcome(Current(), flow) == Iterate(body, Count(n), old(Current()))
      decreases BlockSize(body) + 1, 0
    {
      var i: int := 0;
      while i < n as int
        invariant 0 <= i <= Count(n)
        invariant Iterate(body, Count(n), old(Current())) == Iterate(body, Count(n) - i, Current())
        decreases n as int - i
      {
        ghost var start := Current();
        var j := 0;
        while j < |body|
          invariant 0 <= j <= |body|
          invariant ExecBlock(body, start) == ExecBlock(body[j..], Current())
          decreases |body| - j
        {
          ElementSize(body, j);
          var f := ExecStmt(body[j]);
          assert body[j..][0] == body[j] && body[j..][1..] == body[j + 1..];
          if f != Normal {
            return f;
          }
          j := j + 1;
        }
        assert body[j..] == [];
        i := i + 1;
      }
      flow := Normal;
    }

    /** `run`: the statements in order, until the first that returns `true` (or panics). */
    method Run(stmts: seq<Stmt>) returns (flow: Flow)
      modifies this
      ensures Outcome(Current(), flow) == ExecBlock(stmts, old(Current()))
    {
      var j := 0;
      while j < |stmts|
        invariant 0 <= j <= |stmts|
        invariant ExecBlock(stmts, old(Current())) == ExecBlock(stmts[j..], Current())
        decreases |stmts| - j
      {
        var f := ExecStmt(stmts[j]);
        assert stmts[j..][0] == stmts[j] && stmts[j..][1..] == stmts[j + 1..];
        if f != Normal {
          return f;
        }
        j := j + 1;
      }
      assert stmts[j..] == [];
      flow := Normal;
    }
  }
}
