// What running a program means, as functions of the statements and the state
// they start from.
//
// The state is the interpreter's variable map together with everything
// `purl` has printed so far.  `exec_stmt` returns `true` to stop (after
// `bind_off`); a panic (overflow, division by zero, `i64::MIN / -1`) ends
// the run, keeping what was printed before it.

module Semantics {
  import opened Int64
  import opened Options
  import opened Ast

  type Env = map<string, i64>

  /** The variables and the values printed so far. */
  datatype State = State(vars: Env, out: seq<i64>)

  /** How a statement ended: it ran through, it hit `bind_off` (`exec_stmt` returns `true`), or it panicked. */
  datatype Flow = Normal | Stopped | Panicked

  datatype Outcome = Outcome(st: State, flow: Flow)

  /** An unbound name reads as 0. */
  function Lookup(vars: Env, x: string): (v: i64)
    ensures x !in vars ==> v == 0
    ensures x in vars ==> v == vars[x]
  {
    if x in vars then vars[x] else 0
  }

  /** `eval_expr`: the value of `e`, or `None` for a panic. */
  function Eval(e: Expr, vars: Env): (r: Option<i64>)
    ensures r.Some? && e.Binary? ==> IsOpChar(e.op)
    ensures e.Binary? && e.op == '/' && Eval(e.right, vars) == Some(0) ==> r == None
    ensures e.Binary? && (Eval(e.left, vars).None? || Eval(e.right, vars).None?) ==> r == None
  {
    match e
    case Number(n) => Some(n)
    case Var(x) => Some(Lookup(vars, x))
    case Binary(l, op, rhs) =>
      match Eval(l, vars)
      case None => None
      case Some(a) =>
        match Eval(rhs, vars)
        case None => None
        case Some(b) => Apply(op, a, b)
  }

  /**
   * The value of `e` in unbounded integers, with Rust's truncating division:
   * `None` only for a division by zero or an unknown operator.
   */
  function Exact(e: Expr, vars: Env): Option<int> {
    match e
    case Number(n) => Some(n as int)
    case Var(x) => Some(Lookup(vars, x) as int)
    case Binary(l, op, rhs) =>
      var a, b := Exact(l, vars), Exact(rhs, vars);
      if a.None? || b.None? then None
      else if op == '+' then Some(a.value + b.value)
      else if op == '-' then Some(a.value - b.value)
      else if op == '*' then Some(a.value * b.value)
      else if op == '/' && b.value != 0 then Some(TruncDiv(a.value, b.value))
      else None
  }

  /** Every sub-expression of `e` has an exact value that fits in an `i64`. */
  predicate Fits(e: Expr, vars: Env) {
    Exact(e, vars).Some? && InRange(Exact(e, vars).value) &&
    (e.Binary? ==> Fits(e.left, vars) && Fits(e.right, vars))
  }

  /**
   * `eval_expr` is exact arithmetic: it returns a value exactly when every
   * intermediate value fits in an `i64`, and then the value is the exact one.
   */
  lemma {:induction false} EvalExact(e: Expr, vars: Env)
    ensures Eval(e, vars).Some? <==> Fits(e, vars)
    ensures Eval(e, vars).Some? ==> Eval(e, vars).value as int == Exact(e, vars).value
  {
    if e.Binary? {
      EvalExact(e.left, vars);
      EvalExact(e.right, vars);
      var a, b := Eval(e.left, vars), Eval(e.right, vars);
      if a.Some? && b.Some? && e.op == '/' && b.value != 0 {
        QuotientInRange(a.value, b.value);
      }
    }
  }

  /** `cast_on` and `knit`: bind `x` to the value of `e`. */
  function Assign(x: string, e: Expr, st: State): Outcome {
    match Eval(e, st.vars)
    case None => Outcome(st, Panicked)
    case Some(v) => Outcome(st.(vars := st.vars[x := v]), Normal)
  }

  /** `exec_stmt`. */
  function Exec(s: Stmt, st: State): Outcome
    decreases StmtSize(s), 0, 0
  {
    match s
    case CastOn(x, e) => Assign(x, e, st)
    case Knit(x, e) => Assign(x, e, st)
    case Purl(e) =>
      (match Eval(e, st.vars)
       case None => Outcome(st, Panicked)
       case Some(v) => Outcome(st.(out := st.out + [v]), Normal))
    case Repeat(c, body) =>
      (match Eval(c, st.vars)
       case None => Outcome(st, Panicked)
       case Some(n) => Iterate(body, Count(n), st))
    case BindOff => Outcome(st, Stopped)
  }

  /** How many times `for _ in 0..n` runs. */
  function Count(n: i64): (k: nat)
    ensures n <= 0 ==> k == 0
    ensures n > 0 ==> k == n as int
  {
    if n < 0 then 0 else n as int
  }

  /**
   * The statements of `ss` in order from `st`, stopping at the first that
   * does not end normally: the body loop of `repeat`, and `run`.
   */
  function ExecBlock(ss: seq<Stmt>, st: State): Outcome
    decreases BlockSize(ss), 1, 0
  {
    if ss == [] then Outcome(st, Normal)
    else
      var o := Exec(ss[0], st);
      if o.flow != Normal then o else ExecBlock(ss[1..], o.st)
  }

  /** `k` more rounds of a `repeat` body, stopping at the first round that does not end normally. */
  function Iterate(body: seq<Stmt>, k: nat, st: State): Outcome
    decreases BlockSize(body), 2, k
  {
    if k == 0 then Outcome(st, Normal)
    else
      var o := ExecBlock(body, st);
      if o.flow != Normal then o else Iterate(body, k - 1, o.st)
  }

  // ---------------------------------------------------------------------
  // Effects of single statements.
  // ---------------------------------------------------------------------

  /**
   * `cast_on` and `knit` do the same: on success they set exactly `x` to the
   * value of `e`, leave every other binding and the output alone, and never stop.
   */
  lemma AssignEffect(x: string, e: Expr, st: State)
    ensures Exec(Stmt.CastOn(x, e), st) == Exec(Stmt.Knit(x, e), st)
    ensures var o := Exec(Stmt.CastOn(x, e), st);
            o.flow != Stopped &&
            (o.flow == Normal <==> Eval(e, st.vars).Some?) &&
            (o.flow == Normal ==>
              o.st.out == st.out && x in o.st.vars && o.st.vars[x] == Eval(e, st.vars).value &&
              forall y :: y != x ==> (y in o.st.vars <==> y in st.vars) &&
                                     (y in st.vars ==> o.st.vars[y] == st.vars[y]))
  {
  }

  /** `purl` appends exactly one value, the value of its expression, and leaves the variables alone. */
  lemma PurlEffect(e: Expr, st: State)
    ensures var o := Exec(Stmt.Purl(e), st);
            o.flow != Stopped &&
            (o.flow == Normal <==> Eval(e, st.vars).Some?) &&
            (o.flow == Normal ==> o.st.vars == st.vars && o.st.out == st.out + [Eval(e, st.vars).value])
  {
  }

  // ---------------------------------------------------------------------
  // Control flow.
  // ---------------------------------------------------------------------

  /** Running `a + b` is running `a`, then `b` only if `a` ended normally. */
  lemma {:induction false} ExecBlockAppend(a: seq<Stmt>, b: seq<Stmt>, st: State)
    ensures ExecBlock(a + b, st) ==
            var o := ExecBlock(a, st);
            if o.flow != Normal then o else ExecBlock(b, o.st)
    decreases |a|
  {
    if a == [] {
      assert a + b == b;
    } else {
      assert (a + b)[0] == a[0] && (a + b)[1..] == a[1..] + b;
      var o := Exec(a[0], st);
      if o.flow == Normal {
        ExecBlockAppend(a[1..], b, o.st);
      }
    }
  }

  /** `run` executes nothing after the first statement that stops or panics. */
  lemma NothingAfterStop(a: seq<Stmt>, b: seq<Stmt>, st: State)
    requires ExecBlock(a, st).flow != Normal
    ensures ExecBlock(a + b, st) == ExecBlock(a, st)
  {
    ExecBlockAppend(a, b, st);
  }

  /** A top-level `bind_off` ends the program there: what follows it never runs. */
  lemma BindOffEndsRun(a: seq<Stmt>, b: seq<Stmt>, st: State)
    ensures ExecBlock(a + [Stmt.BindOff] + b, st) ==
            var o := ExecBlock(a, st);
            if o.flow != Normal then o else Outcome(o.st, Stopped)
  {
    ExecBlockAppend(a + [Stmt.BindOff], b, st);
    ExecBlockAppend(a, [Stmt.BindOff], st);
    var o := ExecBlock(a, st);
    if o.flow == Normal {
      assert ExecBlock([Stmt.BindOff], o.st) == Outcome(o.st, Stopped);
    }
  }

  /** `m + n` rounds are `m` rounds, then `n` more if those ended normally. */
  lemma {:induction false} IterateAdd(body: seq<Stmt>, m: nat, n: nat, st: State)
    ensures Iterate(body, m + n, st) ==
            var o := Iterate(body, m, st);
            if o.flow != Normal then o else Iterate(body, n, o.st)
    decreases m
  {
    if m > 0 {
      var o := ExecBlock(body, st);
      if o.flow == Normal {
        IterateAdd(body, m - 1, n, o.st);
      }
    }
  }

  /**
   * A round that hits `bind_off` ends the whole `repeat` there: no later
   * statement of the body and no later round runs, and the stop propagates.
   */
  lemma StopEndsRepeat(c: Expr, body: seq<Stmt>, st: State)
    requires Eval(c, st.vars).Some? && Eval(c, st.vars).value > 0
    requires ExecBlock(body, st).flow == Stopped
    ensures Exec(Stmt.Repeat(c, body), st) == ExecBlock(body, st)
  {
  }

  /** `repeat n { purl v; }` prints `v` exactly `max(n, 0)` times. */
  lemma {:induction false} RepeatPurlCount(n: i64, v: i64, st: State)
    ensures var o := Exec(Stmt.Repeat(Expr.Number(n), [Stmt.Purl(Expr.Number(v))]), st);
            o.flow == Normal && o.st.vars == st.vars && o.st.out == st.out + seq(Count(n), _ => v)
  {
    IteratePurl(Count(n), v, st);
  }

  lemma {:induction false} IteratePurl(k: nat, v: i64, st: State)
    ensures var o := Iterate([Stmt.Purl(Expr.Number(v))], k, st);
            o.flow == Normal && o.st.vars == st.vars && o.st.out == st.out + seq(k, _ => v)
    decreases k
  {
    if k > 0 {
      var body := [Stmt.Purl(Expr.Number(v))];
      var o := ExecBlock(body, st);
      var once := Outcome(st.(out := st.out + [v]), Normal);
      assert Exec(body[0], st) == once;
      assert body[1..] == [] && ExecBlock(body[1..], once.st) == once;
      IteratePurl(k - 1, v, o.st);
      assert st.out + [v] + seq(k - 1, _ => v) == st.out + seq(k, _ => v);
    }
  }

  /** Statements with no `bind_off` anywhere inside. */
  predicate NoBindOff(s: Stmt)
    decreases StmtSize(s), 0
  {
    match s
    case BindOff => false
    case Repeat(_, body) => NoBindOffBlock(body)
    case _ => true
  }

  predicate NoBindOffBlock(ss: seq<Stmt>)
    decreases BlockSize(ss), 1
  {
    ss == [] || (NoBindOff(ss[0]) && NoBindOffBlock(ss[1..]))
  }

  /** Only `bind_off` stops a run: code without it ends normally or panics. */
  lemma {:induction false} NeverStops(s: Stmt, st: State)
    requires NoBindOff(s)
    ensures Exec(s, st).flow != Stopped
    decreases StmtSize(s), 0, 0
  {
    if s.Repeat? {
      var n := Eval(s.count, st.vars);
      if n.Some? {
        IterationsNeverStop(s.body, Count(n.value), st);
      }
    }
  }

  lemma {:induction false} BlockNeverStops(ss: seq<Stmt>, st: State)
    requires NoBindOffBlock(ss)
    ensures ExecBlock(ss, st).flow != Stopped
    decreases BlockSize(ss), 1, 0
  {
    if ss != [] {
      NeverStops(ss[0], st);
      var o := Exec(ss[0], st);
      if o.flow == Normal {
        BlockNeverStops(ss[1..], o.st);
      }
    }
  }

  lemma {:induction false} IterationsNeverStop(body: seq<Stmt>, k: nat, st: State)
    requires NoBindOffBlock(body)
    ensures Iterate(body, k, st).flow != Stopped
    decreases BlockSize(body), 2, k
  {
    if k > 0 {
      BlockNeverStops(body, st);
      var o := ExecBlock(body, st);
      if o.flow == Normal {
        IterationsNeverStop(body, k - 1, o.st);
      }
    }
  }

  /** Output is only ever appended to: what was printed stays printed, even through a panic. */
  lemma {:induction false} OutputGrows(s: Stmt, st: State)
    ensures var o := Exec(s, st).st.out;
            |st.out| <= |o| && o[..|st.out|] == st.out
    decreases StmtSize(s), 0, 0
  {
    match s
    case Repeat(c, body) =>
      var n := Eval(c, st.vars);
      if n.Some? {
        IterationsGrow(body, Count(n.value), st);
      }
    case Purl(e) =>
      var o := Exec(s, st).st.out;
      assert o == st.out || o[..|st.out|] == st.out;
    case _ =>
  }

  lemma {:induction false} BlockGrows(ss: seq<Stmt>, st: State)
    ensures var o := ExecBlock(ss, st).st.out;
            |st.out| <= |o| && o[..|st.out|] == st.out
    decreases BlockSize(ss), 1, 0
  {
    if ss != [] {
      OutputGrows(ss[0], st);
      var o := Exec(ss[0], st);
      if o.flow == Normal {
        BlockGrows(ss[1..], o.st);
        PrefixTrans(st.out, o.st.out, ExecBlock(ss[1..], o.st).st.out);
      }
    }
  }

  lemma {:induction false} IterationsGrow(body: seq<Stmt>, k: nat, st: State)
    ensures var o := Iterate(body, k, st).st.out;
            |st.out| <= |o| && o[..|st.out|] == st.out
    decreases BlockSize(body), 2, k
  {
    if k > 0 {
      BlockGrows(body, st);
      var o := ExecBlock(body, st);
      if o.flow == Normal {
        IterationsGrow(body, k - 1, o.st);
        PrefixTrans(st.out, o.st.out, Iterate(body, k - 1, o.st).st.out);
      }
    }
  }

  lemma PrefixTrans(a: seq<i64>, b: seq<i64>, c: seq<i64>)
    requires |a| <= |b| && b[..|a|] == a
    requires |b| <= |c| && c[..|b|] == b
    ensures |a| <= |c| && c[..|a|] == a
  {
    assert c[..|a|] == c[..|b|][..|a|];
  }
}
