// The two ways the source runs a program: `run_src` (lex, parse, run the
// whole file) and one line of the REPL (lex the line, parse one statement,
// run it on the variables kept from earlier lines).

module Driver {
  import opened Int64
  import opened Options
  import opened Tokens
  import opened Ast
  import opened LexerSpec
  import opened ParserSpec
  import opened Semantics
  import Lexing
  import Parsing
  import Interpreting

  /** What a run shows: the printed values, and whether it ended in a panic. */
  datatype Report = Report(out: seq<i64>, panicked: bool)

  /** `run_src`: a parse error panics before anything is printed. */
  function RunSource(u: CharClasses, src: string): Report {
    match Parse(Lex(u, src))
    case Err => Report([], true)
    case Ok(stmts, _) =>
      var o := ExecBlock(stmts, State(map[], []));
      Report(o.st.out, o.flow == Panicked)
  }

  method RunSrc(u: CharClasses, src: string) returns (r: Report)
    ensures r == RunSource(u, src)
  {
    var tokens := Lexing.LexAll(u, src);
    var stmts := Parsing.ParseTokens(tokens);
    if stmts.Panicked? {
      return Report([], true);
    }
    var interp := new Interpreting.Interpreter();
    var flow := interp.Run(stmts.value);
    r := Report(interp.out, flow == Panicked);
  }

  /**
   * One REPL line, already lexed, on the state kept from earlier lines: the
   * first statement runs and the tokens after it are ignored; `bind_off`'s
   * `true` is ignored too.  `Panicked` ends the session.
   */
  function ReplTokens(ts: seq<Token>, st: State): (r: Outcome)
    ensures r.flow != Stopped
    ensures r.flow == Normal && ParseStmt(ts, 0).Ok? && ParseStmt(ts, 0).value == Some(Stmt.BindOff) ==> r.st == st
  {
    match ParseStmt(ts, 0)
    case Err => Outcome(st, Panicked)
    case Ok(None, _) => Outcome(st, Normal)
    case Ok(Some(s), _) =>
      var o := Exec(s, st);
      if o.flow == Panicked then o else Outcome(o.st, Normal)
  }

  function ReplLine(u: CharClasses, line: string, st: State): Outcome {
    ReplTokens(Lex(u, line), st)
  }

  /** The REPL's per-line step on the interpreter that persists across lines. */
  method ReplStep(interp: Interpreting.Interpreter, u: CharClasses, line: string) returns (panicked: bool)
    modifies interp
    ensures Outcome(interp.Current(), if panicked then Panicked else Normal) == ReplLine(u, line, old(interp.Current()))
  {
    var tokens := Lexing.LexAll(u, line);
    var parser := new Parsing.Parser(tokens);
    var s := parser.ParseStmt();
    match s
    case Panicked =>
      panicked := true;
    case Returned(None) =>
      panicked := false;
    case Returned(Some(stmt)) =>
      var flow := interp.ExecStmt(stmt);
      panicked := flow == Panicked;
  }

  /** A line holding nothing the lexer keeps (blank, or only unrecognised characters) changes nothing. */
  lemma BlankLine(u: CharClasses, line: string, st: State)
    requires forall i | 0 <= i < |line| :: Skippable(u, line[i])
    ensures ReplLine(u, line, st) == Outcome(st, Normal)
  {
    EofExactlyAtEnd(u, line, 0);
    assert Lex(u, line) == [EOF];
  }

  /** A statement without `bind_off` does in the REPL exactly what it does in a program. */
  lemma ReplRunsStatement(ts: seq<Token>, s: Stmt, q: nat, st: State)
    requires ParseStmt(ts, 0) == Ok(Some(s), q) && NoBindOff(s)
    ensures ReplTokens(ts, st) == Exec(s, st)
  {
    NeverStops(s, st);
  }

  /** The lines of a REPL session in order, each on the state the previous one left; a panic ends it. */
  function Session(u: CharClasses, lines: seq<string>, st: State): Outcome
    decreases |lines|
  {
    if lines == [] then Outcome(st, Normal)
    else
      var o := ReplLine(u, lines[0], st);
      if o.flow == Panicked then o else Session(u, lines[1..], o.st)
  }

  /** A session of `a + b` is the session of `b` resumed where `a` left the variables and output. */
  lemma {:induction false} SessionAppend(u: CharClasses, a: seq<string>, b: seq<string>, st: State)
    ensures Session(u, a + b, st) ==
            var o := Session(u, a, st);
            if o.flow == Panicked then o else Session(u, b, o.st)
    decreases |a|
  {
    if a == [] {
      assert a + b == b;
    } else {
      assert (a + b)[0] == a[0] && (a + b)[1..] == a[1..] + b;
      var o := ReplLine(u, a[0], st);
      if o.flow != Panicked {
        SessionAppend(u, a[1..], b, o.st);
      }
    }
  }

  /** A session never stops early: `bind_off` on one line does not end the REPL. */
  lemma {:induction false} SessionNeverStops(u: CharClasses, lines: seq<string>, st: State)
    ensures Session(u, lines, st).flow != Stopped
    decreases |lines|
  {
    if lines != [] {
      var o := ReplLine(u, lines[0], st);
      if o.flow != Panicked {
        SessionNeverStops(u, lines[1..], o.st);
      }
    }
  }
}
