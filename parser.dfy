// The parser as the source writes it: an object holding the tokens and a
// cursor, whose methods move the cursor while they build the tree.  A `panic!`
// of the source is the outcome `Panicked`.  Each method is proved to compute
// what the matching function of `ParserSpec` describes, the cursor included.

module Parsing {
  import opened Options
  import opened Tokens
  import opened Ast
  import opened ParserSpec
  import Grammar

  /** What a method of the parser ends with: a value, or a panic. */
  datatype Outcome<T> = Returned(value: T) | Panicked

  /** A method's outcome together with where it left the cursor, as `ParserSpec` states results. */
  function Observed<T>(r: Outcome<T>, pos: nat): Parsed<T> {
    if r.Returned? then Ok(r.value, pos) else Err
  }

  /** The outcome of a specified parse, the end position forgotten. */
  function Forget<T>(r: Parsed<T>): Outcome<T> {
    if r.Ok? then Returned(r.value) else Panicked
  }

  class Parser {
    const tokens: seq<Token>
    var pos: nat

    ghost predicate Valid()
      reads this
    {
      pos <= |tokens|
    }

    constructor (ts: seq<Token>)
      ensures Valid() && tokens == ts && pos == 0
    {
      tokens := ts;
      pos := 0;
    }

    /** The token under the cursor; `None` where the source's index panics. */
    method Peek() returns (t: Option<Token>)
      requires Valid()
      ensures t == ElementAt(tokens, pos)
    {
      if pos < |tokens| {
        t := Some(tokens[pos]);
      } else {
        t := None;
      }
    }

    /** The token under the cursor, which the cursor then moves past. */
    method Next() returns (t: Option<Token>)
      requires Valid()
      modifies this
      ensures Valid()
      ensures t == ElementAt(tokens, old(pos))
      ensures pos == if t.Some? then old(pos) + 1 else old(pos)
    {
      t := Peek();
      if t.Some? {
        pos := pos + 1;
      }
    }

    method ExpectIdent() returns (r: Outcome<string>)
      requires Valid()
      modifies this
      ensures Valid()
      ensures Observed(r, pos) == ParserSpec.ExpectIdent(tokens, old(pos))
    {
      var t := Next();
      if t.Some? && t.value.Ident? {
        r := Returned(t.value.name);
      } else {
        r := Panicked;
      }
    }

    method ParseTerm() returns (r: Outcome<Expr>)
      requires Valid()
      modifies this
      ensures Valid()
      ensures Observed(r, pos) == ParserSpec.ParseTerm(tokens, old(pos))
    {
      var t := Next();
      if t.None? {
        return Panicked;
      }
      match t.value
      case Number(n) => r := Returned(Expr.Number(n));
      case Ident(name) => r := Returned(Var(name));
      case _ => r := Panicked;
    }

    method ParseMulDiv() returns (r: Outcome<Expr>)
      requires Valid()
      modifies this
      ensures Valid()
      ensures Observed(r, pos) == ParserSpec.ParseMulDiv(tokens, old(pos))
    {
      var first := ParseTerm();
      if first.Panicked? {
        return Panicked;
      }
      var node := first.value;
      while true
        invariant Valid()
        invariant MulDivTail(tokens, node, pos) == ParserSpec.ParseMulDiv(tokens, old(pos))
        decreases |tokens| - pos
      {
        var t := Peek();
        if t.None? {
          return Panicked;
        }
        ghost var p := pos;
        if t.value == Star {
          var star := Next();
          var rhs := ParseTerm();
          Grammar.MulDivRound(tokens, node, p, '*', Observed(rhs, pos));
          if rhs.Panicked? {
            return Panicked;
          }
          node := Binary(node, '*', rhs.value);
        } else if t.value == Slash {
          var slash := Next();
          var rhs := ParseTerm();
          Grammar.MulDivRound(tokens, node, p, '/', Observed(rhs, pos));
          if rhs.Panicked? {
            return Panicked;
          }
          node := Binary(node, '/', rhs.value);
        } else {
          break;
        }
      }
      r := Returned(node);
    }

    method ParseAddSub() returns (r: Outcome<Expr>)
      requires Valid()
      modifies this
      ensures Valid()
      ensures Observed(r, pos) == ParserSpec.ParseAddSub(tokens, old(pos))
    {
      var first := ParseMulDiv();
      if first.Panicked? {
        return Panicked;
      }
      var node := first.value;
      while true
        invariant Valid()
        invariant AddSubTail(tokens, node, pos) == ParserSpec.ParseAddSub(tokens, old(pos))
        decreases |tokens| - pos
      {
        var t := Peek();
        if t.None? {
          return Panicked;
        }
        ghost var p := pos;
        if t.value == Plus {
          var plus := Next();
          var rhs := ParseMulDiv();
          Grammar.AddSubRound(tokens, node, p, '+', Observed(rhs, pos));
          if rhs.Panicked? {
            return Panicked;
          }
          node := Binary(node, '+', rhs.value);
        } else if t.value == Minus {
          var minus := Next();
          var rhs := ParseMulDiv();
          Grammar.AddSubRound(tokens, node, p, '-', Observed(rhs, pos));
          if rhs.Panicked? {
            return Panicked;
          }
          node := Binary(node, '-', rhs.value);
        } else {
          break;
        }
      }
      r := Returned(node);
    }

    /** `name = expr ;`, which the `cast_on` and `knit` arms of `parse_stmt` both read. */
    method ParseBinding() returns (r: Outcome<(string, Expr)>)
      requires Valid()
      modifies this
      ensures Valid()
      ensures Observed(r, pos) == ParserSpec.ParseBinding(tokens, old(pos))
    {
      var name := ExpectIdent();
      if name.Panicked? {
        return Panicked;
      }
      var eq := Next();
      if eq != Some(Equal) {
        return Panicked;
      }
      var e := ParseAddSub();
      if e.Panicked? {
        return Panicked;
      }
      var semi := Next();
      if semi != Some(Semicolon) {
        return Panicked;
      }
      r := Returned((name.value, e.value));
    }

    /** `parse_stmt`: `None` at `EOF`, a statement, or a panic. */
    method ParseStmt() returns (r: Outcome<Option<Stmt>>)
      requires Valid()
      modifies this
      ensures Valid()
      ensures Observed(r, pos) == ParserSpec.ParseStmt(tokens, old(pos))
      decreases |tokens| - pos, 1
    {
      ghost var p := pos;
      var t := Peek();
      if t.None? {
        return Panicked;
      }
      match t.value
      case CastOn =>
        r := ParseBindingStmt();
      case Knit =>
        r := ParseBindingStmt();
      case Purl =>
        r := ParsePurl();
      case Repeat =>
        r := ParseRepeat();
      case BindOff =>
        r := ParseBindOff();
      case EOF =>
        Grammar.NoStmtAtEof(tokens, p);
        r := Returned(None);
      case _ =>
        Grammar.UnknownStart(tokens, p);
        r := Panicked;
    }

    /** The `cast_on` and `knit` arms of `parse_stmt`, with the cursor on the keyword. */
    method ParseBindingStmt() returns (r: Outcome<Option<Stmt>>)
      requires Valid() && pos < |tokens| && (tokens[pos] == Token.CastOn || tokens[pos] == Token.Knit)
      modifies this
      ensures Valid()
      ensures Observed(r, pos) == ParserSpec.ParseStmt(tokens, old(pos))
    {
      ghost var p := pos;
      var kw := Next();
      var b := ParseBinding();
      if b.Panicked? {
        return Panicked;
      }
      Grammar.BindingStep(tokens, p);
      if kw == Some(Token.CastOn) {
        r := Returned(Some(Stmt.CastOn(b.value.0, b.value.1)));
      } else {
        r := Returned(Some(Stmt.Knit(b.value.0, b.value.1)));
      }
    }

    /** The `purl` arm of `parse_stmt`, with the cursor on the keyword. */
    method ParsePurl() returns (r: Outcome<Option<Stmt>>)
      requires Valid() && At(tokens, pos, Token.Purl)
      modifies this
      ensures Valid()
      ensures Observed(r, pos) == ParserSpec.ParseStmt(tokens, old(pos))
    {
      ghost var p := pos;
      var kw := Next();
      var e := ParseAddSub();
      if e.Panicked? {
        return Panicked;
      }
      var semi := Next();
      if semi != Some(Semicolon) {
        return Panicked;
      }
      Grammar.PurlStep(tokens, p);
      r := Returned(Some(Stmt.Purl(e.value)));
    }

    /** The `bind_off` arm of `parse_stmt`, with the cursor on the keyword. */
    method ParseBindOff() returns (r: Outcome<Option<Stmt>>)
      requires Valid() && At(tokens, pos, Token.BindOff)
      modifies this
      ensures Valid()
      ensures Observed(r, pos) == ParserSpec.ParseStmt(tokens, old(pos))
    {
      ghost var p := pos;
      var kw := Next();
      var semi := Next();
      Grammar.BindOffStep(tokens, p);
      if semi != Some(Semicolon) {
        return Panicked;
      }
      r := Returned(Some(Stmt.BindOff));
    }

    /** The `repeat` arm of `parse_stmt`, with the cursor on the keyword. */
    method ParseRepeat() returns (r: Outcome<Option<Stmt>>)
      requires Valid() && At(tokens, pos, Token.Repeat)
      modifies this
      ensures Valid()
      ensures Observed(r, pos) == ParserSpec.ParseStmt(tokens, old(pos))
      decreases |tokens| - pos, 0
    {
      ghost var p := pos;
      var kw := Next();
      var count := ParseAddSub();
      if count.Panicked? {
        Grammar.RepeatStep(tokens, p);
        return Panicked;
      }
      ghost var k := pos;
      var lbrace := Next();
      if lbrace != Some(LBrace) {
        Grammar.RepeatStep(tokens, p);
        return Panicked;
      }
      var body := ParseBody();
      if body.Panicked? {
        Grammar.RepeatStep(tokens, p);
        return Panicked;
      }
      ghost var m := pos;
      var rbrace := Next();
      Grammar.RepeatArm(tokens, p, count.value, k, body.value, m);
      if rbrace != Some(RBrace) {
        return Panicked;
      }
      r := Returned(Some(Stmt.Repeat(count.value, body.value)));
    }

    /** The body loop of the `repeat` arm: statements up to a `}` or `EOF`, which it does not consume. */
    method ParseBody() returns (r: Outcome<seq<Stmt>>)
      requires Valid()
      modifies this
      ensures Valid()
      ensures Observed(r, pos) == ParserSpec.ParseBody(tokens, [], old(pos))
      decreases |tokens| - pos, 2
    {
      ghost var start := pos;
      var body: seq<Stmt> := [];
      while true
        invariant Valid() && start <= pos
        invariant ParserSpec.ParseBody(tokens, body, pos) == ParserSpec.ParseBody(tokens, [], start)
        decreases |tokens| - pos
      {
        var t := Peek();
        if t.None? {
          return Panicked;
        }
        if t.value == RBrace || t.value == EOF {
          break;
        }
        ghost var q := pos;
        var s := ParseStmt();
        if s.Panicked? {
          return Panicked;
        }
        if s.value.None? {
          break;
        }
        Grammar.BodyStep(tokens, body, q, s.value.value, pos);
        body := body + [s.value.value];
      }
      r := Returned(body);
    }

    /** `parse`: statements up to `EOF`, which it does not consume. */
    method Parse() returns (r: Outcome<seq<Stmt>>)
      requires Valid()
      modifies this
      ensures Valid()
      ensures Observed(r, pos) == ParseProgram(tokens, [], old(pos))
    {
      ghost var start := pos;
      var stmts: seq<Stmt> := [];
      while true
        invariant Valid() && start <= pos
        invariant ParseProgram(tokens, stmts, pos) == ParseProgram(tokens, [], start)
        decreases |tokens| - pos
      {
        var t := Peek();
        if t.None? {
          return Panicked;
        }
        if t.value == EOF {
          break;
        }
        ghost var q := pos;
        var s := ParseStmt();
        if s.Panicked? {
          return Panicked;
        }
        if s.value.None? {
          break;
        }
        Grammar.ProgramStep(tokens, stmts, q, s.value.value, pos);
        stmts := stmts + [s.value.value];
      }
      r := Returned(stmts);
    }
  }

  /** `Parser::new(tokens).parse()`: the program the tokens spell, or a panic. */
  method ParseTokens(ts: seq<Token>) returns (r: Outcome<seq<Stmt>>)
    ensures r == Forget(ParserSpec.Parse(ts))
  {
    var parser := new Parser(ts);
    r := parser.Parse();
  }
}
