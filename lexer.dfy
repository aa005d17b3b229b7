// The lexer as the source writes it: an object holding the input characters
// and a cursor, whose methods advance the cursor step by step.  Each method
// is proved to do what the matching function of `LexerSpec` describes.

module Lexing {
  import opened Int64
  import opened Options
  import opened Tokens
  import opened LexerSpec

  class Lexer {
    const input: string
    const classes: CharClasses
    var pos: nat

    ghost predicate Valid()
      reads this
    {
      pos <= |input|
    }

    constructor (classes: CharClasses, src: string)
      ensures Valid() && input == src && this.classes == classes && pos == 0
    {
      input := src;
      this.classes := classes;
      pos := 0;
    }

    /** The character under the cursor, without moving it. */
    method Peek() returns (c: Option<char>)
      requires Valid()
      ensures c == ElementAt(input, pos)
    {
      if pos < |input| {
        c := Some(input[pos]);
      } else {
        c := None;
      }
    }

    /** The character under the cursor; the cursor moves past it, and never past the end. */
    method Next() returns (c: Option<char>)
      requires Valid()
      modifies this
      ensures Valid()
      ensures c == ElementAt(input, old(pos))
      ensures pos == if c.Some? then old(pos) + 1 else old(pos)
    {
      c := Peek();
      if c.Some? {
        pos := pos + 1;
      }
    }

    method SkipWhitespace()
      requires Valid()
      modifies this
      ensures Valid()
      ensures pos == Span(input, old(pos), classes.isWhitespace)
    {
      while true
        invariant Valid() && old(pos) <= pos
        invariant Span(input, pos, classes.isWhitespace) == Span(input, old(pos), classes.isWhitespace)
        decreases |input| - pos
      {
        var c := Peek();
        if c.None? || !classes.isWhitespace(c.value) {
          break;
        }
        ghost var p := pos;
        var skipped := Next();
        SpanStep(input, p, classes.isWhitespace);
      }
    }

    /** Reads the rest of a word whose first character `first` was already taken. */
    method ReadIdent(first: char) returns (s: string)
      requires Valid()
      modifies this
      ensures Valid()
      ensures pos == Span(input, old(pos), IdentChar(classes))
      ensures s == [first] + input[old(pos)..pos]
    {
      s := [first];
      while true
        invariant Valid() && old(pos) <= pos
        invariant Span(input, pos, IdentChar(classes)) == Span(input, old(pos), IdentChar(classes))
        invariant s == [first] + input[old(pos)..pos]
        decreases |input| - pos
      {
        var c := Peek();
        if c.None? || !(classes.isAlphanumeric(c.value) || c.value == '_') {
          break;
        }
        ghost var p := pos;
        s := s + [c.value];
        var taken := Next();
        assert input[old(pos)..pos] == input[old(pos)..p] + [input[p]];
        SpanStep(input, p, IdentChar(classes));
      }
    }

    /** Reads the rest of a digit run whose first digit `first` was already taken, and parses it. */
    method ReadNumber(first: char) returns (n: i64)
      requires Valid() && IsAsciiDigit(first)
      modifies this
      ensures Valid()
      ensures pos == Span(input, old(pos), DigitChar())
      ensures AllDigits([first] + input[old(pos)..pos])
      ensures n == NumberValue([first] + input[old(pos)..pos])
    {
      var s := [first];
      while true
        invariant Valid() && old(pos) <= pos
        invariant Span(input, pos, DigitChar()) == Span(input, old(pos), DigitChar())
        invariant s == [first] + input[old(pos)..pos]
        invariant AllDigits(s)
        decreases |input| - pos
      {
        var c := Peek();
        if c.None? || !IsAsciiDigit(c.value) {
          break;
        }
        ghost var p := pos;
        s := s + [c.value];
        var taken := Next();
        assert input[old(pos)..pos] == input[old(pos)..p] + [input[p]];
        SpanStep(input, p, DigitChar());
      }
      match ParseI64(s)
      case Some(v) => n := v;
      case None => n := 0;
    }

    /** The next token; unrecognised characters are skipped by reading on. */
    method NextToken() returns (t: Token)
      requires Valid()
      modifies this
      ensures Valid()
      ensures (t, pos) == NextTok(classes, input, old(pos))
      decreases |input| - pos
    {
      ghost var p := pos;
      SkipWhitespace();
      ghost var q := pos;
      NextTokAfterSpace(classes, input, p, q);
      var c := Next();
      match c
      case None =>
        t := EOF;
      case Some(ch) =>
        if IsPunctuation(ch) {
          t := PunctuationToken(ch);
        } else if IsAsciiAlphabetic(ch) {
          t := LexWord(q, ch);
        } else if IsAsciiDigit(ch) {
          t := LexNumber(q, ch);
        } else {
          t := NextToken();
        }
    }

    /** The word arm of `next_token`: the letter `first` at `q` was taken; the word is read and classified. */
    method LexWord(ghost q: nat, first: char) returns (t: Token)
      requires Valid() && q < |input| && pos == q + 1 && input[q] == first
      requires IsAsciiAlphabetic(first) && !IsPunctuation(first)
      modifies this
      ensures Valid()
      ensures (t, pos) == ReadToken(classes, input, q)
    {
      var word := ReadIdent(first);
      ConsSlice(input, q, pos);
      t := Classify(word);
    }

    /** The number arm of `next_token`: the digit `first` at `q` was taken; the digit run is read and parsed. */
    method LexNumber(ghost q: nat, first: char) returns (t: Token)
      requires Valid() && q < |input| && pos == q + 1 && input[q] == first
      requires IsAsciiDigit(first) && !IsAsciiAlphabetic(first) && !IsPunctuation(first)
      modifies this
      ensures Valid()
      ensures (t, pos) == ReadToken(classes, input, q)
    {
      var n := ReadNumber(first);
      ConsSlice(input, q, pos);
      t := Number(n);
    }
  }

  /** `lex_all`: the tokens of the whole input, ending with the one `EOF`. */
  method LexAll(classes: CharClasses, src: string) returns (tokens: seq<Token>)
    ensures tokens == Lex(classes, src)
  {
    var lx := new Lexer(classes, src);
    tokens := [];
    while true
      invariant lx.Valid() && lx.input == src && lx.classes == classes
      invariant tokens + LexFrom(classes, src, lx.pos) == Lex(classes, src)
      decreases |src| - lx.pos
    {
      ghost var p := lx.pos;
      ghost var before := tokens;
      var t := lx.NextToken();
      LexStep(classes, src, p, t, lx.pos);
      tokens := tokens + [t];
      if t == EOF {
        break;
      }
      PushFront(before, t, LexFrom(classes, src, lx.pos));
    }
  }

  /** A slice is its first character followed by the rest. */
  lemma ConsSlice(s: string, q: nat, e: nat)
    requires q < e <= |s|
    ensures [s[q]] + s[q + 1..e] == s[q..e]
  {
  }

  lemma PushFront(a: seq<Token>, t: Token, b: seq<Token>)
    ensures (a + [t]) + b == a + ([t] + b)
  {
  }
}
