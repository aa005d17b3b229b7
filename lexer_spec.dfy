// What the lexer computes, as functions of the input text and a cursor.
//
// `NextTok` is `Lexer::next_token` run from cursor `p`; `LexFrom` is the loop
// of `lex_all` from there on.  The imperative `Lexing.Lexer` is proved to
// compute exactly these.

module LexerSpec {
  import opened Int64
  import opened Options
  import opened Tokens

  /**
   * The end of the run of characters satisfying `f` that starts at `p`: the
   * loops of `skip_whitespace`, `read_ident` and `read_number` stop there.
   */
  function Span(s: string, p: nat, f: char -> bool): (q: nat)
    requires p <= |s|
    ensures p <= q <= |s|
    ensures q < |s| ==> !f(s[q])
    decreases |s| - p
  {
    if p < |s| && f(s[p]) then Span(s, p + 1, f) else p
  }

  /** Every character of the run satisfies `f`. */
  lemma {:induction false} SpanAll(s: string, p: nat, f: char -> bool)
    requires p <= |s|
    ensures forall i | p <= i < Span(s, p, f) :: f(s[i])
    decreases |s| - p
  {
    if p < |s| && f(s[p]) {
      SpanAll(s, p + 1, f);
    }
  }

  /** A run that goes on past `p` ends where the run from `p + 1` ends. */
  lemma SpanStep(s: string, p: nat, f: char -> bool)
    requires p < |s| && f(s[p])
    ensures Span(s, p, f) == Span(s, p + 1, f)
  {
  }

  /** A character that may continue a word: alphanumeric or `_`. */
  function IdentChar(u: CharClasses): char -> bool {
    c => u.isAlphanumeric(c) || c == '_'
  }

  function DigitChar(): char -> bool {
    c => IsAsciiDigit(c)
  }

  /** A character that never starts a token: whitespace, or none of punctuation, ASCII letter, ASCII digit. */
  predicate Skippable(u: CharClasses, c: char) {
    u.isWhitespace(c) || !StartsToken(c)
  }

  predicate AllDigits(ds: string) {
    forall i | 0 <= i < |ds| :: IsAsciiDigit(ds[i])
  }

  /** The base-10 value of a run of ASCII digits. */
  function DecimalValue(ds: string): nat
    requires AllDigits(ds)
  {
    if |ds| == 0 then 0
    else DecimalValue(ds[..|ds| - 1]) * 10 + (ds[|ds| - 1] as int - '0' as int)
  }

  /**
   * `str::parse::<i64>` applied to a non-empty run of ASCII digits (the only
   * strings the lexer hands it): it fails exactly when the value overflows.
   */
  function ParseI64(ds: string): (r: Option<i64>)
    requires |ds| > 0 && AllDigits(ds)
    ensures r.Some? <==> DecimalValue(ds) <= MAX
    ensures r.Some? ==> r.value as int == DecimalValue(ds)
  {
    var n := DecimalValue(ds);
    if n <= MAX then Some(n as i64) else None
  }

  /** The value of a number token: the parsed value, or 0 when it overflows (`unwrap_or(0)`). */
  function NumberValue(ds: string): (v: i64)
    requires |ds| > 0 && AllDigits(ds)
    ensures DecimalValue(ds) > MAX ==> v == 0
    ensures DecimalValue(ds) <= MAX ==> v as int == DecimalValue(ds)
  {
    match ParseI64(ds)
    case Some(n) => n
    case None => 0
  }

  /** A word as the lexer reads it: an ASCII letter followed by alphanumerics and `_`. */
  predicate IsWord(u: CharClasses, w: string) {
    |w| > 0 && IsAsciiAlphabetic(w[0]) &&
    forall i | 1 <= i < |w| :: u.isAlphanumeric(w[i]) || w[i] == '_'
  }

  /** What any token the lexer produces looks like. */
  predicate Lexable(u: CharClasses, t: Token) {
    match t
    case Ident(name) => IsWord(u, name) && name !in Keywords
    case Number(v) => v >= 0
    case _ => true
  }

  /**
   * `next_token` from cursor `p`: the token and the cursor after it.  The
   * cursor never passes the end of the text, and every token but `EOF`
   * consumes at least one character.
   */
  function NextTok(u: CharClasses, s: string, p: nat): (r: (Token, nat))
    requires p <= |s|
    ensures r.0 == EOF ==> r.1 == |s|
    ensures r.0 != EOF ==> p < r.1 <= |s|
    decreases |s| - p
  {
    var q := Span(s, p, u.isWhitespace);
    if q == |s| then (EOF, q)
    else if StartsToken(s[q]) then ReadToken(u, s, q)
    else NextTok(u, s, q + 1)
  }

  /** `next_token` after `skip_whitespace` has brought the cursor from `p` to `q`. */
  lemma NextTokAfterSpace(u: CharClasses, s: string, p: nat, q: nat)
    requires p <= |s| && q == Span(s, p, u.isWhitespace)
    ensures NextTok(u, s, p) ==
              if q == |s| then (EOF, q)
              else if StartsToken(s[q]) then ReadToken(u, s, q)
              else NextTok(u, s, q + 1)
  {
  }

  /** A character that starts a token: punctuation, an ASCII letter or an ASCII digit. */
  predicate StartsToken(c: char) {
    IsPunctuation(c) || IsAsciiAlphabetic(c) || IsAsciiDigit(c)
  }

  /**
   * The token that starts at `q`, and the cursor after it: one punctuation
   * character, a whole word, or a whole digit run.
   */
  function ReadToken(u: CharClasses, s: string, q: nat): (r: (Token, nat))
    requires q < |s| && StartsToken(s[q])
    ensures r.0 != EOF && q < r.1 <= |s|
  {
    var c := s[q];
    if IsPunctuation(c) then (PunctuationToken(c), q + 1)
    else if IsAsciiAlphabetic(c) then
      var e := Span(s, q + 1, IdentChar(u));
      (Classify(s[q..e]), e)
    else
      var e := Span(s, q + 1, DigitChar());
      DigitRun(s, q);
      (Number(NumberValue(s[q..e])), e)
  }

  /** The characters `read_number` takes, with the digit before them, are all digits. */
  lemma DigitRun(s: string, q: nat)
    requires q < |s| && IsAsciiDigit(s[q])
    ensures AllDigits(s[q..Span(s, q + 1, DigitChar())])
  {
    SpanAll(s, q + 1, DigitChar());
    var w := s[q..Span(s, q + 1, DigitChar())];
    assert forall i | 1 <= i < |w| :: w[i] == s[q + i];
  }

  /**
   * The tokens `lex_all` collects from cursor `p` on: never empty, ending in
   * `EOF` and holding no other `EOF`.
   */
  function LexFrom(u: CharClasses, s: string, p: nat): (r: seq<Token>)
    requires p <= |s|
    ensures |r| > 0 && r[|r| - 1] == EOF
    decreases |s| - p
  {
    var (t, q) := NextTok(u, s, p);
    if t == EOF then [EOF] else [t] + LexFrom(u, s, q)
  }

  /** Every token `next_token` returns is well formed: a word that is no keyword, or a non-negative number. */
  lemma {:induction false} NextTokLexable(u: CharClasses, s: string, p: nat)
    requires p <= |s|
    ensures Lexable(u, NextTok(u, s, p).0)
    decreases |s| - p
  {
    var q := Span(s, p, u.isWhitespace);
    NextTokAfterSpace(u, s, p, q);
    if q < |s| {
      if StartsToken(s[q]) {
        ReadTokenLexable(u, s, q);
      } else {
        NextTokLexable(u, s, q + 1);
      }
    }
  }

  /** A token read at a token start is well formed. */
  lemma ReadTokenLexable(u: CharClasses, s: string, q: nat)
    requires q < |s| && StartsToken(s[q])
    ensures Lexable(u, ReadToken(u, s, q).0)
  {
    if !IsPunctuation(s[q]) && IsAsciiAlphabetic(s[q]) {
      ReadWord(u, s, q);
      ClassifyCases(s[q..Span(s, q + 1, IdentChar(u))]);
    }
  }

  /** The characters `read_ident` takes, with the letter before them, make a word. */
  lemma ReadWord(u: CharClasses, s: string, q: nat)
    requires q < |s| && IsAsciiAlphabetic(s[q])
    ensures IsWord(u, s[q..Span(s, q + 1, IdentChar(u))])
  {
    SpanAll(s, q + 1, IdentChar(u));
    var w := s[q..Span(s, q + 1, IdentChar(u))];
    assert forall i | 1 <= i < |w| :: w[i] == s[q + i];
  }

  /** The tokens of `lex_all` hold `EOF` only at the end, and every one of them is well formed. */
  lemma {:induction false} LexShape(u: CharClasses, s: string, p: nat)
    requires p <= |s|
    ensures forall i | 0 <= i < |LexFrom(u, s, p)| - 1 :: LexFrom(u, s, p)[i] != EOF
    ensures forall i | 0 <= i < |LexFrom(u, s, p)| :: Lexable(u, LexFrom(u, s, p)[i])
    decreases |s| - p
  {
    var (t, q) := NextTok(u, s, p);
    NextTokLexable(u, s, p);
    if t != EOF {
      LexShape(u, s, q);
      var rest := LexFrom(u, s, q);
      var r := LexFrom(u, s, p);
      assert r == [t] + rest;
      forall i | 1 <= i < |r|
        ensures r[i] == rest[i - 1]
      {
      }
    }
  }

  /** `lex_all(src)`. */
  function Lex(u: CharClasses, s: string): seq<Token> {
    LexFrom(u, s, 0)
  }

  /** Nothing but skippable characters from `p` on. */
  predicate Blank(u: CharClasses, s: string, p: nat)
    decreases |s| - p
  {
    p >= |s| || (Skippable(u, s[p]) && Blank(u, s, p + 1))
  }

  /** `Blank` says that every character from `p` on is skippable. */
  lemma {:induction false} BlankAll(u: CharClasses, s: string, p: nat)
    requires p <= |s|
    ensures Blank(u, s, p) <==> forall i | p <= i < |s| :: Skippable(u, s[i])
    decreases |s| - p
  {
    if p < |s| {
      BlankAll(u, s, p + 1);
    }
  }

  /** Skippable characters in front change nothing about whether the rest is blank. */
  lemma {:induction false} BlankSkip(u: CharClasses, s: string, p: nat, q: nat)
    requires p <= q <= |s|
    requires forall i | p <= i < q :: Skippable(u, s[i])
    ensures Blank(u, s, p) == Blank(u, s, q)
    decreases q - p
  {
    if p < q {
      BlankSkip(u, s, p + 1, q);
    }
  }

  /** `next_token` yields `EOF` exactly when the rest of the text is blank. */
  lemma {:induction false} EofIffBlank(u: CharClasses, s: string, p: nat)
    requires p <= |s|
    ensures NextTok(u, s, p).0 == EOF <==> Blank(u, s, p)
    decreases |s| - p
  {
    var q := Span(s, p, u.isWhitespace);
    SpanAll(s, p, u.isWhitespace);
    BlankSkip(u, s, p, q);
    NextTokAfterSpace(u, s, p, q);
    if q == |s| {
      assert Blank(u, s, q);
    } else if StartsToken(s[q]) {
      assert !Blank(u, s, q);
    } else {
      assert Blank(u, s, q) == Blank(u, s, q + 1);
      EofIffBlank(u, s, q + 1);
    }
  }

  /** `next_token` yields `EOF` exactly when nothing but skippable characters is left. */
  lemma EofExactlyAtEnd(u: CharClasses, s: string, p: nat)
    requires p <= |s|
    ensures NextTok(u, s, p).0 == EOF <==> forall i | p <= i < |s| :: Skippable(u, s[i])
  {
    EofIffBlank(u, s, p);
    BlankAll(u, s, p);
  }

  /** One round of the `lex_all` loop: the token at `p`, then the tokens after it. */
  lemma LexStep(u: CharClasses, s: string, p: nat, t: Token, q: nat)
    requires p <= |s| && (t, q) == NextTok(u, s, p)
    ensures t == EOF ==> LexFrom(u, s, p) == [EOF]
    ensures t != EOF ==> q <= |s| && LexFrom(u, s, p) == [t] + LexFrom(u, s, q)
  {
  }

  /** A word is read greedily and classified as a keyword or an identifier. */
  lemma WordToken(u: CharClasses, s: string, p: nat)
    requires p < |s| && IsAsciiAlphabetic(s[p]) && !u.isWhitespace(s[p])
    ensures var (t, q) := NextTok(u, s, p);
            p < q <= |s| && IsWord(u, s[p..q]) && (q < |s| ==> !IdentChar(u)(s[q])) &&
            t == Classify(s[p..q])
  {
    assert Span(s, p, u.isWhitespace) == p;
    ReadWord(u, s, p);
  }

  /** A digit run is read greedily; its token carries its value, or 0 on overflow. */
  lemma NumberToken(u: CharClasses, s: string, p: nat)
    requires p < |s| && IsAsciiDigit(s[p]) && !u.isWhitespace(s[p])
    ensures var (t, q) := NextTok(u, s, p);
            p < q <= |s| && AllDigits(s[p..q]) && (q < |s| ==> !IsAsciiDigit(s[q])) &&
            t == Number(NumberValue(s[p..q]))
  {
    assert Span(s, p, u.isWhitespace) == p;
    DigitRun(s, p);
  }

  /** A skippable character produces no token: lexing goes on as if it were absent. */
  lemma SkipOne(u: CharClasses, s: string, p: nat)
    requires p < |s| && Skippable(u, s[p])
    ensures NextTok(u, s, p) == NextTok(u, s, p + 1)
    ensures LexFrom(u, s, p) == LexFrom(u, s, p + 1)
  {
  }

  /** Parentheses are no tokens: the lexer drops them like any other unrecognised character. */
  lemma ParenthesesDropped(u: CharClasses, s: string, p: nat)
    requires p < |s| && (s[p] == '(' || s[p] == ')')
    ensures LexFrom(u, s, p) == LexFrom(u, s, p + 1)
  {
    SkipOne(u, s, p);
  }

  /** A whole run of skippable characters produces no token. */
  lemma {:induction false} SkipRun(u: CharClasses, s: string, p: nat, q: nat)
    requires p <= q <= |s|
    requires forall i | p <= i < q :: Skippable(u, s[i])
    ensures LexFrom(u, s, p) == LexFrom(u, s, q)
    decreases q - p
  {
    if p < q {
      calc {
        LexFrom(u, s, p);
        { SkipOne(u, s, p); }
        LexFrom(u, s, p + 1);
        { SkipRun(u, s, p + 1, q); }
        LexFrom(u, s, q);
      }
    }
  }

  function Pow10(n: nat): nat {
    if n == 0 then 1 else 10 * Pow10(n - 1)
  }

  /** A run of `n` digits has a value below `10^n`. */
  lemma {:induction false} DecimalBelow(ds: string)
    requires AllDigits(ds)
    ensures DecimalValue(ds) < Pow10(|ds|)
  {
    if |ds| > 0 {
      DecimalBelow(ds[..|ds| - 1]);
    }
  }

  /** A run of `n` digits that starts with a non-zero digit has a value of at least `10^(n-1)`. */
  lemma {:induction false} DecimalAtLeast(ds: string)
    requires AllDigits(ds) && |ds| > 0 && ds[0] != '0'
    ensures DecimalValue(ds) >= Pow10(|ds| - 1)
  {
    if |ds| > 1 {
      var init := ds[..|ds| - 1];
      assert init[0] == ds[0];
      DecimalAtLeast(init);
    }
  }

  /** Runs of at most 18 digits never overflow `i64`; so their token carries their value. */
  lemma ShortRunFits(ds: string)
    requires |ds| > 0 && AllDigits(ds) && |ds| <= 18
    ensures NumberValue(ds) as int == DecimalValue(ds)
  {
    DecimalBelow(ds);
    PowMonotone(|ds|, 18);
    Pow10Values();
  }

  /** Runs of 20 or more digits without a leading zero always overflow: their token is `Number(0)`. */
  lemma LongRunOverflows(ds: string)
    requires AllDigits(ds) && |ds| >= 20 && ds[0] != '0'
    ensures NumberValue(ds) == 0
  {
    DecimalAtLeast(ds);
    PowMonotone(19, |ds| - 1);
    Pow10Values();
  }

  lemma Pow10Values()
    ensures Pow10(18) == 1_000_000_000_000_000_000
    ensures Pow10(19) == 10_000_000_000_000_000_000
  {
    assert Pow10(1) == 10;
    assert Pow10(2) == 100;
    assert Pow10(3) == 1000;
    assert Pow10(4) == 10000;
    assert Pow10(5) == 100000;
    assert Pow10(6) == 1000000;
    assert Pow10(7) == 10000000;
    assert Pow10(8) == 100000000;
    assert Pow10(9) == 1000000000;
    assert Pow10(10) == 10000000000;
    assert Pow10(11) == 100000000000;
    assert Pow10(12) == 1000000000000;
    assert Pow10(13) == 10000000000000;
    assert Pow10(14) == 100000000000000;
    assert Pow10(15) == 1000000000000000;
    assert Pow10(16) == 10000000000000000;
    assert Pow10(17) == 100000000000000000;
    assert Pow10(18) == 1000000000000000000;
    assert Pow10(19) == 10000000000000000000;
  }

  lemma {:induction false} PowMonotone(m: nat, n: nat)
    requires m <= n
    ensures Pow10(m) <= Pow10(n)
    decreases n - m
  {
    if m < n {
      PowMonotone(m + 1, n);
    }
  }
}
