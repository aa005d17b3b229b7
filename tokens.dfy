// The lexical units of knitlang, and how a word becomes one.

module Tokens {
  import opened Int64

  datatype Token =
    | CastOn
    | Knit
    | Purl
    | BindOff
    | Repeat
    | Ident(name: string)
    | Number(value: i64)
    | LBrace
    | RBrace
    | Semicolon
    | Plus
    | Minus
    | Star
    | Slash
    | Equal
    | EOF

  /** The five keyword spellings. */
  const Keywords: set<string> := {"cast_on", "knit", "purl", "bind_off", "repeat"}

  predicate IsKeyword(t: Token) {
    t.CastOn? || t.Knit? || t.Purl? || t.BindOff? || t.Repeat?
  }

  /**
   * The token a word read by the lexer becomes: one of the five keywords when
   * the word is spelled exactly (case included) as that keyword, otherwise an
   * identifier carrying the word verbatim.
   */
  function Classify(w: string): (t: Token)
    ensures IsKeyword(t) || t.Ident?
  {
    match w
    case "cast_on" => CastOn
    case "knit" => Knit
    case "purl" => Purl
    case "bind_off" => BindOff
    case "repeat" => Repeat
    case _ => Ident(w)
  }

  /** Which token each word becomes: a keyword exactly for its own spelling, else an identifier named by the word. */
  lemma ClassifyCases(w: string)
    ensures Classify(w) == CastOn <==> w == "cast_on"
    ensures Classify(w) == Knit <==> w == "knit"
    ensures Classify(w) == Purl <==> w == "purl"
    ensures Classify(w) == BindOff <==> w == "bind_off"
    ensures Classify(w) == Repeat <==> w == "repeat"
    ensures Classify(w).Ident? <==> w !in Keywords
    ensures Classify(w).Ident? ==> Classify(w).name == w
  {
  }

  /** The text of a keyword or identifier token. */
  function Spelling(t: Token): string
    requires IsKeyword(t) || t.Ident?
  {
    match t
    case CastOn => "cast_on"
    case Knit => "knit"
    case Purl => "purl"
    case BindOff => "bind_off"
    case Repeat => "repeat"
    case Ident(name) => name
  }

  /** Classifying a word loses nothing: its spelling comes back. */
  lemma ClassifySpelling(w: string)
    ensures Spelling(Classify(w)) == w
  {
  }

  /** Every keyword, and every identifier whose name is no keyword, is the classification of its own spelling. */
  lemma SpellingClassify(t: Token)
    requires IsKeyword(t) || (t.Ident? && t.name !in Keywords)
    ensures Classify(Spelling(t)) == t
  {
  }

  /**
   * The Unicode character classes the lexer consults, `char::is_whitespace`
   * and `char::is_alphanumeric`.  Their tables are not modelled: every
   * property below holds whatever the two predicates are.
   */
  datatype CharClasses = CharClasses(isWhitespace: char -> bool, isAlphanumeric: char -> bool)

  predicate IsAsciiAlphabetic(c: char) {
    'a' <= c <= 'z' || 'A' <= c <= 'Z'
  }

  predicate IsAsciiDigit(c: char) {
    '0' <= c <= '9'
  }

  /** The eight characters that are a token of their own. */
  predicate IsPunctuation(c: char) {
    c in "{};+-*/="
  }

  /** The token a punctuation character stands for: never a word, a number or `EOF`. */
  function PunctuationToken(c: char): (t: Token)
    requires IsPunctuation(c)
    ensures !IsKeyword(t) && !t.Ident? && !t.Number? && t != EOF
    ensures (t == LBrace <==> c == '{') && (t == RBrace <==> c == '}') && (t == Semicolon <==> c == ';')
    ensures (t == Plus <==> c == '+') && (t == Minus <==> c == '-') && (t == Star <==> c == '*')
    ensures (t == Slash <==> c == '/') && (t == Equal <==> c == '=')
  {
    match c
    case '{' => LBrace
    case '}' => RBrace
    case ';' => Semicolon
    case '+' => Plus
    case '-' => Minus
    case '*' => Star
    case '/' => Slash
    case '=' => Equal
  }
}
