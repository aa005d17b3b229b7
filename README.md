# knitlang core in Dafny

This is a model of the core of knitlang, a toy language with knitting
keywords. A program binds integer variables with `cast_on x = e;` and
`knit x = e;`, and prints a value with `purl e;`. It loops a counted number
of times with `repeat e { ... }` and stops the program with `bind_off;`.
Expressions are 64-bit integers, variables and `+ - * /`, where `*` and `/`
bind tighter than `+` and `-` and every operator is left-associative.

The model covers the four stages of `src/main.rs`, each as a pure
specification plus the imperative code proved equal to it.

- **Lexing.**
  - `LexerSpec` specifies the lexer as functions over the source string: `Span`, `NextTok`, `ReadToken` and `LexFrom`/`Lex`.
  - `Lexing.Lexer` is the source's `Lexer` as a class. Its methods move `pos` over `input` just as `skip_whitespace`, `read_ident`, `read_number` and `next_token` do, and each method is proved to compute the matching function.
  - `Lexing.LexAll` is `lex_all`.
- **Parsing.**
  - `ParserSpec` is the recursive-descent parser as functions over a token sequence and a position.
  - `Parsing.Parser` is the source's `Parser` class, proved to agree with `ParserSpec`, including on which inputs it panics.
  - `Grammar` gives the inverse: `ExprTokens`/`StmtTokens` spell an expression or a statement as tokens. It proves that what the parser returns is spelled by exactly the tokens it consumed (soundness), and that parsing an expression's spelling gives the expression back.
- **Running.**
  - `Semantics` is `eval_expr`/`exec_stmt`/`run` as functions from a state (the variables plus everything printed so far) to an outcome (`Normal`, `Stopped` by `bind_off`, or `Panicked`).
  - `Interpreting.Interpreter` is the source's `Interpreter`: a class whose `vars` map and `out` sequence its methods update, proved to follow `Semantics`.
- **Driving.**
  - `Driver.RunSrc` is `run_src`: lex, parse, then run.
  - `Driver.ReplStep` is one line of the REPL: parse one statement from the line and run it on the variables kept from earlier lines.

`i64` arithmetic follows a debug build of the source. An overflowing `+`, `-`
or `*`, a division by zero, and `i64::MIN / -1` each panic, and the model
turns every panic into an error value. Division truncates toward zero
(`Int64.TruncDiv`). A numeric literal too large for `i64` becomes 0, as
`parse().unwrap_or(0)` makes it. `char::is_whitespace` and
`char::is_alphanumeric` are parameters (`Tokens.CharClasses`), so every
lexer property holds whatever the Unicode tables say.

knitlang has no parenthesis token. The lexer drops `(` and `)` like any
other character it does not recognise (src/main.rs:112), so
`purl (2 + 3) * 4;` parses as `purl 2 + 3 * 4;` and prints 14.
`LexerSpec.ParenthesesDropped` states this.

Some methods only give the source's larger functions a smaller shape:
`Lexer.LexWord` and `Lexer.LexNumber` are arms of `next_token`.
`Parser.ParseBindingStmt`, `ParsePurl`, `ParseRepeat`, `ParseBindOff` and
`ParseBody` are arms of `parse_stmt`, and `Interpreter.Rounds` is the loop of
the `repeat` arm of `exec_stmt`. `LexWord` and `LexNumber` are proved against
`ReadToken`, `ParseBody` against `ParserSpec.ParseBody`, `Rounds` against
`Iterate`, and the four `parse_stmt` arms against `ParseStmt`.

The `Grammar` lemmas `BindingStep`, `PurlStep`, `RepeatStep`, `BindOffStep`,
`RepeatArm`, `BodyStep`, `ProgramStep`, `AddSubRound` and `MulDivRound` only
unfold one step of the parser functions' definitions. They keep the
parser-method proofs small and state nothing beyond those definitions, so
they have no row below.

## Model

| member | source | states |
|---|---|---|
| Tokens.ClassifyCases | src/main.rs:102-109 | a word becomes the keyword token exactly when it is that keyword's spelling, and otherwise an identifier carrying the word |
| Tokens.ClassifySpelling | src/main.rs:102-109 | classifying a word loses nothing: the token's spelling is the word again |
| Tokens.SpellingClassify | src/main.rs:102-109 | every keyword token, and every identifier that is not a keyword, is what its own spelling classifies to |
| Tokens.Classify | src/main.rs:102-109 | a word becomes a keyword token or an identifier, never anything else; `ClassifyCases` states which |
| Tokens.PunctuationToken | src/main.rs:92-99 | each of the eight punctuation characters becomes its own token, exactly one per character, and never a word, a number or `EOF` |
| Int64.TruncDiv | src/main.rs:327 | the quotient rounds toward zero: its magnitude is \|a\| / \|b\| and the remainder takes the dividend's sign and is smaller than the divisor |
| Int64.Apply | src/main.rs:323-329 | `+ - *` succeed exactly when the true result fits in i64 and then return it; `/` succeeds exactly when the divisor is non-zero and not MIN / -1 and then returns the truncated quotient; any other operator fails |
| Int64.Checked | src/main.rs:324-326 | an integer becomes an i64 exactly when it is in range, with the same value |
| Int64.QuotientInRange | src/main.rs:327 | the only truncated quotient of two i64 values that overflows is MIN / -1 |
| Options.ElementAt | src/main.rs:39-41 | `peek` gives the element under the cursor exactly when the cursor is inside the input, and none at the end; the same definition serves the parser's `peek` (src/main.rs:144-146), where none stands for the index panic |
| LexerSpec.Span | src/main.rs:51-59 | skipping a character class stays within the input and stops on a character outside the class or at the end |
| LexerSpec.SpanAll | src/main.rs:64-71 | every character skipped by a span is in the class |
| LexerSpec.ParseI64 | src/main.rs:86 | a digit run parses exactly when its decimal value is at most i64::MAX, and gives that value |
| LexerSpec.NumberValue | src/main.rs:86 | a literal's value is the decimal value of its digits, or 0 when that exceeds i64::MAX |
| LexerSpec.ShortRunFits | src/main.rs:86 | a literal of at most 18 digits always keeps its decimal value |
| LexerSpec.LongRunOverflows | src/main.rs:86 | a literal of 20 or more digits without a leading zero always becomes 0 |
| LexerSpec.NextTok | src/main.rs:89-115 | `EOF` is returned only at the end of the input; any other token consumes at least one character |
| LexerSpec.ReadToken | src/main.rs:92-111 | a character that starts a token yields a token other than `EOF` and consumes at least that character |
| LexerSpec.EofExactlyAtEnd | src/main.rs:89-115 | the next token is `EOF` if and only if everything left is whitespace or characters the lexer drops |
| LexerSpec.NextTokLexable | src/main.rs:89-115 | every token the lexer produces is well formed: identifiers are non-keyword words, numbers are non-negative |
| LexerSpec.WordToken | src/main.rs:100-110 | a letter starts a word that is read greedily (letter, then alphanumerics and `_`) and classified |
| LexerSpec.NumberToken | src/main.rs:111 | a digit starts an ASCII digit run that is read greedily, and the token carries its value (0 on overflow) |
| LexerSpec.SkipOne | src/main.rs:112 | a character that starts no token produces none: lexing goes on as if it were absent |
| LexerSpec.SkipRun | src/main.rs:51-59 | a whole run of whitespace and dropped characters leaves the token stream unchanged |
| LexerSpec.ParenthesesDropped | src/main.rs:112 | `(` and `)` produce no token |
| LexerSpec.LexFrom | src/main.rs:375-387 | the token list is non-empty and ends with `EOF` |
| LexerSpec.LexShape | src/main.rs:375-387 | `EOF` occurs only as the last token, and every token is well formed |
| LexerSpec.Lex | src/main.rs:375-387 | reference definition of `lex_all`, tokens from position 0; its properties are stated by `LexFrom`, `LexShape`, `EofExactlyAtEnd` and `SkipRun` |
| Lexing.Lexer.constructor | src/main.rs:32-37 | a new lexer holds the source and starts at position 0 |
| Lexing.Lexer.Peek | src/main.rs:39-41 | returns the character at the position, or none at the end |
| Lexing.Lexer.Next | src/main.rs:43-49 | returns that character and advances past it; at the end it returns none and stays |
| Lexing.Lexer.SkipWhitespace | src/main.rs:51-59 | the new position is the end of the whitespace span |
| Lexing.Lexer.ReadIdent | src/main.rs:61-73 | returns the first character plus the greedy run of alphanumerics and `_`, and stops after it |
| Lexing.Lexer.ReadNumber | src/main.rs:75-87 | returns the value of the first digit plus the greedy ASCII digit run (0 on overflow), and stops after it |
| Lexing.Lexer.NextToken | src/main.rs:89-115 | the returned token and the new position are exactly `NextTok` of the old position |
| Lexing.Lexer.LexWord | src/main.rs:100-110 | the word arm gives exactly `ReadToken`'s token and position |
| Lexing.Lexer.LexNumber | src/main.rs:111 | the number arm gives exactly `ReadToken`'s token and position |
| Lexing.LexAll | src/main.rs:375-387 | the token list is exactly `Lex` of the source |
| ParserSpec.ParseTerm | src/main.rs:211-217 | a term consumes exactly one token |
| ParserSpec.ExpectIdent | src/main.rs:153-158 | success consumes one token, and that token is the identifier returned |
| ParserSpec.ParseStmt | src/main.rs:219-290 | a statement consumes at least one token; "no statement" consumes nothing |
| ParserSpec.MulDivTail | src/main.rs:193-207 | the `*`/`/` loop stays within the tokens and never moves backward; `MulDivSound` states what it builds |
| ParserSpec.ParseMulDiv | src/main.rs:191-209 | a product consumes at least one token and stops before the end; `MulDivSound` and `ExprRoundTrip` state what it returns |
| ParserSpec.AddSubTail | src/main.rs:173-187 | the `+`/`-` loop stays within the tokens and never moves backward; `ExprSound` states what it builds |
| ParserSpec.ParseAddSub | src/main.rs:167-189 | an expression consumes at least one token and stops before the end; `ExprSound` and `ExprRoundTrip` state what it returns |
| ParserSpec.ParseBinding | src/main.rs:223-232 | a binding consumes at least one token and stays within the tokens; `StmtSound` states what it returns |
| ParserSpec.ParseBody | src/main.rs:265-272 | the body loop never moves backward and stops on a token; `BodySound` states what it collects |
| ParserSpec.ParseProgram | src/main.rs:292-302 | the statement loop never moves backward and stops on a token; `ProgramSound` states what it collects |
| ParserSpec.Parse | src/main.rs:292-302 | reference definition of `parse` from position 0; its properties are stated by `ParseSound` and `ParseReadsAll` |
| Grammar.ExprRoundTrip | src/main.rs:167-209 | parsing the spelling of any expression, followed by a non-operator token, gives that expression back and stops right after it |
| Grammar.ExprSound | src/main.rs:167-217 | a parsed expression is exactly the tokens it consumed, and it stops at a non-operator token |
| Grammar.MulDivSound | src/main.rs:191-209 | a parsed product is exactly the tokens consumed, and it stops before a token that is not `*` or `/` |
| Grammar.ExprTokensInjective | src/main.rs:171-209 | two expressions with the same spelling are equal, so the expression grammar is unambiguous |
| Grammar.LeftAssociative | src/main.rs:171-189 | `a - b - c` parses as `(a - b) - c` |
| Grammar.MulBindsTighter | src/main.rs:171-209 | `a + b * c` parses as `a + (b * c)` |
| Grammar.MulBindsTighterLeft | src/main.rs:171-209 | `a * b + c` parses as `(a * b) + c` |
| Grammar.StmtSound | src/main.rs:219-290 | a parsed statement is well formed and is spelled by exactly the tokens consumed |
| Grammar.BodySound | src/main.rs:265-272 | a parsed `repeat` body keeps the statements already collected and is spelled by the tokens up to the `}` or `EOF` where it stops |
| Grammar.ProgramSound | src/main.rs:292-302 | the statement loop keeps what it collected and stops at `EOF`, and the tokens before it spell the statements |
| Grammar.ParseSound | src/main.rs:292-302 | a parsed program is well formed, and the tokens before the final `EOF` are exactly its spelling |
| Grammar.ParseReadsAll | src/main.rs:292-302 | on lexer output, a successful parse reads every token up to the final `EOF` |
| Grammar.NoStmtAtEof | src/main.rs:287 | `parse_stmt` returns "no statement" if and only if it is at `EOF` |
| Grammar.StmtStart | src/main.rs:220-289 | a statement parse succeeds only at a keyword or `EOF` |
| Grammar.UnknownStart | src/main.rs:288 | any other starting token panics |
| Parsing.Parser.constructor | src/main.rs:140-142 | a new parser holds the tokens and starts at position 0 |
| Parsing.Parser.Peek | src/main.rs:144-146 | returns the current token without moving |
| Parsing.Parser.Next | src/main.rs:147-151 | returns the current token and advances past it |
| Parsing.Parser.ExpectIdent | src/main.rs:153-158 | result and new position agree with `ExpectIdent`, and a panic exactly where it fails |
| Parsing.Parser.ParseTerm | src/main.rs:211-217 | result and new position agree with `ParseTerm` |
| Parsing.Parser.ParseMulDiv | src/main.rs:191-209 | result and new position agree with `ParseMulDiv` |
| Parsing.Parser.ParseAddSub | src/main.rs:167-189 | result and new position agree with `ParseAddSub` |
| Parsing.Parser.ParseBinding | src/main.rs:223-232 | result and new position agree with `ParseBinding` |
| Parsing.Parser.ParseStmt | src/main.rs:219-290 | result and new position agree with `ParseStmt` |
| Parsing.Parser.ParseBindingStmt | src/main.rs:221-248 | the `cast_on`/`knit` arms agree with `ParseStmt` |
| Parsing.Parser.ParsePurl | src/main.rs:249-257 | the `purl` arm agrees with `ParseStmt` |
| Parsing.Parser.ParseRepeat | src/main.rs:258-278 | the `repeat` arm agrees with `ParseStmt` |
| Parsing.Parser.ParseBody | src/main.rs:265-272 | the body loop agrees with `ParseBody` |
| Parsing.Parser.ParseBindOff | src/main.rs:279-286 | the `bind_off` arm agrees with `ParseStmt` |
| Parsing.Parser.Parse | src/main.rs:292-302 | the statement loop agrees with `ParseProgram` |
| Parsing.ParseTokens | src/main.rs:391-392 | parsing a token list gives `Parse`'s statements, or a panic where it fails |
| Semantics.Lookup | src/main.rs:319 | an unbound variable reads as 0, and a bound one reads as its value |
| Semantics.Eval | src/main.rs:316-332 | a failing operand, or division by an operand that is 0, makes the whole expression panic |
| Semantics.EvalExact | src/main.rs:316-332 | evaluation succeeds exactly when every intermediate result over the integers fits in i64 and no divisor is 0, and its value is then the exact integer value |
| Semantics.Count | src/main.rs:353 | `0..n` runs `n` rounds when n is positive and none otherwise |
| Semantics.AssignEffect | src/main.rs:336-345 | `cast_on` and `knit` are the same statement: on success exactly `x` is set to the value, nothing else changes, and a panic comes exactly when evaluation fails |
| Semantics.PurlEffect | src/main.rs:346-350 | `purl` appends exactly the value and changes no variable, and a panic comes exactly when evaluation fails |
| Semantics.ExecBlockAppend | src/main.rs:366-372 | running `a + b` runs `a`, then `b` only if `a` ended normally |
| Semantics.NothingAfterStop | src/main.rs:366-372 | nothing runs after a statement that stops or panics |
| Semantics.BindOffEndsRun | src/main.rs:362-372 | a top-level `bind_off` ends the program there |
| Semantics.IterateAdd | src/main.rs:351-361 | `m + n` rounds are `m` rounds, then `n` more only if those ended normally |
| Semantics.StopEndsRepeat | src/main.rs:351-361 | a `bind_off` in the first round ends the whole `repeat`, and the stop propagates |
| Semantics.RepeatPurlCount | src/main.rs:346-361 | `repeat n { purl v; }` prints `v` exactly max(n, 0) times |
| Semantics.NeverStops | src/main.rs:334-364 | a statement without `bind_off` never reports a stop |
| Semantics.OutputGrows | src/main.rs:334-364 | output is only appended to: what was printed stays printed, even through a panic |
| Semantics.Assign | src/main.rs:336-345 | reference definition of the binding arms; its properties are stated by `AssignEffect` |
| Semantics.Exec | src/main.rs:334-364 | reference definition of `exec_stmt`; its properties are stated by `AssignEffect`, `PurlEffect`, `StopEndsRepeat`, `RepeatPurlCount`, `NeverStops` and `OutputGrows` |
| Semantics.Iterate | src/main.rs:351-361 | reference definition of the `repeat` rounds; its properties are stated by `IterateAdd`, `StopEndsRepeat` and `RepeatPurlCount` |
| Semantics.ExecBlock | src/main.rs:366-372 | reference definition of `run` and of one `repeat` round; its properties are stated by `ExecBlockAppend`, `NothingAfterStop` and `BindOffEndsRun` |
| Interpreting.Interpreter.constructor | src/main.rs:310-314 | a new interpreter has no variables and has printed nothing |
| Interpreting.Interpreter.ExecStmt | src/main.rs:334-364 | the new variables, the output and the returned stop flag are exactly `Exec` of the old state |
| Interpreting.Interpreter.Rounds | src/main.rs:351-361 | the `repeat` loop runs exactly `Count(n)` rounds of the body, as `Iterate` says |
| Interpreting.Interpreter.Run | src/main.rs:366-372 | running a program is exactly `ExecBlock` |
| Driver.RunSrc | src/main.rs:389-395 | `run_src` prints what running the parsed program prints, and a parse error panics before anything is printed |
| Driver.ReplTokens | src/main.rs:412-419 | a REPL line never stops the session, and a line whose first statement is `bind_off` leaves the state unchanged |
| Driver.ReplStep | src/main.rs:412-419 | one REPL line updates the interpreter exactly as `ReplLine` says |
| Driver.BlankLine | src/main.rs:412-419 | a line with nothing to lex changes nothing |
| Driver.ReplRunsStatement | src/main.rs:412-419 | a line whose first statement has no `bind_off` runs exactly that statement, and tokens after it are ignored |
| Driver.SessionAppend | src/main.rs:400-420 | a session of lines `a + b` is the session of `b` resumed where `a` left the variables and output |
| Driver.SessionNeverStops | src/main.rs:400-420 | `bind_off` on a line never ends the REPL; only a panic does |
| Driver.RunSource | src/main.rs:389-395 | reference definition of `run_src`; `RunSrc` is proved to compute it |
| Driver.ReplLine | src/main.rs:412-419 | reference definition of one REPL line; its properties are stated by `ReplTokens`, `BlankLine` and `ReplRunsStatement` |
| Driver.Session | src/main.rs:400-420 | reference definition of a REPL session; its properties are stated by `SessionAppend` and `SessionNeverStops` |

## Left out

- `main` and its clap argument parsing, reading the program file, and the `--example` lookup are I/O and are not modelled.
- The REPL loop's I/O is not modelled: the prompt, `flush`, a `read_line` error, `trim`, and `exit`/`quit`. `Driver.Session` takes the trimmed lines up to, but not including, the first that is `exit` or `quit`.
- Printing with `println!` is modelled as appending to the `out` sequence. Nothing is written anywhere.
- `char::is_whitespace` and `char::is_alphanumeric` are parameters, not Unicode tables. Every proved property holds for any choice of them.
- `expect_number_expr` (src/main.rs:160-165) is never called in the source, so it is not modelled.
- Int64.Apply: models a debug build, where overflow panics. A release build would wrap around on `+ - *` instead, and that is not modelled. Division by zero and `MIN / -1` panic in both builds, and both are modelled.
- LexerSpec.ParseI64: `str::parse::<i64>` is modelled only on non-empty runs of ASCII digits, the only strings `read_number` passes it.
- Panics are outcomes (`Panicked`, `Err`), not process exits. Values printed before a panic stay in `out`, as they would be on the terminal.
- Semantics.Eval: the source evaluates the left operand before the right one. This order is visible only in which panic message appears, and every panic is one outcome in the model.
- Grammar: the statement-level round trip is not proved, i.e. that parsing the spelling of any program gives it back. Parsing is proved sound for statements and programs, and the round trip is proved for expressions.
- Panic messages and `Debug` formatting of tokens are not modelled.
