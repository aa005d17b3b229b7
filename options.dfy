// The optional value and the cursor lookup shared by the lexer and the parser.

module Options {
  datatype Option<T> = None | Some(value: T)

  /**
   * The element under a cursor, if the cursor is inside the sequence: the
   * lexer's `peek` on characters and the parser's `peek` on tokens.
   */
  function ElementAt<T>(s: seq<T>, p: nat): (r: Option<T>)
    ensures r.Some? <==> p < |s|
    ensures r.Some? ==> r.value == s[p]
  {
    if p < |s| then Some(s[p]) else None
  }
}
