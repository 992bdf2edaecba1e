/**
 * The productions of `parse` (app.py:94-158) as state-passing functions over
 * the token list and the cursor `current`: each takes the cursor on entry
 * and gives the cursor on return, or the syntax error that aborts the parse.
 *
 * The `while` loops of `expression` and `term` appear here as right
 * recursion: after an operator, the rest of the loop is the production
 * itself from the next position.
 */
module Grammar {
  import opened Results
  import opened Tokens

  /** The abort of app.py:120-121, 134-135 and 153-154: the offending token, or the end of the list. */
  datatype SyntaxError = UnexpectedToken(token: Token) | EndOfInput

  /** The error reported with the cursor at `pos`: `tokens[current]`, or the `IndexError` past the end. */
  function ErrorAt(ts: seq<Token>, pos: nat): (e: SyntaxError)
    requires pos <= |ts|
    ensures e == EndOfInput <==> pos == |ts|
    ensures pos < |ts| ==> e.token == ts[pos]
  {
    if pos < |ts| then UnexpectedToken(ts[pos]) else EndOfInput
  }

  /** An error that names a token names one of the list. */
  predicate NamesListToken(ts: seq<Token>, e: SyntaxError) {
    e.UnexpectedToken? ==> e.token in ts
  }

  /** The `match` primitive (app.py:95-102): consume the current token when its kind is expected. */
  function Match(ts: seq<Token>, pos: nat, expected: seq<TokenType>): (next: nat)
    requires pos <= |ts|
    ensures pos <= next <= |ts|
    ensures next == pos + 1 <==> pos < |ts| && ts[pos].kind in expected
    ensures next != pos + 1 ==> next == pos
  {
    if pos < |ts| && ts[pos].kind in expected then pos + 1 else pos
  }

  /**
   * `statement` (app.py:104-121). An `Id` commits to `Assignment`; `if` to
   * the conditional, in which only the condition and the bodies are checked:
   * the parentheses and braces are consumed when present and skipped when not.
   */
  function Statement(ts: seq<Token>, pos: nat): (r: Result<nat, SyntaxError>)
    requires pos <= |ts|
    ensures r.Ok? ==> pos < r.value <= |ts|
    ensures r.Err? ==> NamesListToken(ts, r.error)
    decreases |ts| - pos, 5
  {
    if Match(ts, pos, [Id]) == pos + 1 then
      Assignment(ts, pos + 1)
    else if Match(ts, pos, [If]) == pos + 1 then
      var afterCondition :- Expression(ts, Match(ts, pos + 1, [LParen]));
      var afterThen :- Statement(ts, Match(ts, Match(ts, afterCondition, [RParen]), [LBrace]));
      ElseBranch(ts, Match(ts, afterThen, [RBrace]))
    else
      Err(ErrorAt(ts, pos))
  }

  /** The optional `else` part of a conditional (app.py:115-118), entered after the `then` body. */
  function ElseBranch(ts: seq<Token>, pos: nat): (r: Result<nat, SyntaxError>)
    requires pos <= |ts|
    ensures r.Ok? ==> pos <= r.value <= |ts|
    ensures r.Err? ==> NamesListToken(ts, r.error)
    decreases |ts| - pos, 6
  {
    if Match(ts, pos, [Else]) == pos + 1 then
      var afterElseBody :- Statement(ts, Match(ts, pos + 1, [LBrace]));
      Ok(Match(ts, afterElseBody, [RBrace]))
    else
      Ok(pos)
  }

  /**
   * `assignment` (app.py:129-135), entered after the leading `Id`: one token
   * that is an `Id` or an `=`, then an expression.
   */
  function Assignment(ts: seq<Token>, pos: nat): (r: Result<nat, SyntaxError>)
    requires pos <= |ts|
    ensures r.Ok? ==> pos < r.value <= |ts|
    ensures r.Err? ==> NamesListToken(ts, r.error)
    decreases |ts| - pos, 5
  {
    if Match(ts, pos, [Id, Assign]) == pos + 1 then
      Expression(ts, pos + 1)
    else
      Err(ErrorAt(ts, pos))
  }

  /** `expression` (app.py:123-127): terms separated by `+`, `-` or `<`. */
  function Expression(ts: seq<Token>, pos: nat): (r: Result<nat, SyntaxError>)
    requires pos <= |ts|
    ensures r.Ok? ==> pos < r.value <= |ts|
    ensures r.Err? ==> NamesListToken(ts, r.error)
    decreases |ts| - pos, 4
  {
    var afterTerm :- Term(ts, pos);
    if Match(ts, afterTerm, [Plus, Minus, LessThan]) == afterTerm + 1 then
      Expression(ts, afterTerm + 1)
    else
      Ok(afterTerm)
  }

  /** `term` (app.py:137-141): factors separated by `*` or `/`. */
  function Term(ts: seq<Token>, pos: nat): (r: Result<nat, SyntaxError>)
    requires pos <= |ts|
    ensures r.Ok? ==> pos < r.value <= |ts|
    ensures r.Err? ==> NamesListToken(ts, r.error)
    decreases |ts| - pos, 3
  {
    var afterFactor :- Factor(ts, pos);
    if Match(ts, afterFactor, [Multiply, Divide]) == afterFactor + 1 then
      Term(ts, afterFactor + 1)
    else
      Ok(afterFactor)
  }

  /**
   * `factor` (app.py:143-154): an integer or identifier, a parenthesised
   * expression whose `)` is optional, or a unary minus before a factor.
   */
  function Factor(ts: seq<Token>, pos: nat): (r: Result<nat, SyntaxError>)
    requires pos <= |ts|
    ensures r.Ok? ==> pos < r.value <= |ts|
    ensures r.Err? ==> NamesListToken(ts, r.error)
    decreases |ts| - pos, 2
  {
    if Match(ts, pos, [Integer, Id]) == pos + 1 then
      Ok(pos + 1)
    else if Match(ts, pos, [LParen]) == pos + 1 then
      var afterInner :- Expression(ts, pos + 1);
      Ok(Match(ts, afterInner, [RParen]))
    else if Match(ts, pos, [Minus]) == pos + 1 then
      Factor(ts, pos + 1)
    else
      Err(ErrorAt(ts, pos))
  }

  /** The top-level loop (app.py:156-158): statements until the cursor reaches the end. */
  function Program(ts: seq<Token>, pos: nat): (r: Result<(), SyntaxError>)
    requires pos <= |ts|
    ensures r.Err? ==> NamesListToken(ts, r.error)
    decreases |ts| - pos
  {
    if pos == |ts| then
      Ok(())
    else
      var next :- Statement(ts, pos);
      Program(ts, next)
  }

  /** The verdict of `parse` on a whole token list. */
  function Parse(ts: seq<Token>): (r: Result<(), SyntaxError>)
    ensures r.Err? ==> NamesListToken(ts, r.error)
  {
    Program(ts, 0)
  }
}
