/**
 * The scanner `tokenize` (app.py:34-92): one left-to-right pass that skips
 * whitespace, reads maximal digit runs and identifier runs, maps ten
 * characters to one-character tokens and aborts on anything else.
 *
 * `ScanFrom` is the specification of the pass from a given position;
 * `Tokenize`, `ReadNumber` and `ReadIdentifier` are the loops of the source,
 * each proved to compute what the specification says.
 */
module Lexer {
  import opened Results
  import opened Tokens

  /** The abort of app.py:83-84 and 89-90: the character that could not be classified, and where. */
  datatype LexError = InvalidCharacter(character: char, position: nat)

  /** The two runs the scanner reads maximally: digits, and identifier characters. */
  datatype RunClass = Digits | WordChars

  predicate InRun(c: char, cls: RunClass) {
    match cls
    case Digits => IsDigit(c)
    case WordChars => IsWordChar(c)
  }

  /** A character with which no token can start. */
  predicate Unclassified(c: char) {
    !IsSpace(c) && !IsDigit(c) && !IsAlpha(c) && c !in SpecialChars
  }

  /** The end of the maximal run of `cls` characters starting at `i`. */
  function RunEnd(s: string, i: nat, cls: RunClass): (j: nat)
    requires i <= |s|
    ensures i <= j <= |s|
    ensures forall k | i <= k < j :: InRun(s[k], cls)
    ensures j == |s| || !InRun(s[j], cls)
    decreases |s| - i
  {
    if i < |s| && InRun(s[i], cls) then RunEnd(s, i + 1, cls) else i
  }

  /** The kind of an identifier run: the two keywords, compared exactly, or `Id` (app.py:87). */
  function KeywordKind(word: string): TokenType {
    if word == "if" then If else if word == "else" then Else else Id
  }

  /** An identifier spelling: a letter, then letters, digits or underscores. */
  predicate IsWord(w: string) {
    |w| > 0 && IsAlpha(w[0]) && forall i | 0 <= i < |w| :: IsWordChar(w[i])
  }

  /** What a token produced by the scanner looks like, kind by kind. */
  predicate WellFormed(t: Token) {
    match t.kind
    case Integer => |t.value| > 0 && forall i | 0 <= i < |t.value| :: IsDigit(t.value[i])
    case Id => IsWord(t.value) && t.value != "if" && t.value != "else"
    case If => t.value == "if"
    case Else => t.value == "else"
    case EndIf | Then | LBracket | RBracket | Comma | Dot => false
    case _ => |t.value| == 1 && t.value[0] in SpecialChars && SpecialChars[t.value[0]] == t.kind
  }

  /** `prefix` in front of the tokens of a successful scan; an abort stays an abort. */
  function Prepend(prefix: seq<Token>, r: Result<seq<Token>, LexError>): Result<seq<Token>, LexError> {
    match r
    case Ok(rest) => Ok(prefix + rest)
    case Err(e) => Err(e)
  }

  lemma PrependPrepend(a: seq<Token>, b: seq<Token>, r: Result<seq<Token>, LexError>)
    ensures Prepend(a, Prepend(b, r)) == Prepend(a + b, r)
  {
    if r.Ok? {
      assert a + (b + r.value) == (a + b) + r.value;
    }
  }

  /** The tokens the scan produces from position `pos` on, or the first abort. */
  function ScanFrom(s: string, pos: nat): (r: Result<seq<Token>, LexError>)
    requires pos <= |s|
    ensures r.Ok? ==> forall t | t in r.value :: WellFormed(t)
    ensures r.Err? ==> pos <= r.error.position < |s| && s[r.error.position] == r.error.character
    ensures r.Err? ==> Unclassified(r.error.character)
    decreases |s| - pos
  {
    if pos == |s| then Ok([])
    else
      var c := s[pos];
      if IsDigit(c) then
        var e := RunEnd(s, pos, Digits);
        Prepend([Token(Integer, s[pos..e])], ScanFrom(s, e))
      else if IsSpace(c) then
        ScanFrom(s, pos + 1)
      else if c in SpecialChars then
        Prepend([Token(SpecialChars[c], [c])], ScanFrom(s, pos + 1))
      else if IsAlpha(c) then
        var e := RunEnd(s, pos, WordChars);
        var word := s[pos..e];
        assert IsWord(word) by {
          assert word[0] == c;
          assert forall i | 0 <= i < |word| :: word[i] == s[pos + i];
        }
        Prepend([Token(KeywordKind(word), word)], ScanFrom(s, e))
      else
        Err(InvalidCharacter(c, pos))
  }

  /** The result of `tokenize` on the whole input. */
  function Lex(input: string): (r: Result<seq<Token>, LexError>)
    ensures r.Ok? ==> forall t | t in r.value :: WellFormed(t)
    ensures r.Err? ==> r.error.position < |input| && input[r.error.position] == r.error.character
  {
    ScanFrom(input, 0)
  }

  /** `read_number` (app.py:35-40): the maximal digit run from `position`, and the position after it. */
  method ReadNumber(input: string, position: nat) returns (result: string, next: nat)
    requires position <= |input|
    ensures next == RunEnd(input, position, Digits)
    ensures result == input[position..next]
  {
    result, next := "", position;
    while next < |input| && IsDigit(input[next])
      invariant position <= next <= |input|
      invariant RunEnd(input, next, Digits) == RunEnd(input, position, Digits)
      invariant result == input[position..next]
    {
      assert input[position..next + 1] == input[position..next] + [input[next]];
      result := result + [input[next]];
      next := next + 1;
    }
  }

  /** `read_identifier` (app.py:42-47): the maximal run of letters, digits and `_` from `position`. */
  method ReadIdentifier(input: string, position: nat) returns (result: string, next: nat)
    requires position <= |input|
    ensures next == RunEnd(input, position, WordChars)
    ensures result == input[position..next]
  {
    result, next := "", position;
    while next < |input| && (IsAlnum(input[next]) || input[next] == '_')
      invariant position <= next <= |input|
      invariant RunEnd(input, next, WordChars) == RunEnd(input, position, WordChars)
      invariant result == input[position..next]
    {
      assert input[position..next + 1] == input[position..next] + [input[next]];
      result := result + [input[next]];
      next := next + 1;
    }
  }

  /** `tokenize` (app.py:62-92): the scanning loop, appending to `tokens` in place. */
  method Tokenize(input: string) returns (r: Result<seq<Token>, LexError>)
    ensures r == Lex(input)
  {
    var tokens: seq<Token> := [];
    var position: nat := 0;
    assert Lex(input).Ok? ==> [] + Lex(input).value == Lex(input).value;
    while position < |input|
      invariant position <= |input|
      invariant Lex(input) == Prepend(tokens, ScanFrom(input, position))
      decreases |input| - position
    {
      var currentChar := input[position];
      if IsDigit(currentChar) {
        var number;
        number, position := ReadNumber(input, position);
        PrependPrepend(tokens, [Token(Integer, number)], ScanFrom(input, position));
        tokens := tokens + [Token(Integer, number)];
      } else if IsSpace(currentChar) {
        position := position + 1;
      } else if currentChar in SpecialChars {
        PrependPrepend(tokens, [Token(SpecialChars[currentChar], [currentChar])], ScanFrom(input, position + 1));
        tokens := tokens + [Token(SpecialChars[currentChar], [currentChar])];
        position := position + 1;
      } else if currentChar == '<' {
        // the two-character `<=` branch: `<` is one of SpecialChars, so it is never reached
        assert false;
      } else if IsAlpha(currentChar) {
        var identifier;
        identifier, position := ReadIdentifier(input, position);
        PrependPrepend(tokens, [Token(KeywordKind(identifier), identifier)], ScanFrom(input, position));
        tokens := tokens + [Token(KeywordKind(identifier), identifier)];
      } else {
        return Err(InvalidCharacter(currentChar, position));
      }
    }
    assert tokens + [] == tokens;
    return Ok(tokens);
  }
}
