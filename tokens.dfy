/**
 * Token kinds and tokens of the toy language, and the character classes the
 * scanner tests (app.py:4-29, 49-60).
 *
 * Python's `str.isdigit`, `isalpha`, `isalnum` and `isspace` are modelled on
 * ASCII only.
 */
module Tokens {

  /** One kind per lexical category, including the six the scanner never produces. */
  datatype TokenType =
    | Integer | Plus | Minus | Multiply | Divide | LParen | RParen | Assign | Id
    | If | Else | EndIf | Then | LessThan | LBrace | RBrace | LBracket | RBracket | Comma | Dot

  /** A token: its kind and its exact lexeme. */
  datatype Token = Token(kind: TokenType, value: string)

  /** Kinds that are declared but that no code path of the scanner emits. */
  const ReservedKinds: set<TokenType> := {EndIf, Then, LBracket, RBracket, Comma, Dot}

  /** The ten one-character tokens, keyed by their character (app.py:49-60). */
  const SpecialChars: map<char, TokenType> := map[
    '+' := Plus, '-' := Minus, '*' := Multiply, '/' := Divide,
    '(' := LParen, ')' := RParen, '=' := Assign, '<' := LessThan,
    '{' := LBrace, '}' := RBrace
  ]

  predicate IsDigit(c: char) {
    '0' <= c <= '9'
  }

  predicate IsAlpha(c: char) {
    'a' <= c <= 'z' || 'A' <= c <= 'Z'
  }

  predicate IsAlnum(c: char) {
    IsDigit(c) || IsAlpha(c)
  }

  /** ASCII whitespace as Python sees it: tab to carriage return, the four separators, space. */
  predicate IsSpace(c: char) {
    '\t' <= c <= '\r' || '\U{1C}' <= c <= '\U{1F}' || c == ' '
  }

  /** A character that may continue an identifier. */
  predicate IsWordChar(c: char) {
    IsAlnum(c) || c == '_'
  }
}
