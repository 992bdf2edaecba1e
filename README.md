# Tokenizer and recursive-descent recognizer for a tiny imperative language

This project models, in Dafny, the two-stage front end in `app.py`:

- `tokenize` scans the source text left to right. It skips whitespace and
  reads maximal digit runs as `INTEGER` tokens. It reads maximal runs of
  letters, digits and `_` that start with a letter as `IF`, `ELSE` or `ID`.
  It maps ten characters (`+ - * / ( ) = < { }`) to one-character tokens and
  aborts on any other character.
- `parse` is a recursive-descent recognizer. Its productions `statement`,
  `assignment`, `expression`, `term` and `factor` share one mutable cursor
  `current`. It either walks the whole token list or aborts.

Layout:

- `results.dfy`: `Option` and `Result`. Every abort of the source (`exit(1)`
  or the `IndexError` of `tokens[current]` past the end) becomes an `Err`.
- `tokens.dfy`: `TokenType`, `Token`, the `SpecialChars` table and the ASCII
  character classes.
- `lexer.dfy`: `ScanFrom`/`Lex`, the specification of one scan. Then the
  loops of the source (`Tokenize`, `ReadNumber`, `ReadIdentifier`), each
  proved to compute what the specification says.
- `lexer_properties.dfy`: the lexeme round trip, maximal munch, keyword
  exactness, the `<` behaviour, and the characters on which the scan aborts.
- `grammar.dfy`: the productions as state-passing functions. Each takes the
  token list and the cursor on entry and returns the cursor on exit or the
  syntax error.
- `parser.dfy`: the productions as the source runs them. They are methods of
  a `Parser` object whose field `current` they all update. Each method is
  proved to agree with its function in `grammar.dfy`. The top-level `Parse`
  loop is also here.
- `grammar_properties.dfy`: the rejection conditions, what the code lets
  through beyond its intended grammar, and the characterisation of acceptance.
- `scenarios.dfy`: concrete inputs.

Three behaviours of the code are more permissive than a textbook grammar for
this language, and the model follows the code:

- In an `if` statement, `(`, `)`, `{` and `}` are matched but never required,
  in the condition, in the `then` body and in the optional `else` body alike;
  only the condition and the bodies can make an `if` statement fail.
- `assignment` consumes one token that is either an identifier or `=`, so
  `x y 1` is an assignment.
- The `)` that closes a parenthesised factor is matched but never required,
  so `x = (1` is accepted.

The code's `<=` branch (app.py:77-84) can never run, because `<` is already
one of the one-character tokens. `Lexer.Tokenize` keeps the branch and proves
it unreachable with `assert false`.

## Model

| member | source | states |
|---|---|---|
| `Lexer.RunEnd` | app.py:35-47 | the run read from `i` is the longest one: every character in it belongs to the class, and the next one is absent or does not |
| `Lexer.ReadNumber` | app.py:35-40 | `read_number`'s loop stops at the end of the maximal digit run and returns exactly the characters of that run |
| `Lexer.ReadIdentifier` | app.py:42-47 | `read_identifier`'s loop stops at the end of the maximal run of letters, digits and `_` and returns exactly that run |
| `Lexer.ScanFrom` | app.py:64-90 | every token the scan produces is well formed for its kind; an abort names a character of the input, at its position, that is not whitespace, a digit, a letter or a special character |
| `Lexer.Lex` | app.py:34-92 | a successful scan yields only well-formed tokens; an abort reports an input character and its position |
| `Lexer.Tokenize` | app.py:62-92 | the scanning loop, which appends tokens in place, returns exactly the scan that `Lex` specifies, including the abort |
| `LexerProperties.ScanSpellsInput` | app.py:65-90 | from any position, the lexemes of the tokens, concatenated in order, are the rest of the text with its whitespace removed |
| `LexerProperties.LexSpellsInput` | app.py:65-90 | lexeme round trip: concatenating the values of all tokens gives the input without its whitespace characters |
| `LexerProperties.ScanAtDigit` | app.py:68-70 | at a digit the scan emits one `INTEGER` token whose value is a non-empty all-digit run, followed by a non-digit or the end, and continues after it |
| `LexerProperties.ScanAtLetter` | app.py:85-87 | at a letter the scan emits one token for the maximal run of letters, digits and `_`; the kind is `IF` exactly for "if", `ELSE` exactly for "else", and `ID` otherwise |
| `LexerProperties.ScanAtLessThan` | app.py:74-84 | `<` always yields the one-character `LESS_THAN "<"` token, so `<=` scans as `<` then `=` |
| `LexerProperties.LexNeverEmitsReserved` | app.py:74-87 | no token of a successful scan is `ENDIF`, `THEN`, `LBRACKET`, `RBRACKET`, `COMMA` or `DOT`, and every `LESS_THAN` token is `"<"` |
| `LexerProperties.AfterLetterRunIsInsideIdentifier` | app.py:42-47 | stepping back over letters, digits and `_` until a letter is met decides exactly whether a position continues an identifier |
| `LexerProperties.WordRunAfterLetter` | app.py:85-86 | every position after the letter that starts an identifier run, up to the run's end, continues that identifier |
| `LexerProperties.DigitRunNotAfterLetter` | app.py:68-69 | a digit run read from a token boundary does not continue an identifier, so a `_` right after it starts a token |
| `LexerProperties.ScanStopsAtFirstOffending` | app.py:65-90 | from a token boundary, the scan succeeds iff no later character is offending (no token starts with it, and it is not a `_` continuing an identifier); an abort reports the first offending character |
| `LexerProperties.LexAcceptsIff` | app.py:65-90 | `tokenize` succeeds exactly on inputs where every character is whitespace, a digit, a letter, a special character, or a `_` preceded by a letter with only letters, digits and `_` in between |
| `LexerProperties.LexReportsFirstOffending` | app.py:88-90 | an abort of `tokenize` reports the first offending character of the input and its position |
| `LexerProperties.LexRejects` | app.py:88-90 | corollary of `LexAcceptsIff`, stated per character: `tokenize` fails on any input holding an offending character, including a `_` that starts a token |
| `LexerProperties.LexAccepts` | app.py:65-90 | corollary of `LexAcceptsIff`, its converse direction: `tokenize` succeeds on every input without an offending character, `_` inside identifiers included |
| `Grammar.ErrorAt` | app.py:153-154 | the reported error is the token under the cursor, or end of input exactly when the cursor is past the last token |
| `Grammar.Match` | app.py:95-102 | `match` advances the cursor by exactly one iff a token remains and its kind is expected; otherwise it leaves the cursor unchanged; the cursor stays within the list |
| `Grammar.Statement` | app.py:104-121 | a successful statement consumes at least one token and stops within the list; an error names a token of the list or the end |
| `Grammar.ElseBranch` | app.py:115-118 | the optional `else` part never moves the cursor back or past the end |
| `Grammar.Assignment` | app.py:129-135 | a successful assignment consumes at least one token and stops within the list |
| `Grammar.Expression` | app.py:123-127 | a successful expression consumes at least one token and stops within the list |
| `Grammar.Term` | app.py:137-141 | a successful term consumes at least one token and stops within the list |
| `Grammar.Factor` | app.py:143-154 | a successful factor consumes at least one token and stops within the list |
| `Grammar.Program` | app.py:156-158 | a rejection by the top-level loop names a token of the list, or the end of input |
| `Grammar.Parse` | app.py:94-158 | a rejection by `parse` names a token of the list, or the end of input |
| `Parsing.Parser.constructor` | app.py:156 | the cursor starts at 0 over the given tokens |
| `Parsing.Parser.Match` | app.py:95-102 | the loop over the expected kinds moves `current` exactly as `Grammar.Match` says, and returns the consumed token when it advances |
| `Parsing.Parser.Statement` | app.py:104-121 | moves `current` to where `Grammar.Statement` ends, or fails with the same error |
| `Parsing.Parser.Assignment` | app.py:129-135 | moves `current` to where `Grammar.Assignment` ends, or fails with the same error |
| `Parsing.Parser.Expression` | app.py:123-127 | the `while` loop over `+`, `-` and `<` moves `current` to where `Grammar.Expression` ends, or fails with the same error |
| `Parsing.Parser.Term` | app.py:137-141 | the `while` loop over `*` and `/` moves `current` to where `Grammar.Term` ends, or fails with the same error |
| `Parsing.Parser.Factor` | app.py:143-154 | moves `current` to where `Grammar.Factor` ends, or fails with the same error |
| `Parsing.Parse` | app.py:156-158 | the top-level loop terminates, and accepts or rejects exactly as `Grammar.Parse` says |
| `GrammarProperties.StatementRejectsOtherStart` | app.py:104-121 | a statement whose first token is neither `ID` nor `IF`, or which starts at the end, fails at once with that token or end of input |
| `GrammarProperties.FactorRejectsOtherStart` | app.py:143-154 | a factor whose first token is not `INTEGER`, `ID`, `LPAREN` or `MINUS`, or which starts at the end, fails at once |
| `GrammarProperties.AssignmentRejectsSecondToken` | app.py:129-135 | after a leading `ID`, a token that is neither `ID` nor `ASSIGN`, or the end, is reported as the error |
| `GrammarProperties.AssignmentTakesIdOrAssign` | app.py:131 | an `ID` followed by either an `ID` or `=` is an assignment whose expression starts after those two tokens |
| `GrammarProperties.FactorUnaryMinus` | app.py:150-151 | a `-` in front of a factor is a factor ending where the inner factor ends, so unary minus nests freely |
| `GrammarProperties.FactorClosingParenOptional` | app.py:147-149 | a parenthesised factor ends after the inner expression, plus the `)` when one follows; a missing `)` is not an error |
| `GrammarProperties.IfDelimitersOptional` | app.py:108-118 | an `if` statement with no `(`, `)`, `{` or `}` and no `else` after its body is accepted when its condition and its body are, and ends where the body ends |
| `GrammarProperties.Past` | app.py:95-102 | skipping an optional token of one kind advances the cursor by one iff that token is there, leaves it unchanged otherwise, and stays within the list |
| `GrammarProperties.IfStatementSteps` | app.py:108-118 | a statement at `if` parses the condition past an optional `(`, then the `then` body past an optional `)` and `{`, then the `else` part past an optional `}`; the first failing step's error is the statement's error |
| `GrammarProperties.IfPartsAccepted` | app.py:108-118 | an `if` statement is accepted, ending where its `else` part ends, once its condition, its `then` body and its `else` part are, with each of `(`, `)`, `{` and `}` present or absent independently |
| `GrammarProperties.IfRejectedOnlyByParts` | app.py:108-118 | a rejected `if` statement fails with exactly the error of its condition (parsed past an optional `(`); or, the condition holding, of its `then` body (past an optional `)` and `{`); or, both holding, of its `else` body, which an `else` after the `then` body (and an optional `}`) must then start, past an optional `{` (`RejectedBy`); that part starts after the `if`, and no missing delimiter is itself an error |
| `GrammarProperties.ElseBranchRejectedOnlyByBody` | app.py:115-118 | the `else` part fails only when an `else` is present, and then with the error of its body parsed past an optional `{` |
| `GrammarProperties.ElseBranchBracesOptional` | app.py:115-118 | without an `else` the cursor stays put; after an `else` the body starts past an optional `{`, its error is the whole result, and on success a following `}` is consumed when present |
| `GrammarProperties.ProgramAcceptedHasChain` | app.py:156-158 | when the top-level loop accepts, successive statements consume the token list exactly to its end |
| `GrammarProperties.ChainAccepted` | app.py:156-158 | statements that consume the list exactly to its end make the top-level loop accept |
| `GrammarProperties.ParseAcceptsIffStatementsCover` | app.py:156-158 | `parse` accepts exactly the token lists that successive statements consume completely |
| `GrammarProperties.ParseAcceptsEmpty` | app.py:156-158 | the empty token list is accepted |
| `Scenarios.DigitsThenLetters` | app.py:68-87 | `123abc` scans as `INTEGER 123` then `ID abc` |
| `Scenarios.KeywordOnWholeRun` | app.py:85-87 | `ifx` is one identifier; `if else` is the two keywords |
| `Scenarios.LessEqualIsTwoTokens` | app.py:74-84 | `<=` scans as `LESS_THAN` then `ASSIGN` |
| `Scenarios.HashAborts` | app.py:88-90 | `a # b` aborts on `#` at position 2 |
| `Scenarios.UnderscoreOnlyInsideIdentifier` | app.py:42-47 | `_` continues an identifier (`a_1`) but cannot start a token (`_a` aborts, and so does `12_` at position 2) |
| `Scenarios.AssignmentScans` | app.py:65-90 | `x = 1 + 2` scans to `ID`, `ASSIGN`, `INTEGER`, `PLUS`, `INTEGER` |
| `Scenarios.AssignmentAccepted` | app.py:129-135 | the tokens of `x = 1 + 2` are accepted |
| `Scenarios.ConditionalAccepted` | app.py:104-118 | every token list shaped like `if (x < 3) { y = 1 }` is accepted |
| `Scenarios.IntegerStartRejected` | app.py:119-121 | `12ab = 3` scans, and is rejected at the token `INTEGER 12` |
| `Scenarios.ExpressionLayers` | app.py:123-141 | `1+2*3` and `1*2+3` are whole expressions; `1+` fails at the end of input |
| `Scenarios.NestedUnaryMinus` | app.py:150-151 | `- - 5` is a factor; in `5 -` the minus has no operand |
| `Scenarios.SecondIdentifierAccepted` | app.py:131 | `x y 1` is accepted |
| `Scenarios.BareConditionalAccepted` | app.py:108-118 | `if x y = 1` is accepted |
| `Scenarios.UnclosedParenthesisAccepted` | app.py:147-149 | `x = (1` is accepted |
| `Scenarios.IfElseAccepted` | app.py:104-118 | every token list shaped like `if (x < 3) { y = 1 } else { y = 2 }` is accepted |
| `Scenarios.PartlyDelimitedIfElseAccepted` | app.py:108-118 | every token list shaped like `if ( x { y = 1 } else z = 2` (no `)`, no braces around the `else` body) is accepted |

## Left out

- `main` (app.py:160-176) is the driver: a sample program, printing the tokens and the success message.
- `Token.__str__` (app.py:31-32) only formats a token for display.
- Printing and process termination on errors (app.py:83-84, 89-90, 120-121, 134-135, 153-154) are not modelled. Each is an `Err` value: `LexError` carries the character and its position, and `SyntaxError` carries the offending token.
- The `IndexError` raised when an error is reported at the end of the list is the same rejection as `exit(1)`. It is the `EndOfInput` error.
- Character classes are ASCII. Python's `isdigit`, `isalpha`, `isalnum` and `isspace` also accept non-ASCII characters (other scripts' letters and digits, superscript digits, non-breaking space). Those come from Python's Unicode tables, which are not part of this model. ASCII whitespace does include Python's `\x1c`-`\x1f` separators.
- `Grammar.Expression`, `Grammar.Term`: the source's `while` loops are stated as right recursion. After an operator, the rest of the loop is the production again from the next token. This recognises the same lists with the same cursor movement. The loops themselves are in `Parsing.Parser.Expression` and `Parsing.Parser.Term`.
- `Grammar.Parse` and `Parsing.Parse` accept nesting of any depth. The source recurses once per nested unary `-` (app.py:151), three times per nested `(` (factor, expression, term; app.py:148) and once per nested `if` body (app.py:113, 117). Past the interpreter's recursion limit (1000 frames by default) it fails with an uncaught `RecursionError`, which is a rejection; the model accepts such input when the grammar does. The limit is a setting of the Python runtime, not of this code.
- `match` returns the token object, which is always truthy. The functions in `Grammar` keep only whether the cursor advanced. `Parsing.Parser.Match` also returns the token.
