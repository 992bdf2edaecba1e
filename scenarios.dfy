/** Concrete inputs: what the scanner and the recognizer do on small programs. */
module Scenarios {
  import opened Results
  import opened Tokens
  import opened Lexer
  import opened Grammar
  import opened GrammarProperties

  /** Maximal munch: `123abc` is one integer and one identifier. */
  lemma DigitsThenLetters()
    ensures Lex("123abc") == Ok([Token(Integer, "123"), Token(Id, "abc")])
  {
    var s := "123abc";
    assert RunEnd(s, 3, WordChars) == 6 && s[3..6] == "abc";
    assert [Token(Id, "abc")] + [] == [Token(Id, "abc")];
    assert ScanFrom(s, 3) == Ok([Token(Id, "abc")]);
    assert RunEnd(s, 0, Digits) == 3 && s[0..3] == "123";
    assert [Token(Integer, "123")] + [Token(Id, "abc")] == [Token(Integer, "123"), Token(Id, "abc")];
  }

  /** Keywords are matched on the whole run: `ifx` is an identifier, `if` a keyword. */
  lemma KeywordOnWholeRun()
    ensures Lex("ifx") == Ok([Token(Id, "ifx")])
    ensures Lex("if else") == Ok([Token(If, "if"), Token(Else, "else")])
  {
    WholeRunIdentifier();
    KeywordsApart();
  }

  lemma WholeRunIdentifier()
    ensures Lex("ifx") == Ok([Token(Id, "ifx")])
  {
    assert RunEnd("ifx", 0, WordChars) == 3 && "ifx"[0..3] == "ifx";
    assert [Token(Id, "ifx")] + [] == [Token(Id, "ifx")];
  }

  lemma KeywordsApart()
    ensures Lex("if else") == Ok([Token(If, "if"), Token(Else, "else")])
  {
    var s := "if else";
    assert RunEnd(s, 3, WordChars) == 7 && s[3..7] == "else";
    assert [Token(Else, "else")] + [] == [Token(Else, "else")];
    assert ScanFrom(s, 3) == Ok([Token(Else, "else")]);
    assert ScanFrom(s, 2) == Ok([Token(Else, "else")]);
    assert RunEnd(s, 0, WordChars) == 2 && s[0..2] == "if";
    assert [Token(If, "if")] + [Token(Else, "else")] == [Token(If, "if"), Token(Else, "else")];
  }

  /** `<=` is never one token. */
  lemma LessEqualIsTwoTokens()
    ensures Lex("<=") == Ok([Token(LessThan, "<"), Token(Assign, "=")])
  {
    assert [Token(Assign, "=")] + [] == [Token(Assign, "=")];
    assert ScanFrom("<=", 1) == Ok([Token(Assign, "=")]);
    assert [Token(LessThan, "<")] + [Token(Assign, "=")] == [Token(LessThan, "<"), Token(Assign, "=")];
  }

  /** An unclassified character aborts the scan and is reported with its position. */
  lemma HashAborts()
    ensures Lex("a # b") == Err(InvalidCharacter('#', 2))
  {
  }

  /** `_` may continue an identifier but not start a token, not even right after digits. */
  lemma UnderscoreOnlyInsideIdentifier()
    ensures Lex("a_1") == Ok([Token(Id, "a_1")])
    ensures Lex("_a") == Err(InvalidCharacter('_', 0))
    ensures Lex("12_") == Err(InvalidCharacter('_', 2))
  {
    assert RunEnd("12_", 0, Digits) == 2;
    assert RunEnd("a_1", 0, WordChars) == 3 && "a_1"[0..3] == "a_1";
    assert [Token(Id, "a_1")] + [] == [Token(Id, "a_1")];
  }

  /** `x = 1 + 2` scans to five tokens ... */
  lemma AssignmentScans()
    ensures Lex("x = 1 + 2")
         == Ok([Token(Id, "x"), Token(Assign, "="), Token(Integer, "1"), Token(Plus, "+"), Token(Integer, "2")])
  {
    var s := "x = 1 + 2";
    var t2, plus, t1 := Token(Integer, "2"), Token(Plus, "+"), Token(Integer, "1");
    var assign, x := Token(Assign, "="), Token(Id, "x");
    SumScans();
    assert [assign] + [t1, plus, t2] == [assign, t1, plus, t2];
    assert ScanFrom(s, 1) == Ok([assign, t1, plus, t2]);
    assert RunEnd(s, 0, WordChars) == 1 && s[0..1] == "x";
    assert [x] + [assign, t1, plus, t2] == [x, assign, t1, plus, t2];
  }

  lemma SumScans()
    ensures ScanFrom("x = 1 + 2", 3) == Ok([Token(Integer, "1"), Token(Plus, "+"), Token(Integer, "2")])
  {
    var s := "x = 1 + 2";
    var t2, plus, t1 := Token(Integer, "2"), Token(Plus, "+"), Token(Integer, "1");
    assert RunEnd(s, 8, Digits) == 9 && s[8..9] == "2";
    assert [t2] + [] == [t2];
    assert ScanFrom(s, 7) == Ok([t2]);
    assert [plus] + [t2] == [plus, t2];
    assert ScanFrom(s, 5) == Ok([plus, t2]);
    assert RunEnd(s, 4, Digits) == 5 && s[4..5] == "1";
    assert [t1] + [plus, t2] == [t1, plus, t2];
  }

  /** ... which are accepted as one assignment. */
  lemma AssignmentAccepted()
    ensures Parse([Token(Id, "x"), Token(Assign, "="), Token(Integer, "1"), Token(Plus, "+"), Token(Integer, "2")]) == Ok(())
  {
    var ts := [Token(Id, "x"), Token(Assign, "="), Token(Integer, "1"), Token(Plus, "+"), Token(Integer, "2")];
    assert Factor(ts, 4) == Ok(5);
    assert Term(ts, 4) == Ok(5);
    assert Expression(ts, 4) == Ok(5);
    assert Term(ts, 2) == Ok(3);
    assert Expression(ts, 2) == Ok(5);
    assert Statement(ts, 0) == Ok(5);
  }

  /** `12ab = 3` scans, but a statement cannot start with the integer `12`. */
  lemma IntegerStartRejected()
    ensures Lex("12ab = 3")
         == Ok([Token(Integer, "12"), Token(Id, "ab"), Token(Assign, "="), Token(Integer, "3")])
    ensures Parse([Token(Integer, "12"), Token(Id, "ab"), Token(Assign, "="), Token(Integer, "3")])
         == Err(UnexpectedToken(Token(Integer, "12")))
  {
    IntegerStartScans();
  }

  lemma IntegerStartScans()
    ensures Lex("12ab = 3")
         == Ok([Token(Integer, "12"), Token(Id, "ab"), Token(Assign, "="), Token(Integer, "3")])
  {
    var s := "12ab = 3";
    var t3, assign, ab, t12 := Token(Integer, "3"), Token(Assign, "="), Token(Id, "ab"), Token(Integer, "12");
    assert RunEnd(s, 7, Digits) == 8 && s[7..8] == "3";
    assert [t3] + [] == [t3];
    assert ScanFrom(s, 6) == Ok([t3]);
    assert [assign] + [t3] == [assign, t3];
    assert ScanFrom(s, 4) == Ok([assign, t3]);
    assert RunEnd(s, 2, WordChars) == 4 && s[2..4] == "ab";
    assert [ab] + [assign, t3] == [ab, assign, t3];
    assert ScanFrom(s, 2) == Ok([ab, assign, t3]);
    assert RunEnd(s, 0, Digits) == 2 && s[0..2] == "12";
    assert [t12] + [ab, assign, t3] == [t12, ab, assign, t3];
  }

  /** Layering: `1+2*3` and `1*2+3` are whole expressions; `1+` runs into the end of input. */
  lemma ExpressionLayers()
    ensures Expression([Token(Integer, "1"), Token(Plus, "+"), Token(Integer, "2"), Token(Multiply, "*"), Token(Integer, "3")], 0) == Ok(5)
    ensures Expression([Token(Integer, "1"), Token(Multiply, "*"), Token(Integer, "2"), Token(Plus, "+"), Token(Integer, "3")], 0) == Ok(5)
    ensures Expression([Token(Integer, "1"), Token(Plus, "+")], 0) == Err(EndOfInput)
  {
    SumOfProduct();
    ProductInSum();
  }

  lemma SumOfProduct()
    ensures Expression([Token(Integer, "1"), Token(Plus, "+"), Token(Integer, "2"), Token(Multiply, "*"), Token(Integer, "3")], 0) == Ok(5)
  {
    var ts := [Token(Integer, "1"), Token(Plus, "+"), Token(Integer, "2"), Token(Multiply, "*"), Token(Integer, "3")];
    assert Term(ts, 2) == Ok(5);
  }

  lemma ProductInSum()
    ensures Expression([Token(Integer, "1"), Token(Multiply, "*"), Token(Integer, "2"), Token(Plus, "+"), Token(Integer, "3")], 0) == Ok(5)
  {
    var ts := [Token(Integer, "1"), Token(Multiply, "*"), Token(Integer, "2"), Token(Plus, "+"), Token(Integer, "3")];
    assert Term(ts, 0) == Ok(3);
  }

  /** `- - 5` is a factor; `5 -` leaves the minus without an operand. */
  lemma NestedUnaryMinus()
    ensures Factor([Token(Minus, "-"), Token(Minus, "-"), Token(Integer, "5")], 0) == Ok(3)
    ensures Term([Token(Integer, "5"), Token(Minus, "-")], 0) == Ok(1)
    ensures Expression([Token(Integer, "5"), Token(Minus, "-")], 0) == Err(EndOfInput)
  {
  }

  /** `x y 1`: the token after the leading identifier may be another identifier instead of `=`. */
  lemma SecondIdentifierAccepted()
    ensures Parse([Token(Id, "x"), Token(Id, "y"), Token(Integer, "1")]) == Ok(())
  {
    var ts := [Token(Id, "x"), Token(Id, "y"), Token(Integer, "1")];
    assert Expression(ts, 2) == Ok(3);
    assert Statement(ts, 0) == Ok(3);
  }

  /** `if x y = 1`: a conditional without parentheses or braces. */
  lemma BareConditionalAccepted()
    ensures Parse([Token(If, "if"), Token(Id, "x"), Token(Id, "y"), Token(Assign, "="), Token(Integer, "1")]) == Ok(())
  {
    var ts := [Token(If, "if"), Token(Id, "x"), Token(Id, "y"), Token(Assign, "="), Token(Integer, "1")];
    assert Term(ts, 1) == Ok(2);
    assert Expression(ts, 1) == Ok(2);
    assert Expression(ts, 4) == Ok(5);
    assert Statement(ts, 2) == Ok(5);
    assert ElseBranch(ts, 5) == Ok(5);
    assert Statement(ts, 0) == Ok(5);
  }

  /** `x = (1`: the closing parenthesis may be missing. */
  lemma UnclosedParenthesisAccepted()
    ensures Parse([Token(Id, "x"), Token(Assign, "="), Token(LParen, "("), Token(Integer, "1")]) == Ok(())
  {
    var ts := [Token(Id, "x"), Token(Assign, "="), Token(LParen, "("), Token(Integer, "1")];
    assert Expression(ts, 3) == Ok(4);
    assert Factor(ts, 2) == Ok(4);
    assert Term(ts, 2) == Ok(4);
    assert Expression(ts, 2) == Ok(4);
    assert Statement(ts, 0) == Ok(4);
  }

  /** No binary operator continues an expression at `p`. */
  predicate EndsExpression(ts: seq<Token>, p: nat)
    requires p <= |ts|
  {
    p == |ts| || ts[p].kind !in [Plus, Minus, LessThan, Multiply, Divide]
  }

  /** A lone integer or identifier is a whole expression. */
  lemma {:induction false} OperandAccepted(ts: seq<Token>, p: nat)
    requires p < |ts| && ts[p].kind in [Integer, Id] && EndsExpression(ts, p + 1)
    ensures Expression(ts, p) == Ok(p + 1)
  {
    assert Term(ts, p) == Ok(p + 1);
  }

  /** `x < 3` is a whole expression. */
  lemma {:induction false} ComparisonAccepted(ts: seq<Token>, p: nat)
    requires p + 2 < |ts| && ts[p].kind == Id && ts[p + 1].kind == LessThan && ts[p + 2].kind == Integer
    requires EndsExpression(ts, p + 3)
    ensures Expression(ts, p) == Ok(p + 3)
  {
    OperandAccepted(ts, p + 2);
    assert Term(ts, p) == Ok(p + 1);
  }

  /** `y = 1` is a whole statement. */
  lemma {:induction false} SimpleAssignmentAccepted(ts: seq<Token>, p: nat)
    requires p + 2 < |ts| && ts[p].kind == Id && ts[p + 1].kind == Assign && ts[p + 2].kind == Integer
    requires EndsExpression(ts, p + 3)
    ensures Statement(ts, p) == Ok(p + 3)
  {
    OperandAccepted(ts, p + 2);
  }

  /** A single statement covering the whole token list is a program. */
  lemma {:induction false} SingleStatementProgram(ts: seq<Token>)
    requires Statement(ts, 0) == Ok(|ts|)
    ensures Parse(ts) == Ok(())
  {
    assert Program(ts, |ts|) == Ok(());
  }

  /** Any token list shaped like `if (x < 3) { y = 1 }` is a program. */
  lemma {:induction false} ConditionalAccepted(ts: seq<Token>)
    requires |ts| == 11
    requires ts[0].kind == If && ts[1].kind == LParen && ts[2].kind == Id && ts[3].kind == LessThan
    requires ts[4].kind == Integer && ts[5].kind == RParen && ts[6].kind == LBrace && ts[7].kind == Id
    requires ts[8].kind == Assign && ts[9].kind == Integer && ts[10].kind == RBrace
    ensures Parse(ts) == Ok(())
  {
    ComparisonAccepted(ts, 2);
    SimpleAssignmentAccepted(ts, 7);
    assert ElseBranch(ts, 11) == Ok(11);
    IfPartsAccepted(ts, 0, 5, 10, 11);
    SingleStatementProgram(ts);
  }

  /** Any token list shaped like `if (x < 3) { y = 1 } else { y = 2 }` is a program. */
  lemma {:induction false} IfElseAccepted(ts: seq<Token>)
    requires |ts| == 17
    requires ts[0].kind == If && ts[1].kind == LParen && ts[2].kind == Id && ts[3].kind == LessThan
    requires ts[4].kind == Integer && ts[5].kind == RParen && ts[6].kind == LBrace && ts[7].kind == Id
    requires ts[8].kind == Assign && ts[9].kind == Integer && ts[10].kind == RBrace && ts[11].kind == Else
    requires ts[12].kind == LBrace && ts[13].kind == Id && ts[14].kind == Assign && ts[15].kind == Integer
    requires ts[16].kind == RBrace
    ensures Parse(ts) == Ok(())
  {
    ComparisonAccepted(ts, 2);
    SimpleAssignmentAccepted(ts, 7);
    SimpleAssignmentAccepted(ts, 13);
    assert ElseBranch(ts, 11) == Ok(17);
    IfPartsAccepted(ts, 0, 5, 10, 17);
    SingleStatementProgram(ts);
  }

  /**
   * Any token list shaped like `if ( x { y = 1 } else z = 2`, which lacks the
   * `)` of the condition and both braces of the `else` part, is a program.
   */
  lemma {:induction false} PartlyDelimitedIfElseAccepted(ts: seq<Token>)
    requires |ts| == 12
    requires ts[0].kind == If && ts[1].kind == LParen && ts[2].kind == Id && ts[3].kind == LBrace
    requires ts[4].kind == Id && ts[5].kind == Assign && ts[6].kind == Integer && ts[7].kind == RBrace
    requires ts[8].kind == Else && ts[9].kind == Id && ts[10].kind == Assign && ts[11].kind == Integer
    ensures Parse(ts) == Ok(())
  {
    OperandAccepted(ts, 2);
    SimpleAssignmentAccepted(ts, 4);
    SimpleAssignmentAccepted(ts, 9);
    assert ElseBranch(ts, 8) == Ok(12);
    IfPartsAccepted(ts, 0, 3, 7, 12);
    SingleStatementProgram(ts);
  }
}
