/**
 * `parse` as the source runs it (app.py:94-158): the productions are
 * procedures sharing one mutable cursor `current`, here the field of a
 * `Parser` object. Each method is proved to move the cursor exactly as the
 * corresponding function of `Grammar` says, and to fail with the same error.
 */
module Parsing {
  import opened Results
  import opened Tokens
  import Grammar

  class Parser {
    const tokens: seq<Token>
    var current: nat

    ghost predicate Valid()
      reads this
    {
      current <= |tokens|
    }

    /** The method's outcome `r` and the new cursor are what the production function `spec` gives. */
    ghost predicate Agrees(spec: Result<nat, Grammar.SyntaxError>, r: Result<(), Grammar.SyntaxError>)
      reads this
    {
      match spec
      case Ok(next) => r == Ok(()) && current == next
      case Err(e) => r == Err(e)
    }

    constructor (tokens: seq<Token>)
      ensures this.tokens == tokens && current == 0 && Valid()
    {
      this.tokens := tokens;
      current := 0;
    }

    /** `match` (app.py:95-102): tries the expected kinds in order and consumes at most one token. */
    method Match(expected: seq<TokenType>) returns (token: Option<Token>)
      requires Valid()
      modifies this
      ensures Valid()
      ensures current == Grammar.Match(tokens, old(current), expected)
      ensures token.Some? <==> current == old(current) + 1
      ensures token.Some? ==> token.value == tokens[old(current)]
    {
      token := None;
      for i := 0 to |expected|
        invariant current == old(current)
        invariant forall j | 0 <= j < i :: !(current < |tokens| && tokens[current].kind == expected[j])
      {
        if current < |tokens| && tokens[current].kind == expected[i] {
          token := Some(tokens[current]);
          current := current + 1;
          return;
        }
      }
    }

    /** `statement` (app.py:104-121). */
    method Statement() returns (r: Result<(), Grammar.SyntaxError>)
      requires Valid()
      modifies this
      ensures Valid()
      ensures Agrees(Grammar.Statement(tokens, old(current)), r)
      decreases |tokens| - current, 5
    {
      ghost var start := current;
      var token := Match([Id]);
      if token.Some? {
        r := Assignment();
        return;
      }
      token := Match([If]);
      if token.Some? {
        token := Match([LParen]);
        r := Expression();
        if r.Err? {
          return;
        }
        token := Match([RParen]);
        token := Match([LBrace]);
        r := Statement();
        if r.Err? {
          return;
        }
        token := Match([RBrace]);
        assert Grammar.Statement(tokens, start) == Grammar.ElseBranch(tokens, current);
        token := Match([Else]);
        if token.Some? {
          token := Match([LBrace]);
          r := Statement();
          if r.Err? {
            return;
          }
          token := Match([RBrace]);
        }
        return Ok(());
      }
      r := Err(Grammar.ErrorAt(tokens, current));
    }

    /** `assignment` (app.py:129-135). */
    method Assignment() returns (r: Result<(), Grammar.SyntaxError>)
      requires Valid()
      modifies this
      ensures Valid()
      ensures Agrees(Grammar.Assignment(tokens, old(current)), r)
      decreases |tokens| - current, 5
    {
      var token := Match([Id, Assign]);
      if token.Some? {
        r := Expression();
      } else {
        r := Err(Grammar.ErrorAt(tokens, current));
      }
    }

    /** `expression` (app.py:123-127). */
    method Expression() returns (r: Result<(), Grammar.SyntaxError>)
      requires Valid()
      modifies this
      ensures Valid()
      ensures Agrees(Grammar.Expression(tokens, old(current)), r)
      decreases |tokens| - current, 4
    {
      r := Term();
      if r.Err? {
        return;
      }
      var operator := Match([Plus, Minus, LessThan]);
      while operator.Some?
        invariant Valid() && r == Ok(())
        invariant Grammar.Expression(tokens, old(current))
               == if operator.Some? then Grammar.Expression(tokens, current) else Ok(current)
        decreases |tokens| - current
      {
        r := Term();
        if r.Err? {
          return;
        }
        operator := Match([Plus, Minus, LessThan]);
      }
    }

    /** `term` (app.py:137-141). */
    method Term() returns (r: Result<(), Grammar.SyntaxError>)
      requires Valid()
      modifies this
      ensures Valid()
      ensures Agrees(Grammar.Term(tokens, old(current)), r)
      decreases |tokens| - current, 3
    {
      r := Factor();
      if r.Err? {
        return;
      }
      var operator := Match([Multiply, Divide]);
      while operator.Some?
        invariant Valid() && r == Ok(())
        invariant Grammar.Term(tokens, old(current))
               == if operator.Some? then Grammar.Term(tokens, current) else Ok(current)
        decreases |tokens| - current
      {
        r := Factor();
        if r.Err? {
          return;
        }
        operator := Match([Multiply, Divide]);
      }
    }

    /** `factor` (app.py:143-154). */
    method Factor() returns (r: Result<(), Grammar.SyntaxError>)
      requires Valid()
      modifies this
      ensures Valid()
      ensures Agrees(Grammar.Factor(tokens, old(current)), r)
      decreases |tokens| - current, 2
    {
      var token := Match([Integer, Id]);
      if token.Some? {
        return Ok(());
      }
      token := Match([LParen]);
      if token.Some? {
        r := Expression();
        if r.Err? {
          return;
        }
        token := Match([RParen]);
        return Ok(());
      }
      token := Match([Minus]);
      if token.Some? {
        r := Factor();
        return;
      }
      r := Err(Grammar.ErrorAt(tokens, current));
    }
  }

  /** `parse` (app.py:94, 156-158): statements until the cursor reaches the end of the list. */
  method Parse(tokens: seq<Token>) returns (r: Result<(), Grammar.SyntaxError>)
    ensures r == Grammar.Parse(tokens)
  {
    var parser := new Parser(tokens);
    while parser.current < |tokens|
      invariant parser.Valid() && parser.tokens == tokens
      invariant Grammar.Parse(tokens) == Grammar.Program(tokens, parser.current)
      decreases |tokens| - parser.current
    {
      var outcome := parser.Statement();
      if outcome.Err? {
        return Err(outcome.error);
      }
    }
    return Ok(());
  }
}
