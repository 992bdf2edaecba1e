/**
 * What the recognizer promises: which first tokens each production rejects,
 * what the code lets through that a textbook grammar would not, and that the
 * top-level loop accepts exactly the lists that successive statements cover.
 */
module GrammarProperties {
  import opened Results
  import opened Tokens
  import opened Grammar

  /** A statement must start with an identifier or `if`; anything else, or the end, is reported at once. */
  lemma StatementRejectsOtherStart(ts: seq<Token>, pos: nat)
    requires pos <= |ts|
    requires pos == |ts| || ts[pos].kind !in {Id, If}
    ensures Statement(ts, pos) == Err(ErrorAt(ts, pos))
  {
  }

  /** A factor must start with an integer, an identifier, `(` or `-`; anything else, or the end, is reported at once. */
  lemma FactorRejectsOtherStart(ts: seq<Token>, pos: nat)
    requires pos <= |ts|
    requires pos == |ts| || ts[pos].kind !in {Integer, Id, LParen, Minus}
    ensures Factor(ts, pos) == Err(ErrorAt(ts, pos))
  {
  }

  /** After the leading identifier, an assignment needs one `Id` or `=` token; otherwise that position is reported. */
  lemma AssignmentRejectsSecondToken(ts: seq<Token>, pos: nat)
    requires pos < |ts| && ts[pos].kind == Id
    requires pos + 1 == |ts| || ts[pos + 1].kind !in {Id, Assign}
    ensures Statement(ts, pos) == Err(ErrorAt(ts, pos + 1))
  {
  }

  /** An identifier followed by either another identifier or `=` is an assignment: `x y 1` is accepted like `x = 1`. */
  lemma AssignmentTakesIdOrAssign(ts: seq<Token>, pos: nat)
    requires pos + 1 < |ts| && ts[pos].kind == Id && ts[pos + 1].kind in {Id, Assign}
    ensures Statement(ts, pos) == Expression(ts, pos + 2)
  {
  }

  /** Unary minus nests freely: a `-` in front of a factor is a factor ending where the inner one ends. */
  lemma FactorUnaryMinus(ts: seq<Token>, pos: nat)
    requires pos < |ts| && ts[pos].kind == Minus
    ensures Factor(ts, pos) == Factor(ts, pos + 1)
  {
  }

  /** The closing `)` of a parenthesised factor is consumed when present and not required. */
  lemma FactorClosingParenOptional(ts: seq<Token>, pos: nat)
    requires pos < |ts| && ts[pos].kind == LParen
    ensures Expression(ts, pos + 1).Err? ==> Factor(ts, pos) == Expression(ts, pos + 1)
    ensures Expression(ts, pos + 1).Ok? ==>
      var p := Expression(ts, pos + 1).value;
      Factor(ts, pos) == Ok(if p < |ts| && ts[p].kind == RParen then p + 1 else p)
  {
  }

  /**
   * In a conditional only the condition and the `then` body are required:
   * with no `(`, `)`, `{` or `}` at all, `if` followed by an expression and a
   * statement (and no `else`) is a statement.
   */
  lemma IfDelimitersOptional(ts: seq<Token>, pos: nat, afterCondition: nat, afterThen: nat)
    requires pos < |ts| && ts[pos].kind == If
    requires pos + 1 < |ts| && ts[pos + 1].kind != LParen
    requires Expression(ts, pos + 1) == Ok(afterCondition)
    requires afterCondition == |ts| || ts[afterCondition].kind !in {RParen, LBrace}
    requires Statement(ts, afterCondition) == Ok(afterThen)
    requires afterThen == |ts| || ts[afterThen].kind !in {RBrace, Else}
    ensures Statement(ts, pos) == Ok(afterThen)
  {
  }

  /** The position after an optional token of kind `k` at `p`: past it when present, `p` otherwise. */
  function Past(ts: seq<Token>, p: nat, k: TokenType): (q: nat)
    requires p <= |ts|
    ensures p <= q <= |ts| && (q == p || q == p + 1)
    ensures q == p + 1 <==> p < |ts| && ts[p].kind == k
  {
    Match(ts, p, [k])
  }

  /**
   * An `if` statement read in its steps: the condition after an optional `(`,
   * the `then` body after an optional `)` and `{`, and the `else` part after
   * an optional `}`, each step's error ending the statement.
   */
  function IfSteps(ts: seq<Token>, pos: nat): Result<nat, SyntaxError>
    requires pos < |ts|
  {
    var condition := Expression(ts, Past(ts, pos + 1, LParen));
    if condition.Err? then Err(condition.error)
    else
      var body := Statement(ts, Past(ts, Past(ts, condition.value, RParen), LBrace));
      if body.Err? then Err(body.error)
      else ElseBranch(ts, Past(ts, body.value, RBrace))
  }

  /** `statement` at an `if` takes the steps of `IfSteps`. */
  lemma {:induction false} IfStatementSteps(ts: seq<Token>, pos: nat)
    requires pos < |ts| && ts[pos].kind == If
    ensures Statement(ts, pos) == IfSteps(ts, pos)
  {
    assert Match(ts, pos, [Id]) != pos + 1 && Match(ts, pos, [If]) == pos + 1;
    assert Match(ts, pos + 1, [LParen]) == Past(ts, pos + 1, LParen);
    var condition := Expression(ts, Past(ts, pos + 1, LParen));
    if condition.Ok? {
      var a := condition.value;
      assert Match(ts, a, [RParen]) == Past(ts, a, RParen);
      assert Match(ts, Past(ts, a, RParen), [LBrace]) == Past(ts, Past(ts, a, RParen), LBrace);
      var body := Statement(ts, Past(ts, Past(ts, a, RParen), LBrace));
      if body.Ok? {
        assert Match(ts, body.value, [RBrace]) == Past(ts, body.value, RBrace);
      }
    }
  }

  /**
   * An `if` statement is accepted once its condition, its `then` body and its
   * `else` part are, each `(`, `)`, `{` and `}` being present or absent
   * independently of the others.
   */
  lemma {:induction false} IfPartsAccepted(ts: seq<Token>, pos: nat, afterCondition: nat, afterThen: nat, end: nat)
    requires pos < |ts| && ts[pos].kind == If
    requires Expression(ts, Past(ts, pos + 1, LParen)) == Ok(afterCondition)
    requires Statement(ts, Past(ts, Past(ts, afterCondition, RParen), LBrace)) == Ok(afterThen)
    requires ElseBranch(ts, Past(ts, afterThen, RBrace)) == Ok(end)
    ensures Statement(ts, pos) == Ok(end)
  {
    IfStatementSteps(ts, pos);
  }

  /** The part whose error rejects an `if` statement: its condition, its `then` body, or its `else` body. */
  predicate RejectedBy(ts: seq<Token>, pos: nat, e: SyntaxError)
    requires pos < |ts|
  {
    match Expression(ts, Past(ts, pos + 1, LParen))
    case Err(conditionError) => conditionError == e
    case Ok(afterCondition) => BodiesReject(ts, afterCondition, e)
  }

  /** The `then` body after the condition ending at `afterCondition` fails with `e`, or else the `else` body does. */
  predicate BodiesReject(ts: seq<Token>, afterCondition: nat, e: SyntaxError)
    requires afterCondition <= |ts|
  {
    match Statement(ts, Past(ts, Past(ts, afterCondition, RParen), LBrace))
    case Err(bodyError) => bodyError == e
    case Ok(afterThen) => ElseBodyRejects(ts, afterThen, e)
  }

  /** An `else` follows the `then` body ending at `afterThen`, and its body fails with `e`. */
  predicate ElseBodyRejects(ts: seq<Token>, afterThen: nat, e: SyntaxError)
    requires afterThen <= |ts|
  {
    var r := Past(ts, afterThen, RBrace);
    && r < |ts| && ts[r].kind == Else
    && Statement(ts, Past(ts, r + 1, LBrace)) == Err(e)
  }

  /**
   * An `if` statement is rejected only by its condition or by one of its
   * bodies, each parsed where the optional delimiters before it leave the
   * cursor: no missing `(`, `)`, `{` or `}`, in either part, is itself an error.
   */
  lemma {:induction false} IfRejectedOnlyByParts(ts: seq<Token>, pos: nat)
    requires pos < |ts| && ts[pos].kind == If && Statement(ts, pos).Err?
    ensures exists q | pos < q <= |ts| ::
      Expression(ts, q) == Err(Statement(ts, pos).error) || Statement(ts, q) == Err(Statement(ts, pos).error)
    ensures RejectedBy(ts, pos, Statement(ts, pos).error)
  {
    IfStatementSteps(ts, pos);
    StepsRejectedOnlyByParts(ts, pos);
    RejectedByHasWitness(ts, pos, Statement(ts, pos).error);
  }

  /** The error of a failing `IfSteps` is that of the part `RejectedBy` names. */
  lemma {:induction false} StepsRejectedOnlyByParts(ts: seq<Token>, pos: nat)
    requires pos < |ts| && IfSteps(ts, pos).Err?
    ensures RejectedBy(ts, pos, IfSteps(ts, pos).error)
  {
    var e := IfSteps(ts, pos).error;
    var condition := Expression(ts, Past(ts, pos + 1, LParen));
    if condition.Err? {
      RejectedByCondition(ts, pos, e);
    } else {
      var body := Statement(ts, Past(ts, Past(ts, condition.value, RParen), LBrace));
      if body.Err? {
        RejectedByThen(ts, pos, condition.value, e);
      } else {
        ElseBranchRejectedOnlyByBody(ts, Past(ts, body.value, RBrace));
        RejectedByElse(ts, pos, condition.value, body.value, e);
      }
    }
  }

  /** An `if` is rejected by a condition that fails. */
  lemma {:induction false} RejectedByCondition(ts: seq<Token>, pos: nat, e: SyntaxError)
    requires pos < |ts|
    requires Expression(ts, Past(ts, pos + 1, LParen)) == Err(e)
    ensures RejectedBy(ts, pos, e)
  {
  }

  /** An `if` whose condition holds is rejected by a `then` body that fails. */
  lemma {:induction false} RejectedByThen(ts: seq<Token>, pos: nat, afterCondition: nat, e: SyntaxError)
    requires pos < |ts|
    requires Expression(ts, Past(ts, pos + 1, LParen)) == Ok(afterCondition)
    requires Statement(ts, Past(ts, Past(ts, afterCondition, RParen), LBrace)) == Err(e)
    ensures RejectedBy(ts, pos, e)
  {
  }

  /** An `if` whose condition and `then` body hold is rejected by an `else` body that fails. */
  lemma {:induction false} RejectedByElse(ts: seq<Token>, pos: nat, afterCondition: nat, afterThen: nat, e: SyntaxError)
    requires pos < |ts|
    requires Expression(ts, Past(ts, pos + 1, LParen)) == Ok(afterCondition)
    requires Statement(ts, Past(ts, Past(ts, afterCondition, RParen), LBrace)) == Ok(afterThen)
    requires Past(ts, afterThen, RBrace) < |ts| && ts[Past(ts, afterThen, RBrace)].kind == Else
    requires Statement(ts, Past(ts, Past(ts, afterThen, RBrace) + 1, LBrace)) == Err(e)
    ensures RejectedBy(ts, pos, e)
  {
    assert ElseBodyRejects(ts, afterThen, e);
  }

  /** The part that rejects an `if` statement starts after the `if` and reports the same error. */
  lemma {:induction false} RejectedByHasWitness(ts: seq<Token>, pos: nat, e: SyntaxError)
    requires pos < |ts| && RejectedBy(ts, pos, e)
    ensures exists q | pos < q <= |ts| :: Expression(ts, q) == Err(e) || Statement(ts, q) == Err(e)
  {
    var c := Past(ts, pos + 1, LParen);
    if Expression(ts, c).Err? {
      assert Expression(ts, c) == Err(e);
    } else {
      var q := BodiesRejectWitness(ts, Expression(ts, c).value, e);
      assert Statement(ts, q) == Err(e);
    }
  }

  /** Where `BodiesReject` holds, some statement from `afterCondition` on fails with `e`. */
  lemma {:induction false} BodiesRejectWitness(ts: seq<Token>, afterCondition: nat, e: SyntaxError) returns (q: nat)
    requires afterCondition <= |ts| && BodiesReject(ts, afterCondition, e)
    ensures afterCondition <= q <= |ts| && Statement(ts, q) == Err(e)
  {
    q := Past(ts, Past(ts, afterCondition, RParen), LBrace);
    if Statement(ts, q).Ok? {
      q := ElseBodyWitness(ts, Statement(ts, q).value, e);
    }
  }

  /** Where `ElseBodyRejects` holds, some statement after `afterThen` fails with `e`. */
  lemma {:induction false} ElseBodyWitness(ts: seq<Token>, afterThen: nat, e: SyntaxError) returns (q: nat)
    requires afterThen <= |ts| && ElseBodyRejects(ts, afterThen, e)
    ensures afterThen < q <= |ts| && Statement(ts, q) == Err(e)
  {
    q := Past(ts, Past(ts, afterThen, RBrace) + 1, LBrace);
  }




  /**
   * The `else` part: without an `else` the cursor stays put; with one, only
   * its body can fail, and the braces around it are consumed when present.
   */
  lemma {:induction false} ElseBranchBracesOptional(ts: seq<Token>, pos: nat)
    requires pos <= |ts|
    ensures (pos == |ts| || ts[pos].kind != Else) ==> ElseBranch(ts, pos) == Ok(pos)
    ensures pos < |ts| && ts[pos].kind == Else ==>
      var body := if pos + 1 < |ts| && ts[pos + 1].kind == LBrace then pos + 2 else pos + 1;
      && (Statement(ts, body).Err? ==> ElseBranch(ts, pos) == Err(Statement(ts, body).error))
      && (Statement(ts, body).Ok? ==>
            var q := Statement(ts, body).value;
            ElseBranch(ts, pos) == Ok(if q < |ts| && ts[q].kind == RBrace then q + 1 else q))
  {
  }

  /** The `else` part fails only when an `else` is present and its body, past an optional `{`, fails. */
  lemma {:induction false} ElseBranchRejectedOnlyByBody(ts: seq<Token>, pos: nat)
    requires pos <= |ts| && ElseBranch(ts, pos).Err?
    ensures pos < |ts| && ts[pos].kind == Else
    ensures Statement(ts, Past(ts, pos + 1, LBrace)) == Err(ElseBranch(ts, pos).error)
  {
    ElseBranchBracesOptional(ts, pos);
  }

  /** `cuts` marks the boundaries of consecutive statements from `from` to the end of the list. */
  ghost predicate StatementChain(ts: seq<Token>, from: nat, cuts: seq<nat>) {
    && |cuts| >= 1
    && cuts[0] == from
    && cuts[|cuts| - 1] == |ts|
    && forall i | 0 <= i < |cuts| - 1 :: cuts[i] <= |ts| && Statement(ts, cuts[i]) == Ok(cuts[i + 1])
  }

  /** If the loop accepts from `pos`, the statements it parsed cover the rest of the list. */
  lemma {:induction false} ProgramAcceptedHasChain(ts: seq<Token>, pos: nat)
    requires pos <= |ts| && Program(ts, pos).Ok?
    ensures exists cuts :: StatementChain(ts, pos, cuts)
    decreases |ts| - pos
  {
    if pos == |ts| {
      assert StatementChain(ts, pos, [pos]);
    } else {
      var next := Statement(ts, pos).value;
      ProgramAcceptedHasChain(ts, next);
      var rest :| StatementChain(ts, next, rest);
      var cuts := [pos] + rest;
      assert forall i | 1 <= i < |cuts| :: cuts[i] == rest[i - 1];
      assert StatementChain(ts, pos, cuts);
    }
  }

  /** Conversely, statements that cover the list from `pos` to its end make the loop accept. */
  lemma {:induction false} ChainAccepted(ts: seq<Token>, from: nat, cuts: seq<nat>)
    requires from <= |ts| && StatementChain(ts, from, cuts)
    ensures Program(ts, from) == Ok(())
    decreases |cuts|
  {
    if from < |ts| {
      assert |cuts| > 1;
      var rest := cuts[1..];
      assert forall i | 0 <= i < |rest| :: rest[i] == cuts[i + 1];
      ChainAccepted(ts, cuts[1], rest);
    }
  }

  /** `parse` accepts exactly the token lists that successive statements consume completely. */
  lemma ParseAcceptsIffStatementsCover(ts: seq<Token>)
    ensures Parse(ts).Ok? <==> exists cuts :: StatementChain(ts, 0, cuts)
  {
    if Parse(ts).Ok? {
      ProgramAcceptedHasChain(ts, 0);
    }
    if cuts :| StatementChain(ts, 0, cuts) {
      ChainAccepted(ts, 0, cuts);
    }
  }

  /** The empty token list is accepted. */
  lemma ParseAcceptsEmpty()
    ensures Parse([]) == Ok(())
  {
  }
}
