/**
 * What the scanner promises: its tokens spell the input without its
 * whitespace, each run is maximal, and it aborts exactly on characters no
 * token can start with.
 */
module LexerProperties {
  import opened Results
  import opened Tokens
  import opened Lexer

  /** The lexemes of a token sequence, concatenated in order. */
  function Lexemes(ts: seq<Token>): string {
    if ts == [] then [] else ts[0].value + Lexemes(ts[1..])
  }

  /** The input with every whitespace character removed. */
  function StripSpace(s: string): string {
    if s == [] then [] else (if IsSpace(s[0]) then [] else [s[0]]) + StripSpace(s[1..])
  }

  lemma {:induction false} StripSpaceAppend(a: string, b: string)
    ensures StripSpace(a + b) == StripSpace(a) + StripSpace(b)
  {
    if a == [] {
      assert a + b == b;
    } else {
      assert (a + b)[1..] == a[1..] + b;
      StripSpaceAppend(a[1..], b);
    }
  }

  lemma {:induction false} StripSpaceOfNoSpace(a: string)
    requires forall i | 0 <= i < |a| :: !IsSpace(a[i])
    ensures StripSpace(a) == a
  {
    if a != [] {
      StripSpaceOfNoSpace(a[1..]);
    }
  }

  lemma LexemesCons(t: Token, rest: seq<Token>)
    ensures Lexemes([t] + rest) == t.value + Lexemes(rest)
  {
    assert ([t] + rest)[1..] == rest;
  }

  /** One lexeme `s[pos..e]` without whitespace in front of a rest that already spells `s[e..]`. */
  lemma SpellsStep(s: string, pos: nat, e: nat, t: Token, rest: seq<Token>)
    requires pos < e <= |s| && t.value == s[pos..e]
    requires forall k | pos <= k < e :: !IsSpace(s[k])
    requires Lexemes(rest) == StripSpace(s[e..])
    ensures Lexemes([t] + rest) == StripSpace(s[pos..])
  {
    LexemesCons(t, rest);
    assert s[pos..] == s[pos..e] + s[e..];
    StripSpaceAppend(s[pos..e], s[e..]);
    StripSpaceOfNoSpace(s[pos..e]);
  }

  lemma SkipSpace(s: string, pos: nat)
    requires pos < |s| && IsSpace(s[pos])
    ensures StripSpace(s[pos..]) == StripSpace(s[pos + 1..])
  {
    assert s[pos..][1..] == s[pos + 1..];
  }

  /** Concatenating the lexemes of the scan gives the scanned text without its whitespace. */
  lemma {:induction false} ScanSpellsInput(s: string, pos: nat, ts: seq<Token>)
    requires pos <= |s| && ScanFrom(s, pos) == Ok(ts)
    ensures Lexemes(ts) == StripSpace(s[pos..])
    decreases |s| - pos, 1
  {
    if pos < |s| {
      var c := s[pos];
      if IsDigit(c) {
        SpellsAfterDigits(s, pos, ts);
      } else if IsSpace(c) {
        ScanSpellsInput(s, pos + 1, ts);
        SkipSpace(s, pos);
      } else if c in SpecialChars {
        SpellsAfterSpecial(s, pos, ts);
      } else {
        SpellsAfterWord(s, pos, ts);
      }
    }
  }

  lemma {:induction false} SpellsAfterDigits(s: string, pos: nat, ts: seq<Token>)
    requires pos < |s| && IsDigit(s[pos]) && ScanFrom(s, pos) == Ok(ts)
    ensures Lexemes(ts) == StripSpace(s[pos..])
    decreases |s| - pos, 0
  {
    var e := RunEnd(s, pos, Digits);
    ScanSpellsInput(s, e, ScanFrom(s, e).value);
    SpellsStep(s, pos, e, ts[0], ScanFrom(s, e).value);
  }

  lemma {:induction false} SpellsAfterSpecial(s: string, pos: nat, ts: seq<Token>)
    requires pos < |s| && !IsDigit(s[pos]) && !IsSpace(s[pos]) && s[pos] in SpecialChars
    requires ScanFrom(s, pos) == Ok(ts)
    ensures Lexemes(ts) == StripSpace(s[pos..])
    decreases |s| - pos, 0
  {
    ScanSpellsInput(s, pos + 1, ScanFrom(s, pos + 1).value);
    SpellsStep(s, pos, pos + 1, ts[0], ScanFrom(s, pos + 1).value);
  }

  lemma {:induction false} SpellsAfterWord(s: string, pos: nat, ts: seq<Token>)
    requires pos < |s| && !IsDigit(s[pos]) && !IsSpace(s[pos]) && s[pos] !in SpecialChars
    requires ScanFrom(s, pos) == Ok(ts)
    ensures Lexemes(ts) == StripSpace(s[pos..])
    decreases |s| - pos, 0
  {
    var e := RunEnd(s, pos, WordChars);
    ScanSpellsInput(s, e, ScanFrom(s, e).value);
    SpellsStep(s, pos, e, ts[0], ScanFrom(s, e).value);
  }

  /** Lexeme round trip: the tokens of a successful scan spell the input without whitespace, in order. */
  lemma LexSpellsInput(input: string, ts: seq<Token>)
    requires Lex(input) == Ok(ts)
    ensures Lexemes(ts) == StripSpace(input)
  {
    ScanSpellsInput(input, 0, ts);
    assert input[0..] == input;
  }

  /** Maximal munch for integers: a digit starts an `Integer` token holding the whole digit run. */
  lemma ScanAtDigit(s: string, pos: nat)
    requires pos < |s| && IsDigit(s[pos])
    ensures exists e | pos < e <= |s| ::
      && (forall k | pos <= k < e :: IsDigit(s[k]))
      && (e == |s| || !IsDigit(s[e]))
      && ScanFrom(s, pos) == Prepend([Token(Integer, s[pos..e])], ScanFrom(s, e))
  {
    var e := RunEnd(s, pos, Digits);
    assert forall k | pos <= k < e :: IsDigit(s[k]) by {
      forall k | pos <= k < e ensures IsDigit(s[k]) {
        assert InRun(s[k], Digits);
      }
    }
  }

  /**
   * Maximal munch for identifiers: a letter starts a token holding the whole
   * run of letters, digits and `_`; it is `If` or `Else` exactly for the
   * spellings "if" and "else", and `Id` otherwise.
   */
  lemma ScanAtLetter(s: string, pos: nat)
    requires pos < |s| && IsAlpha(s[pos])
    ensures exists e | pos < e <= |s| ::
      && (forall k | pos <= k < e :: IsWordChar(s[k]))
      && (e == |s| || !IsWordChar(s[e]))
      && ScanFrom(s, pos) == Prepend([Token(KeywordKind(s[pos..e]), s[pos..e])], ScanFrom(s, e))
      && (KeywordKind(s[pos..e]) == If <==> s[pos..e] == "if")
      && (KeywordKind(s[pos..e]) == Else <==> s[pos..e] == "else")
      && (KeywordKind(s[pos..e]) == Id <==> s[pos..e] != "if" && s[pos..e] != "else")
  {
    var e := RunEnd(s, pos, WordChars);
    assert forall k | pos <= k < e :: IsWordChar(s[k]) by {
      forall k | pos <= k < e ensures IsWordChar(s[k]) {
        assert InRun(s[k], WordChars);
      }
    }
  }

  /** `<` always yields the one-character `LessThan` token, so `<=` scans as `<` then `=`. */
  lemma ScanAtLessThan(s: string, pos: nat)
    requires pos < |s| && s[pos] == '<'
    ensures ScanFrom(s, pos) == Prepend([Token(LessThan, "<")], ScanFrom(s, pos + 1))
  {
  }

  /** The scanner never emits a reserved kind, and every `LessThan` token is the single character `<`. */
  lemma LexNeverEmitsReserved(input: string, ts: seq<Token>)
    requires Lex(input) == Ok(ts)
    ensures forall t | t in ts :: t.kind !in ReservedKinds
    ensures forall t | t in ts && t.kind == LessThan :: t.value == "<"
  {
    forall t | t in ts && t.kind == LessThan ensures t.value == "<" {
      assert WellFormed(t);
    }
  }

  /**
   * Position `i` lies inside an identifier being read: some letter before it
   * is followed, up to `i`, only by letters, digits and underscores.
   */
  ghost predicate InsideIdentifier(s: string, i: nat)
    requires i <= |s|
  {
    exists j | 0 <= j < i :: IsAlpha(s[j]) && forall k | j < k < i :: IsWordChar(s[k])
  }

  /**
   * The characters on which the scan aborts: those no token starts with,
   * except an underscore that continues an identifier.
   */
  ghost predicate Offending(s: string, i: nat)
    requires i < |s|
  {
    Unclassified(s[i]) && !(s[i] == '_' && InsideIdentifier(s, i))
  }

  /** `InsideIdentifier` computed backwards: step over identifier characters until a letter is met. */
  predicate AfterLetterRun(s: string, i: nat)
    requires i <= |s|
  {
    i > 0 && (IsAlpha(s[i - 1]) || (IsWordChar(s[i - 1]) && AfterLetterRun(s, i - 1)))
  }

  lemma {:induction false} AfterLetterRunIsInsideIdentifier(s: string, i: nat)
    requires i <= |s|
    ensures AfterLetterRun(s, i) <==> InsideIdentifier(s, i)
  {
    if i > 0 {
      AfterLetterRunIsInsideIdentifier(s, i - 1);
      if AfterLetterRun(s, i) && !IsAlpha(s[i - 1]) {
        var j :| 0 <= j < i - 1 && IsAlpha(s[j]) && forall k | j < k < i - 1 :: IsWordChar(s[k]);
        assert forall k | j < k < i :: IsWordChar(s[k]);
      }
      if InsideIdentifier(s, i) && !IsAlpha(s[i - 1]) {
        var j :| 0 <= j < i && IsAlpha(s[j]) && forall k | j < k < i :: IsWordChar(s[k]);
        assert j < i - 1 && IsWordChar(s[i - 1]);
        assert InsideIdentifier(s, i - 1);
      }
    }
  }

  /** Inside an identifier run started at a letter at `pos`, every later position follows a letter run. */
  lemma {:induction false} WordRunAfterLetter(s: string, pos: nat, k: nat)
    requires pos < k <= |s| && IsAlpha(s[pos])
    requires forall m | pos < m < k :: IsWordChar(s[m])
    ensures AfterLetterRun(s, k)
    decreases k
  {
    if k > pos + 1 {
      WordRunAfterLetter(s, pos, k - 1);
    }
  }

  /** Digits do not start an identifier: a digit run keeps a position outside any. */
  lemma {:induction false} DigitRunNotAfterLetter(s: string, pos: nat, k: nat)
    requires pos <= k <= |s| && !AfterLetterRun(s, pos)
    requires forall m | pos <= m < k :: IsDigit(s[m])
    ensures !AfterLetterRun(s, k)
    decreases k
  {
    if k > pos {
      DigitRunNotAfterLetter(s, pos, k - 1);
    }
  }

  /**
   * Where the scan stands between tokens, an underscore under the cursor
   * does not continue an identifier.
   */
  predicate AtTokenBoundary(s: string, pos: nat)
    requires pos <= |s|
  {
    !AfterLetterRun(s, pos) || pos == |s| || !IsWordChar(s[pos])
  }

  /**
   * From a token boundary, the scan succeeds iff no later character is
   * offending, and an abort reports the first offending character.
   */
  lemma {:induction false} ScanStopsAtFirstOffending(s: string, pos: nat)
    requires pos <= |s| && AtTokenBoundary(s, pos)
    ensures ScanFrom(s, pos).Ok? <==> forall i | pos <= i < |s| :: !Offending(s, i)
    ensures ScanFrom(s, pos).Err? ==>
      && Offending(s, ScanFrom(s, pos).error.position)
      && forall i | pos <= i < ScanFrom(s, pos).error.position :: !Offending(s, i)
    decreases |s| - pos, 1
  {
    if pos < |s| {
      var c := s[pos];
      if IsDigit(c) {
        StopsAfterDigits(s, pos);
      } else if IsSpace(c) || c in SpecialChars {
        StopsAfterSingle(s, pos);
      } else if IsAlpha(c) {
        StopsAfterWord(s, pos);
      } else {
        AfterLetterRunIsInsideIdentifier(s, pos);
        assert Offending(s, pos);
      }
    }
  }

  /** What `ScanStopsAtFirstOffending` states about the scan from `pos`. */
  ghost predicate StopsAtFirstOffending(s: string, pos: nat)
    requires pos <= |s|
  {
    && (ScanFrom(s, pos).Ok? <==> forall i | pos <= i < |s| :: !Offending(s, i))
    && (ScanFrom(s, pos).Err? ==>
      && Offending(s, ScanFrom(s, pos).error.position)
      && forall i | pos <= i < ScanFrom(s, pos).error.position :: !Offending(s, i))
  }

  lemma {:induction false} StopsAfterDigits(s: string, pos: nat)
    requires pos < |s| && AtTokenBoundary(s, pos) && IsDigit(s[pos])
    ensures StopsAtFirstOffending(s, pos)
    decreases |s| - pos, 0
  {
    var e := RunEnd(s, pos, Digits);
    assert forall m | pos <= m < e :: IsDigit(s[m]) by {
      forall m | pos <= m < e ensures IsDigit(s[m]) {
        assert InRun(s[m], Digits);
      }
    }
    DigitRunNotAfterLetter(s, pos, e);
    ScanStopsAtFirstOffending(s, e);
    assert forall i | pos <= i < e :: !Offending(s, i);
    StopsAfterCleanRun(s, pos, e);
  }

  lemma {:induction false} StopsAfterSingle(s: string, pos: nat)
    requires pos < |s| && AtTokenBoundary(s, pos) && (IsSpace(s[pos]) || s[pos] in SpecialChars)
    ensures StopsAtFirstOffending(s, pos)
    decreases |s| - pos, 0
  {
    ScanStopsAtFirstOffending(s, pos + 1);
    assert !Offending(s, pos);
    StopsAfterCleanRun(s, pos, pos + 1);
  }

  lemma {:induction false} StopsAfterWord(s: string, pos: nat)
    requires pos < |s| && AtTokenBoundary(s, pos) && IsAlpha(s[pos])
    ensures StopsAtFirstOffending(s, pos)
    decreases |s| - pos, 0
  {
    var e := RunEnd(s, pos, WordChars);
    assert forall m | pos < m < e :: IsWordChar(s[m]) by {
      forall m | pos < m < e ensures IsWordChar(s[m]) {
        assert InRun(s[m], WordChars);
      }
    }
    forall i | pos <= i < e ensures !Offending(s, i) {
      if i > pos && s[i] == '_' {
        WordRunAfterLetter(s, pos, i);
        AfterLetterRunIsInsideIdentifier(s, i);
      }
    }
    ScanStopsAtFirstOffending(s, e);
    StopsAfterCleanRun(s, pos, e);
  }

  /**
   * A scan that passes over `s[pos..e]`, which holds no offending character,
   * and goes on from `e` stops at the first offending character from `pos`
   * on when it does from `e` on.
   */
  lemma StopsAfterCleanRun(s: string, pos: nat, e: nat)
    requires pos < e <= |s|
    requires forall i | pos <= i < e :: !Offending(s, i)
    requires ScanFrom(s, pos).Ok? == ScanFrom(s, e).Ok?
    requires ScanFrom(s, pos).Err? ==> ScanFrom(s, pos).error == ScanFrom(s, e).error
    requires StopsAtFirstOffending(s, e)
    ensures StopsAtFirstOffending(s, pos)
  {
    if ScanFrom(s, pos).Err? {
      assert e <= ScanFrom(s, e).error.position;
    }
  }

  /** `tokenize` succeeds exactly on the inputs with no offending character. */
  lemma LexAcceptsIff(input: string)
    ensures Lex(input).Ok? <==> forall i | 0 <= i < |input| :: !Offending(input, i)
  {
    ScanStopsAtFirstOffending(input, 0);
  }

  /** An abort of `tokenize` reports the first offending character of the input, at its position. */
  lemma LexReportsFirstOffending(input: string)
    requires Lex(input).Err?
    ensures Offending(input, Lex(input).error.position)
    ensures input[Lex(input).error.position] == Lex(input).error.character
    ensures forall i | 0 <= i < Lex(input).error.position :: !Offending(input, i)
  {
    ScanStopsAtFirstOffending(input, 0);
  }

  /** Corollary of `LexAcceptsIff`: any offending character makes `tokenize` fail, an underscore that starts a token included. */
  lemma LexRejects(input: string, i: nat)
    requires i < |input| && Offending(input, i)
    ensures Lex(input).Err?
  {
    LexAcceptsIff(input);
  }

  /** Corollary of `LexAcceptsIff`: `tokenize` succeeds when every underscore continues an identifier and every other character is classified. */
  lemma LexAccepts(input: string)
    requires forall i | 0 <= i < |input| :: !Offending(input, i)
    ensures Lex(input).Ok?
  {
    LexAcceptsIff(input);
  }
}
