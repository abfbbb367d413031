/**
 * The three expressions the program evaluates at start-up, and a few inputs on the
 * error paths, derived from the model.
 */
module Examples {
  import opened Results
  import opened Tokens
  import opened CppStrings
  import opened Lexer
  import opened Reducer
  import opened Dispatcher
  import opened Parser

  /**
   * `s` reads `text`, character by character. (Stated this way rather than as
   * `s == text`, so that the verifier works through the text step by step instead
   * of evaluating every function of it at once.)
   */
  predicate Spells(s: string, text: string) {
    |s| == |text| && forall i :: 0 <= i < |s| ==> s[i] == text[i]
  }

  /** A single digit evaluates to its value. */
  lemma EvaluateDigit(s: CppString)
    requires |s| == 1 && IsDigit(s[0])
    ensures ExprDefined(s) && EvaluateString(s) == Ok(DigitValue(s[0]))
  {
    LexDigitAt(s, 0, 0);
    LexOperatorEnd(s, 1);
    var v := DigitValue(s[0]);
    var ts := [Num(v)];
    assert Lex(s) == ts;
    var noNums: seq<real>, noOps: seq<char> := [], [];
    assert noNums + [v] == [v];
    assert Run(ts, 0, noNums, noOps) == Run(ts, 2, [v], noOps);
  }

  /** A text that starts and ends with something other than a space trims to itself. */
  lemma TrimmedAlready(s: CppString)
    requires s != [] && s[0] != ' ' && s[|s| - 1] != ' '
    ensures Trim(s) == s
  {
    TrimPadded(0, s, 0);
    assert Blanks(0) + s + Blanks(0) == s;
  }

  /** ` d`, a space and a digit, trims to the digit. */
  lemma TrimSpaceDigit(s: CppString)
    requires |s| == 2 && s[0] == ' ' && IsDigit(s[1])
    ensures Trim(s) == [s[1]]
  {
    TrimPadded(1, [s[1]], 0);
    assert Blanks(1) + [s[1]] + Blanks(0) == s;
  }

  /** The reads made on `3 * 2`, the end of `5 + 3 * 2`. */
  lemma LexFirstExampleEnd(s: string)
    requires |s| == 9 && s[3] == ' ' && s[4] == '3'
    requires s[5] == ' ' && s[6] == '*' && s[7] == ' ' && s[8] == '2'
    ensures LexNumber(s, 3) == [Num(3.0), Op('*'), Num(2.0)]
  {
    LexDigitAt(s, 3, 4);
    LexOperatorAt(s, 5, 6);
    LexDigitAt(s, 7, 8);
    LexOperatorEnd(s, 9);
  }

  /** The reads made on `5 + 3 * 2`. */
  lemma LexFirstExample(s: string)
    requires |s| == 9 && s[0] == '5' && s[1] == ' ' && s[2] == '+' && s[3] == ' ' && s[4] == '3'
    requires s[5] == ' ' && s[6] == '*' && s[7] == ' ' && s[8] == '2'
    ensures Lex(s) == [Num(5.0), Op('+'), Num(3.0), Op('*'), Num(2.0)]
  {
    LexFirstExampleEnd(s);
    LexDigitAt(s, 0, 0);
    LexOperatorAt(s, 1, 2);
  }

  lemma FirstExamplePieces(s: CppString)
    requires Spells(s, "5 + 3 * 2")
    ensures s[0] != ' ' && s[|s| - 1] != ' ' && '(' !in s
    ensures |s| == 9 && s[0] == '5' && s[1] == ' ' && s[2] == '+' && s[3] == ' ' && s[4] == '3'
    ensures s[5] == ' ' && s[6] == '*' && s[7] == ' ' && s[8] == '2'
  {
    assert s == "5 + 3 * 2";
  }

  /** `5 + 3 * 2` is 11: the multiplication is done first. */
  lemma FirstExample(s: CppString, pow: Builtin)
    requires Spells(s, "5 + 3 * 2")
    ensures Defined(s)
    ensures ParseAndEvaluate(s, Builtins(pow)) == Ok(11.0)
  {
    FirstExamplePieces(s);
    TrimmedAlready(s);
    LexFirstExample(s);
    ReduceExample();
    ParseFlat(s, Builtins(pow));
  }

  /** An argument text made of one digit, after at most one space. */
  predicate DigitArgument(a: CppString) {
    (|a| == 1 && IsDigit(a[0])) || (|a| == 2 && a[0] == ' ' && IsDigit(a[1]))
  }

  lemma EvaluateDigitArgument(a: CppString)
    requires DigitArgument(a)
    ensures ExprDefined(Trim(a)) && EvaluateString(Trim(a)) == Ok(DigitValue(a[|a| - 1]))
  {
    if |a| == 1 {
      TrimmedAlready(a);
      assert a == [a[0]];
    } else {
      TrimSpaceDigit(a);
    }
    EvaluateDigit([a[|a| - 1]]);
  }

  /** A call `name(a,b)tail`, with nothing to trim, whose arguments evaluate to `x` and `y`. */
  lemma CallOn(s: CppString, registry: Registry, name: CppString, a: CppString, b: CppString, tail: string,
               x: real, y: real)
    requires s == name + "(" + a + "," + b + ")" + tail
    requires s[0] != ' ' && s[|s| - 1] != ' '
    requires '(' !in name && ')' !in name && ',' !in a && ')' !in a && ')' !in b
    requires ExprDefined(Trim(a)) && EvaluateString(Trim(a)) == Ok(x)
    requires ExprDefined(Trim(b)) && EvaluateString(Trim(b)) == Ok(y)
    ensures Defined(s)
    ensures ParseAndEvaluate(s, registry) == EvaluateFunction(name, x, y, registry)
  {
    TrimmedAlready(s);
    ParseCall(s, registry, name, a, b, tail);
  }

  /** An argument text that starts with a letter and ends in something other than a space. */
  lemma LetterArgument(a: CppString)
    requires a != [] && IsLetter(a[0]) && a[|a| - 1] != ' '
    ensures ExprDefined(Trim(a)) && EvaluateString(Trim(a)) == Ok(0.0)
  {
    TrimmedAlready(a);
    CallArgumentIsZero(Trim(a));
  }

  /** A call whose first argument starts with a letter and whose second is a lone digit. */
  lemma CallOnLetterDigit(s: CppString, registry: Registry, name: CppString, a: CppString, b: CppString, tail: string)
    requires s == name + "(" + a + "," + b + ")" + tail
    requires s[0] != ' ' && s[|s| - 1] != ' '
    requires '(' !in name && ')' !in name && ',' !in a && ')' !in a && ')' !in b
    requires a != [] && IsLetter(a[0]) && a[|a| - 1] != ' ' && DigitArgument(b)
    ensures Defined(s)
    ensures ParseAndEvaluate(s, registry) == EvaluateFunction(name, 0.0, DigitValue(b[|b| - 1]), registry)
  {
    assert IsDigit(b[|b| - 1]);
    var y := DigitValue(b[|b| - 1]);
    LetterArgument(a);
    EvaluateDigitArgument(b);
    CallOn(s, registry, name, a, b, tail, 0.0, y);
  }

  /** How `max(5, 2)` falls apart at its first `(`, `,` and `)`. */
  lemma SecondExamplePieces(s: CppString)
    requires Spells(s, "max(5, 2)")
    ensures s == s[..3] + "(" + s[4..5] + "," + s[6..8] + ")" + ""
    ensures s[..3] == "max" && s[0] != ' ' && s[|s| - 1] != ' '
    ensures '(' !in s[..3] && ')' !in s[..3] && ',' !in s[4..5] && ')' !in s[4..5] && ')' !in s[6..8]
    ensures DigitArgument(s[4..5]) && DigitValue(s[4]) == 5.0
    ensures DigitArgument(s[6..8]) && DigitValue(s[7]) == 2.0
  {
    assert s == "max(5, 2)";
  }

  /** `max(5, 2)` is 5. */
  lemma SecondExample(s: CppString, pow: Builtin)
    requires Spells(s, "max(5, 2)")
    ensures Defined(s)
    ensures ParseAndEvaluate(s, Builtins(pow)) == Ok(5.0)
  {
    SecondExamplePieces(s);
    var name, a, b := s[..3], s[4..5], s[6..8];
    EvaluateDigitArgument(a);
    EvaluateDigitArgument(b);
    CallOn(s, Builtins(pow), name, a, b, "", 5.0, 2.0);
    BuiltinMax(pow, 5.0, 2.0);
  }

  /** How `max(min(3 * 2, 2), 2)` falls apart at its first `(`, `,` and `)`. */
  lemma ThirdExamplePieces(s: CppString)
    requires Spells(s, "max(min(3 * 2, 2), 2)")
    ensures s == s[..3] + "(" + s[4..13] + "," + s[14..16] + ")" + s[17..]
    ensures s[..3] == "max" && s[0] != ' ' && s[|s| - 1] != ' '
  {
    assert s == "max(min(3 * 2, 2), 2)";
  }

  /** Which characters the pieces of `max(min(3 * 2, 2), 2)` leave out. */
  lemma ThirdExampleExclusions(s: CppString)
    requires Spells(s, "max(min(3 * 2, 2), 2)")
    ensures '(' !in s[..3] && ')' !in s[..3] && ',' !in s[4..13] && ')' !in s[4..13] && ')' !in s[14..16]
  {
    assert s == "max(min(3 * 2, 2), 2)";
  }

  /** The two argument texts of `max(min(3 * 2, 2), 2)`. */
  lemma ThirdExampleArguments(s: CppString)
    requires Spells(s, "max(min(3 * 2, 2), 2)")
    ensures |s| == 21 && IsLetter(s[4]) && s[12] != ' '
    ensures DigitArgument(s[14..16]) && DigitValue(s[15]) == 2.0
  {
    assert s[4] == 'm' && s[12] == '2' && s[14] == ' ' && s[15] == '2';
    assert s[14..16][0] == s[14] && s[14..16][1] == s[15];
  }

  /**
   * `max(min(3 * 2, 2), 2)` is 2, but not through the nested call: the first argument
   * is the text `min(3 * 2`, which evaluates to 0, and the second is ` 2`.
   */
  lemma ThirdExample(s: CppString, pow: Builtin)
    requires Spells(s, "max(min(3 * 2, 2), 2)")
    ensures Defined(s)
    ensures ParseAndEvaluate(s, Builtins(pow)) == Ok(2.0)
  {
    ThirdExamplePieces(s);
    ThirdExampleExclusions(s);
    ThirdExampleArguments(s);
    var a, b := s[4..13], s[14..16];
    assert a[0] == s[4] && a[|a| - 1] == s[12] && b[|b| - 1] == s[15];
    CallOnLetterDigit(s, Builtins(pow), s[..3], a, b, s[17..]);
    BuiltinMax(pow, 0.0, 2.0);
  }

  /** How `min(3, 2)` falls apart at its first `(`, `,` and `)`. */
  lemma MinExamplePieces(s: CppString)
    requires Spells(s, "min(3, 2)")
    ensures s == s[..3] + "(" + s[4..5] + "," + s[6..8] + ")" + ""
    ensures s[..3] == "min" && s[0] != ' ' && s[|s| - 1] != ' '
    ensures '(' !in s[..3] && ')' !in s[..3] && ',' !in s[4..5] && ')' !in s[4..5] && ')' !in s[6..8]
    ensures DigitArgument(s[4..5]) && DigitValue(s[4]) == 3.0
    ensures DigitArgument(s[6..8]) && DigitValue(s[7]) == 2.0
  {
    assert s == "min(3, 2)";
  }

  /** `min(3, 2)` is 2. */
  lemma MinExample(s: CppString, pow: Builtin)
    requires Spells(s, "min(3, 2)")
    ensures Defined(s)
    ensures ParseAndEvaluate(s, Builtins(pow)) == Ok(2.0)
  {
    MinExamplePieces(s);
    var name, a, b := s[..3], s[4..5], s[6..8];
    EvaluateDigitArgument(a);
    EvaluateDigitArgument(b);
    CallOn(s, Builtins(pow), name, a, b, "", 3.0, 2.0);
    BuiltinMin(pow, 3.0, 2.0);
  }

  /** How `foo(1,2)` falls apart at its first `(`, `,` and `)`. */
  lemma UnknownFunctionExamplePieces(s: CppString)
    requires Spells(s, "foo(1,2)")
    ensures s == s[..3] + "(" + s[4..5] + "," + s[6..7] + ")" + ""
    ensures s[..3] == "foo" && s[0] != ' ' && s[|s| - 1] != ' '
    ensures '(' !in s[..3] && ')' !in s[..3] && ',' !in s[4..5] && ')' !in s[4..5] && ')' !in s[6..7]
    ensures DigitArgument(s[4..5]) && DigitValue(s[4]) == 1.0
    ensures DigitArgument(s[6..7]) && DigitValue(s[6]) == 2.0
  {
    assert s == "foo(1,2)";
  }

  /** `foo(1,2)` names no registered function. */
  lemma UnknownFunctionExample(s: CppString, pow: Builtin)
    requires Spells(s, "foo(1,2)")
    ensures Defined(s)
    ensures ParseAndEvaluate(s, Builtins(pow)) == Err(UnknownFunction("foo"))
  {
    UnknownFunctionExamplePieces(s);
    var name, a, b := s[..3], s[4..5], s[6..7];
    EvaluateDigitArgument(a);
    EvaluateDigitArgument(b);
    UnknownBuiltin(pow, name, 1.0, 2.0);
    CallOn(s, Builtins(pow), name, a, b, "", 1.0, 2.0);
  }

  /** How `max(1 2)` falls apart at its first `(`. */
  lemma MissingCommaExamplePieces(s: CppString)
    requires Spells(s, "max(1 2)")
    ensures s == s[..3] + "(" + s[4..]
    ensures s[0] != ' ' && s[|s| - 1] != ' ' && '(' !in s[..3] && ',' !in s[4..]
  {
    assert s == "max(1 2)";
  }

  /** `max(1 2)` has no comma. */
  lemma MissingCommaExample(s: CppString, pow: Builtin)
    requires Spells(s, "max(1 2)")
    ensures Defined(s)
    ensures ParseAndEvaluate(s, Builtins(pow)) == Err(InvalidFunctionFormat(s))
  {
    MissingCommaExamplePieces(s);
    TrimmedAlready(s);
    ParseMissingComma(s, Builtins(pow), s[..3], s[4..]);
  }

  /** How `max(5, 2` falls apart at its first `(` and `,`. */
  lemma MissingParenthesisExamplePieces(s: CppString)
    requires Spells(s, "max(5, 2")
    ensures s == s[..3] + "(" + s[4..5] + "," + s[6..]
    ensures s[..3] == "max" && s[0] != ' ' && s[|s| - 1] != ' '
    ensures '(' !in s[..3] && ',' !in s[4..5] && ')' !in s[6..]
    ensures DigitArgument(s[4..5]) && DigitValue(s[4]) == 5.0
    ensures DigitArgument(s[6..]) && DigitValue(s[7]) == 2.0
  {
    assert s == "max(5, 2";
  }

  /** `max(5, 2` has no `)`, and still evaluates to 5. */
  lemma MissingParenthesisExample(s: CppString, pow: Builtin)
    requires Spells(s, "max(5, 2")
    ensures Defined(s)
    ensures ParseAndEvaluate(s, Builtins(pow)) == Ok(5.0)
  {
    MissingParenthesisExamplePieces(s);
    var name, a, b := s[..3], s[4..5], s[6..];
    TrimmedAlready(s);
    EvaluateDigitArgument(a);
    EvaluateDigitArgument(b);
    ParseUnclosed(s, Builtins(pow), name, a, b);
    BuiltinMax(pow, 5.0, 2.0);
  }

  /** An input of spaces only evaluates to 0. */
  lemma BlankExample(s: CppString, pow: Builtin)
    requires Spells(s, "   ")
    ensures Defined(s)
    ensures ParseAndEvaluate(s, Builtins(pow)) == Ok(0.0)
  {
    assert AllSpaces(s);
    NoLeadingNumber(s);
    ParseFlat(s, Builtins(pow));
  }
}
