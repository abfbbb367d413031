/**
 * parseAndEvaluate: a flat expression, or a call `name(arg1, arg2)` found by
 * first-occurrence searches for `(`, `,` and `)`, whose two arguments are flat
 * expressions evaluated before the registry is consulted.
 */
module Parser {
  import opened Results
  import opened Tokens
  import opened CppStrings
  import opened Lexer
  import opened Reducer
  import opened Dispatcher
  import opened Precedence

  /** How parseAndEvaluate reads the trimmed input. */
  datatype Shape =
    | Flat(expr: string)                              // no `(` at all
    | Call(name: CppString, arg1: CppString, arg2: CppString)  // name and argument texts, untrimmed
    | Malformed                                       // a `(` with no `,` after it

  /**
   * The slicing of parseAndEvaluate on the trimmed input `t`. The length of the second
   * argument is `find(')') - pos2 - 1` in size_t arithmetic: when there is no `)` it is
   * `npos - pos2 - 1`, and when the first `)` comes before the comma it wraps around;
   * either way it is past the end, and substr runs to the end.
   */
  function Split(t: CppString): (r: Shape)
  {
    var pos := Find(t, '(', 0);
    if pos == NPOS then
      Flat(t)
    else
      var name := Substr(t, 0, pos);
      var pos2 := Find(t, ',', pos);
      if pos2 == NPOS then
        Malformed
      else
        var arg1 := Substr(t, pos + 1, pos2 - pos - 1);
        var arg2 := Substr(t, pos2 + 1, SizeSub(SizeSub(Find(t, ')', 0), pos2), 1));
        assert name == t[..pos];
        Call(name, arg1, arg2)
  }

  /** evaluateExpression on the text `e` never takes the top of an empty stack. */
  predicate ExprDefined(e: string) {
    Completes(Lex(e))
  }

  /** evaluateExpression on a string: its reads, reduced. */
  function EvaluateString(e: string): Result<real>
    requires ExprDefined(e)
  {
    Reduce(Lex(e))
  }

  /**
   * On text whose reads are `num (op num)*` over `+ - * /`, evaluateExpression gives
   * the conventional value, and fails exactly when a `/` meets a literal 0.
   */
  lemma EvaluateConventional(e: string)
    requires WellFormed(Lex(e)) && FourOps(Lex(e))
    ensures ExprDefined(e)
    ensures EvaluateString(e) == Conventional(Lex(e))
    ensures EvaluateString(e).Err? <==> DividesByZero(Lex(e))
  {
    ReduceMatchesConventional(Lex(e));
    DivisionByZeroExactly(Lex(e));
  }

  /** Reading any other operator character makes evaluateExpression fail. */
  lemma EvaluateUnknownOperator(e: string)
    requires ExprDefined(e) && !FourOps(Lex(e))
    ensures EvaluateString(e).Err?
  {
    UnknownOperatorFails(Lex(e));
  }

  /** When no number can be read at the start, nothing is read and the value is 0. */
  lemma NoNumberIsZero(e: string)
    requires ReadNumber(e, SkipWhitespace(e, 0)).None?
    ensures ExprDefined(e) && EvaluateString(e) == Ok(0.0)
  {
    assert Lex(e) == [];
    ReduceMatchesConventional([]);
  }

  /**
   * The trimmed inputs on which parseAndEvaluate is defined: every expression it
   * evaluates reads as `num (op num)*` or as nothing (the second argument is evaluated
   * only when the first one succeeded).
   */
  predicate DefinedTrimmed(t: CppString) {
    match Split(t)
    case Flat(e) => ExprDefined(e)
    case Call(_, a, b) =>
      ExprDefined(Trim(a)) && (EvaluateString(Trim(a)).Ok? ==> ExprDefined(Trim(b)))
    case Malformed => true
  }

  predicate Defined(input: CppString) {
    DefinedTrimmed(Trim(input))
  }

  /** parseAndEvaluate after its first step, on the trimmed input `t`. */
  function EvaluateTrimmed(t: CppString, registry: Registry): Result<real>
    requires DefinedTrimmed(t)
  {
    match Split(t)
    case Flat(e) => EvaluateString(e)
    case Malformed => Err(InvalidFunctionFormat(t))
    case Call(name, a, b) =>
      match EvaluateString(Trim(a))
      case Err(e) => Err(e)
      case Ok(x) =>
        match EvaluateString(Trim(b))
        case Err(e) => Err(e)
        case Ok(y) => EvaluateFunction(name, x, y, registry)
  }

  /** parseAndEvaluate with the registry passed in: trim, then evaluate. */
  function ParseAndEvaluate(input: CppString, registry: Registry): Result<real>
    requires Defined(input)
  {
    EvaluateTrimmed(Trim(input), registry)
  }

  /** An input without `(` is evaluated as one flat expression. */
  lemma SplitFlat(t: CppString)
    requires '(' !in t
    ensures Split(t) == Flat(t)
  {
  }

  /** A `(` with no `,` anywhere after it is a malformed call. */
  lemma {:induction false} SplitMissingComma(name: string, rest: string)
    requires '(' !in name && ',' !in rest
    requires |name| + 1 + |rest| < NPOS
    ensures Split(name + "(" + rest) == Malformed
  {
    var t: CppString := name + "(" + rest;
    assert t[|name|] == '(';
    assert forall j :: 0 <= j < |name| ==> t[j] == name[j];
    assert Find(t, '(', 0) == |name|;
    assert forall j :: |name| < j < |t| ==> t[j] == rest[j - |name| - 1];
    assert Find(t, ',', |name|) == NPOS;
  }

  /** Find returns `p` when `t[p]` is the first `c` at or after `from`. */
  lemma FindIs(t: CppString, c: char, from: nat, p: nat)
    requires from <= p < |t| && t[p] == c
    requires forall j :: from <= j < p ==> t[j] != c
    ensures Find(t, c, from) == p
  {
  }

  /**
   * The slicing rules on a text whose first `(` is at `p` and whose first `,` after
   * it is at `q`: the name is everything before `p`; the first argument lies between
   * `p` and `q`; the second runs from after `q` to the first `)` of the whole text
   * when that `)` comes after `q`, and to the end of the text otherwise.
   */
  lemma {:induction false} SplitAt(t: CppString, p: nat, q: nat)
    requires p < q < |t| && t[p] == '(' && t[q] == ','
    requires '(' !in t[..p] && ',' !in t[p + 1..q]
    ensures var c := Find(t, ')', 0);
            var end := if c != NPOS && c > q then c else |t|;
            Split(t) == Call(t[..p], t[p + 1..q], t[q + 1..end])
  {
    forall j | 0 <= j < p
      ensures t[j] != '('
    {
      assert t[j] == t[..p][j];
    }
    forall j | p <= j < q
      ensures t[j] != ','
    {
      if p < j {
        assert t[j] == t[p + 1..q][j - p - 1];
      }
    }
    FindIs(t, '(', 0, p);
    FindIs(t, ',', p, q);
    SecondArgument(t, q, Find(t, ')', 0));
    SubstrWithin(t, p + 1, q - p - 1);
    SubstrWithin(t, 0, p);
  }

  /**
   * The second argument's length `c - q - 1` in size_t arithmetic, for a first `)` at `c`
   * (or npos): it ends at that `)` when it comes after the comma at `q`, and at the end
   * of the text otherwise.
   */
  lemma SecondArgument(t: CppString, q: nat, c: int)
    requires q < |t| && (c == NPOS || 0 <= c < |t|)
    ensures var end := if c != NPOS && c > q then c else |t|;
            Substr(t, q + 1, SizeSub(SizeSub(c, q), 1)) == t[q + 1..end]
  {
    var count := SizeSub(SizeSub(c, q), 1);
    if c != NPOS && c > q {
      assert count == c - q - 1;
      SubstrWithin(t, q + 1, count);
    } else {
      assert count >= |t| - q - 1;
      SubstrToEnd(t, q + 1, count);
    }
  }

  /** Where the pieces of `name(a,rest` sit. */
  lemma CallText(name: string, a: string, rest: string)
    ensures var t := name + "(" + a + "," + rest;
            var p, q := |name|, |name| + 1 + |a|;
            |t| == q + 1 + |rest| && t[..p] == name && t[p] == '(' &&
            t[p + 1..q] == a && t[q] == ',' && t[q + 1..] == rest
  {
    var t := name + "(" + a + "," + rest;
    var p, q := |name|, |name| + 1 + |a|;
    assert t == name + (['('] + a + [','] + rest);
    assert t[p..] == ['('] + a + [','] + rest;
    assert t[p + 1..] == a + ([','] + rest);
    assert t[q..] == [','] + rest;
  }

  /**
   * `name(a,rest` with no `(` in `name` and no `,` in `a`: the name and the first
   * argument are cut there, and the second argument is `rest` up to the first `)` of
   * the whole text when that comes after the comma, and all of `rest` otherwise.
   */
  lemma SplitCall(name: string, a: string, rest: string)
    requires '(' !in name && ',' !in a
    requires |name| + |a| + |rest| + 2 < NPOS
    ensures var t: CppString := name + "(" + a + "," + rest;
            var q := |name| + 1 + |a|;
            var c := Find(t, ')', 0);
            Split(t) == Call(name, a, rest[..if c != NPOS && c > q then c - q - 1 else |rest|])
  {
    var t: CppString := name + "(" + a + "," + rest;
    var p, q := |name|, |name| + 1 + |a|;
    CallText(name, a, rest);
    SplitAt(t, p, q);
    var c := Find(t, ')', 0);
    SliceOfSuffix(t, q + 1, if c != NPOS && c > q then c else |t|);
  }

  /** A slice from `i` is a prefix of the suffix from `i`. */
  lemma SliceOfSuffix(t: string, i: nat, e: nat)
    requires i <= e <= |t|
    ensures t[i..e] == t[i..][..e - i]
  {
  }

  /** In `name(a,b)tail` with no `)` before the one after `b`, that one is the first. */
  lemma FirstCloseAfterB(name: string, a: string, b: string, tail: string)
    requires ')' !in name && ')' !in a && ')' !in b
    requires |name| + |a| + |b| + |tail| + 3 < NPOS
    ensures var t: CppString := name + "(" + a + "," + (b + ")" + tail);
            Find(t, ')', 0) == |name| + |a| + |b| + 2
  {
    var rest := b + ")" + tail;
    var t: CppString := name + "(" + a + "," + rest;
    var p, q := |name|, |name| + 1 + |a|;
    var c := q + 1 + |b|;
    CallText(name, a, rest);
    forall j | 0 <= j < c
      ensures t[j] != ')'
    {
      if j < p {
        assert t[j] == t[..p][j];
      } else if p < j < q {
        assert t[j] == t[p + 1..q][j - p - 1];
      } else if q < j {
        assert t[j] == rest[j - q - 1];
      }
    }
    assert t[c] == rest[|b|];
    FindIs(t, ')', 0, c);
  }

  /**
   * A call `name(a,b)tail` in which the first `)` is the one after `b`: the name is
   * the text before the first `(`, and the arguments are `a` and `b`.
   */
  lemma {:induction false} SplitClosed(name: string, a: string, b: string, tail: string)
    requires '(' !in name && ',' !in a
    requires ')' !in name && ')' !in a && ')' !in b
    requires |name| + |a| + |b| + |tail| + 3 < NPOS
    ensures Split(name + "(" + a + "," + b + ")" + tail) == Call(name, a, b)
  {
    var rest := b + ")" + tail;
    assert name + "(" + a + "," + b + ")" + tail == name + "(" + a + "," + rest;
    FirstCloseAfterB(name, a, b, tail);
    SplitCall(name, a, rest);
    assert rest[..|b|] == b;
  }

  /** In `name(a,b` with a `)` before the comma or none after it, no `)` follows the comma. */
  lemma NoCloseAfterComma(name: string, a: string, b: string)
    requires ')' in name || ')' in a || ')' !in b
    requires |name| + |a| + |b| + 2 < NPOS
    ensures var t: CppString := name + "(" + a + "," + b;
            var c := Find(t, ')', 0);
            c == NPOS || c < |name| + 1 + |a|
  {
    var t: CppString := name + "(" + a + "," + b;
    var p, q := |name|, |name| + 1 + |a|;
    CallText(name, a, b);
    if ')' in name {
      var j :| 0 <= j < |name| && name[j] == ')';
      assert t[j] == t[..p][j];
    } else if ')' in a {
      var j :| 0 <= j < |a| && a[j] == ')';
      assert t[p + 1 + j] == t[p + 1..q][j];
    } else {
      forall j | q < j < |t|
        ensures t[j] != ')'
      {
        assert t[j] == t[q + 1..][j - q - 1];
      }
    }
  }

  /**
   * A call `name(a,b` whose first `)` comes before the comma, or that has no `)`:
   * the second argument runs to the end of the text. A missing `)` is not an error.
   */
  lemma {:induction false} SplitUnclosed(name: string, a: string, b: string)
    requires '(' !in name && ',' !in a
    requires ')' in name || ')' in a || ')' !in b
    requires |name| + |a| + |b| + 2 < NPOS
    ensures Split(name + "(" + a + "," + b) == Call(name, a, b)
  {
    NoCloseAfterComma(name, a, b);
    SplitCall(name, a, b);
    assert b[..|b|] == b;
  }

  /**
   * Without a `(`, the trimmed input is one flat expression, whose value over
   * `+ - * /` is the conventional one.
   */
  lemma ParseFlat(input: CppString, registry: Registry)
    requires '(' !in Trim(input) && ExprDefined(Trim(input))
    ensures Defined(input)
    ensures ParseAndEvaluate(input, registry) == Reduce(Lex(Trim(input)))
    ensures WellFormed(Lex(Trim(input))) && FourOps(Lex(Trim(input))) ==>
              ParseAndEvaluate(input, registry) == Conventional(Lex(Trim(input)))
  {
    var t := Trim(input);
    SplitFlat(t);
    assert ParseAndEvaluate(input, registry) == EvaluateString(t);
    var ts := Lex(t);
    if WellFormed(ts) && FourOps(ts) {
      ReduceMatchesConventional(ts);
    }
  }

  /** A `(` with no `,` after it fails with the trimmed input in the message. */
  lemma ParseMissingComma(input: CppString, registry: Registry, name: string, rest: string)
    requires Trim(input) == name + "(" + rest
    requires '(' !in name && ',' !in rest
    ensures Defined(input)
    ensures ParseAndEvaluate(input, registry) == Err(InvalidFunctionFormat(Trim(input)))
  {
    SplitMissingComma(name, rest);
  }

  /**
   * A call `name(a,b)tail`: the first argument is evaluated first and its error wins,
   * then the second, then the name is looked up; whatever follows the `)` is ignored.
   */
  lemma ParseCall(input: CppString, registry: Registry, name: CppString, a: CppString, b: CppString, tail: string)
    requires Trim(input) == name + "(" + a + "," + b + ")" + tail
    requires '(' !in name && ',' !in a
    requires ')' !in name && ')' !in a && ')' !in b
    requires ExprDefined(Trim(a)) && (EvaluateString(Trim(a)).Ok? ==> ExprDefined(Trim(b)))
    ensures Defined(input)
    ensures var r := ParseAndEvaluate(input, registry);
            var x := EvaluateString(Trim(a));
            (x.Err? ==> r == x) &&
            (x.Ok? ==>
              var y := EvaluateString(Trim(b));
              (y.Err? ==> r == y) &&
              (y.Ok? ==> (r.Ok? <==> name in registry)) &&
              (y.Ok? && name in registry ==> r.value == registry[name](x.value, y.value)) &&
              (y.Ok? && name !in registry ==> r == Err(UnknownFunction(name))))
  {
    SplitClosed(name, a, b, tail);
  }

  /**
   * A call whose `)` is missing (or comes before the comma): not an error; the second
   * argument is everything after the comma.
   */
  lemma ParseUnclosed(input: CppString, registry: Registry, name: CppString, a: CppString, b: CppString)
    requires Trim(input) == name + "(" + a + "," + b
    requires '(' !in name && ',' !in a
    requires ')' in name || ')' in a || ')' !in b
    requires ExprDefined(Trim(a)) && (EvaluateString(Trim(a)).Ok? ==> ExprDefined(Trim(b)))
    ensures Defined(input)
    ensures var r := ParseAndEvaluate(input, registry);
            var x := EvaluateString(Trim(a));
            (x.Err? ==> r == x) &&
            (x.Ok? ==>
              var y := EvaluateString(Trim(b));
              (y.Err? ==> r == y) &&
              (y.Ok? ==> (r.Ok? <==> name in registry)) &&
              (y.Ok? && name in registry ==> r.value == registry[name](x.value, y.value)) &&
              (y.Ok? && name !in registry ==> r == Err(UnknownFunction(name))))
  {
    SplitUnclosed(name, a, b);
  }

  /** Leading and trailing spaces do not matter: trimming first changes nothing. */
  lemma ParseIgnoresPadding(input: CppString, registry: Registry)
    requires Defined(input)
    ensures Defined(Trim(input))
    ensures ParseAndEvaluate(Trim(input), registry) == ParseAndEvaluate(input, registry)
  {
    TrimIdempotent(input);
  }

  predicate IsLetter(c: char) { 'a' <= c <= 'z' || 'A' <= c <= 'Z' }

  /**
   * An argument that is itself a call, such as `min(3 * 2`, starts with a letter once
   * trimmed: nothing can be read from it and it evaluates to 0.
   */
  lemma CallArgumentIsZero(t: string)
    requires t != [] && IsLetter(t[0])
    ensures ExprDefined(t)
    ensures EvaluateString(t) == Ok(0.0)
  {
    assert SkipWhitespace(t, 0) == 0;
    NoLeadingNumber(t);
  }
}
