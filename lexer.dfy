/**
 * The reads `ss >> num` (a double) and `ss >> op` (a char) that evaluateExpression
 * performs on its string stream, turned into a token stream. Reading stops at the first
 * number that cannot be read, exactly as the loop `while (ss >> num)` does.
 */
module Lexer {
  import opened Results
  import opened Tokens

  /** The characters the stream's extractors skip (isspace in the "C" locale). */
  predicate IsWhitespace(c: char) {
    c == ' ' || c == '\t' || c == '\n' || c == '\r' || c == '\U{0B}' || c == '\U{0C}'
  }

  predicate IsDigit(c: char) { '0' <= c <= '9' }

  /** The first index at or after `i` that is not whitespace. */
  function SkipWhitespace(s: string, i: nat): (j: nat)
    requires i <= |s|
    ensures i <= j <= |s|
    ensures forall k :: i <= k < j ==> IsWhitespace(s[k])
    ensures j < |s| ==> !IsWhitespace(s[j])
    decreases |s| - i
  {
    if i < |s| && IsWhitespace(s[i]) then SkipWhitespace(s, i + 1) else i
  }

  /** The end of the run of digits that starts at `i`. */
  function DigitsEnd(s: string, i: nat): (j: nat)
    requires i <= |s|
    ensures i <= j <= |s|
    ensures forall k :: i <= k < j ==> IsDigit(s[k])
    ensures j < |s| ==> !IsDigit(s[j])
    decreases |s| - i
  {
    if i < |s| && IsDigit(s[i]) then DigitsEnd(s, i + 1) else i
  }

  /** The value of a string of decimal digits. */
  function DigitsValue(d: string): nat
    requires forall k :: 0 <= k < |d| ==> IsDigit(d[k])
  {
    if d == [] then 0
    else
      assert IsDigit(d[|d| - 1]);
      DigitsValue(d[..|d| - 1]) * 10 + (d[|d| - 1] as int - '0' as int)
  }

  /** 10 to the power `n`. */
  function Pow10(n: nat): (r: nat)
    ensures r >= 1
  {
    if n == 0 then 1 else 10 * Pow10(n - 1)
  }

  /** The value of `whole.fraction` written in decimal: the fraction's digits over `10^|fraction|`. */
  function DecimalValue(whole: string, fraction: string): real
    requires forall k :: 0 <= k < |whole| ==> IsDigit(whole[k])
    requires forall k :: 0 <= k < |fraction| ==> IsDigit(fraction[k])
  {
    DigitsValue(whole) as real + DigitsValue(fraction) as real / Pow10(|fraction|) as real
  }

  /**
   * One `>> double` starting at `i` (whitespace already skipped): an optional sign,
   * digits, an optional point and more digits, with at least one digit in all.
   * Gives the value and the index just past the number, or None when nothing
   * can be read.
   */
  function ReadNumber(s: string, i: nat): (r: Option<(real, nat)>)
    requires i <= |s|
    ensures r.Some? ==> i < r.value.1 <= |s|
  {
    var start := SignEnd(s, i);
    var intEnd := DigitsEnd(s, start);
    var hasPoint := intEnd < |s| && s[intEnd] == '.';
    var fracStart := if hasPoint then intEnd + 1 else intEnd;
    var fracEnd := DigitsEnd(s, fracStart);
    if intEnd == start && fracEnd == fracStart then None
    else
      var magnitude := DecimalValue(s[start..intEnd], s[fracStart..fracEnd]);
      Some((if start > i && s[i] == '-' then -magnitude else magnitude, fracEnd))
  }

  /**
   * Nothing can be read exactly when, after the optional sign, there is neither a
   * digit nor a point followed by a digit.
   */
  lemma ReadNumberFails(s: string, i: nat)
    requires i <= |s|
    ensures var start := SignEnd(s, i);
            ReadNumber(s, i).None? <==>
              DigitsEnd(s, start) == start &&
              !(start < |s| && s[start] == '.' && DigitsEnd(s, start + 1) > start + 1)
  {
  }

  /** The index just past an optional leading sign. */
  function SignEnd(s: string, i: nat): (j: nat)
    requires i <= |s|
    ensures i <= j <= |s|
  {
    if i < |s| && (s[i] == '+' || s[i] == '-') then i + 1 else i
  }

  /**
   * The tokens read from index `i` on, starting with a `>> num` read. The reads
   * alternate: a number, then an operator, then a number, and so on.
   */
  function LexNumber(s: string, i: nat): (ts: seq<Token>)
    requires i <= |s|
    ensures Alternating(ts)
    decreases |s| - i
  {
    match ReadNumber(s, SkipWhitespace(s, i))
    case None => []
    case Some((v, j)) =>
      var rest := LexOperator(s, j);
      NumberThenOperators(v, rest);
      [Num(v)] + rest
  }

  /** The tokens read from index `j` on, starting with a `>> op` read. */
  function LexOperator(s: string, j: nat): (ts: seq<Token>)
    requires j <= |s|
    ensures OperatorFirst(ts)
    decreases |s| - j
  {
    var k := SkipWhitespace(s, j);
    if k == |s| then []
    else
      var rest := LexNumber(s, k + 1);
      OperatorThenNumbers(s[k], rest);
      [Op(s[k])] + rest
  }

  /** Every read `evaluateExpression` makes on `s`; they alternate, starting with a number. */
  function Lex(s: string): (ts: seq<Token>)
    ensures Alternating(ts)
  {
    LexNumber(s, 0)
  }

  /** Operators at even positions, numbers at odd ones: what follows a number. */
  predicate OperatorFirst(ts: seq<Token>) {
    forall k :: 0 <= k < |ts| ==> (ts[k].Op? <==> k % 2 == 0)
  }

  lemma NumberThenOperators(v: real, rest: seq<Token>)
    requires OperatorFirst(rest)
    ensures Alternating([Num(v)] + rest)
  {
    var ts := [Num(v)] + rest;
    forall k | 0 < k < |ts|
      ensures ts[k].Num? <==> k % 2 == 0
    {
      assert ts[k] == rest[k - 1];
      assert rest[k - 1].Op? <==> (k - 1) % 2 == 0;
    }
  }

  lemma OperatorThenNumbers(c: char, rest: seq<Token>)
    requires Alternating(rest)
    ensures OperatorFirst([Op(c)] + rest)
  {
    var ts := [Op(c)] + rest;
    forall m | 0 < m < |ts|
      ensures ts[m].Op? <==> m % 2 == 0
    {
      assert ts[m] == rest[m - 1];
      assert rest[m - 1].Num? <==> (m - 1) % 2 == 0;
    }
  }

  /**
   * When the first character after the leading whitespace cannot start a number,
   * nothing at all is read (so the expression will evaluate to 0).
   */
  lemma NoLeadingNumber(s: string)
    requires var k := SkipWhitespace(s, 0);
             k == |s| || !(IsDigit(s[k]) || s[k] == '.' || s[k] == '+' || s[k] == '-')
    ensures Lex(s) == []
  {
  }

  /** The value of one decimal digit. */
  function DigitValue(c: char): real
    requires IsDigit(c)
  {
    (c as int - '0' as int) as real
  }

  /** SkipWhitespace stops at the first character that is not whitespace. */
  lemma SkipWhitespaceIs(s: string, i: nat, k: nat)
    requires i <= k <= |s|
    requires forall j :: i <= j < k ==> IsWhitespace(s[j])
    requires k == |s| || !IsWhitespace(s[k])
    ensures SkipWhitespace(s, i) == k
    decreases k - i
  {
    if i < k {
      SkipWhitespaceIs(s, i + 1, k);
    }
  }

  /** A lone digit, not followed by another digit or a point, reads as its value. */
  lemma ReadDigit(s: string, i: nat)
    requires i < |s| && IsDigit(s[i])
    requires i + 1 == |s| || (!IsDigit(s[i + 1]) && s[i + 1] != '.')
    ensures ReadNumber(s, i) == Some((DigitValue(s[i]), i + 1))
  {
    assert SignEnd(s, i) == i;
    assert DigitsEnd(s, i + 1) == i + 1;
    assert DigitsEnd(s, i) == i + 1;
    assert s[i..i + 1] == [s[i]];
    assert DigitsValue([s[i]]) == s[i] as int - '0' as int by {
      assert [s[i]][..0] == [];
    }
    assert s[i + 1..i + 1] == [];
  }

  /** DigitsEnd stops at the first index that is not a digit. */
  lemma DigitsEndIs(s: string, i: nat, j: nat)
    requires i <= j <= |s|
    requires forall k :: i <= k < j ==> IsDigit(s[k])
    requires j == |s| || !IsDigit(s[j])
    ensures DigitsEnd(s, i) == j
    decreases j - i
  {
    if i < j {
      DigitsEndIs(s, i + 1, j);
    }
  }

  /**
   * A run of digits followed by neither a digit nor a point reads as the integer the
   * digits spell, and the read ends just past them.
   */
  lemma ReadInteger(s: string, i: nat, j: nat)
    requires i < j <= |s|
    requires forall k :: i <= k < j ==> IsDigit(s[k])
    requires j == |s| || (!IsDigit(s[j]) && s[j] != '.')
    ensures ReadNumber(s, i) == Some((DigitsValue(s[i..j]) as real, j))
  {
    assert IsDigit(s[i]);
    assert SignEnd(s, i) == i;
    DigitsEndIs(s, i, j);
    DigitsEndIs(s, j, j);
    assert s[j..j] == [];
  }

  /** `|d|` digits spell a number below `10^|d|`. */
  lemma {:induction false} DigitsBelowPow10(d: string)
    requires forall k :: 0 <= k < |d| ==> IsDigit(d[k])
    ensures DigitsValue(d) < Pow10(|d|)
    decreases |d|
  {
    if d != [] {
      DigitsBelowPow10(d[..|d| - 1]);
      assert IsDigit(d[|d| - 1]);
    }
  }

  /** A numerator below the denominator gives a quotient in [0, 1). */
  lemma FractionBelowOne(a: nat, p: nat)
    requires a < p
    ensures 0.0 <= a as real / p as real < 1.0
  {
  }

  /** The fraction adds less than one to the whole part. */
  lemma DecimalBounds(whole: string, fraction: string)
    requires forall k :: 0 <= k < |whole| ==> IsDigit(whole[k])
    requires forall k :: 0 <= k < |fraction| ==> IsDigit(fraction[k])
    ensures var w := DigitsValue(whole) as real;
            w <= DecimalValue(whole, fraction) < w + 1.0
  {
    DigitsBelowPow10(fraction);
    FractionBelowOne(DigitsValue(fraction), Pow10(|fraction|));
  }

  /**
   * Digits, a point and more digits, with at least one digit in all, read as the
   * decimal they spell, which lies between the whole part and the next integer. The
   * read ends just past the last digit.
   */
  lemma ReadDecimal(s: string, i: nat, p: nat, q: nat)
    requires i <= p < q <= |s| && s[p] == '.'
    requires forall k :: i <= k < p ==> IsDigit(s[k])
    requires forall k :: p < k < q ==> IsDigit(s[k])
    requires q == |s| || !IsDigit(s[q])
    requires i < p || p + 1 < q
    ensures var v := DecimalValue(s[i..p], s[p + 1..q]);
            var w := DigitsValue(s[i..p]) as real;
            ReadNumber(s, i) == Some((v, q)) && w <= v < w + 1.0
  {
    assert SignEnd(s, i) == i;
    DigitsEndIs(s, i, p);
    DigitsEndIs(s, p + 1, q);
    var whole, fraction := s[i..p], s[p + 1..q];
    forall k | 0 <= k < |whole|
      ensures IsDigit(whole[k])
    {
      assert whole[k] == s[i + k];
    }
    forall k | 0 <= k < |fraction|
      ensures IsDigit(fraction[k])
    {
      assert fraction[k] == s[p + 1 + k];
    }
    DecimalBounds(whole, fraction);
  }

  /**
   * A leading sign: a second sign after it makes the read fail; otherwise the read
   * succeeds exactly when the unsigned read after the sign does, ends where it ends,
   * and `-` negates its value.
   */
  lemma ReadSigned(s: string, i: nat)
    requires i < |s| && (s[i] == '+' || s[i] == '-')
    ensures i + 1 < |s| && (s[i + 1] == '+' || s[i + 1] == '-') ==> ReadNumber(s, i).None?
    ensures i + 1 == |s| || (s[i + 1] != '+' && s[i + 1] != '-') ==>
              match ReadNumber(s, i + 1)
              case None => ReadNumber(s, i).None?
              case Some((v, j)) => ReadNumber(s, i) == Some((if s[i] == '-' then -v else v, j))
  {
    assert SignEnd(s, i) == i + 1;
  }

  /** A `>> num` read at `i` that finds a lone digit at `k` after whitespace. */
  lemma LexDigitAt(s: string, i: nat, k: nat)
    requires i <= k < |s| && IsDigit(s[k])
    requires forall j :: i <= j < k ==> IsWhitespace(s[j])
    requires k + 1 == |s| || (!IsDigit(s[k + 1]) && s[k + 1] != '.')
    ensures LexNumber(s, i) == [Num(DigitValue(s[k]))] + LexOperator(s, k + 1)
  {
    SkipWhitespaceIs(s, i, k);
    ReadDigit(s, k);
  }

  /** A `>> op` read at `j` that finds the character at `k` after whitespace. */
  lemma LexOperatorAt(s: string, j: nat, k: nat)
    requires j <= k < |s| && !IsWhitespace(s[k])
    requires forall m :: j <= m < k ==> IsWhitespace(s[m])
    ensures LexOperator(s, j) == [Op(s[k])] + LexNumber(s, k + 1)
  {
    SkipWhitespaceIs(s, j, k);
  }

  /** A `>> op` read at `j` with only whitespace left reads nothing. */
  lemma LexOperatorEnd(s: string, j: nat)
    requires j <= |s|
    requires forall m :: j <= m < |s| ==> IsWhitespace(s[m])
    ensures LexOperator(s, j) == []
  {
    SkipWhitespaceIs(s, j, |s|);
  }
}
