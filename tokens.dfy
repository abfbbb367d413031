/** The token stream the evaluator reads: numbers and single-character operators. */
module Tokens {

  /** What one `ss >> num` (a number) or one `ss >> op` (any non-blank character) yields. */
  datatype Token = Num(n: real) | Op(c: char)

  /** Numbers at even positions, operators at odd ones: the only order the reads can produce. */
  predicate Alternating(ts: seq<Token>) {
    forall k :: 0 <= k < |ts| ==> (ts[k].Num? <==> k % 2 == 0)
  }

  /**
   * A stream `num (op num)*`, or nothing at all. A stream that ends in an operator
   * makes the reducer pop an empty stack, which the program does not guard against.
   */
  predicate WellFormed(ts: seq<Token>) {
    Alternating(ts) && (|ts| == 0 || |ts| % 2 == 1)
  }

  predicate IsAdditive(c: char) { c == '+' || c == '-' }

  predicate IsMultiplicative(c: char) { c == '*' || c == '/' }

  /** The four operators the evaluator knows. */
  predicate IsArith(c: char) { IsAdditive(c) || IsMultiplicative(c) }

  /** Every operator of the stream is one of `+ - * /`. */
  predicate FourOps(ts: seq<Token>) {
    forall k :: 0 <= k < |ts| && ts[k].Op? ==> IsArith(ts[k].c)
  }

  /** Every operator on an operator stack is one of `+ - * /`. */
  predicate AllArith(ops: seq<char>) {
    forall k :: 0 <= k < |ops| ==> IsArith(ops[k])
  }

  /**
   * The textbook meaning of the four operators; a division by zero has no meaning
   * and is given the value 0 here (callers rule it out before they look at the value).
   */
  function Arith(a: real, b: real, op: char): real {
    if op == '+' then a + b
    else if op == '-' then a - b
    else if op == '*' then a * b
    else if op == '/' && b != 0.0 then a / b
    else 0.0
  }

  /** Dropping a suffix that starts at an operator keeps a stream well formed. */
  lemma PrefixWellFormed(ts: seq<Token>, k: int)
    requires WellFormed(ts) && 0 <= k < |ts| && ts[k].Op?
    ensures WellFormed(ts[..k]) && ts[..k] != []
  {
  }

  /** Dropping a prefix that ends at an operator keeps a stream well formed. */
  lemma SuffixWellFormed(ts: seq<Token>, k: int)
    requires WellFormed(ts) && 0 <= k < |ts| && ts[k].Op?
    ensures WellFormed(ts[k + 1..]) && ts[k + 1..] != []
  {
    assert k % 2 == 1;
    forall j | 0 <= j < |ts| - k - 1
      ensures ts[k + 1..][j].Num? <==> j % 2 == 0
    {
      assert ts[k + 1..][j] == ts[k + 1 + j];
    }
  }
}
