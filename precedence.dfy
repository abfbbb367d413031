/**
 * Conventional evaluation of a flat expression `num (op num)*` over `+ - * /`:
 * `*` and `/` bind tighter than `+` and `-`, and operators of one tier associate to
 * the left. This is the meaning the two-stack reducer is proved to compute.
 */
module Precedence {
  import opened Results
  import opened Tokens

  predicate IsAddOp(t: Token) { t.Op? && IsAdditive(t.c) }

  /** The index of the last `+` or `-` in the stream, or -1 when there is none. */
  function LastAdditive(ts: seq<Token>): (k: int)
    ensures -1 <= k < |ts|
    ensures k >= 0 ==> IsAddOp(ts[k])
    ensures forall j :: k < j < |ts| ==> !IsAddOp(ts[j])
  {
    if ts == [] then -1
    else if IsAddOp(ts[|ts| - 1]) then |ts| - 1
    else LastAdditive(ts[..|ts| - 1])
  }

  /** A product term `num (op num)*`, folded from the left. */
  function TermValue(ts: seq<Token>): real
    requires WellFormed(ts) && ts != []
    decreases |ts|
  {
    if |ts| == 1 then ts[0].n
    else
      PrefixWellFormed(ts, |ts| - 2);
      Arith(TermValue(ts[..|ts| - 2]), ts[|ts| - 1].n, ts[|ts| - 2].c)
  }

  /**
   * A whole expression: split at its last `+` or `-`, so that the sum on the left
   * is evaluated first and the product term on the right binds tighter.
   */
  function ExprValue(ts: seq<Token>): real
    requires WellFormed(ts) && ts != []
    decreases |ts|
  {
    var k := LastAdditive(ts);
    if k < 0 then TermValue(ts)
    else
      PrefixWellFormed(ts, k);
      SuffixWellFormed(ts, k);
      Arith(ExprValue(ts[..k]), TermValue(ts[k + 1..]), ts[k].c)
  }

  /** Some `/` is immediately followed by the literal 0. */
  predicate DividesByZero(ts: seq<Token>) {
    exists j :: 0 <= j < |ts| - 1 && ts[j] == Op('/') && ts[j + 1] == Num(0.0)
  }

  /**
   * The conventional result: an error exactly when some division has a zero divisor
   * (the divisor of `/` is always a single literal in a flat expression), the
   * empty expression counts as 0, and otherwise the precedence value.
   */
  function Conventional(ts: seq<Token>): Result<real>
    requires WellFormed(ts) && FourOps(ts)
  {
    if ts == [] then Ok(0.0)
    else if DividesByZero(ts) then Err(DivisionByZero)
    else Ok(ExprValue(ts))
  }

  /** A `+` or `-` appended at the end applies to the value of everything before it. */
  lemma {:induction false} ExtendAdditive(q: seq<Token>, o: char, n: real)
    requires WellFormed(q) && q != [] && IsAdditive(o)
    ensures WellFormed(q + [Op(o), Num(n)])
    ensures ExprValue(q + [Op(o), Num(n)]) == Arith(ExprValue(q), n, o)
  {
    var q2 := q + [Op(o), Num(n)];
    assert LastAdditive(q2) == |q|;
    assert q2[..|q|] == q;
    assert q2[|q| + 1..] == [Num(n)];
  }

  /** Appending `op num` moves the last `+` or `-` only when `op` is one. */
  lemma {:induction false} LastAdditiveExtend(q: seq<Token>, o: char, n: real)
    requires IsMultiplicative(o)
    ensures LastAdditive(q + [Op(o), Num(n)]) == LastAdditive(q)
  {
    var q2 := q + [Op(o), Num(n)];
    assert q2[..|q2| - 1] == q + [Op(o)];
    assert (q + [Op(o)])[..|q|] == q;
  }

  /** Appending `op num` to a product term applies `op` to the whole term. */
  lemma {:induction false} TermExtend(t: seq<Token>, o: char, n: real)
    requires WellFormed(t) && t != []
    ensures WellFormed(t + [Op(o), Num(n)])
    ensures TermValue(t + [Op(o), Num(n)]) == Arith(TermValue(t), n, o)
  {
    assert (t + [Op(o), Num(n)])[..|t|] == t;
  }

  /**
   * A `*` or `/` appended at the end binds to the last product term only: with no
   * `+`/`-` before it the whole expression is one term, otherwise the last `+`/`-`
   * applies to the extended term.
   */
  lemma {:induction false} ExtendMultiplicative(q: seq<Token>, o: char, n: real)
    requires WellFormed(q) && q != [] && IsMultiplicative(o)
    ensures WellFormed(q + [Op(o), Num(n)])
    ensures var k := LastAdditive(q);
            k >= 0 ==> WellFormed(q[..k]) && q[..k] != [] && WellFormed(q[k + 1..]) && q[k + 1..] != []
    ensures var k := LastAdditive(q);
            ExprValue(q + [Op(o), Num(n)]) ==
              if k < 0 then Arith(TermValue(q), n, o)
              else Arith(ExprValue(q[..k]), Arith(TermValue(q[k + 1..]), n, o), q[k].c)
  {
    var q2 := q + [Op(o), Num(n)];
    var k := LastAdditive(q);
    LastAdditiveExtend(q, o, n);
    TermExtend(q, o, n);
    if k >= 0 {
      PrefixWellFormed(q, k);
      SuffixWellFormed(q, k);
      assert q2[..k] == q[..k];
      assert q2[k + 1..] == q[k + 1..] + [Op(o), Num(n)];
      TermExtend(q[k + 1..], o, n);
    }
  }

  /** Appending `op num` adds a division by zero exactly when it is `/ 0`. */
  lemma DividesByZeroExtend(q: seq<Token>, o: char, n: real)
    ensures DividesByZero(q + [Op(o), Num(n)]) <==> DividesByZero(q) || (o == '/' && n == 0.0)
  {
    var q2 := q + [Op(o), Num(n)];
    if DividesByZero(q2) && !(o == '/' && n == 0.0) {
      var j :| 0 <= j < |q2| - 1 && q2[j] == Op('/') && q2[j + 1] == Num(0.0);
      assert j < |q| - 1;
      assert q[j] == Op('/') && q[j + 1] == Num(0.0);
    }
    if DividesByZero(q) {
      var j :| 0 <= j < |q| - 1 && q[j] == Op('/') && q[j + 1] == Num(0.0);
      assert q2[j] == Op('/') && q2[j + 1] == Num(0.0);
    }
    if o == '/' && n == 0.0 {
      assert q2[|q|] == Op('/') && q2[|q| + 1] == Num(0.0);
    }
  }

  /** A division by zero in a prefix is one in the whole stream. */
  lemma DividesByZeroPrefix(ts: seq<Token>, m: nat)
    requires m <= |ts| && DividesByZero(ts[..m])
    ensures DividesByZero(ts)
  {
    var j :| 0 <= j < m - 1 && ts[..m][j] == Op('/') && ts[..m][j + 1] == Num(0.0);
    assert ts[j] == Op('/') && ts[j + 1] == Num(0.0);
  }

  /** `5 + 3 * 2` is 11, not 16. */
  lemma ConventionalExample()
    ensures Conventional([Num(5.0), Op('+'), Num(3.0), Op('*'), Num(2.0)]) == Ok(11.0)
  {
    var ts := [Num(5.0), Op('+'), Num(3.0), Op('*'), Num(2.0)];
    ExtendMultiplicative([Num(5.0), Op('+'), Num(3.0)], '*', 2.0);
    ExtendAdditive([Num(5.0)], '+', 3.0);
    assert [Num(5.0), Op('+'), Num(3.0)] + [Op('*'), Num(2.0)] == ts;
    assert !DividesByZero(ts);
  }
}
