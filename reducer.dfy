/**
 * evaluateExpression: the two-stack reduction of a flat token stream. The method
 * EvaluateExpression keeps the program's loops; Collapse, Drain and Run are the same
 * steps as functions, which the rest of the model (and the proofs) use.
 */
module Reducer {
  import opened Results
  import opened Tokens
  import opened Precedence

  /** The applyOp lambda: one of the four operators, or an error. */
  function ApplyOp(a: real, b: real, op: char): (r: Result<real>)
    ensures r.Ok? <==> IsArith(op) && !(op == '/' && b == 0.0)
    ensures r.Ok? ==> r.value == Arith(a, b, op)
    ensures !IsArith(op) ==> r == Err(UnknownOperator)
    ensures op == '/' && b == 0.0 ==> r == Err(DivisionByZero)
  {
    match op
    case '+' => Ok(a + b)
    case '-' => Ok(a - b)
    case '*' => Ok(a * b)
    case '/' => if b == 0.0 then Err(DivisionByZero) else Ok(a / b)
    case _ => Err(UnknownOperator)
  }

  /** The operand stack and the operator stack; the top is the last element. */
  datatype Stacks = Stacks(nums: seq<real>, ops: seq<char>)

  /** The condition of the collapse loop, for an incoming `op` and the pending `top`. */
  predicate MustCollapse(op: char, top: char) {
    IsAdditive(op) || IsMultiplicative(top)
  }

  /**
   * The collapse loop run before `op` is pushed: while the condition holds, pop two
   * operands and an operator and push the result.
   */
  function Collapse(nums: seq<real>, ops: seq<char>, op: char): (r: Result<Stacks>)
    requires |nums| == |ops| + 1
    ensures r.Ok? ==> |r.value.nums| == |r.value.ops| + 1
    ensures r.Ok? ==> r.value.ops <= ops
    ensures r.Ok? ==> r.value.ops == [] || !MustCollapse(op, r.value.ops[|r.value.ops| - 1])
    ensures r.Ok? ==> forall k :: |r.value.ops| <= k < |ops| ==> IsArith(ops[k])
    decreases |ops|
  {
    if |ops| > 0 && MustCollapse(op, ops[|ops| - 1]) then
      match ApplyOp(nums[|nums| - 2], nums[|nums| - 1], ops[|ops| - 1])
      case Err(e) => Err(e)
      case Ok(v) => Collapse(nums[..|nums| - 2] + [v], ops[..|ops| - 1], op)
    else
      Ok(Stacks(nums, ops))
  }

  /**
   * How evaluateExpression comes to an end: it returns a value or throws (Ends), or it
   * takes the top of an empty operand stack, which C++ leaves undefined (EmptyPop).
   */
  datatype Outcome = Ends(result: Result<real>) | EmptyPop

  /**
   * The final loop: apply the pending operators from the top down, then return the top
   * operand, or 0 when there is none. The operand stack holds one entry more than the
   * operator stack, or as many when the reads ended with an operator; then the last
   * operator to be applied finds a single operand.
   */
  function Drain(nums: seq<real>, ops: seq<char>): (r: Outcome)
    requires |ops| <= |nums| <= |ops| + 1
    ensures |nums| == |ops| + 1 ==> r.Ends?
    ensures !AllArith(ops) ==> r == EmptyPop || r.result.Err?
    decreases |ops|
  {
    if ops == [] then Ends(Ok(if nums == [] then 0.0 else nums[|nums| - 1]))
    else if |nums| < 2 then EmptyPop
    else
      match ApplyOp(nums[|nums| - 2], nums[|nums| - 1], ops[|ops| - 1])
      case Err(e) => Ends(Err(e))
      case Ok(v) =>
        assert !AllArith(ops) ==> !AllArith(ops[..|ops| - 1]);
        Drain(nums[..|nums| - 2] + [v], ops[..|ops| - 1])
  }

  /**
   * The main loop from the number at index `i` on: push it, and when an operator
   * follows, collapse and push the operator; at the end, drain. A stream that ends
   * with a number always comes to an end.
   */
  function Run(ts: seq<Token>, i: nat, nums: seq<real>, ops: seq<char>): (r: Outcome)
    requires Alternating(ts) && i % 2 == 0 && i <= |ts| + 1
    requires if i < |ts| then |nums| == |ops| else |nums| == |ops| + |ts| % 2
    ensures |ts| % 2 == 1 ==> r.Ends?
    ensures !AllArith(ops) ==> r == EmptyPop || r.result.Err?
    decreases |ts| + 1 - i
  {
    if i >= |ts| then Drain(nums, ops)
    else if i + 1 < |ts| then
      var op := ts[i + 1].c;
      match Collapse(nums + [ts[i].n], ops, op)
      case Err(e) => Ends(Err(e))
      case Ok(st) =>
        assert !AllArith(ops) ==> !AllArith(st.ops + [op]) by {
          if !AllArith(ops) {
            var k :| 0 <= k < |ops| && !IsArith(ops[k]);
            assert (st.ops + [op])[k] == ops[k];
          }
        }
        Run(ts, i + 2, st.nums, st.ops + [op])
    else
      Run(ts, i + 2, nums + [ts[i].n], ops)
  }

  /** evaluateExpression on the reads it makes, from two empty stacks. */
  function Evaluate(ts: seq<Token>): (r: Outcome)
    requires Alternating(ts)
    ensures WellFormed(ts) ==> r.Ends?
  {
    Run(ts, 0, [], [])
  }

  /** The reads on which evaluateExpression never takes the top of an empty stack. */
  predicate Completes(ts: seq<Token>) {
    Alternating(ts) && Evaluate(ts).Ends?
  }

  /** The value evaluateExpression returns, or the error it throws. */
  function Reduce(ts: seq<Token>): Result<real>
    requires Completes(ts)
  {
    Evaluate(ts).result
  }

  /** The operator stack over `+ - * /`: at most two entries, and with two, `+`/`-` under `*`/`/`. */
  predicate StackShape(ops: seq<char>) {
    |ops| <= 2 &&
    (|ops| >= 1 ==> IsArith(ops[0])) &&
    (|ops| == 2 ==> IsAdditive(ops[0]) && IsMultiplicative(ops[1]))
  }

  /**
   * The collapse loop of evaluateExpression, run before `op` is pushed: while the
   * condition holds, pop two operands and an operator and push the result.
   */
  method CollapseLoop(nums0: seq<real>, ops0: seq<char>, op: char) returns (r: Result<Stacks>)
    requires |nums0| == |ops0| + 1
    ensures r == Collapse(nums0, ops0, op)
  {
    var nums, ops := nums0, ops0;
    while ops != [] && MustCollapse(op, ops[|ops| - 1])
      invariant |nums| == |ops| + 1
      invariant Collapse(nums, ops, op) == Collapse(nums0, ops0, op)
      decreases |ops|
    {
      var b := nums[|nums| - 1];
      var a := nums[|nums| - 2];
      var op2 := ops[|ops| - 1];
      var v := ApplyOp(a, b, op2);
      if v.Err? {
        return Err(v.error);
      }
      nums, ops := nums[..|nums| - 2] + [v.value], ops[..|ops| - 1];
    }
    r := Ok(Stacks(nums, ops));
  }

  /**
   * One pass of evaluateExpression's main loop, at the number `ts[i]`: push it and,
   * when an operator follows, run the collapse loop and push the operator. It either
   * throws what Run throws at this step, or leaves the stacks Run continues from.
   */
  method MainStep(ts: seq<Token>, i: nat, nums0: seq<real>, ops0: seq<char>) returns (r: Result<Stacks>)
    requires Alternating(ts) && i % 2 == 0 && i < |ts| && |nums0| == |ops0|
    ensures r.Err? ==> Run(ts, i, nums0, ops0) == Ends(Err(r.error))
    ensures r.Ok? ==> if i + 2 < |ts| then |r.value.nums| == |r.value.ops|
                      else |r.value.nums| == |r.value.ops| + |ts| % 2
    ensures r.Ok? ==> Run(ts, i + 2, r.value.nums, r.value.ops) == Run(ts, i, nums0, ops0)
    ensures r.Ok? && FourOps(ts) && StackShape(ops0) ==> StackShape(r.value.ops)
  {
    var nums := nums0 + [ts[i].n];
    if i + 1 < |ts| {
      assert ts[i + 1].Op?;
      var op := ts[i + 1].c;
      var c := CollapseLoop(nums, ops0, op);
      if c.Err? {
        return Err(c.error);
      }
      return Ok(Stacks(c.value.nums, c.value.ops + [op]));
    }
    return Ok(Stacks(nums, ops0));
  }

  /**
   * evaluateExpression over the token stream its reads produce. The operand stack
   * always holds one more entry than the operator stack when a pair is popped, and
   * over `+ - * /` the operator stack keeps StackShape.
   */
  method EvaluateExpression(ts: seq<Token>) returns (r: Result<real>)
    requires Completes(ts)
    ensures r == Reduce(ts)
    ensures WellFormed(ts) && FourOps(ts) ==> r == Conventional(ts)
  {
    if WellFormed(ts) && FourOps(ts) {
      ReduceMatchesConventional(ts);
    }
    var nums: seq<real> := [];
    var ops: seq<char> := [];
    var i := 0;
    while i < |ts|
      invariant i % 2 == 0 && i <= |ts| + 1
      invariant if i < |ts| then |nums| == |ops| else |nums| == |ops| + |ts| % 2
      invariant Run(ts, i, nums, ops) == Evaluate(ts)
      invariant FourOps(ts) ==> StackShape(ops)
    {
      var st := MainStep(ts, i, nums, ops);
      if st.Err? {
        return Err(st.error);
      }
      nums, ops, i := st.value.nums, st.value.ops, i + 2;
    }
    assert Run(ts, i, nums, ops) == Drain(nums, ops);
    while ops != []
      invariant |ops| <= |nums| <= |ops| + 1
      invariant Drain(nums, ops) == Evaluate(ts)
      decreases |ops|
    {
      assert |nums| >= 2;
      var b := nums[|nums| - 1];
      var a := nums[|nums| - 2];
      var op2 := ops[|ops| - 1];
      var v := ApplyOp(a, b, op2);
      if v.Err? {
        assert Drain(nums, ops) == Ends(Err(v.error));
        return Err(v.error);
      }
      nums, ops := nums[..|nums| - 2] + [v.value], ops[..|ops| - 1];
    }
    r := Ok(if nums == [] then 0.0 else nums[|nums| - 1]);
  }

  /**
   * The stacks right after the operator `o` that follows the complete expression `q`
   * has been pushed, for `+ - * /`: everything that binds at least as tightly as `o`
   * has been reduced, and at most one `+`/`-` waits below a `*`/`/`.
   */
  function Pending(q: seq<Token>, o: char): Stacks
    requires WellFormed(q) && q != []
  {
    if IsAdditive(o) then Stacks([ExprValue(q)], [o])
    else
      var k := LastAdditive(q);
      if k < 0 then Stacks([TermValue(q)], [o])
      else
        PrefixWellFormed(q, k);
        SuffixWellFormed(q, k);
        Stacks([ExprValue(q[..k]), TermValue(q[k + 1..])], [q[k].c, o])
  }

  /** The collapse loop on a two-operand stack. */
  lemma CollapseOne(x: real, n: real, o: char, o2: char)
    requires IsArith(o)
    ensures Collapse([x, n], [o], o2) ==
              if !MustCollapse(o2, o) then Ok(Stacks([x, n], [o]))
              else if o == '/' && n == 0.0 then Err(DivisionByZero)
              else Ok(Stacks([Arith(x, n, o)], []))
  {
    if MustCollapse(o2, o) && !(o == '/' && n == 0.0) {
      assert [x, n][..0] + [Arith(x, n, o)] == [Arith(x, n, o)];
    }
  }

  /** The collapse loop on a three-operand stack whose operators are `+`/`-` under `*`/`/`. */
  lemma CollapseTwo(x: real, y: real, n: real, a: char, o: char, o2: char)
    requires IsAdditive(a) && IsMultiplicative(o)
    ensures Collapse([x, y, n], [a, o], o2) ==
              if o == '/' && n == 0.0 then Err(DivisionByZero)
              else if IsAdditive(o2) then Ok(Stacks([Arith(x, Arith(y, n, o), a)], []))
              else Ok(Stacks([x, Arith(y, n, o)], [a]))
  {
    if !(o == '/' && n == 0.0) {
      var v := Arith(y, n, o);
      assert ApplyOp(y, n, o) == Ok(v);
      assert [x, y, n][..1] + [v] == [x, v];
      assert [a, o][..1] == [a];
      assert Collapse([x, y, n], [a, o], o2) == Collapse([x, v], [a], o2);
      CollapseOne(x, v, a, o2);
    }
  }

  /**
   * One turn of the main loop over `+ - * /` from the Pending state of `q` and `o`:
   * reading `n` and then `o2` fails exactly on `/ 0`, and otherwise reaches the
   * Pending state of the longer expression (before `o2` itself is pushed).
   */
  lemma {:induction false} CollapseStep(q: seq<Token>, o: char, n: real, o2: char, nums: seq<real>, ops: seq<char>)
    requires WellFormed(q) && q != [] && IsArith(o) && IsArith(o2)
    requires Stacks(nums, ops) == Pending(q, o)
    ensures WellFormed(q + [Op(o), Num(n)])
    ensures var r := Collapse(nums + [n], ops, o2);
            if o == '/' && n == 0.0 then r == Err(DivisionByZero)
            else r.Ok? && Stacks(r.value.nums, r.value.ops + [o2]) == Pending(q + [Op(o), Num(n)], o2)
  {
    if IsAdditive(o) {
      CollapseAfterAdditive(q, o, n, o2, nums, ops);
    } else if LastAdditive(q) < 0 {
      CollapseAfterTerm(q, o, n, o2, nums, ops);
    } else {
      CollapseAfterSum(q, o, n, o2, nums, ops);
    }
  }

  /** CollapseStep when `o` is `+` or `-`. */
  lemma {:induction false} CollapseAfterAdditive(q: seq<Token>, o: char, n: real, o2: char, nums: seq<real>, ops: seq<char>)
    requires WellFormed(q) && q != [] && IsAdditive(o) && IsArith(o2)
    requires Stacks(nums, ops) == Pending(q, o)
    ensures WellFormed(q + [Op(o), Num(n)])
    ensures var r := Collapse(nums + [n], ops, o2);
            r.Ok? && Stacks(r.value.nums, r.value.ops + [o2]) == Pending(q + [Op(o), Num(n)], o2)
  {
    var q2 := q + [Op(o), Num(n)];
    ExtendAdditive(q, o, n);
    LastAdditiveExtendAdditive(q, o, n);
    assert q2[..|q|] == q;
    assert q2[|q| + 1..] == [Num(n)];
    assert nums + [n] == [ExprValue(q), n];
    CollapseOne(ExprValue(q), n, o, o2);
  }

  /** CollapseStep when `o` is `*` or `/` and `q` holds no `+`/`-`. */
  lemma {:induction false} CollapseAfterTerm(q: seq<Token>, o: char, n: real, o2: char, nums: seq<real>, ops: seq<char>)
    requires WellFormed(q) && q != [] && IsMultiplicative(o) && IsArith(o2) && LastAdditive(q) < 0
    requires Stacks(nums, ops) == Pending(q, o)
    ensures WellFormed(q + [Op(o), Num(n)])
    ensures var r := Collapse(nums + [n], ops, o2);
            if o == '/' && n == 0.0 then r == Err(DivisionByZero)
            else r.Ok? && Stacks(r.value.nums, r.value.ops + [o2]) == Pending(q + [Op(o), Num(n)], o2)
  {
    ExtendMultiplicative(q, o, n);
    LastAdditiveExtend(q, o, n);
    assert nums + [n] == [TermValue(q), n];
    CollapseOne(TermValue(q), n, o, o2);
  }

  /** CollapseStep when `o` is `*` or `/` and a `+`/`-` waits below it. */
  lemma {:induction false} CollapseAfterSum(q: seq<Token>, o: char, n: real, o2: char, nums: seq<real>, ops: seq<char>)
    requires WellFormed(q) && q != [] && IsMultiplicative(o) && IsArith(o2) && LastAdditive(q) >= 0
    requires Stacks(nums, ops) == Pending(q, o)
    ensures WellFormed(q + [Op(o), Num(n)])
    ensures var r := Collapse(nums + [n], ops, o2);
            if o == '/' && n == 0.0 then r == Err(DivisionByZero)
            else r.Ok? && Stacks(r.value.nums, r.value.ops + [o2]) == Pending(q + [Op(o), Num(n)], o2)
  {
    var q2 := q + [Op(o), Num(n)];
    var k := LastAdditive(q);
    ExtendMultiplicative(q, o, n);
    LastAdditiveExtend(q, o, n);
    var x, y := ExprValue(q[..k]), TermValue(q[k + 1..]);
    assert nums + [n] == [x, y, n];
    CollapseTwo(x, y, n, q[k].c, o, o2);
    if !(o == '/' && n == 0.0) {
      var t := Arith(y, n, o);
      assert q2[..k] == q[..k] && q2[k] == q[k];
      assert q2[k + 1..] == q[k + 1..] + [Op(o), Num(n)];
      TermExtend(q[k + 1..], o, n);
      assert TermValue(q2[k + 1..]) == t;
      if IsAdditive(o2) {
        assert ExprValue(q2) == Arith(x, t, q[k].c);
      } else {
        assert Pending(q2, o2) == Stacks([x, t], [q[k].c, o2]);
      }
    }
  }

  /** Appending an additive `op num` makes that operator the last additive one. */
  lemma LastAdditiveExtendAdditive(q: seq<Token>, o: char, n: real)
    requires IsAdditive(o)
    ensures LastAdditive(q + [Op(o), Num(n)]) == |q|
  {
    var q2 := q + [Op(o), Num(n)];
    assert q2[..|q2| - 1] == q + [Op(o)];
  }

  /** The final loop on two operands and one operator: applyOp, whatever the operator. */
  lemma DrainOne(x: real, n: real, o: char)
    ensures Drain([x, n], [o]) == Ends(ApplyOp(x, n, o))
  {
    if ApplyOp(x, n, o).Ok? {
      var v := ApplyOp(x, n, o).value;
      assert [x, n][..0] + [v] == [v];
      assert [o][..0] == [];
    }
  }

  /** The final loop on three operands under `+`/`-` and `*`/`/`: the product first. */
  lemma DrainTwo(x: real, y: real, n: real, a: char, o: char)
    requires IsAdditive(a) && IsMultiplicative(o)
    ensures Drain([x, y, n], [a, o]) ==
              if o == '/' && n == 0.0 then Ends(Err(DivisionByZero))
              else Ends(Ok(Arith(x, Arith(y, n, o), a)))
  {
    if !(o == '/' && n == 0.0) {
      var v := Arith(y, n, o);
      assert [x, y, n][..1] + [v] == [x, v];
      assert [a, o][..1] == [a];
      assert Drain([x, y, n], [a, o]) == Drain([x, v], [a]);
      DrainOne(x, v, a);
    }
  }

  /** Appending `op num` with `op` among `+ - * /` keeps every operator among them. */
  lemma FourOpsExtend(q: seq<Token>, o: char, n: real)
    requires FourOps(q) && IsArith(o)
    ensures FourOps(q + [Op(o), Num(n)])
  {
    var q2 := q + [Op(o), Num(n)];
    forall j | 0 <= j < |q2| && q2[j].Op?
      ensures IsArith(q2[j].c)
    {
      if j < |q| { assert q2[j] == q[j]; }
    }
  }

  /**
   * The end of the stream over `+ - * /` from the Pending state of `q` and `o`: the
   * drain after the last number `n` gives the conventional result of the whole stream.
   */
  lemma {:induction false} FinalDrain(q: seq<Token>, o: char, n: real, nums: seq<real>, ops: seq<char>)
    requires WellFormed(q) && q != [] && FourOps(q) && IsArith(o) && !DividesByZero(q)
    requires Stacks(nums, ops) == Pending(q, o)
    ensures WellFormed(q + [Op(o), Num(n)]) && FourOps(q + [Op(o), Num(n)])
    ensures Drain(nums + [n], ops) == Ends(Conventional(q + [Op(o), Num(n)]))
  {
    FourOpsExtend(q, o, n);
    DividesByZeroExtend(q, o, n);
    if IsAdditive(o) {
      FinalAfterAdditive(q, o, n, nums, ops);
    } else if LastAdditive(q) < 0 {
      FinalAfterTerm(q, o, n, nums, ops);
    } else {
      FinalAfterSum(q, o, n, nums, ops);
    }
  }

  /** FinalDrain when `o` is `+` or `-`. */
  lemma FinalAfterAdditive(q: seq<Token>, o: char, n: real, nums: seq<real>, ops: seq<char>)
    requires WellFormed(q) && q != [] && IsAdditive(o)
    requires Stacks(nums, ops) == Pending(q, o)
    ensures WellFormed(q + [Op(o), Num(n)])
    ensures Drain(nums + [n], ops) == Ends(Ok(ExprValue(q + [Op(o), Num(n)])))
  {
    ExtendAdditive(q, o, n);
    assert nums + [n] == [ExprValue(q), n];
    DrainOne(ExprValue(q), n, o);
  }

  /** FinalDrain when `o` is `*` or `/` and `q` holds no `+`/`-`. */
  lemma FinalAfterTerm(q: seq<Token>, o: char, n: real, nums: seq<real>, ops: seq<char>)
    requires WellFormed(q) && q != [] && IsMultiplicative(o) && LastAdditive(q) < 0
    requires Stacks(nums, ops) == Pending(q, o)
    ensures WellFormed(q + [Op(o), Num(n)])
    ensures Drain(nums + [n], ops) ==
              if o == '/' && n == 0.0 then Ends(Err(DivisionByZero))
              else Ends(Ok(ExprValue(q + [Op(o), Num(n)])))
  {
    ExtendMultiplicative(q, o, n);
    assert nums + [n] == [TermValue(q), n];
    DrainOne(TermValue(q), n, o);
  }

  /** FinalDrain when `o` is `*` or `/` and a `+`/`-` waits below it. */
  lemma FinalAfterSum(q: seq<Token>, o: char, n: real, nums: seq<real>, ops: seq<char>)
    requires WellFormed(q) && q != [] && IsMultiplicative(o) && LastAdditive(q) >= 0
    requires Stacks(nums, ops) == Pending(q, o)
    ensures WellFormed(q + [Op(o), Num(n)])
    ensures Drain(nums + [n], ops) ==
              if o == '/' && n == 0.0 then Ends(Err(DivisionByZero))
              else Ends(Ok(ExprValue(q + [Op(o), Num(n)])))
  {
    var k := LastAdditive(q);
    ExtendMultiplicative(q, o, n);
    var x, y := ExprValue(q[..k]), TermValue(q[k + 1..]);
    assert nums + [n] == [x, y, n];
    DrainTwo(x, y, n, q[k].c, o);
  }

  /**
   * One turn of the main loop over `+ - * /` at index `i > 0` of `ts`, from the Pending
   * state of the prefix read so far: the collapse before `ts[i + 1]` throws exactly
   * when the longer prefix divides by zero, and otherwise leaves its Pending state.
   */
  lemma PendingStep(ts: seq<Token>, i: nat, nums: seq<real>, ops: seq<char>)
    requires WellFormed(ts) && FourOps(ts) && i % 2 == 0 && 0 < i && i + 1 < |ts|
    requires WellFormed(ts[..i - 1]) && ts[..i - 1] != [] && !DividesByZero(ts[..i - 1]) &&
             Stacks(nums, ops) == Pending(ts[..i - 1], ts[i - 1].c)
    ensures ts[i].Num? && ts[i + 1].Op? && IsArith(ts[i + 1].c) && i + 2 < |ts|
    ensures WellFormed(ts[..i + 1]) && ts[..i + 1] != []
    ensures var r := Collapse(nums + [ts[i].n], ops, ts[i + 1].c);
            if DividesByZero(ts[..i + 1]) then r == Err(DivisionByZero)
            else r.Ok? && Stacks(r.value.nums, r.value.ops + [ts[i + 1].c]) == Pending(ts[..i + 1], ts[i + 1].c)
  {
    var n := ts[i].n;
    var q, o := ts[..i - 1], ts[i - 1].c;
    assert ts[i - 1].Op? && IsArith(o);
    assert ts[..i + 1] == q + [Op(o), Num(n)];
    assert |ts| % 2 == 1;
    var o2 := ts[i + 1].c;
    assert ts[i + 1].Op? && IsArith(o2);
    CollapseStep(q, o, n, o2, nums, ops);
    DividesByZeroExtend(q, o, n);
  }

  /**
   * The main loop from index `i > 0` over `+ - * /`, started from the Pending state of
   * the prefix read so far, ends in the conventional result.
   */
  lemma {:induction false} RunAgrees(ts: seq<Token>, i: nat, nums: seq<real>, ops: seq<char>)
    requires WellFormed(ts) && FourOps(ts) && i % 2 == 0 && 0 < i < |ts|
    requires WellFormed(ts[..i - 1]) && ts[..i - 1] != [] && !DividesByZero(ts[..i - 1]) &&
             Stacks(nums, ops) == Pending(ts[..i - 1], ts[i - 1].c)
    ensures |nums| == |ops|
    ensures Run(ts, i, nums, ops) == Ends(Conventional(ts))
    decreases |ts| - i
  {
    if i + 1 < |ts| {
      PendingStep(ts, i, nums, ops);
      var r := Collapse(nums + [ts[i].n], ops, ts[i + 1].c);
      if DividesByZero(ts[..i + 1]) {
        DividesByZeroPrefix(ts, i + 1);
        assert Run(ts, i, nums, ops) == Ends(Err(DivisionByZero));
      } else {
        var nums2, ops2 := r.value.nums, r.value.ops + [ts[i + 1].c];
        assert Run(ts, i, nums, ops) == Run(ts, i + 2, nums2, ops2);
        RunAgrees(ts, i + 2, nums2, ops2);
      }
    } else {
      var n := ts[i].n;
      var q, o := ts[..i - 1], ts[i - 1].c;
      assert ts[i - 1].Op? && IsArith(o);
      assert ts == q + [Op(o), Num(n)];
      LastDrain(ts, q, o, n, nums, ops);
    }
  }

  /** The last pass of the main loop over `+ - * /`, at the last number `n`: push it and drain. */
  lemma LastDrain(ts: seq<Token>, q: seq<Token>, o: char, n: real, nums: seq<real>, ops: seq<char>)
    requires WellFormed(ts) && FourOps(ts) && ts == q + [Op(o), Num(n)]
    requires WellFormed(q) && q != [] && IsArith(o) && !DividesByZero(q)
    requires Stacks(nums, ops) == Pending(q, o)
    ensures |nums| == |ops|
    ensures Run(ts, |ts| - 1, nums, ops) == Ends(Conventional(ts))
  {
    assert ts[|ts| - 1] == Num(n);
    assert Run(ts, |ts| - 1, nums, ops) == Drain(nums + [n], ops);
    assert FourOps(q) by {
      forall j | 0 <= j < |q| && q[j].Op?
        ensures IsArith(q[j].c)
      {
        assert q[j] == ts[j];
      }
    }
    FinalDrain(q, o, n, nums, ops);
  }

  /**
   * Over `+ - * /` the reducer computes conventional precedence: `*` and `/` above
   * `+` and `-`, left to right within a tier, and a division by zero error exactly
   * when some `/` is followed by the literal 0.
   */
  lemma ReduceMatchesConventional(ts: seq<Token>)
    requires WellFormed(ts) && FourOps(ts)
    ensures Reduce(ts) == Conventional(ts)
  {
    if ts != [] {
      var n := ts[0].n;
      var noNums: seq<real>, noOps: seq<char> := [], [];
      assert noNums + [n] == [n];
      if |ts| == 1 {
        assert ts == [Num(n)];
        assert LastAdditive(ts) == -1;
        assert !DividesByZero(ts);
        assert Run(ts, 0, [], []) == Drain([n], []);
      } else {
        var o2 := ts[1].c;
        assert ts[1].Op? && IsArith(o2);
        assert ts[..1] == [Num(n)];
        assert LastAdditive([Num(n)]) == -1;
        assert Collapse([n], [], o2) == Ok(Stacks([n], []));
        assert noOps + [o2] == [o2];
        assert Run(ts, 0, [], []) == Run(ts, 2, [n], [o2]);
        assert !DividesByZero(ts[..1]);
        RunAgrees(ts, 2, [n], [o2]);
      }
    }
  }

  /** Over `+ - * /`, the reducer fails exactly when some `/` is followed by the literal 0, and then with DivisionByZero. */
  lemma DivisionByZeroExactly(ts: seq<Token>)
    requires WellFormed(ts) && FourOps(ts)
    ensures Reduce(ts).Err? <==> DividesByZero(ts)
    ensures Reduce(ts).Err? ==> Reduce(ts).error == DivisionByZero
  {
    ReduceMatchesConventional(ts);
  }

  /** `a op b` gives applyOp(a, b, op), whatever the operator character. */
  lemma SingleOperator(a: real, op: char, b: real)
    ensures WellFormed([Num(a), Op(op), Num(b)])
    ensures Reduce([Num(a), Op(op), Num(b)]) == ApplyOp(a, b, op)
  {
    var ts := [Num(a), Op(op), Num(b)];
    var noNums: seq<real>, noOps: seq<char> := [], [];
    assert noNums + [a] == [a] && noOps + [op] == [op];
    assert Collapse([a], [], op) == Ok(Stacks([a], []));
    assert Run(ts, 0, [], []) == Run(ts, 2, [a], [op]);
    assert Run(ts, 2, [a], [op]) == Drain([a, b], [op]);
    match ApplyOp(a, b, op)
    case Err(e) =>
    case Ok(v) =>
      assert [a, b][..0] + [v] == [v];
      assert [op][..0] == [];
      assert Drain([a, b], [op]) == Drain([v], []);
  }

  /**
   * The main loop from index `i` fails when an operator outside `+ - * /` is already
   * on the operator stack or is still to be read: every pushed operator is applied.
   */
  lemma {:induction false} RunUnknownOperator(ts: seq<Token>, i: nat, nums: seq<real>, ops: seq<char>)
    requires Alternating(ts) && i % 2 == 0 && i <= |ts| + 1
    requires if i < |ts| then |nums| == |ops| else |nums| == |ops| + |ts| % 2
    requires !AllArith(ops) || exists k :: i < k < |ts| && ts[k].Op? && !IsArith(ts[k].c)
    ensures var r := Run(ts, i, nums, ops); r == EmptyPop || r.result.Err?
    decreases |ts| + 1 - i
  {
    if i < |ts| && i + 1 < |ts| && AllArith(ops) {
      var op := ts[i + 1].c;
      match Collapse(nums + [ts[i].n], ops, op)
      case Err(e) =>
      case Ok(st) =>
        if !IsArith(op) {
          assert (st.ops + [op])[|st.ops|] == op;
        } else {
          var k :| i < k < |ts| && ts[k].Op? && !IsArith(ts[k].c);
          assert k != i + 1 && k != i && k % 2 == 1;
          RunUnknownOperator(ts, i + 2, st.nums, st.ops + [op]);
        }
    }
  }

  /**
   * An operator outside `+ - * /` anywhere in the stream makes evaluation fail, unless
   * it takes the top of an empty stack first.
   */
  lemma UnknownOperatorFails(ts: seq<Token>)
    requires Completes(ts) && !FourOps(ts)
    ensures Reduce(ts).Err?
  {
    var k :| 0 <= k < |ts| && ts[k].Op? && !IsArith(ts[k].c);
    RunUnknownOperator(ts, 0, [], []);
  }

  /** The first demonstration expression, `5 + 3 * 2`, read as tokens, evaluates to 11. */
  lemma ReduceExample()
    ensures WellFormed([Num(5.0), Op('+'), Num(3.0), Op('*'), Num(2.0)])
    ensures Reduce([Num(5.0), Op('+'), Num(3.0), Op('*'), Num(2.0)]) == Ok(11.0)
  {
    ReduceMatchesConventional([Num(5.0), Op('+'), Num(3.0), Op('*'), Num(2.0)]);
    ConventionalExample();
  }

  /**
   * What the reads `q o` come to when the operator `o` is the last read and `q` is a
   * complete expression. A division by zero inside `q` is thrown as usual. Otherwise
   * the final loop applies `o` to the two operands still pending, which throws when
   * `o` is `/` and the last term of `q` (after its last `+` or `-`) is 0, and then, or
   * at once, finds an operator with a single operand left.
   */
  function TrailingOutcome(q: seq<Token>, o: char): Outcome
    requires WellFormed(q) && q != []
  {
    var k := LastAdditive(q);
    if DividesByZero(q) then Ends(Err(DivisionByZero))
    else if o != '/' || k < 0 then EmptyPop
    else
      SuffixWellFormed(q, k);
      if TermValue(q[k + 1..]) == 0.0 then Ends(Err(DivisionByZero)) else EmptyPop
  }

  /** The final loop from the Pending state of `q` and a last operator `o`. */
  lemma DrainPending(q: seq<Token>, o: char)
    requires WellFormed(q) && q != [] && IsArith(o) && !DividesByZero(q)
    ensures |Pending(q, o).nums| == |Pending(q, o).ops|
    ensures Drain(Pending(q, o).nums, Pending(q, o).ops) == TrailingOutcome(q, o)
  {
    var k := LastAdditive(q);
    if IsMultiplicative(o) && k >= 0 {
      PrefixWellFormed(q, k);
      SuffixWellFormed(q, k);
      var x, y := ExprValue(q[..k]), TermValue(q[k + 1..]);
      assert Pending(q, o) == Stacks([x, y], [q[k].c, o]);
      if !(o == '/' && y == 0.0) {
        var v := Arith(x, y, o);
        assert [x, y][..0] + [v] == [v];
        assert [q[k].c, o][..1] == [q[k].c];
        assert Drain([x, y], [q[k].c, o]) == Drain([v], [q[k].c]);
      }
    }
  }

  /**
   * The last pass of the main loop over the reads `q o`, at the last number `n` of `q`
   * with the Pending state of the prefix `p` and its operator `o1`: collapse, push
   * `o`, and drain.
   */
  lemma {:induction false} TrailingLast(q: seq<Token>, o: char, p: seq<Token>, o1: char, n: real, nums: seq<real>, ops: seq<char>)
    requires WellFormed(p) && p != [] && IsArith(o1) && IsArith(o) && !DividesByZero(p)
    requires q == p + [Op(o1), Num(n)] && Alternating(q + [Op(o)])
    requires Stacks(nums, ops) == Pending(p, o1)
    ensures |nums| == |ops|
    ensures Run(q + [Op(o)], |q| - 1, nums, ops) == TrailingOutcome(q, o)
  {
    var ts := q + [Op(o)];
    var i := |q| - 1;
    assert ts[i] == Num(n) && ts[i + 1] == Op(o);
    CollapseStep(p, o1, n, o, nums, ops);
    DividesByZeroExtend(p, o1, n);
    var r := Collapse(nums + [n], ops, o);
    if !(o1 == '/' && n == 0.0) {
      assert Run(ts, i, nums, ops) == Drain(r.value.nums, r.value.ops + [o]);
      DrainPending(q, o);
    }
  }

  /**
   * The main loop from index `i > 0` over the reads `q o`, where `o` is a last operator
   * over `+ - * /`, started from the Pending state of the prefix read so far, ends as
   * TrailingOutcome says.
   */
  lemma {:induction false} RunTrailing(q: seq<Token>, o: char, i: nat, nums: seq<real>, ops: seq<char>)
    requires WellFormed(q) && FourOps(q) && IsArith(o) && i % 2 == 0 && 0 < i < |q|
    requires Alternating(q + [Op(o)])
    requires WellFormed(q[..i - 1]) && q[..i - 1] != [] && !DividesByZero(q[..i - 1]) &&
             Stacks(nums, ops) == Pending(q[..i - 1], q[i - 1].c)
    ensures |nums| == |ops|
    ensures Run(q + [Op(o)], i, nums, ops) == TrailingOutcome(q, o)
    decreases |q| - i
  {
    if i + 1 == |q| {
      var n := q[i].n;
      var p, o1 := q[..i - 1], q[i - 1].c;
      assert q[i - 1].Op? && IsArith(o1);
      assert q == p + [Op(o1), Num(n)];
      TrailingLast(q, o, p, o1, n, nums, ops);
    } else {
      PendingStep(q, i, nums, ops);
      var ts := q + [Op(o)];
      assert ts[i] == q[i] && ts[i + 1] == q[i + 1];
      var r := Collapse(nums + [q[i].n], ops, q[i + 1].c);
      if DividesByZero(q[..i + 1]) {
        DividesByZeroPrefix(q, i + 1);
        assert Run(ts, i, nums, ops) == Ends(Err(DivisionByZero));
      } else {
        var nums2, ops2 := r.value.nums, r.value.ops + [q[i + 1].c];
        assert Run(ts, i, nums, ops) == Run(ts, i + 2, nums2, ops2);
        RunTrailing(q, o, i + 2, nums2, ops2);
      }
    }
  }

  /** A well-formed stream followed by one operator still alternates. */
  lemma AlternatingTrailing(q: seq<Token>, o: char)
    requires WellFormed(q) && q != []
    ensures Alternating(q + [Op(o)])
  {
    var ts := q + [Op(o)];
    forall k | 0 <= k < |ts|
      ensures ts[k].Num? <==> k % 2 == 0
    {
      if k < |q| {
        assert ts[k] == q[k];
      }
    }
  }

  /**
   * A stream over `+ - * /` that ends with an operator: evaluation throws the division
   * by zero of the expression before it, or one caused by a last `/` whose operands are
   * the last sum and the last term, and otherwise takes the top of an empty stack.
   */
  lemma TrailingOperator(q: seq<Token>, o: char)
    requires WellFormed(q) && q != [] && FourOps(q) && IsArith(o)
    ensures Alternating(q + [Op(o)])
    ensures Evaluate(q + [Op(o)]) == TrailingOutcome(q, o)
  {
    var ts := q + [Op(o)];
    AlternatingTrailing(q, o);
    var n := q[0].n;
    var noNums: seq<real>, noOps: seq<char> := [], [];
    assert noNums + [n] == [n];
    assert ts[0] == Num(n);
    assert q[..1] == [Num(n)];
    assert LastAdditive([Num(n)]) == -1;
    if |q| == 1 {
      assert ts == [Num(n), Op(o)];
      assert Run(ts, 0, [], []) == Run(ts, 2, [n], [o]);
      assert !DividesByZero(q);
    } else {
      var o2 := q[1].c;
      assert ts[1] == q[1] && IsArith(o2);
      assert Collapse([n], [], o2) == Ok(Stacks([n], []));
      assert noOps + [o2] == [o2];
      assert Run(ts, 0, [], []) == Run(ts, 2, [n], [o2]);
      assert !DividesByZero(q[..1]);
      RunTrailing(q, o, 2, [n], [o2]);
    }
  }

  /** `1 / 0 +` throws the division by zero before it reaches the empty stack. */
  lemma TrailingDivisionByZero()
    ensures Completes([Num(1.0), Op('/'), Num(0.0), Op('+')])
    ensures Reduce([Num(1.0), Op('/'), Num(0.0), Op('+')]) == Err(DivisionByZero)
  {
    var q := [Num(1.0), Op('/'), Num(0.0)];
    assert q[1] == Op('/') && q[2] == Num(0.0);
    assert DividesByZero(q);
    TrailingOperator(q, '+');
    assert q + [Op('+')] == [Num(1.0), Op('/'), Num(0.0), Op('+')];
  }

  /** `1 + 2 * 0 /` throws a division by zero although no `/` is followed by a literal 0. */
  lemma TrailingHiddenZero()
    ensures Completes([Num(1.0), Op('+'), Num(2.0), Op('*'), Num(0.0), Op('/')])
    ensures Reduce([Num(1.0), Op('+'), Num(2.0), Op('*'), Num(0.0), Op('/')]) == Err(DivisionByZero)
  {
    var q := [Num(1.0), Op('+'), Num(2.0), Op('*'), Num(0.0)];
    assert !DividesByZero(q);
    assert LastAdditive(q) == 1 by {
      assert q[..4][..3] == q[..3] && q[..3][..2] == q[..2];
      assert LastAdditive(q[..2]) == 1;
      assert LastAdditive(q[..3]) == 1;
      assert LastAdditive(q[..4]) == 1;
    }
    assert q[2..] == [Num(2.0), Op('*'), Num(0.0)];
    assert TermValue(q[2..]) == 0.0 by {
      assert [Num(2.0), Op('*'), Num(0.0)][..1] == [Num(2.0)];
    }
    TrailingOperator(q, '/');
    assert q + [Op('/')] == [Num(1.0), Op('+'), Num(2.0), Op('*'), Num(0.0), Op('/')];
  }

  /** `1 + 2 -` reaches the last `-` with a single operand: the stack underflows. */
  lemma TrailingEmptyPop()
    ensures Alternating([Num(1.0), Op('+'), Num(2.0), Op('-')])
    ensures Evaluate([Num(1.0), Op('+'), Num(2.0), Op('-')]) == EmptyPop
    ensures !Completes([Num(1.0), Op('+'), Num(2.0), Op('-')])
  {
    var q := [Num(1.0), Op('+'), Num(2.0)];
    assert !DividesByZero(q);
    TrailingOperator(q, '-');
    assert q + [Op('-')] == [Num(1.0), Op('+'), Num(2.0), Op('-')];
  }

  /**
   * `a op b o` with `op` a `+` or `-` and `o` unknown: the collapse leaves `op` pending,
   * so the final loop applies `o` to `a` and `b` first and throws.
   */
  lemma TrailingUnknownAfterSum(a: real, op: char, b: real, o: char)
    requires IsAdditive(op) && !IsArith(o)
    ensures Alternating([Num(a), Op(op), Num(b), Op(o)])
    ensures Evaluate([Num(a), Op(op), Num(b), Op(o)]) == Ends(Err(UnknownOperator))
  {
    var ts := [Num(a), Op(op), Num(b), Op(o)];
    assert Alternating(ts) by {
      forall k | 0 <= k < 4
        ensures ts[k].Num? <==> k % 2 == 0
      {
        if k == 0 { } else if k == 1 { } else if k == 2 { } else { }
      }
    }
    assert Run(ts, 0, [], []) == Run(ts, 2, [a], [op]) by {
      var noNums: seq<real>, noOps: seq<char> := [], [];
      assert noNums + [a] == [a] && noOps + [op] == [op];
      assert Collapse([a], [], op) == Ok(Stacks([a], []));
    }
    assert Run(ts, 2, [a], [op]) == Run(ts, 4, [a, b], [op, o]) by {
      assert [a] + [b] == [a, b] && [op] + [o] == [op, o];
      CollapseOne(a, b, op, o);
    }
    assert Run(ts, 4, [a, b], [op, o]) == Drain([a, b], [op, o]);
  }

  /** `2 + 3 =` applies the unknown `=` to 2 and 3 before any stack runs empty. */
  lemma TrailingUnknownOperator()
    ensures Completes([Num(2.0), Op('+'), Num(3.0), Op('=')])
    ensures Reduce([Num(2.0), Op('+'), Num(3.0), Op('=')]) == Err(UnknownOperator)
  {
    TrailingUnknownAfterSum(2.0, '+', 3.0, '=');
  }
}
