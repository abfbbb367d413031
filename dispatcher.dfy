/**
 * evaluateFunction and the registry of named two-argument functions. The registry is
 * an immutable map handed to the evaluator; evaluation only ever looks it up.
 */
module Dispatcher {
  import opened Results

  /** A binary numeric function, as bound in the registry. */
  type Builtin = (real, real) -> real

  /** Function names and their bindings. */
  type Registry = map<string, Builtin>

  /**
   * evaluateFunction: a bound name applies its binding to the two arguments, an
   * unbound name fails with UnknownFunction. The lookup happens only after the
   * name is known to be bound, so the registry never gains an entry.
   */
  function EvaluateFunction(name: string, arg1: real, arg2: real, registry: Registry): (r: Result<real>)
    ensures r.Ok? <==> name in registry
    ensures r.Ok? ==> r.value == registry[name](arg1, arg2)
    ensures r.Err? ==> r.error == UnknownFunction(name)
  {
    if name in registry then Ok(registry[name](arg1, arg2))
    else Err(UnknownFunction(name))
  }

  /** std::max: the second argument when the first is smaller, else the first. */
  function Max(x: real, y: real): real { if x < y then y else x }

  /** std::min: the second argument when it is smaller, else the first. */
  function Min(x: real, y: real): real { if y < x then y else x }

  /** std::abs on a double. */
  function Abs(x: real): real { if x < 0.0 then -x else x }

  /**
   * The bindings the program installs at start-up. `pow` is the C library's power
   * function on doubles, which this model takes as given.
   */
  function Builtins(pow: Builtin): (r: Registry)
    ensures r.Keys == {"pow", "abs", "max", "min"}
  {
    map["pow" := pow, "abs" := (x: real, y: real) => Abs(x), "max" := Max, "min" := Min]
  }

  /** `max(x, y)` is the larger argument. */
  lemma BuiltinMax(pow: Builtin, x: real, y: real)
    ensures var r := EvaluateFunction("max", x, y, Builtins(pow));
            r.Ok? && r.value >= x && r.value >= y && (r.value == x || r.value == y)
  {
    assert Builtins(pow)["max"] == Max;
  }

  /** `min(x, y)` is the smaller argument. */
  lemma BuiltinMin(pow: Builtin, x: real, y: real)
    ensures var r := EvaluateFunction("min", x, y, Builtins(pow));
            r.Ok? && r.value <= x && r.value <= y && (r.value == x || r.value == y)
  {
    assert Builtins(pow)["min"] == Min;
  }

  /** `abs(x, y)` is the absolute value of `x`; the second argument is ignored. */
  lemma BuiltinAbs(pow: Builtin, x: real, y: real)
    ensures var r := EvaluateFunction("abs", x, y, Builtins(pow));
            r.Ok? && r.value >= 0.0 && (r.value == x || r.value == -x) &&
            r == EvaluateFunction("abs", x, 0.0, Builtins(pow))
  {
    assert Builtins(pow)["abs"] == (x: real, y: real) => Abs(x);
  }

  /** `pow(x, y)` is the library power function. */
  lemma BuiltinPow(pow: Builtin, x: real, y: real)
    ensures EvaluateFunction("pow", x, y, Builtins(pow)) == Ok(pow(x, y))
  {
    assert Builtins(pow)["pow"] == pow;
  }

  /** Any other name is unknown, for example `foo`. */
  lemma UnknownBuiltin(pow: Builtin, name: string, x: real, y: real)
    requires name !in {"pow", "abs", "max", "min"}
    ensures EvaluateFunction(name, x, y, Builtins(pow)) == Err(UnknownFunction(name))
  {
  }

  /**
   * Registering a binding before evaluation makes that name evaluate to it and leaves
   * every other name as it was.
   */
  lemma RegisterBinding(registry: Registry, name: string, f: Builtin, other: string, x: real, y: real)
    ensures EvaluateFunction(name, x, y, registry[name := f]) == Ok(f(x, y))
    ensures other != name ==>
              EvaluateFunction(other, x, y, registry[name := f]) == EvaluateFunction(other, x, y, registry)
  {
  }
}
