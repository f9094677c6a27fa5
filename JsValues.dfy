/**
 The JavaScript values that reach the user module from a parsed JSON request
 body, and the two pieces of JavaScript semantics the module relies on:
 truthiness (`if (!x)`) and the short-circuit `&&` operator.
 Numbers are modelled as integers: floating point and NaN are not part of
 this model.
 */
module JsValues {

  datatype JsValue =
    | Undefined
    | Null
    | Bool(b: bool)
    | Num(n: int)
    | Str(s: string)

  /** JavaScript's ToBoolean on the modelled values. */
  predicate Truthy(v: JsValue) {
    match v
    case Undefined => false
    case Null => false
    case Bool(b) => b
    case Num(n) => n != 0
    case Str(s) => s != ""
  }

  /** The five values JavaScript treats as false (NaN aside). */
  const FalsyValues: set<JsValue> := {Undefined, Null, Bool(false), Num(0), Str("")}

  /** `a && b`: yields `a` when `a` is falsy and `b` otherwise. */
  function And(a: JsValue, b: JsValue): (r: JsValue)
    ensures Truthy(r) <==> Truthy(a) && Truthy(b)
    ensures r == a || r == b
  {
    if Truthy(a) then b else a
  }

  /** Truthiness agrees with the table of falsy values. */
  lemma FalsyIff(v: JsValue)
    ensures !Truthy(v) <==> v in FalsyValues
  {
    match v
    case Bool(b) =>
    case Num(n) =>
    case Str(s) =>
    case _ =>
  }

  /** A chain of `&&` over non-empty strings evaluates to its LAST operand,
      not to anything that stands for all of them. */
  lemma {:induction false} AndChainOfStrings(a: string, b: string, c: string)
    requires a != "" && b != "" && c != ""
    ensures And(And(Str(a), Str(b)), Str(c)) == Str(c)
  {
    assert Truthy(Str(a));
    assert And(Str(a), Str(b)) == Str(b);
    assert Truthy(Str(b));
  }
}
