/**
 * The cases of src3/evaluate.test.ts: values evaluate to themselves, and `+` in a root
 * environment adds from zero. The math cases there compare the evaluated parse of one
 * text with the parse of another; one of them is stated that way here too.
 */
module Evaluate3Examples {
  import opened Results
  import opened Ast3
  import opened Parse3
  import opened Parse3Laws
  import opened Evaluate3

  /** An environment binding `+` to add, as a root environment does. */
  ghost predicate BindsAdd(env: Environment)
    reads env
  {
    "+" in env.fnMap && env.fnMap["+"] == Fn(Added)
  }

  lemma EchoExamples(env: Environment)
    requires env.Valid()
    ensures env.Eval(Integer(12.0)) == Ok(Integer(12.0))
    ensures env.Eval(Float(12.34)) == Ok(Float(12.34))
    ensures env.Eval(Str("apple")) == Ok(Str("apple"))
    ensures env.Eval(Array([Integer(12.0), Integer(34.0)])) == Ok(Array([Integer(12.0), Integer(34.0)]))
  {
  }

  /** Numbers evaluate to themselves, so the arguments of `+` arrive as they are. */
  lemma NumbersEvaluate(env: Environment, args: seq<Ast>)
    requires env.Valid() && forall k | 0 <= k < |args| :: args[k].Integer?
    ensures env.EvalArgs(args) == Ok(args)
  {
    assert forall k | 0 <= k < |args| :: env.Eval(args[k]) == Ok(args[k]);
    env.EvalArgsElementwise(args);
    var vs := env.EvalArgs(args).value;
    assert vs == args by {
      assert forall k | 0 <= k < |args| :: Ok(vs[k]) == env.Eval(args[k]);
    }
  }

  /** `+` in a root environment adds its numbers from zero. */
  lemma {:induction false} AddsFromZero(env: Environment, args: seq<Ast>)
    requires env.Valid() && BindsAdd(env) && forall k | 0 <= k < |args| :: args[k].Integer?
    ensures env.Eval(List([Symbol("+")] + args)) == Added(args)
  {
    var items := [Symbol("+")] + args;
    assert items[0] == Symbol("+") && items[1..] == args;
    NumbersEvaluate(env, args);
  }

  lemma AddExamples(env: Environment)
    requires env.Valid() && BindsAdd(env)
    ensures env.Eval(List([Symbol("+")])) == Ok(Integer(0.0))
    ensures env.Eval(List([Symbol("+"), Integer(3.0)])) == Ok(Integer(3.0))
    ensures env.Eval(List([Symbol("+"), Integer(2.0), Integer(3.0)])) == Ok(Integer(5.0))
    ensures env.Eval(List([Symbol("+"), Integer(2.0), Integer(3.0), Integer(4.0)])) == Ok(Integer(9.0))
  {
    AddsFromZero(env, []);
    assert [Symbol("+")] + [] == [Symbol("+")];
    AddsFromZero(env, [Integer(3.0)]);
    AddsFromZero(env, [Integer(2.0), Integer(3.0)]);
    AddsFromZero(env, [Integer(2.0), Integer(3.0), Integer(4.0)]);
  }

  /** A new root environment evaluates `(+ 2 3)` to 5. */
  method RootAddsExample() returns (r: Result<Ast, EvalError>)
    ensures r == Ok(Integer(5.0))
  {
    var env := new Environment.Root();
    r := env.Evaluate(List([Symbol("+"), Integer(2.0), Integer(3.0)]));
    AddExamples(env);
  }

  /** The text "(+ 2 3)" reads as the list of `+`, 2 and 3. */
  lemma AddTextReads(s: string)
    requires s == "(+ 2 3)"
    ensures ParseText(s, 0) == Ok(List([Symbol("+"), Integer(2.0), Integer(3.0)]))
  {
    var a := List([Symbol("+"), Integer(2.0), Integer(3.0)]);
    assert Print(Integer(2.0)) == "2" && Print(Integer(3.0)) == "3";
    assert Prints(a.items) == ["+", "2", "3"];
    assert Print(a) == s;
    PrintReadsBack(a);
  }

  /** The math case as the test states it: evaluating the parse of "(+ 2 3)" gives the parse of "5". */
  lemma ParsedAddExample(env: Environment, input: string, output: string)
    requires env.Valid() && BindsAdd(env) && input == "(+ 2 3)" && output == "5"
    ensures ParseText(input, 0).Ok? && ParseText(output, 0).Ok?
    ensures env.Eval(ParseText(input, 0).value) == Ok(ParseText(output, 0).value)
  {
    AddTextReads(input);
    assert Print(Integer(5.0)) == output;
    PrintReadsBack(Integer(5.0));
    AddExamples(env);
  }
}
