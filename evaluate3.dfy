/**
 * The third generation's evaluator (src3/evaluate.ts): an `Environment` object holding a
 * table of functions and an optional parent, whose methods resolve a list's head through
 * the chain of tables, evaluate its arguments into an array and apply the function found.
 * Each method is proved to compute a function of the environment chain and its input.
 */
module Evaluate3 {
  import opened Results
  import opened Ast3

  /**
   * The error classes of src3/evaluate.ts:69-94, without the environment they carry. A
   * head whose value is not text (a number, an array or a list) is looked up under that
   * value; no table binds it, so get_fn throws FunctionNotDefined for it as well: that
   * case is NoFunctionFor.
   */
  datatype EvalError =
    | NotOverloaded(fnName: string, args: seq<Ast>, argIndex: nat)
    | EmptyList
    | FunctionNotDefined(name: string)
    | NoFunctionFor(head: Ast)

  /** A function a table binds: it takes the evaluated arguments and returns a node or throws. */
  datatype Fn = Fn(apply: seq<Ast> -> Result<Ast, EvalError>)

  // ---- sizes, for termination ----

  function Size(a: Ast): (n: nat)
    ensures n >= 1
  {
    match a
    case List(items) => 1 + SizeOf(items)
    case Array(items) => 1 + SizeOf(items)
    case _ => 1
  }

  function SizeOf(items: seq<Ast>): nat {
    if items == [] then 0 else Size(items[0]) + SizeOf(items[1..])
  }

  /** An element after the first is smaller than the whole sequence less its first element. */
  lemma {:induction false} ElementSmaller(items: seq<Ast>, i: nat)
    requires 0 < i < |items|
    ensures Size(items[i]) <= SizeOf(items[1..]) < SizeOf(items)
  {
    var rest := items[1..];
    assert items[i] == rest[i - 1];
    if i > 1 {
      ElementSmaller(rest, i - 1);
    } else {
      assert SizeOf(rest) == Size(rest[0]) + SizeOf(rest[1..]);
    }
  }

  // ---- add ----

  /** A node `add` accepts: an integer or a float. */
  predicate IsNumber(a: Ast) {
    a.Integer? || a.Float?
  }

  /**
   * What RootEnvironment.add returns for args, as its loop computes it from position i on
   * with `value` summed so far: an integer node with the sum, or NotOverloaded at the first
   * argument that is not a number. The result is tagged `integer` even when floats were added.
   */
  function AddFrom(args: seq<Ast>, i: nat, value: real): Result<Ast, EvalError>
    requires i <= |args|
    decreases |args| - i
  {
    if i == |args| then Ok(Integer(value))
    else if IsNumber(args[i]) then AddFrom(args, i + 1, value + args[i].value)
    else Err(NotOverloaded("+", args, i))
  }

  /** The function RootEnvironment binds to `+`: add from the first argument, starting at 0. */
  function Added(args: seq<Ast>): Result<Ast, EvalError> {
    AddFrom(args, 0, 0.0)
  }

  predicate AllNumbers(args: seq<Ast>) {
    forall k | 0 <= k < |args| :: IsNumber(args[k])
  }

  /** The sum of the values of number nodes, added from the left. */
  function Sum(args: seq<Ast>): real
    requires AllNumbers(args)
  {
    if args == [] then 0.0 else Sum(args[..|args| - 1]) + args[|args| - 1].value
  }

  /** The position of the first argument that is not a number. */
  function FirstNonNumber(args: seq<Ast>): (i: nat)
    requires !AllNumbers(args)
    ensures i < |args| && !IsNumber(args[i])
    ensures forall k | 0 <= k < i :: IsNumber(args[k])
  {
    if !IsNumber(args[0]) then 0
    else
      var j := FirstNonNumber(args[1..]);
      assert args[j + 1] == args[1..][j];
      j + 1
  }

  /**
   * add returns an integer node holding the sum of all arguments when every one is a
   * number, and otherwise fails with NotOverloaded naming `+`, all the arguments and the
   * first argument that is not a number.
   */
  lemma AddedIsSum(args: seq<Ast>)
    ensures AllNumbers(args) ==> Added(args) == Ok(Integer(Sum(args)))
    ensures !AllNumbers(args) ==> Added(args) == Err(NotOverloaded("+", args, FirstNonNumber(args)))
  {
    if AllNumbers(args) {
      AddFromSums(args, 0, 0.0);
      assert args[..0] == [];
    } else {
      var i := FirstNonNumber(args);
      AddFromFails(args, 0, 0.0, i);
    }
  }

  /** From position i with the sum of the numbers before it, the loop ends with the sum of all. */
  lemma {:induction false} AddFromSums(args: seq<Ast>, i: nat, value: real)
    requires AllNumbers(args) && i <= |args| && value == Sum(args[..i])
    ensures AddFrom(args, i, value) == Ok(Integer(Sum(args)))
    decreases |args| - i
  {
    if i < |args| {
      assert args[..i + 1][..i] == args[..i];
      AddFromSums(args, i + 1, value + args[i].value);
    } else {
      assert args[..i] == args;
    }
  }

  /** From any position up to the first non-number, the loop fails there. */
  lemma {:induction false} AddFromFails(args: seq<Ast>, i: nat, value: real, j: nat)
    requires i <= j < |args| && !IsNumber(args[j])
    requires forall k | i <= k < j :: IsNumber(args[k])
    ensures AddFrom(args, i, value) == Err(NotOverloaded("+", args, j))
    decreases j - i
  {
    if i < j {
      AddFromFails(args, i + 1, value + args[i].value, j);
    }
  }

  // ---- the environment ----

  /** `what` with `vs` put in front of the values it holds; errors pass through. */
  function Prepend(vs: seq<Ast>, what: Result<seq<Ast>, EvalError>): Result<seq<Ast>, EvalError> {
    match what
    case Ok(ws) => Ok(vs + ws)
    case Err(e) => Err(e)
  }

  class Environment {
    var parent: Environment?
    var fnMap: map<string, Fn>
    /** This environment and its ancestors. */
    ghost var Repr: set<Environment>

    /** The parent chain is finite and ends in an environment with no parent. */
    ghost predicate Valid()
      reads this, Repr
      decreases Repr
    {
      && this in Repr
      && (parent == null ==> Repr == {this})
      && (parent != null ==>
            && parent in Repr && this !in parent.Repr && Repr == {this} + parent.Repr
            && parent.Repr <= Repr && parent.Valid())
    }

    /**
     * An environment with an empty table under the given parent. In the source the
     * constructor takes nothing and `parent` is a public field its user assigns.
     */
    constructor (parent: Environment?)
      requires parent != null ==> parent.Valid()
      ensures Valid() && this.parent == parent && fnMap == map[]
      ensures Repr == {this} + (if parent == null then {} else parent.Repr)
    {
      this.parent := parent;
      fnMap := map[];
      Repr := {this} + (if parent == null then {} else parent.Repr);
    }

    /** RootEnvironment: no parent, and `+` bound to add. */
    constructor Root()
      ensures Valid() && parent == null && fnMap == map["+" := Fn(Added)] && Repr == {this}
    {
      parent := null;
      fnMap := map["+" := Fn(Added)];
      Repr := {this};
    }

    /** What get_fn returns: this table's binding, else the parent's answer. */
    function Lookup(name: string): (r: Result<Fn, EvalError>)
      requires Valid()
      reads Repr
      ensures r.Err? ==> r == Err(FunctionNotDefined(name))
      decreases Repr
    {
      if name in fnMap then Ok(fnMap[name])
      else if parent != null then parent.Lookup(name)
      else Err(FunctionNotDefined(name))
    }

    /**
     * The function a list's head names. A symbol and a string are looked up by their text;
     * any other head is looked up by a value no table binds.
     */
    function HeadFn(head: Ast): Result<Fn, EvalError>
      requires Valid()
      reads Repr
    {
      match head
      case Symbol(n) => Lookup(n)
      case Str(t) => Lookup(t)
      case _ => Err(NoFunctionFor(head))
    }

    /** What evaluate returns: a list is applied, every other node is returned as it is. */
    function Eval(a: Ast): Result<Ast, EvalError>
      requires Valid()
      reads Repr
      decreases Size(a), 0
    {
      if a.List? then EvalList(a.items) else Ok(a)
    }

    /**
     * What evaluate_list returns: an empty list fails; otherwise the head is resolved
     * first, then the other elements are evaluated and the function applied to them.
     */
    function EvalList(items: seq<Ast>): Result<Ast, EvalError>
      requires Valid()
      reads Repr
      decreases SizeOf(items), 2
    {
      if items == [] then Err(EmptyList)
      else
        match HeadFn(items[0])
        case Err(e) => Err(e)
        case Ok(f) =>
          match EvalArgs(items[1..])
          case Err(e) => Err(e)
          case Ok(vs) => f.apply(vs)
    }

    /** The arguments evaluated from the left; the first error stops the rest. */
    function EvalArgs(args: seq<Ast>): Result<seq<Ast>, EvalError>
      requires Valid()
      reads Repr
      decreases SizeOf(args), 1
    {
      if args == [] then Ok([])
      else
        match Eval(args[0])
        case Err(e) => Err(e)
        case Ok(v) => Prepend([v], EvalArgs(args[1..]))
    }

    /**
     * get_fn succeeds exactly when some environment on the chain binds the name, and what
     * it returns is one of those bindings.
     */
    lemma {:induction false} LookupFindsBinding(name: string)
      requires Valid()
      ensures Lookup(name).Ok? <==> exists e | e in Repr :: name in e.fnMap
      ensures Lookup(name).Ok? ==> exists e | e in Repr :: name in e.fnMap && e.fnMap[name] == Lookup(name).value
      decreases Repr
    {
      if name !in fnMap && parent != null {
        parent.LookupFindsBinding(name);
      }
    }

    /**
     * The arguments evaluate exactly when each one does, to the values of each in order;
     * otherwise the error is that of the first argument that fails.
     */
    lemma {:induction false} EvalArgsElementwise(args: seq<Ast>)
      requires Valid()
      ensures EvalArgs(args).Ok? <==> forall k | 0 <= k < |args| :: Eval(args[k]).Ok?
      ensures EvalArgs(args).Ok? ==>
        |EvalArgs(args).value| == |args| &&
        forall k | 0 <= k < |args| :: Eval(args[k]) == Ok(EvalArgs(args).value[k])
      ensures EvalArgs(args).Err? ==> exists k | 0 <= k < |args| ::
        Eval(args[k]) == Err(EvalArgs(args).error) && forall j | 0 <= j < k :: Eval(args[j]).Ok?
      decreases |args|
    {
      if args != [] {
        var rest := args[1..];
        EvalArgsElementwise(rest);
        assert forall k | 1 <= k < |args| :: args[k] == rest[k - 1];
        match Eval(args[0])
        case Err(e) =>
          assert Eval(args[0]) == Err(EvalArgs(args).error);
        case Ok(v) =>
          if EvalArgs(rest).Err? {
            var k :| 0 <= k < |rest| && Eval(rest[k]) == Err(EvalArgs(rest).error) && forall j | 0 <= j < k :: Eval(rest[j]).Ok?;
            assert Eval(args[k + 1]) == Err(EvalArgs(args).error);
            assert forall j | 0 <= j < k + 1 :: Eval(args[j]).Ok? by {
              forall j | 0 <= j < k + 1 ensures Eval(args[j]).Ok? {
                if j > 0 { assert args[j] == rest[j - 1]; }
              }
            }
          }
      }
    }

    /** get_fn (src3/evaluate.ts:8-13). */
    method GetFn(name: string) returns (r: Result<Fn, EvalError>)
      requires Valid()
      ensures r == Lookup(name)
      decreases Repr
    {
      if name in fnMap {
        return Ok(fnMap[name]);
      }
      if parent != null {
        r := parent.GetFn(name);
        return;
      }
      return Err(FunctionNotDefined(name));
    }

    /** evaluate (src3/evaluate.ts:15-20). */
    method Evaluate(a: Ast) returns (r: Result<Ast, EvalError>)
      requires Valid()
      ensures r == Eval(a)
      decreases Size(a), 0
    {
      if a.List? {
        r := EvaluateList(a.items);
      } else {
        r := Ok(a);
      }
    }

    /** evaluate_list (src3/evaluate.ts:22-34): resolve the head, fill an array of values, apply. */
    method EvaluateList(items: seq<Ast>) returns (r: Result<Ast, EvalError>)
      requires Valid()
      ensures r == EvalList(items)
      decreases SizeOf(items), 2
    {
      if |items| == 0 {
        return Err(EmptyList);
      }
      var fn := GetHeadFn(items[0]);
      if fn.Err? {
        return Err(fn.error);
      }
      var values := new Ast[|items| - 1];
      var failure := EvaluateArguments(items, values);
      ApplyHead(items, fn.value);
      if failure.Some? {
        return Err(failure.value);
      }
      r := fn.value.apply(values[..]);
    }

    /** The loop of evaluate_list: element i of the list is evaluated into values[i - 1], from the left. */
    method EvaluateArguments(items: seq<Ast>, values: array<Ast>) returns (failure: Option<EvalError>)
      requires Valid() && items != [] && values.Length == |items| - 1
      modifies values
      ensures failure.None? ==> EvalArgs(items[1..]) == Ok(values[..])
      ensures failure.Some? ==> EvalArgs(items[1..]) == Err(failure.value)
      decreases SizeOf(items), 1
    {
      var i := 1;
      PrependNothing(EvalArgs(items[1..]));
      assert values[..0] == [];
      while i < |items|
        invariant 1 <= i <= |items|
        invariant EvalArgs(items[1..]) == Prepend(values[..i - 1], EvalArgs(items[i..]))
      {
        ElementSmaller(items, i);
        var v := Evaluate(items[i]);
        ArgumentStep(items, i, values[..i - 1], v);
        if v.Err? {
          return Some(v.error);
        }
        ghost var before := values[..];
        values[i - 1] := v.value;
        SliceAfterUpdate(before, i - 1, v.value);
        i := i + 1;
      }
      assert values[..i - 1] == values[..] && items[i..] == [];
      assert values[..] + [] == values[..];
      return None;
    }

    /** With the head's function found, the list evaluates to it applied to the evaluated arguments. */
    lemma ApplyHead(items: seq<Ast>, f: Fn)
      requires Valid() && items != [] && HeadFn(items[0]) == Ok(f)
      ensures EvalList(items) == match EvalArgs(items[1..])
        case Ok(vs) => f.apply(vs)
        case Err(e) => Err(e)
    {
    }

    /** The function the head of a list names, looked up as get_fn looks up `symbol.value`. */
    method GetHeadFn(head: Ast) returns (r: Result<Fn, EvalError>)
      requires Valid()
      ensures r == HeadFn(head)
    {
      match head {
        case Symbol(n) => r := GetFn(n);
        case Str(t) => r := GetFn(t);
        case _ => r := Err(NoFunctionFor(head));
      }
    }

    /**
     * The argument loop at position i, with vs the values before it: an error stops the
     * loop with that error, a value joins vs.
     */
    lemma ArgumentStep(items: seq<Ast>, i: nat, vs: seq<Ast>, v: Result<Ast, EvalError>)
      requires Valid() && 1 <= i < |items| && v == Eval(items[i])
      requires EvalArgs(items[1..]) == Prepend(vs, EvalArgs(items[i..]))
      ensures v.Err? ==> EvalArgs(items[1..]) == Err(v.error)
      ensures v.Ok? ==> EvalArgs(items[1..]) == Prepend(vs + [v.value], EvalArgs(items[i + 1..]))
    {
      EvalArgsStep(items[i..]);
      assert items[i..][1..] == items[i + 1..];
      if v.Ok? {
        PrependPrepend(vs, v.value, EvalArgs(items[i + 1..]));
      }
    }

    /** One step of the argument loop, as EvalArgs takes it. */
    lemma EvalArgsStep(args: seq<Ast>)
      requires Valid() && args != []
      ensures EvalArgs(args) == match Eval(args[0])
        case Err(e) => Err(e)
        case Ok(v) => Prepend([v], EvalArgs(args[1..]))
    {
    }

    /** define_fn (src3/evaluate.ts:36-38): bind one name, leaving every other lookup as it was. */
    method DefineFn(name: string, fn: Fn)
      requires Valid()
      modifies this
      ensures Valid() && parent == old(parent) && Repr == old(Repr)
      ensures fnMap == old(fnMap)[name := fn]
      ensures Lookup(name) == Ok(fn)
      ensures forall n | n != name :: Lookup(n) == old(Lookup(n))
    {
      fnMap := fnMap[name := fn];
    }

    /** RootEnvironment.add (src3/evaluate.ts:47-66). */
    method Add(args: seq<Ast>) returns (r: Result<Ast, EvalError>)
      ensures r == Added(args)
    {
      var value := 0.0;
      var i := 0;
      while i < |args|
        invariant 0 <= i <= |args|
        invariant Added(args) == AddFrom(args, i, value)
      {
        var arg := args[i];
        match arg {
          case Integer(v) =>
            value := value + v;
          case Float(v) =>
            value := value + v;
          case _ =>
            return Err(NotOverloaded("+", args, i));
        }
        i := i + 1;
      }
      return Ok(Integer(value));
    }
  }

  /** Writing x at position j of s extends the part before j by x. */
  lemma SliceAfterUpdate(s: seq<Ast>, j: nat, x: Ast)
    requires j < |s|
    ensures s[j := x][..j + 1] == s[..j] + [x]
  {
  }

  lemma PrependNothing(what: Result<seq<Ast>, EvalError>)
    ensures Prepend([], what) == what
  {
    if what.Ok? {
      assert [] + what.value == what.value;
    }
  }

  lemma PrependPrepend(vs: seq<Ast>, v: Ast, what: Result<seq<Ast>, EvalError>)
    ensures Prepend(vs, Prepend([v], what)) == Prepend(vs + [v], what)
  {
    if what.Ok? {
      assert vs + ([v] + what.value) == vs + [v] + what.value;
    }
  }
}
