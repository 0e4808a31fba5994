/**
 * The second generation (src2/core.ts): a reader that trims before every expression and
 * slices the text it has read off the front, and an evaluator whose only function is
 * `+`. The dispatch is stated as functions; the loops of the source (the list loop,
 * the string loop, the name loop and the `+` accumulator) are methods proved to compute
 * those functions.
 */
module Core2 {
  import opened Results
  import opened Text
  import opened Numerals

  /** The AST union of src2/core.ts:147-182 (its float nodes are not modelled). */
  datatype Node =
    | Int(value: int)
    | Rational(p: int, q: int)  // p and q exactly as written: neither reduced nor checked
    | Str(chars: string)
    | Keyword(name: string)
    | Quote(quoted: Node)
    | Symbol(name: string)
    | List(items: seq<Node>)

  /** The errors the reader throws, one variant per throw site. */
  datatype SyntaxError =
    | EmptyInput
    | ExtraTokens(rest: string)
    | MissingClosingQuote
    | ExpectSecondInteger(rest: string)
    | UnmodelledNumber(rest: string)  // a float literal, an exponent or an integer beyond 2^53 - 1

  /** What parse_one returns: the node and the text after it. */
  datatype Parsed = Parsed(ast: Node, rest: string)

  /** Text that neither starts nor ends with white space: what trim gives. */
  predicate Trimmed(s: string) {
    s == [] || (!IsJsSpace(s[0]) && !IsJsSpace(s[|s| - 1]))
  }

  /** parse (src2/core.ts:36-42): one expression, and nothing may be left after it. */
  function Parse(input: string): Result<Node, SyntaxError> {
    match ParseOne(input)
    case Err(e) => Err(e)
    case Ok(p) => if p.rest == [] then Ok(p.ast) else Err(ExtraTokens(p.rest))
  }

  /**
   * parse_one (src2/core.ts:44-124): trim, then dispatch on the first character. Every
   * expression read consumes text, except a `)` read where an expression is due: that is
   * the empty symbol, with the text left as it was.
   */
  function ParseOne(input: string): (r: Result<Parsed, SyntaxError>)
    ensures Trim(input) == [] ==> r == Err(EmptyInput)
    ensures r.Ok? ==>
      || |r.value.rest| < |input|
      || (Trim(input) != [] && Trim(input)[0] == ')' && r.value == Parsed(Symbol(""), Trim(input)))
    decreases |input|, 1
  {
    TrimIsInfix(input);
    TrimIdempotent(input);
    var s := Trim(input);
    if s == [] then Err(EmptyInput) else Dispatch(s)
  }

  /** The branches of parse_one, on trimmed text. */
  function Dispatch(s: string): (r: Result<Parsed, SyntaxError>)
    requires s != [] && !IsJsSpace(s[0])
    ensures r.Ok? ==> |r.value.rest| < |s| || (s[0] == ')' && r.value == Parsed(Symbol(""), Trim(s)))
    decreases |s|, 0
  {
    var c := s[0];
    if c == '(' then
      TrimIsInfix(s[1..]);
      ParseList(Trim(s[1..]), [])
    else if c == '"' then StringFrom(s, 1, [])
    else if c == ':' then
      var n := ParseName(s[1..]);
      Ok(Parsed(Keyword(n.0), n.1))
    else if c == '\'' then
      match ParseOne(s[1..])
      case Ok(p) => Ok(Parsed(Quote(p.ast), p.rest))
      case Err(e) => Err(e)
    else ParseAtom(s)
  }

  /**
   * The list loop of parse_one (src2/core.ts:51-63), from the trimmed text after `(`:
   * stop at `)`, otherwise read one element and trim what follows it. Running out of
   * text makes the element read fail with EmptyInput.
   */
  function ParseList(s: string, items: seq<Node>): (r: Result<Parsed, SyntaxError>)
    requires Trimmed(s)
    ensures r.Ok? ==> |r.value.rest| < |s|
    decreases |s|, 2
  {
    if s != [] && s[0] == ')' then
      TrimIsInfix(s[1..]);
      Ok(Parsed(List(items), Trim(s[1..])))
    else
      match ParseOne(s)
      case Err(e) => Err(e)
      case Ok(p) =>
        RestShorter(s, p.rest);
        ParseList(Trim(p.rest), items + [p.ast])
  }

  /** What parse_one leaves after trimmed text that does not start with `)` trims to shorter trimmed text. */
  lemma RestShorter(s: string, rest: string)
    requires Trimmed(s) && s != [] && s[0] != ')'
    requires |rest| < |s| || (Trim(s) != [] && Trim(s)[0] == ')')
    ensures |Trim(rest)| < |s| && Trimmed(Trim(rest))
  {
    TrimOfTrimmed(s);
    TrimIsInfix(rest);
  }

  /**
   * The string loop of parse_one (src2/core.ts:66-81), with i the index of the next
   * character: `\x` contributes x; the text after the closing quote is not trimmed.
   */
  function StringFrom(s: string, i: nat, value: string): (r: Result<Parsed, SyntaxError>)
    ensures r.Ok? ==> |r.value.rest| < |s| - i && r.value.ast.Str?
    decreases |s| - i
  {
    if i >= |s| then Err(MissingClosingQuote)
    else if s[i] == '"' then Ok(Parsed(Str(value), s[i + 1..]))
    else if s[i] == '\\' then
      if i + 1 >= |s| then Err(MissingClosingQuote)
      else StringFrom(s, i + 2, value + [s[i + 1]])
    else StringFrom(s, i + 1, value + [s[i]])
  }

  /** The characters that end a name (src2/core.ts:133-137). */
  predicate EndsName(c: char) {
    c == ')' || c == ' ' || c == '\n' || c == '\r' || c == '\t'
  }

  /** The length of the name at the start of s. */
  function NameLength(s: string): (n: nat)
    ensures n <= |s|
    ensures forall i {:trigger EndsName(s[i])} | 0 <= i < n :: !EndsName(s[i])
    ensures n == |s| || EndsName(s[n])
  {
    if s == [] || EndsName(s[0]) then 0 else 1 + NameLength(s[1..])
  }

  /** parse_name (src2/core.ts:126-145): the name, and the trimmed text after it. */
  function ParseName(s: string): (r: (string, string))
    ensures |r.0| <= |s| && r.0 == s[..|r.0|] && |r.1| <= |s| - |r.0|
  {
    var n := NameLength(s);
    TrimIsInfix(s[n..]);
    (s[..n], Trim(s[n..]))
  }

  /**
   * The number and symbol branches (src2/core.ts:96-123): an integer from parseFloat is
   * an int node, or the numerator of a `p/q` rational; NaN and Infinity fall through to
   * a symbol name.
   */
  function ParseAtom(s: string): (r: Result<Parsed, SyntaxError>)
    requires s != [] && !IsJsSpace(s[0])
    ensures r.Ok? ==> |r.value.rest| < |s| || (s[0] == ')' && r.value == Parsed(Symbol(""), Trim(s)))
  {
    match ParseFloat(s)
    case Integral(p) =>
      var rest := Trim(Drop(s, |JsString(p)|));
      TrimIsInfix(Drop(s, |JsString(p)|));
      if rest != [] && rest[0] == '/' then
        var tail := rest[1..];
        match ParseFloat(tail)
        case Integral(q) =>
          TrimIsInfix(Drop(tail, |JsString(q)|));
          Ok(Parsed(Rational(p, q), Trim(Drop(tail, |JsString(q)|))))
        case Unmodelled => Err(UnmodelledNumber(tail))
        case _ => Err(ExpectSecondInteger(tail))
      else Ok(Parsed(Int(p), rest))
    case Unmodelled => Err(UnmodelledNumber(s))
    case _ =>
      var n := ParseName(s);
      Ok(Parsed(Symbol(n.0), n.1))
  }

  // ---- the reader's loops ----

  /** parse as a method. */
  method Read(input: string) returns (r: Result<Node, SyntaxError>)
    ensures r == Parse(input)
  {
    var result := ReadOne(input);
    match result
    case Err(e) =>
      r := Err(e);
    case Ok(p) =>
      if p.rest != [] {
        r := Err(ExtraTokens(p.rest));
      } else {
        r := Ok(p.ast);
      }
  }

  /** parse_one as a method, with its list, string and name loops. */
  method ReadOne(input: string) returns (r: Result<Parsed, SyntaxError>)
    ensures r == ParseOne(input)
    decreases |input|, 2
  {
    TrimIsInfix(input);
    var s := Trim(input);
    if s == [] {
      return Err(EmptyInput);
    }
    r := ReadTrimmed(s);
  }

  method ReadTrimmed(s: string) returns (r: Result<Parsed, SyntaxError>)
    requires s != [] && !IsJsSpace(s[0])
    ensures r == Dispatch(s)
    decreases |s|, 1
  {
    var c := s[0];
    if c == '(' {
      r := ScanList(s);
    } else if c == '"' {
      r := ScanString(s);
    } else if c == ':' {
      var name, rest := ScanName(s[1..]);
      r := Ok(Parsed(Keyword(name), rest));
    } else if c == '\'' {
      var quoted := ReadOne(s[1..]);
      if quoted.Err? {
        return Err(quoted.error);
      }
      r := Ok(Parsed(Quote(quoted.value.ast), quoted.value.rest));
    } else {
      var number := ParseFloat(s);
      if number.Integral? || number.Unmodelled? {
        r := ParseAtom(s);
      } else {
        var name, rest := ScanName(s);
        r := Ok(Parsed(Symbol(name), rest));
      }
    }
  }

  /** One turn of the list loop. */
  lemma ListStep(s: string, items: seq<Node>, p: Parsed)
    requires Trimmed(s) && !(s != [] && s[0] == ')') && ParseOne(s) == Ok(p)
    ensures Trimmed(Trim(p.rest)) && |Trim(p.rest)| < |s|
    ensures ParseList(s, items) == ParseList(Trim(p.rest), items + [p.ast])
  {
    TrimOfTrimmed(s);
    TrimIsInfix(p.rest);
  }

  /** The list loop only ever appends: a list it returns starts with the items read before. */
  lemma {:induction false} ListKeepsItems(s: string, items: seq<Node>)
    requires Trimmed(s)
    ensures var r := ParseList(s, items);
      r.Ok? ==> r.value.ast.List? && |items| <= |r.value.ast.items| && r.value.ast.items[..|items|] == items
    decreases |s|
  {
    if !(s != [] && s[0] == ')') && ParseOne(s).Ok? {
      var p := ParseOne(s).value;
      ListStep(s, items, p);
      ListKeepsItems(Trim(p.rest), items + [p.ast]);
      var r := ParseList(s, items);
      if r.Ok? {
        PrefixOfPrefix(items, p.ast, r.value.ast.items);
      }
    }
  }

  lemma PrefixOfPrefix<T>(items: seq<T>, x: T, all: seq<T>)
    requires |items| + 1 <= |all| && all[..|items| + 1] == items + [x]
    ensures all[..|items|] == items
  {
    assert all[..|items|] == all[..|items| + 1][..|items|];
  }

  /** The list loop: push each element read until `)`. */
  method ScanList(s: string) returns (r: Result<Parsed, SyntaxError>)
    requires s != [] && s[0] == '('
    ensures r == Dispatch(s)
    decreases |s|, 0
  {
    TrimIsInfix(s[1..]);
    var input := Trim(s[1..]);
    var list: seq<Node> := [];
    while true
      invariant Trimmed(input) && |input| < |s|
      invariant ParseList(input, list) == Dispatch(s)
      decreases |input|
    {
      if input != [] && input[0] == ')' {
        break;
      }
      var element := ReadOne(input);
      if element.Err? {
        return Err(element.error);
      }
      ListStep(input, list, element.value);
      list := list + [element.value.ast];
      input := Trim(element.value.rest);
    }
    TrimIsInfix(input[1..]);
    r := Ok(Parsed(List(list), Trim(input[1..])));
  }

  /** The string loop: `string +=` one character at a time. */
  method ScanString(s: string) returns (r: Result<Parsed, SyntaxError>)
    ensures r == StringFrom(s, 1, [])
  {
    var value: string := [];
    var i: nat := 1;
    while i < |s|
      invariant StringFrom(s, i, value) == StringFrom(s, 1, [])
      decreases |s| - i
    {
      var c := s[i];
      if c == '"' {
        return Ok(Parsed(Str(value), s[i + 1..]));
      }
      if c == '\\' {
        if i + 1 >= |s| {
          return Err(MissingClosingQuote);
        }
        i := i + 1;
        c := s[i];
      }
      value := value + [c];
      i := i + 1;
    }
    r := Err(MissingClosingQuote);
  }

  /** parse_name's loop: take characters until one ends the name, then trim the rest. */
  method ScanName(s: string) returns (name: string, rest: string)
    ensures (name, rest) == ParseName(s)
  {
    name := [];
    var i := 0;
    while i < |s| && !EndsName(s[i])
      invariant i <= NameLength(s) && name == s[..i]
    {
      name := name + [s[i]];
      i := i + 1;
    }
    assert i == NameLength(s);
    rest := Trim(s[i..]);
  }

  // ---- evaluate ----

  /** The errors evaluate and `+` throw, one variant per throw site. */
  datatype EvalError =
    | CannotEvaluate(ast: Node)
    | CannotEvaluateEmptyList
    | UndefinedFunction(head: Node)
    | CannotAdd(arg: Node)
    | InheritedMember(name: string)  // a TypeError from a member func_dict inherits from Object.prototype

  /**
   * What evaluate returns. `+` returns a node; the inherited `constructor` member is
   * `Object`, which hands the list node back; the inherited `toString` member, called
   * without a receiver, returns a bare string that is not a node at all.
   */
  datatype Value =
    | Tree(node: Node)
    | Bare(text: string)

  /**
   * The key evaluate looks func_dict up with: the value of the head node. Only string,
   * keyword and symbol heads have a string value; the key of any other head is a
   * number's digits or an object's text, which is never `+` nor an inherited name.
   */
  function FunctionKey(head: Node): Option<string> {
    match head
    case Str(chars) => Some(chars)
    case Keyword(name) => Some(name)
    case Symbol(name) => Some(name)
    case _ => None
  }

  /**
   * The members every object inherits from Object.prototype. func_dict is a plain
   * object, so each of these names finds a truthy value and is called on the list node.
   */
  const InheritedNames: set<string> := {
    "constructor", "hasOwnProperty", "isPrototypeOf", "propertyIsEnumerable",
    "toLocaleString", "toString", "valueOf", "__proto__", "__defineGetter__",
    "__defineSetter__", "__lookupGetter__", "__lookupSetter__"
  }

  /** What `Object.prototype.toString` returns when it is called with no receiver. */
  const UndefinedTag := "[object Undefined]"

  /**
   * Calling the inherited member `name` on the list node: `constructor` (that is,
   * `Object`) returns its object argument, `toString` returns the tag of `undefined`,
   * and every other member throws a TypeError, because it needs a receiver or is not
   * a function.
   */
  function CallInherited(name: string, ast: Node): (r: Result<Value, EvalError>)
    requires name in InheritedNames
    ensures r.Ok? <==> name == "constructor" || name == "toString"
  {
    if name == "constructor" then Ok(Tree(ast))
    else if name == "toString" then Ok(Bare(UndefinedTag))
    else Err(InheritedMember(name))
  }

  /** A result of `+`, as a value of evaluate. */
  function AsValue(r: Result<Node, EvalError>): (v: Result<Value, EvalError>)
    ensures v.Ok? <==> r.Ok?
    ensures r.Ok? ==> v.value == Tree(r.value)
    ensures r.Err? ==> v.error == r.error
  {
    match r
    case Ok(n) => Ok(Tree(n))
    case Err(e) => Err(e)
  }

  /** evaluate (src2/core.ts:248-261). */
  function Evaluated(ast: Node): (r: Result<Value, EvalError>)
    ensures !ast.List? ==> r == Err(CannotEvaluate(ast))
    ensures r.Ok? ==> r.value == Tree(ast) || r.value == Bare(UndefinedTag) || (r.value.Tree? && r.value.node.Int?)
  {
    if !ast.List? then Err(CannotEvaluate(ast))
    else if ast.items == [] then Err(CannotEvaluateEmptyList)
    else
      var key := FunctionKey(ast.items[0]);
      if key == Some("+") then AsValue(Sum(ast.items[1..]))
      else if key.Some? && key.value in InheritedNames then CallInherited(key.value, ast)
      else Err(UndefinedFunction(ast.items[0]))
  }

  /**
   * func_dict['+'] (src2/core.ts:222-246) on the arguments: the sum of int arguments,
   * or the first argument that is not an int.
   */
  function Sum(args: seq<Node>): (r: Result<Node, EvalError>)
    ensures r.Ok? ==> r.value.Int?
    ensures r.Ok? <==> forall i | 0 <= i < |args| :: args[i].Int?
  {
    if args == [] then Ok(Int(0))
    else if !args[0].Int? then Err(CannotAdd(args[0]))
    else
      match Sum(args[1..])
      case Ok(n) => Ok(Int(args[0].value + n.value))
      case Err(e) =>
        assert exists i | 0 <= i < |args[1..]| :: !args[1..][i].Int?;
        Err(e)
  }

  /** A sum with acc already added. */
  function Plus(acc: int, r: Result<Node, EvalError>): Result<Node, EvalError>
    requires r.Ok? ==> r.value.Int?
  {
    match r
    case Ok(n) => Ok(Int(acc + n.value))
    case Err(e) => Err(e)
  }

  /** The `+` loop: accumulate from 0, throwing at the first argument that is not an int. */
  method Add(list: seq<Node>) returns (r: Result<Node, EvalError>)
    requires list != []
    ensures r == Sum(list[1..])
  {
    var acc := 0;
    var i := 1;
    while i < |list|
      invariant 1 <= i <= |list|
      invariant Sum(list[1..]) == Plus(acc, Sum(list[i..]))
    {
      var ast := list[i];
      if !ast.Int? {
        return Err(CannotAdd(ast));
      }
      assert list[i..][1..] == list[i + 1..];
      acc := acc + ast.value;
      i := i + 1;
    }
    r := Ok(Int(acc));
  }

  /** evaluate as a method. */
  method Evaluate(ast: Node) returns (r: Result<Value, EvalError>)
    ensures r == Evaluated(ast)
  {
    if !ast.List? {
      return Err(CannotEvaluate(ast));
    }
    if ast.items == [] {
      return Err(CannotEvaluateEmptyList);
    }
    var key := FunctionKey(ast.items[0]);
    if key == Some("+") {
      var sum := Add(ast.items);
      r := AsValue(sum);
    } else if key == Some("constructor") {
      r := Ok(Tree(ast));
    } else if key == Some("toString") {
      r := Ok(Bare(UndefinedTag));
    } else if key.Some? && key.value in InheritedNames {
      r := Err(InheritedMember(key.value));
    } else {
      r := Err(UndefinedFunction(ast.items[0]));
    }
  }
}
