/**
 * The first generation's evaluator (src/evaluate.ts): atoms evaluate to themselves,
 * keywords to a lookup request, and a list applies one of the four arithmetic
 * operators to its raw, unevaluated arguments.
 */
module Evaluate {
  import opened Results
  import opened NumberTheory
  import opened Token

  /** What evaluate returns: a tree, or the { lookup: keyword } request. */
  datatype Value = Node(ast: Ast) | Lookup(keyword: string)

  /** The EvaluationError contexts the evaluator raises on a syntax tree. */
  datatype EvaluationError =
    | EmptyList
    | UnexpectedFn(fn: Ast, args: seq<Ast>)
    | UnexpectedTypes(a: Ast, b: Ast)

  /** An argument add accepts: a well-formed number, or a string or symbol it rejects. */
  predicate AddOperand(a: Ast) {
    (a.IsNumeric() && WellFormed(a)) || a.Str? || a.Sym?
  }

  /**
   * The arguments for which the source's arithmetic stays inside exact numbers: a
   * keyword or a nested list reaching add, a non-number reaching the JavaScript
   * operators -, * and /, or a zero divisor, gives NaN or Infinity there.
   */
  predicate ArgumentsFit(fn: Ast, args: seq<Ast>) {
    && (fn == Sym("+") ==> forall i | 0 <= i < |args| :: AddOperand(args[i]))
    && (fn == Sym("-") || fn == Sym("*") ==> forall i | 0 <= i < |args| :: args[i].Num?)
    && (fn == Sym("/") ==> forall i | 0 <= i < |args| :: args[i].Num? && args[i].value != 0)
  }

  predicate Evaluable(ast: Ast) {
    ast.List? && |ast.items| > 0 ==> ArgumentsFit(ast.items[0], ast.items[1..])
  }

  /** evaluate (src/evaluate.ts:4-29). */
  function Evaluate(ast: Ast): (r: Result<Value, EvaluationError>)
    requires Evaluable(ast)
    ensures ast.Kw? ==> r == Ok(Lookup(ast.name))
    ensures !ast.Kw? && !ast.List? ==> r == Ok(Node(ast))
    ensures ast.List? && ast.items == [] ==> r == Err(EmptyList)
  {
    match ast
    case Kw(name) => Ok(Lookup(name))
    case List(items) =>
      (match EvaluateList(items)
       case Ok(v) => Ok(Node(v))
       case Err(e) => Err(e))
    case _ => Ok(Node(ast))
  }

  /** evaluate_list (src/evaluate.ts:36-62): each operator is a left fold over the raw arguments. */
  function EvaluateList(list: seq<Ast>): Result<Ast, EvaluationError>
    requires list != [] ==> ArgumentsFit(list[0], list[1..])
  {
    if list == [] then Err(EmptyList)
    else
      var fn, args := list[0], list[1..];
      if fn == Sym("+") then AddAll(Num(0), args)
      else if fn == Sym("-") then Ok(Num(SubtractAll(0, args)))
      else if fn == Sym("*") then Ok(Num(MultiplyAll(1, args)))
      else if fn == Sym("/") then
        DivideFromZero(args);
        Ok(Num(DivideAll(0.0, args).Floor))
      else Err(UnexpectedFn(fn, args))
  }

  // ---- the four folds ----

  /** reduce with add (src/evaluate.ts:47): stops at the first argument add rejects. */
  function AddAll(acc: Ast, args: seq<Ast>): (r: Result<Ast, EvaluationError>)
    requires acc.IsNumeric() && WellFormed(acc)
    requires forall i | 0 <= i < |args| :: AddOperand(args[i])
    ensures r.Ok? <==> forall i | 0 <= i < |args| :: args[i].IsNumeric()
    ensures r.Ok? ==> r.value.IsNumeric() && WellFormed(r.value)
    decreases |args|
  {
    if args == [] then Ok(acc)
    else
      match Add(acc, args[0])
      case Ok(sum) =>
        var r := AddAll(sum, args[1..]);
        assert forall i | 1 <= i < |args| :: args[i] == args[1..][i - 1];
        r
      case Err(e) => Err(e)
  }

  /** reduce with - from 0 (src/evaluate.ts:49). */
  function SubtractAll(acc: int, args: seq<Ast>): int
    requires forall i | 0 <= i < |args| :: args[i].Num?
    decreases |args|
  {
    if args == [] then acc else SubtractAll(acc - args[0].value, args[1..])
  }

  /** reduce with * from 1 (src/evaluate.ts:51). */
  function MultiplyAll(acc: int, args: seq<Ast>): int
    requires forall i | 0 <= i < |args| :: args[i].Num?
    decreases |args|
  {
    if args == [] then acc else MultiplyAll(acc * args[0].value, args[1..])
  }

  /** reduce with / from 0 (src/evaluate.ts:53), in exact real division. */
  function DivideAll(acc: real, args: seq<Ast>): real
    requires forall i | 0 <= i < |args| :: args[i].Num? && args[i].value != 0
    decreases |args|
  {
    if args == [] then acc else DivideAll(acc / (args[0].value as real), args[1..])
  }

  /** The quotient fold starts at 0, so it never leaves 0. */
  lemma {:induction false} DivideFromZero(args: seq<Ast>)
    requires forall i | 0 <= i < |args| :: args[i].Num? && args[i].value != 0
    ensures DivideAll(0.0, args) == 0.0
  {
    if args != [] {
      assert 0.0 / (args[0].value as real) == 0.0;
      DivideFromZero(args[1..]);
    }
  }

  /** The sum of the arguments, as a right fold. */
  function Sum(args: seq<Ast>): int
    requires forall i | 0 <= i < |args| :: args[i].Num?
  {
    if args == [] then 0 else args[0].value + Sum(args[1..])
  }

  /** The product of the arguments, as a right fold. */
  function Product(args: seq<Ast>): int
    requires forall i | 0 <= i < |args| :: args[i].Num?
  {
    if args == [] then 1 else args[0].value * Product(args[1..])
  }

  /** Subtracting one argument at a time takes away their sum. */
  lemma {:induction false} SubtractAllIsSum(acc: int, args: seq<Ast>)
    requires forall i | 0 <= i < |args| :: args[i].Num?
    ensures SubtractAll(acc, args) == acc - Sum(args)
    decreases |args|
  {
    if args != [] {
      SubtractAllIsSum(acc - args[0].value, args[1..]);
    }
  }

  /** Multiplying one argument at a time multiplies by their product. */
  lemma {:induction false} MultiplyAllIsProduct(acc: int, args: seq<Ast>)
    requires forall i | 0 <= i < |args| :: args[i].Num?
    ensures MultiplyAll(acc, args) == acc * Product(args)
    decreases |args|
  {
    if args != [] {
      var x := args[0].value;
      MultiplyAllIsProduct(acc * x, args[1..]);
      assert (acc * x) * Product(args[1..]) == acc * (x * Product(args[1..]));
    }
  }

  // ---- add ----

  /** lcm (src/evaluate.ts:86-88) on the positive denominators add passes it. */
  function DenominatorLcm(a: int, b: int): (l: int)
    requires a > 0 && b > 0
    ensures l > 0 && Divides(a, l) && Divides(b, l)
  {
    LcmProperties(a, b);
    ProductSign(a, b);
    Lcm(a, b).value
  }

  /** lcm computed as the source does, through the gcm loop. */
  method LcmByGcm(a: int, b: int) returns (l: int)
    requires a > 0 && b > 0
    ensures l == DenominatorLcm(a, b)
  {
    var g := GcmLoop(a, b);
    GcdZero(a, b);
    l := (a * b) / g;
  }

  /** add (src/evaluate.ts:64-84). */
  function Add(a: Ast, b: Ast): (r: Result<Ast, EvaluationError>)
    requires a.IsNumeric() && WellFormed(a) && AddOperand(b)
    ensures r.Ok? <==> b.IsNumeric()
    ensures r.Ok? ==> r.value.IsNumeric() && WellFormed(r.value)
    ensures r.Err? ==> r.error == UnexpectedTypes(a, b)
  {
    if a.Num? && b.Num? then Ok(Num(a.value + b.value))
    else if a.Rat? && b.Rat? then
      var down := DenominatorLcm(a.down, b.down);
      var up := (down / a.down) * a.up + (down / b.down) * b.up;
      MakeRationalNormalizes(up, down);
      Ok(MakeRational(up, down))
    else if a.Rat? && b.Num? then
      MakeRationalNormalizes(a.up + b.value * a.down, a.down);
      Ok(MakeRational(a.up + b.value * a.down, a.down))
    else if a.Num? && b.Rat? then
      MakeRationalNormalizes(a.value * b.down + b.up, b.down);
      Ok(MakeRational(a.value * b.down + b.up, b.down))
    else Err(UnexpectedTypes(a, b))
  }

  /** The textbook sum of two fractions, before any reduction. */
  function FractionSum(x: (int, int), y: (int, int)): (int, int) {
    (x.0 * y.1 + y.0 * x.1, x.1 * y.1)
  }

  /** The denominator of a well-formed number is positive. */
  lemma PositiveDenominator(a: Ast)
    requires a.IsNumeric() && WellFormed(a)
    ensures Fraction(a).1 >= 1
  {
  }

  /**
   * add is exact: it gives the canonical rational of the textbook sum of its operands,
   * whichever of its four branches it takes.
   */
  lemma AddIsSum(a: Ast, b: Ast)
    requires a.IsNumeric() && WellFormed(a) && b.IsNumeric() && WellFormed(b)
    ensures var s := FractionSum(Fraction(a), Fraction(b));
      s.1 > 0 && Add(a, b) == Ok(MakeRational(s.0, s.1))
  {
    PositiveDenominator(a);
    PositiveDenominator(b);
    ProductSign(Fraction(a).1, Fraction(b).1);
    if a.Num? && b.Num? {
      AddIntegers(a.value, b.value);
    } else if a.Rat? && b.Rat? {
      AddRationals(a, b);
    } else if a.Rat? {
      assert FractionSum(Fraction(a), Fraction(b)) == (a.up + b.value * a.down, a.down);
    } else {
      assert FractionSum(Fraction(a), Fraction(b)) == (a.value * b.down + b.up, b.down);
    }
  }

  lemma AddIntegers(x: int, y: int)
    ensures Add(Num(x), Num(y)) == Ok(MakeRational(x * 1 + y * 1, 1 * 1))
  {
    assert x * 1 + y * 1 == x + y;
    MakeRationalOfInteger(x + y);
  }

  lemma AddRationals(a: Ast, b: Ast)
    requires a.Rat? && b.Rat? && WellFormed(a) && WellFormed(b)
    ensures var s := FractionSum(Fraction(a), Fraction(b));
      s.1 > 0 && Add(a, b) == Ok(MakeRational(s.0, s.1))
  {
    var s := FractionSum(Fraction(a), Fraction(b));
    ProductSign(a.down, b.down);
    var down := DenominatorLcm(a.down, b.down);
    var up := (down / a.down) * a.up + (down / b.down) * b.up;
    assert Add(a, b) == Ok(MakeRational(up, down));
    LcmSum(a.up, a.down, b.up, b.down, down);
    MakeRationalCanonical(up, down, s.0, s.1);
  }

  /** The numerator add builds over the lcm denominator is the textbook one, rescaled. */
  lemma LcmSum(na: int, da: int, nb: int, db: int, down: int)
    requires da > 0 && db > 0 && down > 0 && Divides(da, down) && Divides(db, down)
    ensures ((down / da) * na + (down / db) * nb) * (da * db) == (na * db + nb * da) * down
  {
    var ka := Cofactor(da, down);
    var kb := Cofactor(db, down);
    DivideExactly(da, ka);
    DivideExactly(db, kb);
    calc {
      (ka * na + kb * nb) * (da * db);
      (da * ka) * na * db + (db * kb) * nb * da;
      down * na * db + down * nb * da;
      (na * db + nb * da) * down;
    }
  }

  /** The textbook sum of a run of numbers, folded from the left like the source's reduce. */
  function SumAll(x: (int, int), args: seq<Ast>): (r: (int, int))
    requires forall i | 0 <= i < |args| :: args[i].IsNumeric() && WellFormed(args[i])
    ensures x.1 > 0 ==> r.1 > 0
    decreases |args|
  {
    if args == [] then x
    else
      PositiveDenominator(args[0]);
      ProductSign(Fraction(args[0]).1, x.1);
      SumAll(FractionSum(x, Fraction(args[0])), args[1..])
  }

  /** Adding to the canonical form of n/d is the same as adding to n/d itself. */
  lemma AddToCanonical(n: int, d: int, b: Ast)
    requires d > 0 && b.IsNumeric() && WellFormed(b)
    ensures MakeRational(n, d).IsNumeric() && WellFormed(MakeRational(n, d))
    ensures var s := FractionSum((n, d), Fraction(b));
      s.1 > 0 && Add(MakeRational(n, d), b) == Ok(MakeRational(s.0, s.1))
  {
    MakeRationalNormalizes(n, d);
    var a := MakeRational(n, d);
    var n1, e1 := FractionOfResult(n, d);
    AddIsSum(a, b);
    var nb, db := Fraction(b).0, Fraction(b).1;
    PositiveDenominator(b);
    ProductSign(d, db);
    ProductSign(e1, db);
    CrossScale(n, d, n1, e1, nb, db);
    MakeRationalCanonical(n1 * db + nb * e1, e1 * db, n * db + nb * d, d * db);
  }

  /** Scaling both fractions of a sum by equal ratios keeps the cross products equal. */
  lemma CrossScale(n: int, d: int, n1: int, e1: int, nb: int, db: int)
    requires n1 * d == n * e1
    ensures (n1 * db + nb * e1) * (d * db) == (n * db + nb * d) * (e1 * db)
  {
    calc {
      (n1 * db + nb * e1) * (d * db);
      (n1 * d) * db * db + nb * e1 * d * db;
      (n * e1) * db * db + nb * e1 * d * db;
      (n * db + nb * d) * (e1 * db);
    }
  }

  /** The add fold gives the canonical rational of the textbook sum of all its operands. */
  lemma {:induction false} AddAllIsSum(n: int, d: int, args: seq<Ast>)
    requires d > 0
    requires forall i | 0 <= i < |args| :: args[i].IsNumeric() && WellFormed(args[i])
    ensures MakeRational(n, d).IsNumeric() && WellFormed(MakeRational(n, d))
    ensures var s := SumAll((n, d), args);
      s.1 > 0 && AddAll(MakeRational(n, d), args) == Ok(MakeRational(s.0, s.1))
    decreases |args|
  {
    MakeRationalNormalizes(n, d);
    if args != [] {
      var a, b := MakeRational(n, d), args[0];
      AddToCanonical(n, d, b);
      var s := FractionSum((n, d), Fraction(b));
      var sum := MakeRational(s.0, s.1);
      assert Add(a, b) == Ok(sum);
      assert AddAll(a, args) == AddAll(sum, args[1..]);
      var rest := args[1..];
      assert s.1 > 0;
      assert forall i | 0 <= i < |rest| :: rest[i].IsNumeric() && WellFormed(rest[i]) by {
        forall i | 0 <= i < |rest|
          ensures rest[i].IsNumeric() && WellFormed(rest[i])
        {
          assert rest[i] == args[i + 1];
        }
      }
      AddAllIsSum(s.0, s.1, rest);
      assert SumAll((n, d), args) == SumAll(s, args[1..]);
    }
  }

  // ---- evaluate_list, operator by operator ----

  /** (+ a1 .. an) is the exact sum of the numbers, and 0 for no argument. */
  lemma PlusIsSum(args: seq<Ast>)
    requires forall i | 0 <= i < |args| :: args[i].IsNumeric() && WellFormed(args[i])
    ensures ([Sym("+")] + args)[1..] == args
    ensures var s := SumAll((0, 1), args);
      s.1 > 0 && EvaluateList([Sym("+")] + args) == Ok(MakeRational(s.0, s.1))
  {
    assert ([Sym("+")] + args)[1..] == args;
    MakeRationalNormalizes(0, 1);
    assert MakeRational(0, 1) == Num(0);
    AddAllIsSum(0, 1, args);
  }

  /** The first string or symbol among add's operands is the one the error names. */
  lemma {:induction false} AddAllRejects(acc: Ast, args: seq<Ast>, k: int)
    requires acc.IsNumeric() && WellFormed(acc)
    requires forall i | 0 <= i < |args| :: AddOperand(args[i])
    requires 0 <= k < |args| && !args[k].IsNumeric()
    requires forall i | 0 <= i < k :: args[i].IsNumeric()
    ensures AddAll(acc, args).Err? && AddAll(acc, args).error.UnexpectedTypes?
    ensures AddAll(acc, args).error.b == args[k]
    decreases |args|
  {
    if k > 0 {
      var sum := Add(acc, args[0]).value;
      AddAllRejects(sum, args[1..], k - 1);
    }
  }

  /** (- a1 .. an) is 0 minus the sum of the arguments. */
  lemma MinusIsNegatedSum(args: seq<Ast>)
    requires forall i | 0 <= i < |args| :: args[i].Num?
    ensures EvaluateList([Sym("-")] + args) == Ok(Num(-Sum(args)))
  {
    assert ([Sym("-")] + args)[1..] == args;
    SubtractAllIsSum(0, args);
  }

  /** (* a1 .. an) is the product of the arguments. */
  lemma TimesIsProduct(args: seq<Ast>)
    requires forall i | 0 <= i < |args| :: args[i].Num?
    ensures EvaluateList([Sym("*")] + args) == Ok(Num(Product(args)))
  {
    assert ([Sym("*")] + args)[1..] == args;
    MultiplyAllIsProduct(1, args);
  }

  /** (/ a1 .. an) divides 0 by every argument, so it is 0 whatever they are. */
  lemma DivideIsZero(args: seq<Ast>)
    requires forall i | 0 <= i < |args| :: args[i].Num? && args[i].value != 0
    ensures EvaluateList([Sym("/")] + args) == Ok(Num(0))
  {
    assert ([Sym("/")] + args)[1..] == args;
    DivideFromZero(args);
  }

  /** Any other head is refused with the head and the remaining arguments. */
  lemma UnexpectedHead(list: seq<Ast>)
    requires list != [] && list[0] !in {Sym("+"), Sym("-"), Sym("*"), Sym("/")}
    ensures EvaluateList(list) == Err(UnexpectedFn(list[0], list[1..]))
  {
  }

  /** The integer + cases of src/evaluate.spec.ts:60-63. */
  lemma PlusExamples()
    ensures EvaluateList([Sym("+")]) == Ok(Num(0))
    ensures EvaluateList([Sym("+"), Num(2)]) == Ok(Num(2))
    ensures EvaluateList([Sym("+"), Num(2), Num(3)]) == Ok(Num(5))
    ensures EvaluateList([Sym("+"), Num(2), Num(3), Num(4)]) == Ok(Num(9))
  {
    var none: seq<Ast> := [];
    assert [Sym("+")] == [Sym("+")] + none;
    PlusIsSum(none);
    MakeRationalOfInteger(0);
    var two := [Num(2)];
    assert [Sym("+"), Num(2)] == [Sym("+")] + two;
    PlusIsSum(two);
    assert SumAll((0, 1), two) == (2, 1);
    MakeRationalOfInteger(2);
    var five := [Num(2), Num(3)];
    assert [Sym("+"), Num(2), Num(3)] == [Sym("+")] + five;
    PlusIsSum(five);
    assert SumAll((0, 1), five) == (5, 1);
    MakeRationalOfInteger(5);
    var nine := [Num(2), Num(3), Num(4)];
    assert [Sym("+"), Num(2), Num(3), Num(4)] == [Sym("+")] + nine;
    PlusIsSum(nine);
    assert SumAll((0, 1), nine) == (9, 1);
    MakeRationalOfInteger(9);
  }

  /**
   * The - cases of src/evaluate.spec.ts:69-77 as this code computes them: the fold starts
   * at 0, so (- 5 2) is -7 where the test expects 3, and (- 5 2 1) is -8 where it expects 2.
   */
  lemma MinusExamples()
    ensures EvaluateList([Sym("-")]) == Ok(Num(0))
    ensures EvaluateList([Sym("-"), Num(5)]) == Ok(Num(-5))
    ensures EvaluateList([Sym("-"), Num(5), Num(2)]) == Ok(Num(-7))
    ensures EvaluateList([Sym("-"), Num(5), Num(2), Num(1)]) == Ok(Num(-8))
  {
    var none: seq<Ast> := [];
    assert [Sym("-")] == [Sym("-")] + none;
    MinusIsNegatedSum(none);
    MinusIsNegatedSum([Num(5), Num(2), Num(1)]);
    MinusIsNegatedSum([Num(5)]);
    MinusIsNegatedSum([Num(5), Num(2)]);
  }

  /** (* 2 3 4) is 24, and (/ 6 3) is 0 where the test expects 2 (src/evaluate.spec.ts:78-91). */
  lemma TimesDivideExamples()
    ensures EvaluateList([Sym("*"), Num(2), Num(3), Num(4)]) == Ok(Num(24))
    ensures EvaluateList([Sym("/"), Num(6), Num(3)]) == Ok(Num(0))
  {
    var factors := [Num(2), Num(3), Num(4)];
    assert [Sym("*"), Num(2), Num(3), Num(4)] == [Sym("*")] + factors;
    TimesIsProduct(factors);
    DivideIsZero([Num(6), Num(3)]);
  }

  /** rational(1, 3) + rational(1, 3) deep-equals rational(2, 3) (src/evaluate.spec.ts:64-66). */
  lemma ThirdPlusThird()
    ensures EvaluateList([Sym("+"), Rat(1, 3), Rat(1, 3)]) == Ok(Rat(2, 3))
  {
    var thirds := [Rat(1, 3), Rat(1, 3)];
    assert Normalized(1, 3) by {
      assert Gcd(1, 3) == Euclid(1, 3) == 1;
    }
    assert [Sym("+"), Rat(1, 3), Rat(1, 3)] == [Sym("+")] + thirds;
    PlusIsSum(thirds);
    assert SumAll((0, 1), thirds) == (6, 9);
    TwoThirds();
  }

  lemma TwoThirds()
    ensures MakeRational(6, 9) == Rat(2, 3)
  {
    assert Gcd(6, 9) == Euclid(6, 9) == 3;
  }
}
