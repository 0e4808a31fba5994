/**
 * Two places where src3/parse.ts does something its authors evidently did not mean, each
 * written out as the code has it, next to the behaviour the rest of the model uses.
 *
 * 1. parse_number (src3/parse.ts:56-66) builds a float from the text of two numbers,
 *    `a + '.' + b`, where b is the value of the digits after the point. Leading zeros of
 *    the fraction are lost with it: "1.05" reads as 1.5.
 *
 * 2. parse_list_body (src3/parse.ts:106-125) reads elements until the closing character.
 *    When an element reads nothing (parse_symbol stops at once on a `)`), the loop comes
 *    back to the same offset and repeats forever: "[)" never returns.
 */
module Parse3Findings {
  import opened Results
  import opened Text
  import opened Ast3
  import opened Parse3

  // ---- 1. the fraction of a float ----

  /** The fraction as the source computes it: the value b of the digits, as text, after "0.". */
  function FractionAsWritten(b: nat): (f: real)
    ensures 0.0 <= f < 1.0
  {
    DecimalBelowPower(b);
    RatioBelowOne(b as real, Pow10(|Decimal(b)|) as real);
    (b as real) / (Pow10(|Decimal(b)|) as real)
  }

  lemma RatioBelowOne(x: real, p: real)
    requires 0.0 <= x < p
    ensures 0.0 <= x / p < 1.0
  {
    var f := x / p;
    assert f * p == x;
  }

  /** A number is below ten to the number of its decimal digits. */
  lemma {:induction false} DecimalBelowPower(b: nat)
    ensures b < Pow10(|Decimal(b)|)
  {
    if b >= 10 {
      DecimalBelowPower(b / 10);
      assert |Decimal(b)| == |Decimal(b / 10)| + 1;
    }
  }

  /** parse_number as written: the fraction is taken from the value of the digits after the point. */
  function NumberAtAsWritten(s: string, i: nat): (r: (Ast, nat))
    requires i < |s| && IsDigit(s[i])
  {
    var j := DigitEnd(s, i);
    var a := DigitsValue(s[i..j]);
    if j < |s| && s[j] == '.' then
      var k := DigitEnd(s, j + 1);
      (Float(a as real + FractionAsWritten(DigitsValue(s[j + 1..k]))), k)
    else (Integer(a as real), j)
  }

  /** Where the digits after the point have no leading zero, the two readings agree. */
  lemma FractionsAgree(d: string, b: nat)
    requires d == Decimal(b) && (|d| == 1 || d[0] != '0')
    ensures DigitsValue(d) == b
    ensures FractionAsWritten(DigitsValue(d)) == Fraction(d)
  {
    DigitsValueOfDecimal(b);
  }

  /** "1.05" as written reads as 1.5; the decimal reading is 1.05. */
  lemma LeadingZeroIsLost(s: string)
    requires s == "1.05"
    ensures NumberAtAsWritten(s, 0) == (Float(1.5), 4)
    ensures NumberAt(s, 0) == (Float(1.05), 4)
  {
    assert DigitEnd(s, 1) == 1 && DigitEnd(s, 0) == 1;
    assert DigitEnd(s, 4) == 4 && DigitEnd(s, 3) == 4 && DigitEnd(s, 2) == 4;
    assert s[0..1] == "1" && s[2..4] == "05";
    assert DigitsValue("1") == 1;
    assert DigitsValue("05") == 5 by { assert "05"[..1] == "0"; }
    assert Decimal(5) == "5";
  }

  // ---- 2. a list element that reads nothing ----

  /** An outcome the source can reach: anything but the Stuck error the corrected loop adds. */
  predicate Returns<T>(r: Result<T, ParseError>) {
    r.Ok? || !r.error.Stuck?
  }

  /**
   * Parser.parse as written, given at most `fuel` nested steps; None when the fuel runs out.
   * With `decimalFractions` false this is the code as written throughout. With it true the
   * digits after a point are read by the corrected NumberAt, so that the run differs from
   * ParseAt only in calling ListBodyAsWritten.
   */
  function ParseAtAsWritten(s: string, i: nat, fuel: nat, decimalFractions: bool): (r: Option<Result<(Ast, nat), ParseError>>)
    ensures r.Some? ==> Returns(r.value)
    decreases fuel, 1
  {
    if fuel == 0 then None
    else
      var j := BlankEnd(s, i);
      if j >= |s| then Some(Err(IncompleteInput(j, None)))
      else if s[j] == '"' || s[j] == '\'' then
        var (v, k) := StringLoop(s, s[j], j + 1, "");
        Some(Ok((Str(v), k)))
      else if s[j] == '[' || s[j] == '(' then
        var close := if s[j] == '[' then ']' else ')';
        Enclose(ListBodyAsWritten(s, j + 1, close, [], fuel - 1, decimalFractions), close)
      else if IsDigit(s[j]) then Some(Ok(ReadNumber(s, j, decimalFractions)))
      else
        var k := SymbolEnd(s, j);
        Some(Ok((Symbol(s[j..k]), k)))
  }

  /** parse_number with the fraction as written, or with the decimal fraction of NumberAt. */
  function ReadNumber(s: string, i: nat, decimalFractions: bool): (Ast, nat)
    requires i < |s| && IsDigit(s[i])
  {
    if decimalFractions then NumberAt(s, i) else NumberAtAsWritten(s, i)
  }

  /** The node an outcome of the list loop makes: an array up to `]`, a list up to `)`. */
  function Enclose(r: Option<Result<(seq<Ast>, nat), ParseError>>, close: char): (n: Option<Result<(Ast, nat), ParseError>>)
    ensures r.Some? && Returns(r.value) ==> n.Some? && Returns(n.value)
  {
    match r
    case Some(Ok((items, k))) => Some(Ok((if close == ']' then Array(items) else List(items), k)))
    case Some(Err(e)) => Some(Err(e))
    case None => None
  }

  /** parse_list_body as written: no check that an element step moved the offset. */
  function ListBodyAsWritten(s: string, i: nat, close: char, items: seq<Ast>, fuel: nat, decimalFractions: bool): (r: Option<Result<(seq<Ast>, nat), ParseError>>)
    ensures r.Some? ==> Returns(r.value)
    decreases fuel, 0
  {
    if fuel == 0 then None
    else if i >= |s| then Some(Err(IncompleteInput(i, Some(close))))
    else if s[i] == close then Some(Ok((items, i + 1)))
    else
      match ParseAtAsWritten(s, i, fuel - 1, decimalFractions)
      case None => None
      case Some(Err(e)) => Some(Err(e))
      case Some(Ok((a, k))) => ListBodyAsWritten(s, AfterElement(s, k), close, items + [a], fuel - 1, decimalFractions)
  }

  // ---- what the two float readings share ----

  /** A node with every float value replaced by zero: all that the two float readings share. */
  function Blur(a: Ast): Ast
    decreases a
  {
    match a
    case Float(_) => Float(0.0)
    case Array(items) => Array(BlurAll(items))
    case List(items) => List(BlurAll(items))
    case _ => a
  }

  /** Blur on every element, in order. */
  function BlurAll(items: seq<Ast>): seq<Ast>
    decreases items
  {
    if items == [] then [] else BlurAll(items[..|items| - 1]) + [Blur(items[|items| - 1])]
  }

  /** An outcome of parse with its node blurred; the end offset and the error are kept. */
  function Blurred(r: Option<Result<(Ast, nat), ParseError>>): Option<Result<(Ast, nat), ParseError>> {
    match r
    case Some(Ok((a, k))) => Some(Ok((Blur(a), k)))
    case _ => r
  }

  /** The same for an outcome of the list loop. */
  function BlurredList(r: Option<Result<(seq<Ast>, nat), ParseError>>): Option<Result<(seq<Ast>, nat), ParseError>> {
    match r
    case Some(Ok((items, k))) => Some(Ok((BlurAll(items), k)))
    case _ => r
  }

  /**
   * The two float readings make runs that differ in float values only: the same nodes
   * otherwise, the same offsets, the same errors, and the fuel runs out for both alike.
   */
  lemma {:induction false} FloatsOnlyDiffer(s: string, i: nat, fuel: nat)
    ensures Blurred(ParseAtAsWritten(s, i, fuel, false)) == Blurred(ParseAtAsWritten(s, i, fuel, true))
    decreases fuel, 1
  {
    if fuel > 0 {
      var j := BlankEnd(s, i);
      if j < |s| && (s[j] == '[' || s[j] == '(') {
        var close := if s[j] == '[' then ']' else ')';
        ListFloatsOnlyDiffer(s, j + 1, close, [], [], fuel - 1);
        EncloseFloats(ListBodyAsWritten(s, j + 1, close, [], fuel - 1, false),
          ListBodyAsWritten(s, j + 1, close, [], fuel - 1, true), close);
      } else if j < |s| && IsDigit(s[j]) {
        NumberFloats(s, j);
      }
    }
  }

  /** The two float readings of one number differ in its float value only. */
  lemma NumberFloats(s: string, i: nat)
    requires i < |s| && IsDigit(s[i])
    ensures Blur(ReadNumber(s, i, false).0) == Blur(ReadNumber(s, i, true).0)
    ensures ReadNumber(s, i, false).1 == ReadNumber(s, i, true).1
  {
  }

  /** Enclosing list outcomes that differ only in float values gives nodes that do too. */
  lemma EncloseFloats(w: Option<Result<(seq<Ast>, nat), ParseError>>, c: Option<Result<(seq<Ast>, nat), ParseError>>, close: char)
    requires BlurredList(w) == BlurredList(c)
    ensures Blurred(Enclose(w, close)) == Blurred(Enclose(c, close))
  {
    if w.Some? && w.value.Ok? {
      assert Blur(Array(w.value.value.0)) == Array(BlurAll(w.value.value.0));
      assert Blur(List(w.value.value.0)) == List(BlurAll(w.value.value.0));
      assert Blur(Array(c.value.value.0)) == Array(BlurAll(c.value.value.0));
      assert Blur(List(c.value.value.0)) == List(BlurAll(c.value.value.0));
    }
  }

  /** FloatsOnlyDiffer for the list loop, from element lists that differ in float values only. */
  lemma {:induction false} ListFloatsOnlyDiffer(s: string, i: nat, close: char, written: seq<Ast>, corrected: seq<Ast>, fuel: nat)
    requires BlurAll(written) == BlurAll(corrected)
    ensures BlurredList(ListBodyAsWritten(s, i, close, written, fuel, false)) ==
      BlurredList(ListBodyAsWritten(s, i, close, corrected, fuel, true))
    decreases fuel, 0
  {
    if fuel > 0 && i < |s| && s[i] != close {
      FloatsOnlyDiffer(s, i, fuel - 1);
      var w := ParseAtAsWritten(s, i, fuel - 1, false);
      var c := ParseAtAsWritten(s, i, fuel - 1, true);
      if w.Some? && w.value.Ok? {
        var (a, k) := w.value.value;
        var (b, _) := c.value.value;
        assert BlurAll(written + [a]) == BlurAll(corrected + [b]) by {
          assert BlurAll(written + [a]) == BlurAll(written) + [Blur(a)];
          assert BlurAll(corrected + [b]) == BlurAll(corrected) + [Blur(b)];
        }
        AsWrittenStep(s, i, close, written, a, k, fuel, false);
        AsWrittenStep(s, i, close, corrected, b, k, fuel, true);
        ListFloatsOnlyDiffer(s, AfterElement(s, k), close, written + [a], corrected + [b], fuel - 1);
      } else {
        assert c == w;
        AsWrittenHalts(s, i, close, written, fuel, false, w);
        AsWrittenHalts(s, i, close, corrected, fuel, true, w);
      }
    }
  }

  /** An element step of the list loop as written that ends it: the fuel ran out, or an error. */
  lemma AsWrittenHalts(s: string, i: nat, close: char, items: seq<Ast>, fuel: nat, decimalFractions: bool, p: Option<Result<(Ast, nat), ParseError>>)
    requires fuel > 0 && i < |s| && s[i] != close
    requires ParseAtAsWritten(s, i, fuel - 1, decimalFractions) == p && !(p.Some? && p.value.Ok?)
    ensures ListBodyAsWritten(s, i, close, items, fuel, decimalFractions) == if p.None? then None else Some(Err(p.value.error))
  {
  }

  /**
   * Whatever parse returns with the list loop as written, ParseAt returns too; with the
   * fractions as written as well, ParseAt returns the same up to float values.
   */
  lemma {:induction false} ParseAtAgrees(s: string, i: nat, fuel: nat)
    ensures ParseAtAsWritten(s, i, fuel, true) == None || ParseAtAsWritten(s, i, fuel, true) == Some(ParseAt(s, i))
    ensures ParseAtAsWritten(s, i, fuel, false).Some? ==>
      Blurred(ParseAtAsWritten(s, i, fuel, false)) == Blurred(Some(ParseAt(s, i)))
    decreases fuel, 1
  {
    FloatsOnlyDiffer(s, i, fuel);
    if fuel > 0 {
      var j := BlankEnd(s, i);
      if j < |s| && (s[j] == '[' || s[j] == '(') {
        var close := if s[j] == '[' then ']' else ')';
        ListBodyAgrees(s, j + 1, close, [], fuel - 1);
      }
    }
  }

  /** Whatever the list loop as written returns, ListBody returns too. */
  lemma {:induction false} ListBodyAgrees(s: string, i: nat, close: char, items: seq<Ast>, fuel: nat)
    ensures ListBodyAsWritten(s, i, close, items, fuel, true) == None ||
      ListBodyAsWritten(s, i, close, items, fuel, true) == Some(ListBody(s, i, close, items))
    decreases fuel, 1
  {
    if fuel > 0 && i < |s| && s[i] != close {
      ParseAtAgrees(s, i, fuel - 1);
      var p := ParseAtAsWritten(s, i, fuel - 1, true);
      if p.Some? && p.value.Ok? {
        ElementAgrees(s, i, close, items, p.value.value.0, p.value.value.1, fuel);
      }
    }
  }

  /** One element step of both list loops, after an element both read alike. */
  lemma {:induction false} ElementAgrees(s: string, i: nat, close: char, items: seq<Ast>, a: Ast, k: nat, fuel: nat)
    requires fuel > 0 && i < |s| && s[i] != close
    requires ParseAt(s, i) == Ok((a, k)) && ParseAtAsWritten(s, i, fuel - 1, true) == Some(Ok((a, k)))
    ensures ListBodyAsWritten(s, i, close, items, fuel, true) == None ||
      ListBodyAsWritten(s, i, close, items, fuel, true) == Some(ListBody(s, i, close, items))
    decreases fuel, 0
  {
    var k2 := AfterElement(s, k);
    if k2 == i {
      StuckElement(s, i, close, items, a, k, fuel);
    } else {
      ListBodyStep(s, i, close, items, a, k);
      AsWrittenStep(s, i, close, items, a, k, fuel, true);
      ListBodyAgrees(s, k2, close, items + [a], fuel - 1);
    }
  }

  /** An element step that does not move: the list loop as written never returns. */
  lemma {:induction false} StuckElement(s: string, i: nat, close: char, items: seq<Ast>, a: Ast, k: nat, fuel: nat)
    requires fuel > 0 && i < |s| && s[i] != close && AfterElement(s, k) == i
    requires ParseAt(s, i) == Ok((a, k)) && ParseAtAsWritten(s, i, fuel - 1, true) == Some(Ok((a, k)))
    ensures ListBodyAsWritten(s, i, close, items, fuel, true) == None
    decreases fuel - 1, 3
  {
    AsWrittenStep(s, i, close, items, a, k, fuel, true);
    NoProgressNeverReturns(s, i, close, items + [a], a, k, fuel - 1);
  }

  /** One element step of the list loop as written. */
  lemma AsWrittenStep(s: string, i: nat, close: char, items: seq<Ast>, a: Ast, k: nat, fuel: nat, decimalFractions: bool)
    requires fuel > 0 && i < |s| && s[i] != close
    requires ParseAtAsWritten(s, i, fuel - 1, decimalFractions) == Some(Ok((a, k)))
    ensures ListBodyAsWritten(s, i, close, items, fuel, decimalFractions)
      == ListBodyAsWritten(s, AfterElement(s, k), close, items + [a], fuel - 1, decimalFractions)
  {
  }

  /** Where an element step leaves the offset where it was, the list loop as written never returns. */
  lemma {:induction false} NoProgressNeverReturns(s: string, i: nat, close: char, items: seq<Ast>, a: Ast, k: nat, fuel: nat)
    requires i < |s| && s[i] != close && ParseAt(s, i) == Ok((a, k)) && AfterElement(s, k) == i
    ensures ListBodyAsWritten(s, i, close, items, fuel, true) == None
    decreases fuel, 2
  {
    if fuel > 0 {
      ParseAtAgrees(s, i, fuel - 1);
      NoProgressNeverReturns(s, i, close, items + [a], a, k, fuel - 1);
    }
  }

  /**
   * Whatever ParseAt returns other than Stuck, the code as written returns too, given
   * enough fuel: `fuel` and any more. With the fractions as written it is the same
   * outcome up to float values.
   */
  lemma {:induction false} ParseAtReturns(s: string, i: nat) returns (fuel: nat)
    ensures Returns(ParseAt(s, i)) ==>
      forall f | f >= fuel :: ParseAtAsWritten(s, i, f, true) == Some(ParseAt(s, i))
    ensures Returns(ParseAt(s, i)) ==>
      forall f | f >= fuel :: Blurred(ParseAtAsWritten(s, i, f, false)) == Blurred(Some(ParseAt(s, i)))
    decreases |s| + 1 - i, 0
  {
    fuel := ParseAtReturnsCorrected(s, i);
    forall f | f >= fuel
      ensures Blurred(ParseAtAsWritten(s, i, f, false)) == Blurred(ParseAtAsWritten(s, i, f, true))
    {
      FloatsOnlyDiffer(s, i, f);
    }
  }

  /** ParseAtReturns for the run with decimal fractions. */
  lemma {:induction false} ParseAtReturnsCorrected(s: string, i: nat) returns (fuel: nat)
    ensures Returns(ParseAt(s, i)) ==>
      forall f | f >= fuel :: ParseAtAsWritten(s, i, f, true) == Some(ParseAt(s, i))
    decreases |s| + 1 - i, 0
  {
    var j := BlankEnd(s, i);
    if j < |s| && (s[j] == '[' || s[j] == '(') {
      var close := if s[j] == '[' then ']' else ')';
      var g := ListBodyReturns(s, j + 1, close, []);
      fuel := g + 1;
      forall f | f >= fuel && Returns(ParseAt(s, i))
        ensures ParseAtAsWritten(s, i, f, true) == Some(ParseAt(s, i))
      {
        assert ListBodyAsWritten(s, j + 1, close, [], f - 1, true) == Some(ListBody(s, j + 1, close, []));
      }
    } else {
      fuel := 1;
    }
  }

  /** The same for the list loop: every outcome but Stuck is reached with enough fuel. */
  lemma {:induction false} ListBodyReturns(s: string, i: nat, close: char, items: seq<Ast>) returns (fuel: nat)
    ensures Returns(ListBody(s, i, close, items)) ==>
      forall f | f >= fuel :: ListBodyAsWritten(s, i, close, items, f, true) == Some(ListBody(s, i, close, items))
    decreases |s| + 1 - i, 1
  {
    if i >= |s| || s[i] == close {
      fuel := 1;
    } else {
      var g := ParseAtReturnsCorrected(s, i);
      match ParseAt(s, i)
      case Err(e) =>
        fuel := g + 1;
      case Ok((a, k)) =>
        var k2 := AfterElement(s, k);
        ListBodyStep(s, i, close, items, a, k);
        if k2 == i {
          fuel := 0;
        } else {
          var h := ListBodyReturns(s, k2, close, items + [a]);
          fuel := (if g < h then h else g) + 1;
          forall f | f >= fuel && Returns(ListBody(s, i, close, items))
            ensures ListBodyAsWritten(s, i, close, items, f, true) == Some(ListBody(s, i, close, items))
          {
            assert ParseAtAsWritten(s, i, f - 1, true) == Some(Ok((a, k)));
            assert ListBodyAsWritten(s, k2, close, items + [a], f - 1, true) == Some(ListBody(s, k2, close, items + [a]));
          }
        }
    }
  }

  /**
   * The corrected parser reports Stuck exactly where the code as written never returns:
   * for every input and offset, some fuel lets parse as written return if and only if
   * ParseAt returns something other than Stuck. Then both return the same outcome up
   * to float values, and exactly the same once the fractions are read as decimals.
   */
  lemma StuckExactlyWhenNeverReturns(s: string, i: nat)
    ensures (exists fuel :: ParseAtAsWritten(s, i, fuel, false).Some?) <==> Returns(ParseAt(s, i))
    ensures forall fuel | ParseAtAsWritten(s, i, fuel, false).Some? ::
      Blurred(ParseAtAsWritten(s, i, fuel, false)) == Blurred(Some(ParseAt(s, i)))
    ensures forall fuel | ParseAtAsWritten(s, i, fuel, true).Some? :: ParseAtAsWritten(s, i, fuel, true).value == ParseAt(s, i)
  {
    var f := ParseAtReturns(s, i);
    if Returns(ParseAt(s, i)) {
      assert Blurred(ParseAtAsWritten(s, i, f, false)).Some?;
      assert ParseAtAsWritten(s, i, f, false).Some?;
    }
    if fuel :| ParseAtAsWritten(s, i, fuel, false).Some? {
      ParseAtAgrees(s, i, fuel);
    }
    forall fuel | ParseAtAsWritten(s, i, fuel, false).Some? || ParseAtAsWritten(s, i, fuel, true).Some?
      ensures ParseAtAsWritten(s, i, fuel, false).Some? ==>
        Blurred(ParseAtAsWritten(s, i, fuel, false)) == Blurred(Some(ParseAt(s, i)))
      ensures ParseAtAsWritten(s, i, fuel, true).Some? ==> ParseAtAsWritten(s, i, fuel, true).value == ParseAt(s, i)
    {
      ParseAtAgrees(s, i, fuel);
    }
  }

  /** "[)": parse as written runs out of every fuel; ParseAt reports the loop as Stuck at offset 1. */
  lemma UnclosedBracketNeverReturns(s: string, fuel: nat)
    requires s == "[)"
    ensures ParseAtAsWritten(s, 0, fuel, false) == None
    ensures ParseText(s, 0) == Err(Stuck(1))
  {
    FloatsOnlyDiffer(s, 0, fuel);
    assert SymbolEnd(s, 1) == 1 && s[1..1] == "";
    assert ParseAt(s, 1) == Ok((Symbol(""), 1));
    assert AfterElement(s, 1) == 1;
    NoProgressNeverReturns(s, 1, ']', [], Symbol(""), 1, if fuel == 0 then 0 else fuel - 1);
    assert ListBody(s, 1, ']', []) == Err(Stuck(1));
  }
}
