/**
 * The cases of src3/parse.test.ts, stated about the module function parse, and a few
 * inputs that show how the reader treats what the tests leave out.
 */
module Parse3Examples {
  import opened Results
  import opened Text
  import opened Ast3
  import opened Parse3
  import opened Parse3Laws

  /** The whole input occurs at offset 0. */
  lemma Whole(s: string)
    ensures At(s, 0, s)
  {
    AtSuffix(s, 0);
    assert s[0..] == s;
  }

  lemma IntegerExample()
    ensures ParseText("123", 0) == Ok(Integer(123.0))
  {
    assert Print(Integer(123.0)) == "123";
    PrintReadsBack(Integer(123.0));
  }

  lemma FloatExample()
    ensures ParseText("12.34", 0) == Ok(Float(12.34))
  {
    var s := "12.34";
    assert s == "12" + "." + "34";
    Whole(s);
    AtFloatParts(s, 0, "12", "34");
    FloatReadsDigits(s, 0, "12", "34");
    assert DigitsValue("12") == 12 && DigitsValue("34") == 34;
  }

  lemma DoubleQuotedExample()
    ensures ParseText("\"apple\"", 0) == Ok(Str("apple"))
  {
    var s := "\"apple\"";
    EscapePlain("apple", '"');
    assert s == ['"'] + Escape("apple", '"') + ['"'];
    Whole(s);
    QuotedReadsBack(s, 0, '"', "apple");
  }

  lemma SingleQuotedExample()
    ensures ParseText("'apple'", 0) == Ok(Str("apple"))
  {
    var s := "'apple'";
    EscapePlain("apple", '\'');
    assert s == ['\''] + Escape("apple", '\'') + ['\''];
    Whole(s);
    QuotedReadsBack(s, 0, '\'', "apple");
  }

  lemma EmptyArrayExample()
    ensures ParseText("[]", 0) == Ok(Array([]))
  {
    assert Print(Array([])) == "[]";
    PrintReadsBack(Array([]));
  }

  lemma IntegerArrayExample()
    ensures ParseText("[12,34]", 0) == Ok(Array([Integer(12.0), Integer(34.0)]))
  {
    var a := Array([Integer(12.0), Integer(34.0)]);
    assert Print(Integer(12.0)) == "12" && Print(Integer(34.0)) == "34";
    assert Prints(a.items) == ["12", "34"];
    assert Print(a) == "[12,34]";
    PrintReadsBack(a);
  }

  lemma EmptyListExample()
    ensures ParseText("()", 0) == Ok(List([]))
  {
    assert Print(List([])) == "()";
    PrintReadsBack(List([]));
  }

  /** A plain text prints between double quotes as it is. */
  lemma {:induction false} PlainPrint(t: string)
    requires forall k | 0 <= k < |t| :: t[k] != '"' && t[k] != '\\'
    ensures Print(Str(t)) == ['"'] + t + ['"']
  {
    EscapePlain(t, '"');
  }

  /** The texts of two printable elements. */
  lemma {:induction false} PrintsPair(x: Ast, y: Ast)
    requires Printable(x) && Printable(y)
    ensures Prints([x, y]) == [Print(x), Print(y)]
  {
    assert [x, y][1..] == [y];
    assert [y][1..] == [];
  }

  /** Two texts joined by a separator, then the closing character. */
  lemma {:induction false} JoinedPair(p: string, q: string, sep: char, close: char)
    ensures Joined([p, q], sep, close) == p + [sep] + q + [close]
  {
    assert [p, q][1..] == [q];
  }

  /** A two-element array prints its elements with a comma between them. */
  lemma {:induction false} PrintPair(x: Ast, y: Ast)
    requires Printable(x) && Printable(y) && !x.Symbol? && !y.Symbol?
    ensures Printable(Array([x, y]))
    ensures Print(Array([x, y])) == "[" + Print(x) + "," + Print(y) + "]"
  {
    PrintsPair(x, y);
    JoinedPair(Print(x), Print(y), ',', ']');
  }

  /** An array of two plain texts, each between double quotes, reads back as that array. */
  lemma {:induction false} PlainPairReadsBack(t1: string, t2: string)
    requires forall k | 0 <= k < |t1| :: t1[k] != '"' && t1[k] != '\\'
    requires forall k | 0 <= k < |t2| :: t2[k] != '"' && t2[k] != '\\'
    ensures ParseText("[\"" + t1 + "\",\"" + t2 + "\"]", 0) == Ok(Array([Str(t1), Str(t2)]))
  {
    PlainPrint(t1);
    PlainPrint(t2);
    PrintPair(Str(t1), Str(t2));
    assert "[" + (['"'] + t1 + ['"']) + "," + (['"'] + t2 + ['"']) + "]" == "[\"" + t1 + "\",\"" + t2 + "\"]";
    PrintReadsBack(Array([Str(t1), Str(t2)]));
  }

  lemma StringArrayExample(s: string)
    requires s == "[\"apple\",\"pie\"]"
    ensures ParseText(s, 0) == Ok(Array([Str("apple"), Str("pie")]))
  {
    assert s == "[\"" + "apple" + "\",\"" + "pie" + "\"]";
    PlainPairReadsBack("apple", "pie");
  }

  lemma SymbolListExample()
    ensures ParseText("(+ 12 34)", 0) == Ok(List([Symbol("+"), Integer(12.0), Integer(34.0)]))
  {
    var a := List([Symbol("+"), Integer(12.0), Integer(34.0)]);
    assert Print(Integer(12.0)) == "12" && Print(Integer(34.0)) == "34";
    assert Prints(a.items) == ["+", "12", "34"];
    assert Print(a) == "(+ 12 34)";
    PrintReadsBack(a);
  }

  /** The escaped form of a text made of plain runs a and b around a quote character c. */
  lemma {:induction false} EscapeAround(a: string, b: string, c: char, q: char)
    requires forall k | 0 <= k < |a| :: a[k] != q && a[k] != '\\'
    requires forall k | 0 <= k < |b| :: b[k] != q && b[k] != '\\'
    requires c == q
    ensures Escape(a + [c] + b + [c], q) == a + ['\\', c] + b + ['\\', c]
  {
    assert Escape([c], q) == ['\\', c] by { assert [c][1..] == []; }
    EscapeConcat(a + [c] + b, [c], q);
    EscapeConcat(a + [c], b, q);
    EscapeConcat(a, [c], q);
    EscapePlain(a, q);
    EscapePlain(b, q);
  }

  /** A quoted text is read back whole. */
  lemma {:induction false} QuotedWholeReadsBack(t: string, q: char)
    requires q == '"' || q == '\''
    ensures ParseText([q] + Escape(t, q) + [q], 0) == Ok(Str(t))
  {
    var s := [q] + Escape(t, q) + [q];
    Whole(s);
    QuotedReadsBack(s, 0, q, t);
  }

  /** A text with a quote after each of two plain runs reads back from its escaped form. */
  lemma {:induction false} AroundReadsBack(a: string, b: string, q: char)
    requires q == '"' || q == '\''
    requires forall k | 0 <= k < |a| :: a[k] != q && a[k] != '\\'
    requires forall k | 0 <= k < |b| :: b[k] != q && b[k] != '\\'
    ensures ParseText([q] + (a + ['\\', q] + b + ['\\', q]) + [q], 0) == Ok(Str(a + [q] + b + [q]))
  {
    EscapeAround(a, b, q, q);
    QuotedWholeReadsBack(a + [q] + b + [q], q);
  }

  lemma EscapedDoubleQuotedExample(s: string)
    requires s == "\"apple's \\\"app store\\\"\""
    ensures ParseText(s, 0) == Ok(Str("apple's \"app store\""))
  {
    var a, b := "apple's ", "app store";
    AroundReadsBack(a, b, '"');
    assert a + ['"'] + b + ['"'] == "apple's \"app store\"";
    assert s == ['"'] + (a + ['\\', '"'] + b + ['\\', '"']) + ['"'];
  }

  /** The escaped form of a text made of plain runs a and b around one quote character. */
  lemma {:induction false} EscapeOne(a: string, b: string, q: char)
    requires forall k | 0 <= k < |a| :: a[k] != q && a[k] != '\\'
    requires forall k | 0 <= k < |b| :: b[k] != q && b[k] != '\\'
    ensures Escape(a + [q] + b, q) == a + ['\\', q] + b
  {
    assert Escape([q], q) == ['\\', q] by { assert [q][1..] == []; }
    EscapeConcat(a, [q], q);
    EscapePlain(a, q);
    var l := Escape(a + [q], q);
    assert l == a + ['\\', q];
    EscapeConcat(a + [q], b, q);
    EscapePlain(b, q);
    assert Escape(a + [q] + b, q) == l + b;
  }

  /** A text with one quote between two plain runs reads back from its escaped form. */
  lemma {:induction false} OneQuoteReadsBack(a: string, b: string, q: char)
    requires q == '"' || q == '\''
    requires forall k | 0 <= k < |a| :: a[k] != q && a[k] != '\\'
    requires forall k | 0 <= k < |b| :: b[k] != q && b[k] != '\\'
    ensures ParseText([q] + (a + ['\\', q] + b) + [q], 0) == Ok(Str(a + [q] + b))
  {
    EscapeOne(a, b, q);
    QuotedWholeReadsBack(a + [q] + b, q);
  }

  lemma EscapedSingleQuotedExample(s: string)
    requires s == "'apple\\'s \"app store\"'"
    ensures ParseText(s, 0) == Ok(Str("apple's \"app store\""))
  {
    var a, b := "apple", "s \"app store\"";
    OneQuoteReadsBack(a, b, '\'');
    SingleQuotedPieces(a, b);
  }

  /** The pieces of the single-quoted test text around its escaped quote. */
  lemma SingleQuotedPieces(a: string, b: string)
    requires a == "apple" && b == "s \"app store\""
    ensures a + ['\''] + b == "apple's \"app store\""
    ensures "'apple\\'s \"app store\"'" == ['\''] + (a + ['\\', '\''] + b) + ['\'']
  {
  }

  lemma MathSymbolExamples()
    ensures ParseText("+", 0) == Ok(Symbol("+")) && ParseText("-", 0) == Ok(Symbol("-"))
    ensures ParseText("*", 0) == Ok(Symbol("*")) && ParseText("/", 0) == Ok(Symbol("/"))
    ensures ParseText("%", 0) == Ok(Symbol("%"))
  {
    PrintReadsBack(Symbol("+"));
    PrintReadsBack(Symbol("-"));
    PrintReadsBack(Symbol("*"));
    PrintReadsBack(Symbol("/"));
    PrintReadsBack(Symbol("%"));
  }

  /** A name reads back as that symbol. */
  lemma NameReadsBack(n: string)
    requires SymbolName(n)
    ensures ParseText(n, 0) == Ok(Symbol(n))
  {
    PrintReadsBack(Symbol(n));
  }

  lemma DivisionKeywordExamples()
    ensures ParseText("div", 0) == Ok(Symbol("div")) && ParseText("rem", 0) == Ok(Symbol("rem"))
    ensures ParseText("mod", 0) == Ok(Symbol("mod"))
  {
    NameReadsBack("div");
    NameReadsBack("rem");
    NameReadsBack("mod");
  }

  lemma StepKeywordExamples()
    ensures ParseText("inc", 0) == Ok(Symbol("inc")) && ParseText("dec", 0) == Ok(Symbol("dec"))
  {
    NameReadsBack("inc");
    NameReadsBack("dec");
  }

  // ---- inputs the tests leave out ----

  /** Nothing to read is an incomplete input at the end, with no character named. */
  lemma EmptyInputExample(s: string)
    requires s == ""
    ensures ParseText(s, 0) == Err(IncompleteInput(0, None))
  {
    BlankInputIsIncomplete(s, 0);
  }

  /** A blank after a whole expression is extra input: parse does not skip trailing blanks. */
  lemma TrailingBlankExample(s: string)
    requires s == "1 "
    ensures ParseText(s, 0) == Err(ExtraInput(1, Integer(1.0)))
  {
    assert DigitEnd(s, 1) == 1 && DigitEnd(s, 0) == 1;
    assert s[0..1] == "1" && DigitsValue("1") == 1;
    assert NumberAt(s, 0) == (Integer(1.0), 1);
  }

  /** A `]` right after a name belongs to the name, so the array never closes. */
  lemma SymbolSwallowsBracketExample(s: string)
    requires s == "[a]"
    ensures ParseText(s, 0) == Err(IncompleteInput(3, Some(']')))
  {
    assert SymbolEnd(s, 3) == 3;
    assert s[1..3] == "a]";
    assert ParseAt(s, 1) == Ok((Symbol("a]"), 3));
    assert AfterElement(s, 3) == 3;
    assert ListBody(s, 1, ']', []) == Err(IncompleteInput(3, Some(']')));
  }

  /** A backslash that ends the input takes JavaScript's `undefined` as the escaped character. */
  lemma TrailingBackslashExample(s: string)
    requires s == "\"a\\"
    ensures ParseAt(s, 0) == Ok((Str("aundefined"), 4))
    ensures ParseText(s, 0) == Ok(Str("aundefined"))
  {
    assert StringLoop(s, '"', 4, "aundefined") == ("aundefined", 4);
    assert "a" + "undefined" == "aundefined";
    assert StringLoop(s, '"', 2, "a") == ("aundefined", 4);
    assert "" + [s[1]] == "a";
  }
}
