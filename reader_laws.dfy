/**
 * What the first generation's reader promises: string literals and names are read back
 * exactly, every printable tree reads back from its printed text, and the dispatch on the
 * first character has the consequences the source's tests and comments describe.
 */
module ReaderLaws {
  import opened Results
  import opened Text
  import opened Numerals
  import opened NumberTheory
  import opened Token
  import opened Reader

  // ---- a printer, as the reference the reader is checked against ----

  /** Characters a printed name may hold: not white space of any kind, and not `)`. */
  predicate NameText(name: string) {
    forall i | 0 <= i < |name| :: !IsJsSpace(name[i]) && name[i] != ')'
  }

  /**
   * Trees whose printed text reads back: non-negative numbers (a leading `-` reads as a
   * symbol), normalized rationals, and names made of name characters.
   */
  predicate Printable(a: Ast) {
    match a
    case Num(n) => 0 <= n <= MaxSafeInteger
    case Rat(u, d) => 0 <= u <= MaxSafeInteger && d <= MaxSafeInteger && Normalized(u, d)
    case Str(_) => true
    case Kw(name) => NameText(name)
    case Sym(name) => name != [] && CharTypeOf(name[0]) == SymbolChar && NameText(name)
    case List(items) => forall i | 0 <= i < |items| :: Printable(items[i])
  }

  function Print(a: Ast): string
    decreases a
  {
    match a
    case Num(n) => JsString(n)
    case Rat(u, d) => JsString(u) + "/" + JsString(d)
    case Str(x) => "\"" + Escaped(x) + "\""
    case Kw(name) => ":" + name
    case Sym(name) => name
    case List(items) => "(" + Join(items) + ")"
  }

  /** The elements printed one after another, separated by single spaces. */
  function Join(items: seq<Ast>): string
    decreases items
  {
    if items == [] then []
    else if |items| == 1 then Print(items[0])
    else Print(items[0]) + " " + Join(items[1..])
  }

  /** What may follow a printed tree: nothing, or a space or `)` with no white space at the end. */
  predicate Follows(t: string) {
    t == [] || ((t[0] == ' ' || t[0] == ')') && !IsJsSpace(t[|t| - 1]))
  }

  // ---- strings ----

  /** An escaped string between quotes reads back as itself, leaving what follows untouched. */
  lemma StringReadsBack(x: string, t: string)
    ensures ParseOne("\"" + Escaped(x) + "\"" + t) == Ok(Parsed(Str(x), t))
  {
    var s := "\"" + Escaped(x) + "\"" + t;
    assert s[0] == '"' && s[1..] == Escaped(x) + "\"" + t;
    DispatchString(s);
    StringFromEscaped(s, 0, [], x, t);
    assert [] + x == x;
  }

  /** Without its closing quote the same text is 'missing terminating string quote'. */
  lemma UnterminatedString(x: string)
    ensures ParseOne("\"" + Escaped(x)) == Err(MissingTerminatingQuote(x, "\"" + Escaped(x)))
  {
    var s := "\"" + Escaped(x);
    assert s[0] == '"' && s[1..] == Escaped(x);
    DispatchString(s);
    StringFromUnterminated(s, 0, [], x);
    assert [] + x == x;
  }

  /** A backslash as the final character is 'missing char after escape sequence'. */
  lemma TrailingBackslash(x: string)
    ensures var s := "\"" + Escaped(x) + "\\";
      ParseOne(s) == Err(MissingCharAfterEscape(x, s))
  {
    var s := "\"" + Escaped(x) + "\\";
    assert s[0] == '"' && s[1..] == Escaped(x) + "\\";
    DispatchString(s);
    StringFromBackslash(s, 0, [], x);
    assert [] + x == x;
  }

  /** The string loop over escaped text and a closing quote. */
  lemma {:induction false} StringFromEscaped(s: string, k: nat, v: string, x: string, t: string)
    requires k + 1 <= |s| && s[k + 1..] == Escaped(x) + "\"" + t
    ensures StringFrom(s, k, v) == Ok(Parsed(Str(v + x), t))
    decreases x
  {
    if x == [] {
      assert s[k + 1..] == ['"'] + t;
      assert s[k + 1] == '"';
      assert s[k + 2..] == t;
      assert v + x == v;
    } else {
      var c := x[0];
      EscapeHead(x, "\"" + t);
      assert v + [c] + x[1..] == v + x;
      if c == '"' || c == '\\' {
        assert s[k + 1..] == ['\\', c] + (Escaped(x[1..]) + "\"" + t);
        assert s[k + 1] == '\\' && s[k + 2] == c;
        assert s[k + 3..] == Escaped(x[1..]) + "\"" + t;
        StringFromEscaped(s, k + 2, v + [c], x[1..], t);
      } else {
        assert s[k + 1..] == [c] + (Escaped(x[1..]) + "\"" + t);
        assert s[k + 1] == c;
        assert s[k + 2..] == Escaped(x[1..]) + "\"" + t;
        StringFromEscaped(s, k + 1, v + [c], x[1..], t);
      }
    }
  }

  lemma {:induction false} StringFromUnterminated(s: string, k: nat, v: string, x: string)
    requires k + 1 <= |s| && s[k + 1..] == Escaped(x)
    ensures StringFrom(s, k, v) == Err(MissingTerminatingQuote(v + x, s))
    decreases x
  {
    if x == [] {
      assert v + x == v;
    } else {
      var c := x[0];
      EscapeHead(x, []);
      assert v + [c] + x[1..] == v + x;
      if c == '"' || c == '\\' {
        assert s[k + 1..] == ['\\', c] + Escaped(x[1..]);
        assert s[k + 1] == '\\' && s[k + 2] == c;
        assert s[k + 3..] == Escaped(x[1..]);
        StringFromUnterminated(s, k + 2, v + [c], x[1..]);
      } else {
        assert s[k + 1..] == [c] + Escaped(x[1..]);
        assert s[k + 1] == c;
        assert s[k + 2..] == Escaped(x[1..]);
        StringFromUnterminated(s, k + 1, v + [c], x[1..]);
      }
    }
  }

  lemma {:induction false} StringFromBackslash(s: string, k: nat, v: string, x: string)
    requires k + 1 <= |s| && s[k + 1..] == Escaped(x) + "\\"
    ensures StringFrom(s, k, v) == Err(MissingCharAfterEscape(v + x, s))
    decreases x
  {
    if x == [] {
      assert s[k + 1..] == "\\";
      assert s[k + 1] == '\\' && k + 2 == |s|;
      assert v + x == v;
    } else {
      var c := x[0];
      EscapeHead(x, "\\");
      assert v + [c] + x[1..] == v + x;
      if c == '"' || c == '\\' {
        assert s[k + 1..] == ['\\', c] + (Escaped(x[1..]) + "\\");
        assert s[k + 1] == '\\' && s[k + 2] == c;
        assert s[k + 3..] == Escaped(x[1..]) + "\\";
        StringFromBackslash(s, k + 2, v + [c], x[1..]);
      } else {
        assert s[k + 1..] == [c] + (Escaped(x[1..]) + "\\");
        assert s[k + 1] == c;
        assert s[k + 2..] == Escaped(x[1..]) + "\\";
        StringFromBackslash(s, k + 1, v + [c], x[1..]);
      }
    }
  }

  // ---- names ----

  /** The length of a name that is followed by nothing, white space or `)`. */
  lemma {:induction false} NameLengthOf(name: string, t: string)
    requires forall i | 0 <= i < |name| :: !EndsName(name[i])
    requires t == [] || EndsName(t[0])
    ensures NameLength(name + t) == |name|
    decreases name
  {
    if name != [] {
      assert (name + t)[1..] == name[1..] + t;
      NameLengthOf(name[1..], t);
    }
  }

  /** `:name` reads as the keyword of that name; `(`, `"` and `:` inside belong to the name. */
  lemma KeywordReadsBack(name: string, t: string)
    requires forall i | 0 <= i < |name| :: !EndsName(name[i])
    requires t == [] || EndsName(t[0])
    ensures ParseOne(":" + name + t) == Ok(Parsed(Kw(name), t))
  {
    var u := ColonSplit(name, t);
    NameLengthOf(name, t);
    DispatchKeyword(":" + name + t);
  }

  /** `:name` followed by t: the colon, then the name and t. */
  lemma ColonSplit(name: string, t: string) returns (u: string)
    ensures u == name + t && u[..|name|] == name && u[|name|..] == t
    ensures var s := ":" + name + t; s != [] && s[0] == ':' && s[1..] == u
  {
    u := name + t;
    assert (":" + name + t)[1..] == u;
  }

  /** A name starting with a symbol character reads as the symbol of that name. */
  lemma SymbolReadsBack(name: string, t: string)
    requires name != [] && CharTypeOf(name[0]) == SymbolChar
    requires forall i | 0 <= i < |name| :: !EndsName(name[i])
    requires t == [] || EndsName(t[0])
    ensures ParseOne(name + t) == Ok(Parsed(Sym(name), t))
  {
    NameLengthOf(name, t);
    assert (name + t)[0] == name[0];
    assert (name + t)[..|name|] == name && (name + t)[|name|..] == t;
  }

  // ---- dispatch on the first character ----

  /** A leading sign makes a symbol, never a number: "-5" is the symbol named "-5". */
  lemma NegativeNumberIsSymbol(n: nat)
    requires 0 < n
    ensures Parse(JsString(-(n as int))) == Ok(Sym(JsString(-(n as int))))
  {
    var s := JsString(-(n as int));
    var d := Decimal(n);
    assert s == "-" + d;
    assert forall i | 0 <= i < |s| :: !IsJsSpace(s[i]) && !EndsName(s[i]) by {
      forall i | 0 <= i < |s|
        ensures !IsJsSpace(s[i]) && !EndsName(s[i])
      {
        if i > 0 {
          assert s[i] == d[i - 1];
        }
      }
    }
    TrimOfTrimmed(s);
    SymbolReadsBack(s, []);
    assert s + [] == s;
  }

  /** White space right after `(` is 'unexpected char_type': the bracket does not trim. */
  lemma WhitespaceAfterOpen(c: char, t: string)
    requires c == ' ' || c == '\n' || c == '\t'
    ensures ParseOne(['(', c] + t) == Err(UnexpectedCharType(Whitespace, [c] + t))
  {
    var s := ['(', c] + t;
    var u := [c] + t;
    assert s[0] == '(' && s[1..] == u && u[0] == c;
    DispatchList(s);
    NoExpressionAt(u);
  }

  /** `)` or white space where an expression should start is 'unexpected char_type'. */
  lemma NoExpressionAt(s: string)
    requires s == [] || CharTypeAt(s) == Whitespace || CharTypeAt(s) == CloseBracket
    ensures ParseOne(s) == Err(UnexpectedCharType(CharTypeAt(s), s))
  {
  }

  /** A number must end at white space, the end or `)`: "12abc" is an error at "abc". */
  lemma NumberFollowedByName(n: nat, c: char, t: string)
    requires n <= MaxSafeInteger
    requires CharTypeOf(c) == SymbolChar || CharTypeOf(c) == KeywordChar
      || CharTypeOf(c) == StringQuote || CharTypeOf(c) == OpenBracket
    requires c != '.' && c != 'e' && c != 'E' && c != '/'
    ensures ParseOne(JsString(n) + [c] + t) == Err(BadNumberEnd(Up, Num(n), CharTypeOf(c), [c] + t))
  {
    var d := JsString(n);
    var rest := [c] + t;
    var s := d + rest;
    assert d + [c] + t == s;
    ParseFloatOfJsString(n, rest);
    assert d == Decimal(n) && AllDigits(d);
    assert IsDigit(s[0]) by { assert s[0] == d[0]; }
    assert Drop(s, |d|) == rest by { assert s[|d|..] == rest; }
    DispatchNumber(s);
    IntegerNumber(s, n, rest);
    assert CharTypeAt(rest) == CharTypeOf(c);
  }

  /**
   * The digits dropped after a number are those of String(number), so a leading zero
   * leaves a digit behind: "07" is an error at "7".
   */
  lemma LeadingZeroLeavesDigit(m: nat, t: string)
    requires 0 < m <= MaxSafeInteger
    requires t == [] || !(IsDigit(t[0]) || t[0] == '.' || t[0] == 'e' || t[0] == 'E')
    ensures var s := "0" + Decimal(m) + t;
      ParseOne(s) == Err(BadNumberEnd(Up, Num(m), Digit, s[|Decimal(m)|..]))
  {
    var d := Decimal(m);
    var s := "0" + d + t;
    ZeroText(d, t);
    LeadingZeroParse(m, t);
    DispatchNumber(s);
  }

  lemma ZeroText(d: string, t: string)
    requires d != []
    ensures var s := "0" + d + t; s[0] == '0' && s[|d|] == d[|d| - 1]
  {
  }

  /** parseFloat reads past a leading zero to the value of the digits after it. */
  lemma LeadingZeroParse(m: nat, t: string)
    requires 0 < m <= MaxSafeInteger
    requires t == [] || !(IsDigit(t[0]) || t[0] == '.' || t[0] == 'e' || t[0] == 'E')
    ensures ParseFloat("0" + Decimal(m) + t) == Integral(m)
  {
    var d := Decimal(m);
    var ds := "0" + d;
    var s := ds + t;
    DigitRunOfDigitsThen(ds, t);
    LeadingZeroValue(d);
    DigitsValueOfDecimal(m);
    assert s[0] == '0';
    assert "Infinity"[0] == 'I';
    assert ParseUnsigned(s) == Integral(m);
    NoLeadingSpace(s);
  }

  /** A leading zero does not change the value of a digit string. */
  lemma {:induction false} LeadingZeroValue(ds: string)
    requires AllDigits(ds)
    ensures AllDigits("0" + ds) && DigitsValue("0" + ds) == DigitsValue(ds)
    decreases |ds|
  {
    var z := "0" + ds;
    if ds != [] {
      assert z[..|z| - 1] == "0" + ds[..|ds| - 1];
      LeadingZeroValue(ds[..|ds| - 1]);
    }
  }

  /** Only the empty input and the text "empty" itself read as the symbol `empty`. */
  lemma EmptySymbol(input: string)
    ensures Parse(input) == Ok(Sym("empty")) <==> Trim(input) == [] || Trim(input) == "empty"
  {
    var rest := Trim(input);
    if rest == "empty" {
      EmptyTextReadsEmpty(input);
    } else if rest != [] && Parse(input) == Ok(Sym("empty")) {
      EmptySymbolIsEmptyText(input);
    }
  }

  lemma EmptyTextReadsEmpty(input: string)
    requires Trim(input) == "empty"
    ensures Parse(input) == Ok(Sym("empty"))
  {
    TrimOfTrimmed("empty");
    SymbolReadsBack("empty", []);
    assert "empty" + [] == "empty";
  }

  lemma EmptySymbolIsEmptyText(input: string)
    requires Trim(input) != [] && Parse(input) == Ok(Sym("empty"))
    ensures Trim(input) == "empty"
  {
    var rest := Trim(input);
    assert ParseOne(rest) == Ok(Parsed(Sym("empty"), []));
    SymbolWholeText(rest);
  }

  /** A symbol that takes all of the text is named by all of it. */
  lemma SymbolWholeText(s: string)
    requires ParseOne(s).Ok? && ParseOne(s).value.node.Sym? && ParseOne(s).value.rest == []
    ensures ParseOne(s).value.node == Sym(s)
  {
    SymbolOnlyFromSymbolChar(s);
    var n := NameLength(s);
    assert s[n..] == [];
    assert s[..n] == s;
  }

  /** Only a symbol character at the start gives a symbol node. */
  lemma SymbolOnlyFromSymbolChar(s: string)
    requires ParseOne(s).Ok? && ParseOne(s).value.node.Sym?
    ensures s != [] && CharTypeAt(s) == SymbolChar && ParseOne(s) == ParseSymbol(s)
  {
  }

  // ---- dispatch, one character class at a time ----

  lemma DispatchString(s: string)
    requires s != [] && s[0] == '"'
    ensures ParseOne(s) == ParseString(s)
  {
  }

  lemma DispatchList(s: string)
    requires s != [] && s[0] == '('
    ensures ParseOne(s) == ParseList(s[1..], [])
  {
  }

  lemma DispatchKeyword(s: string)
    requires s != [] && s[0] == ':'
    ensures ParseOne(s) == ParseKeyword(s)
  {
    assert CharTypeAt(s) == KeywordChar;
  }

  lemma DispatchNumber(s: string)
    requires s != [] && IsDigit(s[0])
    ensures ParseOne(s) == ParseNumber(s)
  {
  }

  /** parse_number on an integer not followed by `/`. */
  lemma IntegerNumber(s: string, n: int, rest: string)
    requires s != [] && IsDigit(s[0]) && ParseFloat(s) == Integral(n)
    requires Drop(s, |JsString(n)|) == rest && (rest == [] || rest[0] != '/')
    ensures ParseNumber(s) == NumberEnd(Up, Num(n), rest)
  {
  }

  /** parse_number on `u/d` with a non-zero integer d. */
  lemma RationalNumber(s: string, u: int, d: int, rest: string)
    requires s != [] && IsDigit(s[0]) && ParseFloat(s) == Integral(u)
    requires var r := Drop(s, |JsString(u)|);
      r != [] && r[0] == '/' && ParseFloat(r[1..]) == Integral(d) && d != 0
      && Drop(r[1..], |JsString(d)|) == rest
    ensures ParseNumber(s) == NumberEnd(Down, MakeRational(u, d), rest)
  {
  }

  /** After a number, any text that Follows is accepted, and trims to the same. */
  lemma NumberEndFollows(part: NumberPart, v: Ast, t: string)
    requires Follows(t)
    ensures var r := NumberEnd(part, v, t);
      && r.Ok? && r.value.node == v && Trim(r.value.rest) == Trim(t)
      && (t == [] ==> r.value.rest == [])
  {
    if t == [] {
      assert NumberEnd(part, v, t) == Ok(Parsed(v, t));
    } else if t[0] == ' ' {
      assert NumberEnd(part, v, t) == Ok(Parsed(v, Trim(t))) by {
        assert CharTypeAt(t) == Whitespace;
      }
      TrimIdempotent(t);
    } else {
      assert NumberEnd(part, v, t) == Ok(Parsed(v, t)) by {
        assert CharTypeAt(t) == CloseBracket;
      }
    }
  }

  // ---- every printable tree reads back ----

  /** The shape of printed text: never empty, never white at either end, never led by `)`. */
  predicate Shaped(p: string) {
    p != [] && !IsJsSpace(p[0]) && p[0] != ')' && !IsJsSpace(p[|p| - 1])
  }

  lemma {:induction false} PrintShape(a: Ast)
    requires Printable(a)
    ensures Shaped(Print(a))
  {
    match a
    case Num(n) =>
      DigitsShape(Decimal(n));
    case Rat(u, d) =>
      SlashShape(Decimal(u), Decimal(d));
    case Str(x) =>
      EnclosedShape("\"", Escaped(x), "\"");
    case Kw(name) =>
      PrefixedShape(":", name);
    case Sym(name) =>
    case List(items) =>
      EnclosedShape("(", Join(items), ")");
  }

  lemma DigitsShape(ds: string)
    requires ds != [] && AllDigits(ds)
    ensures Shaped(ds)
  {
    assert IsDigit(ds[0]) && IsDigit(ds[|ds| - 1]);
  }

  lemma SlashShape(ju: string, jd: string)
    requires ju != [] && AllDigits(ju) && jd != [] && AllDigits(jd)
    ensures Shaped(ju + "/" + jd)
  {
    assert IsDigit(ju[0]) && IsDigit(jd[|jd| - 1]);
    Ends(ju, "/");
    Ends(ju + "/", jd);
  }

  lemma EnclosedShape(open: string, inner: string, close: string)
    requires |open| == 1 && |close| == 1 && open[0] in "(\"" && close[0] in ")\""
    ensures Shaped(open + inner + close)
  {
    Ends(open, inner);
    Ends(open + inner, close);
  }

  lemma PrefixedShape(mark: string, body: string)
    requires |mark| == 1 && mark[0] == ':'
    requires body == [] || !IsJsSpace(body[|body| - 1])
    ensures Shaped(mark + body)
  {
    Ends(mark, body);
  }

  /** Printed elements joined by spaces: non-empty when there are elements, never white at either end. */
  lemma JoinShape(items: seq<Ast>)
    requires items != [] && forall i | 0 <= i < |items| :: Printable(items[i])
    ensures var j := Join(items);
      j != [] && !IsJsSpace(j[0]) && j[0] != ')' && !IsJsSpace(j[|j| - 1])
    decreases items
  {
    PrintShape(items[0]);
    var j := Join(items);
    var p := Print(items[0]);
    if |items| > 1 {
      JoinShape(items[1..]);
      assert j == p + (" " + Join(items[1..]));
      assert j[0] == p[0];
      assert j[|j| - 1] == Join(items[1..])[|Join(items[1..])| - 1];
    }
  }

  lemma {:induction false} PrintableIsWellFormed(a: Ast)
    requires Printable(a)
    ensures WellFormed(a)
    decreases a
  {
    if a.List? {
      forall i | 0 <= i < |a.items|
        ensures WellFormed(a.items[i])
      {
        PrintableIsWellFormed(a.items[i]);
      }
    }
  }

  /** The reader reverses the printer: parse(print(a)) == a for every printable tree. */
  lemma ParsePrint(a: Ast)
    requires Printable(a)
    ensures Parse(Print(a)) == Ok(a)
  {
    var p := Print(a);
    PrintShape(a);
    TrimOfTrimmed(p);
    ReadsBack(a, []);
    assert p + [] == p;
    assert GivesBack(p, a, []);
  }

  /** parse_one on s gives back a, and its rest trims to what followed, t. */
  predicate GivesBack(s: string, a: Ast, t: string) {
    var r := ParseOne(s);
    && r.Ok? && r.value.node == a && Trim(r.value.rest) == Trim(t)
    && (t == [] ==> r.value.rest == [])
  }

  /**
   * parse_one on a printed tree followed by a space, a `)` or nothing gives the tree back,
   * and the rest it leaves trims to what followed.
   */
  lemma {:induction false} ReadsBack(a: Ast, t: string)
    requires Printable(a) && Follows(t)
    ensures GivesBack(Print(a) + t, a, t)
    decreases a, 1
  {
    match a
    case Num(n) =>
      NumberReadsBack(n, t);
    case Rat(u, d) =>
      RationalReadsBack(u, d, t);
    case Str(x) =>
      StringGivesBack(x, t);
    case Kw(name) =>
      KeywordGivesBack(name, t);
    case Sym(name) =>
      SymbolGivesBack(name, t);
    case List(items) =>
      ListGivesBack(items, t);
  }

  lemma StringGivesBack(x: string, t: string)
    ensures GivesBack(Print(Str(x)) + t, Str(x), t)
  {
    StringReadsBack(x, t);
  }

  lemma KeywordGivesBack(name: string, t: string)
    requires Printable(Kw(name)) && Follows(t)
    ensures GivesBack(Print(Kw(name)) + t, Kw(name), t)
  {
    KeywordReadsBack(name, t);
  }

  lemma SymbolGivesBack(name: string, t: string)
    requires Printable(Sym(name)) && Follows(t)
    ensures GivesBack(Print(Sym(name)) + t, Sym(name), t)
  {
    SymbolReadsBack(name, t);
  }

  lemma {:induction false} ListGivesBack(items: seq<Ast>, t: string)
    requires Printable(List(items)) && Follows(t)
    ensures GivesBack(Print(List(items)) + t, List(items), t)
    decreases items, 2
  {
    TrimIdempotent(t);
    var s := Print(List(items)) + t;
    ListText(items, t);
    DispatchList(s);
    var none: seq<Ast> := [];
    ListReadsBack(items, none, t);
    assert none + items == items;
  }

  lemma ListText(items: seq<Ast>, t: string)
    ensures var s := Print(List(items)) + t;
      s != [] && s[0] == '(' && s[1..] == Join(items) + ")" + t
  {
  }

  lemma NumberReadsBack(n: int, t: string)
    requires 0 <= n <= MaxSafeInteger && Follows(t)
    ensures GivesBack(Print(Num(n)) + t, Num(n), t)
  {
    var d := JsString(n);
    var s := d + t;
    ParseFloatOfJsString(n, t);
    assert s[0] == d[0];
    assert s[|d|..] == t;
    DispatchNumber(s);
    IntegerNumber(s, n, t);
    NumberEndFollows(Up, Num(n), t);
  }

  /** The text of u/d followed by t, as parse_number takes it apart. */
  lemma RationalText(u: int, d: int, t: string)
    requires 0 <= u <= MaxSafeInteger && 0 < d <= MaxSafeInteger && Follows(t)
    ensures var s := Print(Rat(u, d)) + t;
      && s != [] && IsDigit(s[0]) && ParseFloat(s) == Integral(u)
      && var r := Drop(s, |JsString(u)|);
      && r != [] && r[0] == '/' && ParseFloat(r[1..]) == Integral(d)
      && Drop(r[1..], |JsString(d)|) == t
  {
    var pu, pd := JsString(u), JsString(d);
    var t1 := SlashRegroup(pu, pd, t);
    NumeratorText(u, t1);
    DenominatorText(d, t);
  }

  /** The text after the numerator: the slash, the denominator and what follows. */
  lemma SlashRegroup(a: string, b: string, t: string) returns (t1: string)
    ensures a + "/" + b + t == a + t1
    ensures t1 != [] && t1[0] == '/' && t1[1..] == b + t
  {
    t1 := "/" + b + t;
  }

  lemma NumeratorText(u: int, t1: string)
    requires 0 <= u <= MaxSafeInteger && t1 != [] && t1[0] == '/'
    ensures var s := JsString(u) + t1;
      s != [] && IsDigit(s[0]) && ParseFloat(s) == Integral(u) && Drop(s, |JsString(u)|) == t1
  {
    var pu := JsString(u);
    var s := pu + t1;
    ParseFloatOfJsString(u, t1);
    assert s[0] == pu[0];
    assert s[|pu|..] == t1;
  }

  lemma DenominatorText(d: int, t: string)
    requires 0 < d <= MaxSafeInteger && Follows(t)
    ensures ParseFloat(JsString(d) + t) == Integral(d) && Drop(JsString(d) + t, |JsString(d)|) == t
  {
    var pd := JsString(d);
    ParseFloatOfJsString(d, t);
    assert (pd + t)[|pd|..] == t;
  }

  lemma RationalReadsBack(u: int, d: int, t: string)
    requires 0 <= u <= MaxSafeInteger && d <= MaxSafeInteger && Normalized(u, d) && Follows(t)
    ensures GivesBack(Print(Rat(u, d)) + t, Rat(u, d), t)
  {
    var s := Print(Rat(u, d)) + t;
    RationalText(u, d, t);
    MakeRationalOfNormalized(u, d);
    DispatchNumber(s);
    RationalNumber(s, u, d, t);
    NumberEndFollows(Down, Rat(u, d), t);
  }

  /** Printed elements, `)` and t, split after the first element. */
  lemma JoinText(items: seq<Ast>, t: string) returns (t1: string)
    requires items != [] && forall i | 0 <= i < |items| :: Printable(items[i])
    requires t == [] || !IsJsSpace(t[|t| - 1])
    ensures Join(items) + ")" + t == Print(items[0]) + t1
    ensures Follows(t1) && Trim(t1) == Join(items[1..]) + ")" + t
  {
    JoinUnfold(items);
    var p, j := Print(items[0]), Join(items[1..]);
    if |items| == 1 {
      t1 := ")" + t;
      CloseFollows(t);
      assert j == [];
      SplitAfterLast(p, t);
    } else {
      var rest := j + ")" + t;
      t1 := " " + rest;
      RestShape(items[1..], t);
      SpaceFollows(rest);
      SplitAfterFirst(p, j, t);
    }
  }

  lemma SplitAfterLast(p: string, t: string)
    ensures p + ")" + t == p + (")" + t) && [] + ")" + t == ")" + t
  {
  }

  lemma SplitAfterFirst(p: string, j: string, t: string)
    ensures p + " " + j + ")" + t == p + (" " + (j + ")" + t))
  {
  }

  lemma CloseFollows(t: string)
    requires t == [] || !IsJsSpace(t[|t| - 1])
    ensures Follows(")" + t) && Trim(")" + t) == ")" + t
  {
    var t1 := ")" + t;
    assert t1[0] == ')';
    assert t1[|t1| - 1] == if t == [] then ')' else t[|t| - 1];
    TrimOfTrimmed(t1);
  }

  lemma SpaceFollows(rest: string)
    requires rest != [] && !IsJsSpace(rest[0]) && !IsJsSpace(rest[|rest| - 1])
    ensures Follows(" " + rest) && Trim(" " + rest) == rest
  {
    var t1 := " " + rest;
    assert t1[0] == ' ';
    assert t1[|t1| - 1] == rest[|rest| - 1];
    TrimLeadingSpace(rest);
  }

  lemma RestShape(items: seq<Ast>, t: string)
    requires items != [] && forall i | 0 <= i < |items| :: Printable(items[i])
    requires t == [] || !IsJsSpace(t[|t| - 1])
    ensures var rest := Join(items) + ")" + t;
      rest != [] && !IsJsSpace(rest[0]) && !IsJsSpace(rest[|rest| - 1])
  {
    var j := Join(items);
    var rest := j + ")" + t;
    JoinShape(items);
    assert rest[0] == j[0];
    assert rest[|rest| - 1] == if t == [] then ')' else t[|t| - 1];
  }

  lemma JoinUnfold(items: seq<Ast>)
    requires items != []
    ensures |items| == 1 ==> Join(items) == Print(items[0]) && Join(items[1..]) == []
    ensures |items| > 1 ==> Join(items) == Print(items[0]) + " " + Join(items[1..])
  {
  }

  lemma ConsAppend(acc: seq<Ast>, items: seq<Ast>)
    requires items != []
    ensures (acc + [items[0]]) + items[1..] == acc + items
  {
  }

  /** parse_bracket's loop over printed elements separated by spaces, up to `)`. */
  lemma {:induction false} ListReadsBack(items: seq<Ast>, acc: seq<Ast>, t: string)
    requires forall i | 0 <= i < |items| :: Printable(items[i])
    requires forall i | 0 <= i < |acc| :: WellFormed(acc[i])
    requires t == [] || !IsJsSpace(t[|t| - 1])
    ensures ParseList(Join(items) + ")" + t, acc) == Ok(Parsed(List(acc + items), Trim(t)))
    decreases items, 0
  {
    if items == [] {
      CloseList(acc, t);
      assert acc + items == acc;
    } else {
      var head := items[0];
      var t1 := JoinText(items, t);
      var acc' := acc + [head];
      PrintableIsWellFormed(head);
      FirstElement(head, t1, acc);
      ListReadsBack(items[1..], acc', t);
      ConsAppend(acc, items);
    }
  }

  /** At `)` the loop returns the elements so far and the trimmed text after it. */
  lemma CloseList(acc: seq<Ast>, t: string)
    requires forall i | 0 <= i < |acc| :: WellFormed(acc[i])
    ensures ParseList(Join([]) + ")" + t, acc) == Ok(Parsed(List(acc), Trim(t)))
  {
    assert Join([]) + ")" + t == ")" + t;
    assert (")" + t)[1..] == t;
  }

  /** One element read by the loop: it is appended and the loop goes on at the trimmed rest. */
  lemma FirstElement(head: Ast, t1: string, acc: seq<Ast>)
    requires Printable(head) && Follows(t1) && WellFormed(head)
    requires forall i | 0 <= i < |acc| :: WellFormed(acc[i])
    ensures forall i | 0 <= i < |acc + [head]| :: WellFormed((acc + [head])[i])
    ensures ParseList(Print(head) + t1, acc) == ParseList(Trim(t1), acc + [head])
    decreases head, 2
  {
    PrintedStart(head, t1);
    ReadsBack(head, t1);
    GivesBackStep(Print(head) + t1, acc, head, t1);
  }

  lemma PrintedStart(head: Ast, t1: string)
    requires Printable(head)
    ensures Print(head) + t1 != [] && (Print(head) + t1)[0] != ')'
  {
    PrintShape(head);
    assert (Print(head) + t1)[0] == Print(head)[0];
  }

  lemma GivesBackStep(s: string, acc: seq<Ast>, head: Ast, t1: string)
    requires GivesBack(s, head, t1) && s != [] && s[0] != ')'
    requires forall i | 0 <= i < |acc| :: WellFormed(acc[i])
    ensures forall i | 0 <= i < |acc + [head]| :: WellFormed((acc + [head])[i])
    ensures ParseList(s, acc) == ParseList(Trim(t1), acc + [head])
  {
    var p := ParseOne(s).value;
    ListStep(s, acc, p);
  }

  // ---- a list that is never closed ----

  /**
   * An opening bracket followed by printed elements and nothing else: the loop reads
   * every element, then meets the end of the input where it looks for `)`, and fails
   * with 'missing close-bracket', carrying the elements it read.
   */
  lemma UnclosedList(items: seq<Ast>)
    requires forall i | 0 <= i < |items| :: Printable(items[i])
    ensures ParseOne("(" + Join(items)) == Err(MissingCloseBracket(items, ""))
  {
    var s := "(" + Join(items);
    assert s[0] == '(' && s[1..] == Join(items);
    DispatchList(s);
    var none: seq<Ast> := [];
    UnclosedElements(items, none);
    assert none + items == items;
  }

  /** The loop over printed elements separated by spaces, with no `)` after the last one. */
  lemma {:induction false} UnclosedElements(items: seq<Ast>, acc: seq<Ast>)
    requires forall i | 0 <= i < |items| :: Printable(items[i])
    requires forall i | 0 <= i < |acc| :: WellFormed(acc[i])
    ensures ParseList(Join(items), acc) == Err(MissingCloseBracket(acc + items, ""))
    decreases items
  {
    if items == [] {
      assert acc + items == acc;
    } else {
      var head := items[0];
      PrintableIsWellFormed(head);
      JoinUnfold(items);
      var t1 := LastOrSpaced(items);
      FirstElement(head, t1, acc);
      UnclosedElements(items[1..], acc + [head]);
      ConsAppend(acc, items);
    }
  }

  /** What follows the first printed element: nothing when it is the last, else a space and the rest. */
  lemma LastOrSpaced(items: seq<Ast>) returns (t1: string)
    requires items != [] && forall i | 0 <= i < |items| :: Printable(items[i])
    ensures Join(items) == Print(items[0]) + t1
    ensures Follows(t1) && Trim(t1) == Join(items[1..])
  {
    JoinUnfold(items);
    if |items| == 1 {
      t1 := [];
      assert Print(items[0]) + t1 == Print(items[0]);
      TrimOfTrimmed(t1);
    } else {
      var rest := Join(items[1..]);
      t1 := " " + rest;
      JoinShape(items[1..]);
      SpaceFollows(rest);
      assert Print(items[0]) + " " + rest == Print(items[0]) + t1;
    }
  }

  /** The failing parse `(1 2`: both numbers are read, and then the input ends. */
  lemma UnclosedListExample()
    ensures Parse("(1 2") == Err(MissingCloseBracket([Num(1), Num(2)], ""))
  {
    var items := [Num(1), Num(2)];
    assert Print(Num(1)) == "1" && Print(Num(2)) == "2";
    assert items[1..] == [Num(2)];
    assert Join(items) == "1 2";
    assert "(" + Join(items) == "(1 2";
    UnclosedList(items);
    TrimOfTrimmed("(1 2");
  }
}
