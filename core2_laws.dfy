/**
 * What the second generation promises: every showable tree reads back from its text,
 * unclosed lists and strings fail the way the source says, raw rationals keep their
 * numerator and denominator, and `+` sums int arguments left to right.
 */
module Core2Laws {
  import opened Results
  import opened Text
  import opened Numerals
  import opened Core2

  // ---- a reference printer ----

  /** Characters a shown name may hold: no white space of any kind, and no `)`. */
  predicate NameText(name: string) {
    forall i | 0 <= i < |name| :: !IsJsSpace(name[i]) && !EndsName(name[i])
  }

  /** A character that cannot start a symbol: it would start a number or another node. */
  predicate NotSymbolStart(c: char) {
    IsDigit(c) || c == '(' || c == '"' || c == ':' || c == '\'' || c == '.' || c == 'I' || c == '/'
  }

  /**
   * A symbol name that parseFloat reads as NaN: it does not start like a number, and a
   * leading sign is the whole name or is followed by something that cannot start one.
   */
  predicate SymbolName(name: string) {
    && name != [] && NameText(name) && !NotSymbolStart(name[0])
    && ((name[0] == '+' || name[0] == '-') && |name| > 1 ==>
          !IsDigit(name[1]) && name[1] != '.' && name[1] != 'I')
  }

  /** Trees whose text reads back. */
  predicate Showable(a: Node) {
    match a
    case Int(v) => -(MaxSafeInteger as int) <= v <= MaxSafeInteger
    case Rational(p, q) =>
      -(MaxSafeInteger as int) <= p <= MaxSafeInteger && -(MaxSafeInteger as int) <= q <= MaxSafeInteger
    case Str(_) => true
    case Keyword(name) => NameText(name)
    case Quote(quoted) => Showable(quoted)
    case Symbol(name) => SymbolName(name)
    case List(items) => forall i | 0 <= i < |items| :: Showable(items[i])
  }

  /** The text of a tree, in the syntax the reader takes. */
  function Show(a: Node): string
    decreases a
  {
    match a
    case Int(v) => JsString(v)
    case Rational(p, q) => JsString(p) + "/" + JsString(q)
    case Str(x) => "\"" + Escaped(x) + "\""
    case Keyword(name) => ":" + name
    case Quote(quoted) => "'" + Show(quoted)
    case Symbol(name) => name
    case List(items) => "(" + Join(items) + ")"
  }

  /** The elements shown one after another, separated by single spaces. */
  function Join(items: seq<Node>): string
    decreases items
  {
    if items == [] then []
    else if |items| == 1 then Show(items[0])
    else Show(items[0]) + " " + Join(items[1..])
  }

  /**
   * What may follow a shown tree: nothing, or a space or `)`, with no white space at the
   * end, and no `/` once trimmed (after a number that would start a rational).
   */
  predicate Follows(t: string) {
    t == [] || ((t[0] == ' ' || t[0] == ')') && !IsJsSpace(t[|t| - 1]) && Trim(t)[0] != '/')
  }

  // ---- the shape of shown text ----

  /** Shown text is never empty, never white at either end, and never led by `)` or `/`. */
  lemma {:induction false} ShowShape(a: Node)
    requires Showable(a)
    ensures Shaped(Show(a))
    decreases a
  {
    match a
    case Int(v) =>
      JsStringShape(v);
    case Rational(p, q) =>
      JsStringShape(p);
      JsStringShape(q);
      SlashShape(JsString(p), JsString(q));
    case Str(x) =>
      EnclosedShape("\"", Escaped(x), "\"");
    case Keyword(name) =>
      PrefixedShape(":", name);
    case Quote(quoted) =>
      ShowShape(quoted);
      PrefixedShape("'", Show(quoted));
    case Symbol(name) =>
    case List(items) =>
      EnclosedShape("(", Join(items), ")");
  }

  /** Never empty, never white at either end, and never led by `)` or `/`. */
  predicate Shaped(s: string) {
    s != [] && Trimmed(s) && s[0] != ')' && s[0] != '/'
  }

  lemma SlashShape(jp: string, jq: string)
    requires jp != [] && (IsDigit(jp[0]) || jp[0] == '-') && jq != [] && IsDigit(jq[|jq| - 1])
    ensures Shaped(jp + "/" + jq)
  {
    Ends(jp, "/");
    Ends(jp + "/", jq);
  }

  lemma EnclosedShape(open: string, inner: string, close: string)
    requires |open| == 1 && |close| == 1 && open[0] in "(\"" && close[0] in ")\""
    ensures Shaped(open + inner + close)
  {
    Ends(open, inner);
    Ends(open + inner, close);
  }

  lemma PrefixedShape(mark: string, body: string)
    requires |mark| == 1 && mark[0] in ":'"
    requires body == [] || !IsJsSpace(body[|body| - 1])
    ensures Shaped(mark + body)
  {
    Ends(mark, body);
  }

  lemma JsStringShape(v: int)
    ensures var s := JsString(v);
      s != [] && (IsDigit(s[0]) || s[0] == '-') && IsDigit(s[|s| - 1])
  {
    if v < 0 {
      var d := Decimal(-v);
      assert JsString(v)[|JsString(v)| - 1] == d[|d| - 1];
    }
  }

  /** Joined elements: non-empty when there are elements, never white at either end, never led by `)` or `/`. */
  lemma {:induction false} JoinShape(items: seq<Node>)
    requires items != [] && forall i | 0 <= i < |items| :: Showable(items[i])
    ensures var j := Join(items);
      j != [] && Trimmed(j) && j[0] != ')' && j[0] != '/'
    decreases items
  {
    ShowShape(items[0]);
    var j := Join(items);
    var p := Show(items[0]);
    if |items| > 1 {
      JoinShape(items[1..]);
      assert j == p + (" " + Join(items[1..]));
      assert j[0] == p[0];
      assert j[|j| - 1] == Join(items[1..])[|Join(items[1..])| - 1];
    }
  }

  // ---- round trip ----

  /** The reader reverses the printer: parse(show(a)) == a for every showable tree. */
  lemma ParseShow(a: Node)
    requires Showable(a)
    ensures Parse(Show(a)) == Ok(a)
  {
    var s := Show(a);
    ReadsBack(a, []);
    assert s + [] == s;
    assert GivesBack(s, a, []);
  }

  /** parse_one on s gives back a, and its rest trims to what followed, t. */
  predicate GivesBack(s: string, a: Node, t: string) {
    var r := ParseOne(s);
    && r.Ok? && r.value.ast == a && Trim(r.value.rest) == Trim(t)
    && (t == [] ==> r.value.rest == [])
  }

  /** The same, for the branches of parse_one on text with no white space in front. */
  predicate DispatchGivesBack(s: string, a: Node, t: string) {
    && s != [] && !IsJsSpace(s[0])
    && var r := Dispatch(s);
    && r.Ok? && r.value.ast == a && Trim(r.value.rest) == Trim(t)
    && (t == [] ==> r.value.rest == [])
  }

  /** On trimmed text parse_one goes straight to the dispatch. */
  lemma GivesBackOfDispatch(s: string, a: Node, t: string)
    requires Trimmed(s) && DispatchGivesBack(s, a, t)
    ensures GivesBack(s, a, t)
  {
    TrimOfTrimmed(s);
  }

  /**
   * parse_one on a shown tree followed by a space, a `)` or nothing gives the tree back,
   * and the rest it leaves trims to what followed.
   */
  lemma {:induction false} ReadsBack(a: Node, t: string)
    requires Showable(a) && Follows(t)
    ensures GivesBack(Show(a) + t, a, t)
    decreases a, 1
  {
    match a {
      case Int(v) => IntReadsBack(v, t);
      case Rational(p, q) => RationalReadsBack(p, q, t);
      case Str(x) => StringReadsBack(x, t);
      case Keyword(name) => KeywordReadsBack(name, t);
      case Quote(quoted) => QuoteReadsBack(quoted, t);
      case Symbol(name) => SymbolReadsBack(name, t);
      case List(items) => ListGivesBack(items, t);
    }
    TextOfShown(a, t);
    GivesBackOfDispatch(Show(a) + t, a, t);
  }

  /** A shown tree followed by what may follow it is trimmed text. */
  lemma TextOfShown(a: Node, t: string)
    requires Showable(a) && Follows(t)
    ensures var s := Show(a) + t; s != [] && Trimmed(s) && s[0] == Show(a)[0]
  {
    ShowShape(a);
    var s := Show(a) + t;
    assert s[0] == Show(a)[0];
    assert s[|s| - 1] == if t == [] then Show(a)[|Show(a)| - 1] else t[|t| - 1];
  }

  /** The rest after a name or number: trimmed, and for nothing, nothing. */
  lemma TrimmedRest(t: string)
    requires Follows(t)
    ensures Trim(Trim(t)) == Trim(t) && (t == [] ==> Trim(t) == [])
    ensures Trim(t) == [] || Trim(t)[0] != '/'
  {
    TrimIdempotent(t);
  }

  /** A number starts with a digit or a minus sign, which no other branch claims. */
  lemma NumberStart(c: char)
    requires IsDigit(c) || c == '-'
    ensures !IsJsSpace(c) && c != '(' && c != '"' && c != ':' && c != '\''
  {
  }

  /** What may follow a tree neither continues a number nor a name. */
  lemma FollowsStart(t: string)
    requires Follows(t)
    ensures t == [] || (EndsName(t[0]) && !(IsDigit(t[0]) || t[0] == '.' || t[0] == 'e' || t[0] == 'E'))
  {
  }

  lemma DropPrefix(u: string, t: string)
    ensures Drop(u + t, |u|) == t
  {
  }

  // ---- single steps of the reader ----

  /** A first character no other branch claims: the number and symbol branch. */
  lemma DispatchAtom(s: string)
    requires s != [] && !IsJsSpace(s[0])
    requires s[0] != '(' && s[0] != '"' && s[0] != ':' && s[0] != '\''
    ensures Dispatch(s) == ParseAtom(s)
  {
  }

  /** An integer that no `/` follows, in the number branch. */
  lemma AtomInt(s: string, p: int, rest: string)
    requires s != [] && !IsJsSpace(s[0])
    requires ParseFloat(s) == Integral(p) && Trim(Drop(s, |JsString(p)|)) == rest
    requires rest == [] || rest[0] != '/'
    ensures ParseAtom(s) == Ok(Parsed(Int(p), rest))
  {
  }

  /** An integer, a `/` and a second integer, in the number branch. */
  lemma AtomRational(s: string, p: int, q: int, t: string)
    requires s != [] && !IsJsSpace(s[0]) && ParseFloat(s) == Integral(p)
    requires var rest := Trim(Drop(s, |JsString(p)|));
      rest != [] && rest[0] == '/' && ParseFloat(rest[1..]) == Integral(q) && Drop(rest[1..], |JsString(q)|) == t
    ensures ParseAtom(s) == Ok(Parsed(Rational(p, q), Trim(t)))
  {
  }

  /** No number, in the number branch: a symbol. */
  lemma AtomSymbol(s: string)
    requires s != [] && !IsJsSpace(s[0]) && ParseFloat(s) == NotANumber
    ensures ParseAtom(s) == Ok(Parsed(Symbol(ParseName(s).0), ParseName(s).1))
  {
  }

  lemma DispatchString(s: string)
    requires s != [] && s[0] == '"'
    ensures Dispatch(s) == StringFrom(s, 1, [])
  {
  }

  lemma DispatchKeyword(s: string)
    requires s != [] && s[0] == ':'
    ensures Dispatch(s) == Ok(Parsed(Keyword(ParseName(s[1..]).0), ParseName(s[1..]).1))
  {
  }

  lemma DispatchQuote(s: string)
    requires s != [] && s[0] == '\''
    ensures Dispatch(s) == match ParseOne(s[1..])
      case Ok(p) => Ok(Parsed(Quote(p.ast), p.rest))
      case Err(e) => Err(e)
  {
  }

  lemma DispatchList(s: string)
    requires s != [] && s[0] == '('
    ensures Trimmed(Trim(s[1..])) && Dispatch(s) == ParseList(Trim(s[1..]), [])
  {
    TrimIsInfix(s[1..]);
  }

  lemma ListCloseStep(s: string, items: seq<Node>)
    requires Trimmed(s) && s != [] && s[0] == ')'
    ensures ParseList(s, items) == Ok(Parsed(List(items), Trim(s[1..])))
  {
  }

  /** An integer that no `/` follows. */
  lemma IntStep(s: string, v: int, t: string)
    requires s != [] && (IsDigit(s[0]) || s[0] == '-') && Follows(t)
    requires ParseFloat(s) == Integral(v) && Drop(s, |JsString(v)|) == t
    ensures DispatchGivesBack(s, Int(v), t)
  {
    NumberStart(s[0]);
    DispatchAtom(s);
    TrimmedRest(t);
    AtomInt(s, v, Trim(t));
  }

  /** An integer, a `/` and a second integer. */
  lemma RationalStep(s: string, p: int, q: int, t: string)
    requires s != [] && (IsDigit(s[0]) || s[0] == '-') && Follows(t)
    requires ParseAtom(s) == Ok(Parsed(Rational(p, q), Trim(t)))
    ensures DispatchGivesBack(s, Rational(p, q), t)
  {
    NumberStart(s[0]);
    DispatchAtom(s);
    TrimmedRest(t);
  }

  /** `"` starts the string loop. */
  lemma StringStep(s: string, x: string, t: string)
    requires s != [] && s[0] == '"' && StringFrom(s, 1, []) == Ok(Parsed(Str(x), t))
    ensures DispatchGivesBack(s, Str(x), t)
  {
    DispatchString(s);
  }

  /** `:` starts a keyword name. */
  lemma KeywordStep(s: string, name: string, t: string)
    requires s != [] && s[0] == ':' && Follows(t) && ParseName(s[1..]) == (name, Trim(t))
    ensures DispatchGivesBack(s, Keyword(name), t)
  {
    assert Dispatch(s) == Ok(Parsed(Keyword(name), Trim(t))) by {
      DispatchKeyword(s);
    }
    TrimmedRest(t);
  }

  /** A name parseFloat finds no number in. */
  lemma SymbolStep(s: string, name: string, t: string)
    requires s != [] && !IsJsSpace(s[0]) && s[0] != '(' && s[0] != '"' && s[0] != ':' && s[0] != '\''
    requires Follows(t) && ParseFloat(s) == NotANumber && ParseName(s) == (name, Trim(t))
    ensures DispatchGivesBack(s, Symbol(name), t)
  {
    DispatchAtom(s);
    AtomSymbol(s);
    TrimmedRest(t);
  }

  /** `'` quotes the expression after it. */
  lemma QuoteStep(u: string, a: Node, t: string)
    requires GivesBack(u, a, t)
    ensures DispatchGivesBack("'" + u, Quote(a), t)
  {
    var s := "'" + u;
    assert s[0] == '\'' && s[1..] == u;
    DispatchQuote(s);
  }

  /** `(` starts the list loop on the trimmed text after it. */
  lemma ListStart(body: string, items: seq<Node>, t: string)
    requires Trimmed(body) && Follows(t) && ParseList(body, []) == Ok(Parsed(List(items), Trim(t)))
    ensures DispatchGivesBack("(" + body, List(items), t)
  {
    var s := "(" + body;
    OpenDispatch(body, s);
    assert Dispatch(s) == Ok(Parsed(List(items), Trim(t)));
    TrimmedRest(t);
  }

  /** On `(` and trimmed text the dispatch starts the list loop on that text. */
  lemma OpenDispatch(body: string, s: string)
    requires Trimmed(body) && s == "(" + body
    ensures s != [] && !IsJsSpace(s[0]) && Dispatch(s) == ParseList(body, [])
  {
    assert s[0] == '(' && s[1..] == body;
    TrimOfTrimmed(body);
    DispatchList(s);
  }

  lemma CloseTrimmed(t: string)
    requires Follows(t)
    ensures Trimmed(")" + t)
  {
    var t1 := ")" + t;
    assert t1[0] == ')';
    assert t1[|t1| - 1] == if t == [] then ')' else t[|t| - 1];
  }

  /** `)` ends the list loop. */
  lemma ListClose(t: string, items: seq<Node>)
    requires Follows(t)
    ensures Trimmed(")" + t)
    ensures ParseList(")" + t, items) == Ok(Parsed(List(items), Trim(t)))
  {
    assert (")" + t)[1..] == t;
    CloseTrimmed(t);
    ListCloseStep(")" + t, items);
  }

  // ---- the cases of the round trip ----

  lemma IntReadsBack(v: int, t: string)
    requires -(MaxSafeInteger as int) <= v <= MaxSafeInteger && Follows(t)
    ensures DispatchGivesBack(Show(Int(v)) + t, Int(v), t)
  {
    var d := JsString(v);
    var s := d + t;
    JsStringShape(v);
    ParseFloatOfJsString(v, t);
    assert s[0] == d[0];
    DropPrefix(d, t);
    IntStep(s, v, t);
  }

  /** The denominator's digits and what may follow them. */
  lemma DenominatorParts(q: int, t: string)
    requires -(MaxSafeInteger as int) <= q <= MaxSafeInteger && Follows(t)
    ensures var jq := JsString(q);
      && jq != [] && IsDigit(jq[|jq| - 1])
      && ParseFloat(jq + t) == Integral(q) && Drop(jq + t, |jq|) == t
  {
    JsStringShape(q);
    DropPrefix(JsString(q), t);
    FollowsStart(t);
    ParseFloatOfJsString(q, t);
  }

  /** The numerator's digits and the text after them, which starts with `/`. */
  lemma NumeratorParts(p: int, t1: string)
    requires -(MaxSafeInteger as int) <= p <= MaxSafeInteger && t1 != [] && t1[0] == '/'
    ensures var s := JsString(p) + t1;
      s != [] && (IsDigit(s[0]) || s[0] == '-') && ParseFloat(s) == Integral(p) && Drop(s, |JsString(p)|) == t1
  {
    var jp := JsString(p);
    var s := jp + t1;
    JsStringShape(p);
    assert s[0] == jp[0];
    DropPrefix(jp, t1);
    ParseFloatOfJsString(p, t1);
  }

  lemma RationalAtom(p: int, q: int, t: string)
    requires -(MaxSafeInteger as int) <= p <= MaxSafeInteger && -(MaxSafeInteger as int) <= q <= MaxSafeInteger
    requires Follows(t)
    ensures var s := JsString(p) + ("/" + (JsString(q) + t));
      && s != [] && (IsDigit(s[0]) || s[0] == '-')
      && ParseAtom(s) == Ok(Parsed(Rational(p, q), Trim(t)))
  {
    var jq := JsString(q);
    var t1 := "/" + (jq + t);
    var s := JsString(p) + t1;
    assert t1[1..] == jq + t;
    SlashTrimmed(jq, t);
    NumeratorParts(p, t1);
    DenominatorParts(q, t);
    NumberStart(s[0]);
    AtomRational(s, p, q, t);
  }

  /** `/`, the digits of a denominator and what may follow them: nothing for trim to take. */
  lemma SlashTrimmed(jq: string, t: string)
    requires jq != [] && IsDigit(jq[|jq| - 1]) && Follows(t)
    ensures Trim("/" + (jq + t)) == "/" + (jq + t)
  {
    var t1 := "/" + (jq + t);
    assert t1[0] == '/';
    assert t1[|t1| - 1] == if t == [] then jq[|jq| - 1] else t[|t| - 1];
    TrimOfTrimmed(t1);
  }

  lemma ShowRationalText(p: int, q: int, t: string)
    ensures Show(Rational(p, q)) + t == JsString(p) + ("/" + (JsString(q) + t))
  {
  }

  lemma RationalReadsBack(p: int, q: int, t: string)
    requires -(MaxSafeInteger as int) <= p <= MaxSafeInteger && -(MaxSafeInteger as int) <= q <= MaxSafeInteger
    requires Follows(t)
    ensures DispatchGivesBack(Show(Rational(p, q)) + t, Rational(p, q), t)
  {
    ShowRationalText(p, q, t);
    RationalAtom(p, q, t);
    RationalStep(JsString(p) + ("/" + (JsString(q) + t)), p, q, t);
  }

  lemma StringReadsBack(x: string, t: string)
    ensures DispatchGivesBack(Show(Str(x)) + t, Str(x), t)
  {
    var s := "\"" + Escaped(x) + "\"" + t;
    assert s[0] == '"';
    assert s[1..] == Escaped(x) + "\"" + t;
    StringFromEscaped(s, 1, [], x, t);
    assert [] + x == x;
    StringStep(s, x, t);
  }

  /** The string loop over escaped text and a closing quote. */
  lemma {:induction false} StringFromEscaped(s: string, i: nat, v: string, x: string, t: string)
    requires i <= |s| && s[i..] == Escaped(x) + "\"" + t
    ensures StringFrom(s, i, v) == Ok(Parsed(Str(v + x), t))
    decreases x
  {
    if x == [] {
      assert s[i..] == ['"'] + t;
      assert s[i] == '"';
      assert s[i + 1..] == t;
      assert v + x == v;
    } else {
      var c := x[0];
      EscapeHead(x, "\"" + t);
      assert v + [c] + x[1..] == v + x;
      if c == '"' || c == '\\' {
        assert s[i..] == ['\\', c] + (Escaped(x[1..]) + "\"" + t);
        assert s[i] == '\\' && s[i + 1] == c;
        assert s[i + 2..] == Escaped(x[1..]) + "\"" + t;
        StringFromEscaped(s, i + 2, v + [c], x[1..], t);
      } else {
        assert s[i..] == [c] + (Escaped(x[1..]) + "\"" + t);
        assert s[i] == c;
        assert s[i + 1..] == Escaped(x[1..]) + "\"" + t;
        StringFromEscaped(s, i + 1, v + [c], x[1..], t);
      }
    }
  }

  /** A name followed by a character that ends it, or by nothing. */
  lemma {:induction false} NameLengthOf(name: string, t: string)
    requires NameText(name) && (t == [] || EndsName(t[0]))
    ensures NameLength(name + t) == |name| && (name + t)[..|name|] == name && (name + t)[|name|..] == t
    decreases name
  {
    if name != [] {
      assert (name + t)[1..] == name[1..] + t;
      NameLengthOf(name[1..], t);
    }
  }

  lemma KeywordReadsBack(name: string, t: string)
    requires NameText(name) && Follows(t)
    ensures DispatchGivesBack(Show(Keyword(name)) + t, Keyword(name), t)
  {
    var s := ":" + (name + t);
    assert Show(Keyword(name)) + t == s;
    assert s[0] == ':' && s[1..] == name + t;
    NameLengthOf(name, t);
    KeywordStep(s, name, t);
  }

  lemma SymbolReadsBack(name: string, t: string)
    requires SymbolName(name) && Follows(t)
    ensures DispatchGivesBack(Show(Symbol(name)) + t, Symbol(name), t)
  {
    var s := name + t;
    assert s[0] == name[0];
    SymbolIsNotANumber(name, t);
    NameLengthOf(name, t);
    SymbolStep(s, name, t);
  }

  /** parseFloat finds no number in a symbol name, whatever may follow it. */
  lemma SymbolIsNotANumber(name: string, t: string)
    requires SymbolName(name) && (t == [] || EndsName(t[0]))
    ensures ParseFloat(name + t) == NotANumber
  {
    var s := name + t;
    assert s[0] == name[0];
    assert TrimStart(s) == s;
    if name[0] == '+' || name[0] == '-' {
      assert s[1..] == name[1..] + t;
      if |name| > 1 {
        assert s[1] == name[1];
      }
      NoNumberAhead(s[1..]);
    } else {
      NoNumberAhead(s);
    }
  }

  lemma NoNumberAhead(u: string)
    requires u == [] || (!IsDigit(u[0]) && u[0] != '.' && u[0] != 'I')
    ensures ParseUnsigned(u) == NotANumber
  {
    assert "Infinity"[0] == 'I';
  }

  lemma {:induction false} QuoteReadsBack(quoted: Node, t: string)
    requires Showable(quoted) && Follows(t)
    ensures DispatchGivesBack(Show(Quote(quoted)) + t, Quote(quoted), t)
    decreases Quote(quoted), 0
  {
    ShowQuoteText(quoted, t);
    ReadsBack(quoted, t);
    QuoteStep(Show(quoted) + t, quoted, t);
  }

  lemma ShowQuoteText(quoted: Node, t: string)
    ensures Show(Quote(quoted)) + t == "'" + (Show(quoted) + t)
  {
  }

  lemma ShowListText(items: seq<Node>, t: string)
    ensures Show(List(items)) + t == "(" + (Join(items) + ")" + t)
  {
  }

  lemma {:induction false} ListGivesBack(items: seq<Node>, t: string)
    requires Showable(List(items)) && Follows(t)
    ensures DispatchGivesBack(Show(List(items)) + t, List(items), t)
    decreases items, 2
  {
    var body := Join(items) + ")" + t;
    ShowListText(items, t);
    var none: seq<Node> := [];
    assert none + items == items;
    ListReadsBack(items, none, t);
    ListStart(body, items, t);
  }

  lemma BodyShape(items: seq<Node>, t: string)
    requires forall i | 0 <= i < |items| :: Showable(items[i])
    requires Follows(t)
    ensures Trimmed(Join(items) + ")" + t)
  {
    var body := Join(items) + ")" + t;
    if items != [] {
      JoinShape(items);
      assert body[0] == Join(items)[0];
    }
    assert body[|body| - 1] == if t == [] then ')' else t[|t| - 1];
  }

  /** Shown elements, `)` and t, split after the first element. */
  lemma JoinText(items: seq<Node>, t: string) returns (t1: string)
    requires items != [] && forall i | 0 <= i < |items| :: Showable(items[i])
    requires Follows(t)
    ensures Join(items) + ")" + t == Show(items[0]) + t1
    ensures Follows(t1) && Trim(t1) == Join(items[1..]) + ")" + t
  {
    JoinUnfold(items);
    var p, j := Show(items[0]), Join(items[1..]);
    if |items| == 1 {
      t1 := ")" + t;
      CloseFollows(t);
      assert j == [];
      SplitAfterLast(p, t);
    } else {
      var rest := j + ")" + t;
      t1 := " " + rest;
      JoinShape(items[1..]);
      BodyShape(items[1..], t);
      assert rest[0] == j[0];
      SpaceFollows(rest);
      SplitAfterFirst(p, j, t);
    }
  }

  lemma SplitAfterLast(p: string, t: string)
    ensures p + ")" + t == p + (")" + t) && [] + ")" + t == ")" + t
  {
  }

  lemma SplitAfterFirst(p: string, j: string, t: string)
    ensures p + " " + j + ")" + t == p + (" " + (j + ")" + t))
  {
  }

  lemma CloseFollows(t: string)
    requires Follows(t)
    ensures Follows(")" + t) && Trim(")" + t) == ")" + t
  {
    var t1 := ")" + t;
    assert t1[0] == ')';
    assert t1[|t1| - 1] == if t == [] then ')' else t[|t| - 1];
    TrimOfTrimmed(t1);
  }

  lemma SpaceFollows(rest: string)
    requires rest != [] && Trimmed(rest) && rest[0] != '/'
    ensures Follows(" " + rest) && Trim(" " + rest) == rest
  {
    var t1 := " " + rest;
    assert t1[0] == ' ';
    assert t1[|t1| - 1] == rest[|rest| - 1];
    TrimLeadingSpace(rest);
  }

  lemma JoinUnfold(items: seq<Node>)
    requires items != []
    ensures |items| == 1 ==> Join(items) == Show(items[0]) && Join(items[1..]) == []
    ensures |items| > 1 ==> Join(items) == Show(items[0]) + " " + Join(items[1..])
  {
  }

  lemma ConsAppend(acc: seq<Node>, items: seq<Node>)
    requires items != []
    ensures (acc + [items[0]]) + items[1..] == acc + items
  {
  }

  /** The list loop over shown elements separated by spaces, up to `)`. */
  lemma {:induction false} ListReadsBack(items: seq<Node>, acc: seq<Node>, t: string)
    requires forall i | 0 <= i < |items| :: Showable(items[i])
    requires Follows(t)
    ensures Trimmed(Join(items) + ")" + t)
    ensures ParseList(Join(items) + ")" + t, acc) == Ok(Parsed(List(acc + items), Trim(t)))
    decreases items, 0
  {
    if items == [] {
      EmptyListReadsBack(acc, t);
    } else {
      var head := items[0];
      var t1 := JoinText(items, t);
      FirstElement(head, t1, acc);
      ListReadsBack(items[1..], acc + [head], t);
      ConsAppend(acc, items);
    }
  }

  lemma EmptyListReadsBack(acc: seq<Node>, t: string)
    requires Follows(t)
    ensures Trimmed(Join([]) + ")" + t)
    ensures ParseList(Join([]) + ")" + t, acc) == Ok(Parsed(List(acc + []), Trim(t)))
  {
    assert acc + [] == acc;
    assert Join([]) + ")" + t == ")" + t;
    ListClose(t, acc);
  }

  /** One element read by the loop: it is appended and the loop goes on at the trimmed rest. */
  lemma FirstElement(head: Node, t1: string, acc: seq<Node>)
    requires Showable(head) && Follows(t1)
    ensures Trimmed(Show(head) + t1) && Trimmed(Trim(t1))
    ensures ParseList(Show(head) + t1, acc) == ParseList(Trim(t1), acc + [head])
    decreases head, 2
  {
    TextOfShown(head, t1);
    ShowShape(head);
    ReadsBack(head, t1);
    GivesBackStep(Show(head) + t1, acc, head, t1);
  }

  lemma GivesBackStep(s: string, acc: seq<Node>, head: Node, t1: string)
    requires GivesBack(s, head, t1) && Trimmed(s) && s != [] && s[0] != ')'
    ensures Trimmed(Trim(t1))
    ensures ParseList(s, acc) == ParseList(Trim(t1), acc + [head])
  {
    var p := ParseOne(s).value;
    ListStep(s, acc, p);
    TrimIsInfix(t1);
  }

  // ---- error paths ----

  /** A string whose closing quote never comes fails in the string branch, with or without a final backslash. */
  lemma UnterminatedString(x: string)
    ensures Dispatch("\"" + Escaped(x)) == Err(MissingClosingQuote)
    ensures Dispatch("\"" + Escaped(x) + "\\") == Err(MissingClosingQuote)
  {
    var s := "\"" + Escaped(x);
    assert s[0] == '"' && s[1..] == Escaped(x) + [];
    DispatchString(s);
    StringFromUnclosed(s, 1, [], x, []);
    var s' := "\"" + Escaped(x) + "\\";
    assert s'[0] == '"' && s'[1..] == Escaped(x) + "\\";
    DispatchString(s');
    StringFromUnclosed(s', 1, [], x, "\\");
  }

  lemma {:induction false} StringFromUnclosed(s: string, i: nat, v: string, x: string, b: string)
    requires b == [] || b == "\\"
    requires i <= |s| && s[i..] == Escaped(x) + b
    ensures StringFrom(s, i, v) == Err(MissingClosingQuote)
    decreases x
  {
    if x == [] {
      assert s[i..] == b;
      if b != [] {
        assert s[i] == '\\' && i + 1 == |s|;
      }
    } else {
      var c := x[0];
      EscapeHead(x, b);
      if c == '"' || c == '\\' {
        assert s[i..] == ['\\', c] + (Escaped(x[1..]) + b);
        assert s[i] == '\\' && s[i + 1] == c;
        assert s[i + 2..] == Escaped(x[1..]) + b;
        StringFromUnclosed(s, i + 2, v + [c], x[1..], b);
      } else {
        assert s[i..] == [c] + (Escaped(x[1..]) + b);
        assert s[i] == c;
        assert s[i + 1..] == Escaped(x[1..]) + b;
        StringFromUnclosed(s, i + 1, v + [c], x[1..], b);
      }
    }
  }

  /** A list whose `)` never comes: the element read after the last element finds no text. */
  lemma UnclosedList(items: seq<Node>)
    requires forall i | 0 <= i < |items| :: Showable(items[i])
    ensures Parse("(" + Join(items)) == Err(EmptyInput)
  {
    ListUnclosed(items, []);
    OpenThen(Join(items));
  }

  /** `(` and trimmed text: parse_one runs the list loop on that text. */
  lemma OpenThen(j: string)
    requires Trimmed(j)
    ensures ParseOne("(" + j) == ParseList(j, [])
  {
    var s := "(" + j;
    assert s[0] == '(' && s[1..] == j;
    assert s[|s| - 1] == if j == [] then '(' else j[|j| - 1];
    TrimOfTrimmed(s);
    TrimOfTrimmed(j);
    DispatchList(s);
  }

  lemma {:induction false} ListUnclosed(items: seq<Node>, acc: seq<Node>)
    requires forall i | 0 <= i < |items| :: Showable(items[i])
    ensures Trimmed(Join(items)) && ParseList(Join(items), acc) == Err(EmptyInput)
    decreases items
  {
    if items == [] {
      assert Join(items) == [];
      NothingLeft(acc);
    } else {
      UnclosedStep(items, acc);
      ListUnclosed(items[1..], acc + [items[0]]);
    }
  }

  /** The list loop reads the first of the joined elements and goes on with the others. */
  lemma UnclosedStep(items: seq<Node>, acc: seq<Node>)
    requires items != [] && forall i | 0 <= i < |items| :: Showable(items[i])
    ensures Trimmed(Join(items)) && Trimmed(Join(items[1..]))
    ensures ParseList(Join(items), acc) == ParseList(Join(items[1..]), acc + [items[0]])
  {
    var t1 := JoinSplit(items);
    JoinShape(items);
    ElementThen(items[0], t1, Join(items[1..]), acc);
  }

  lemma ElementThen(head: Node, t1: string, rest: string, acc: seq<Node>)
    requires Showable(head) && Follows(t1) && Trim(t1) == rest
    ensures Trimmed(rest)
    ensures Trimmed(Show(head) + t1) && ParseList(Show(head) + t1, acc) == ParseList(rest, acc + [head])
  {
    FirstElement(head, t1, acc);
  }

  lemma NothingLeft(acc: seq<Node>)
    ensures ParseList([], acc) == Err(EmptyInput)
  {
    assert Trim([]) == [];
  }

  /** Joined elements, split after the first one. */
  lemma JoinSplit(items: seq<Node>) returns (t1: string)
    requires items != [] && forall i | 0 <= i < |items| :: Showable(items[i])
    ensures Join(items) == Show(items[0]) + t1
    ensures Follows(t1) && Trim(t1) == Join(items[1..])
  {
    JoinUnfold(items);
    if |items| == 1 {
      t1 := [];
      assert Trim(t1) == [];
    } else {
      var rest := Join(items[1..]);
      JoinShape(items[1..]);
      t1 := SpaceBefore(Show(items[0]), rest);
    }
  }

  /** A space between the first element and the rest keeps the rest readable after it. */
  lemma SpaceBefore(first: string, rest: string) returns (t1: string)
    requires rest != [] && Trimmed(rest) && rest[0] != '/'
    ensures t1 == " " + rest && first + " " + rest == first + t1
    ensures Follows(t1) && Trim(t1) == rest
  {
    t1 := " " + rest;
    SpaceFollows(rest);
  }

  /** Two expressions where one is expected: the second is left over. */
  lemma TwoExpressions(a: Node, b: Node)
    requires Showable(a) && Showable(b)
    ensures var r := Parse(Show(a) + " " + Show(b));
      r.Err? && r.error.ExtraTokens? && Trim(r.error.rest) == Show(b)
  {
    ShowShape(b);
    var t := SpaceBefore(Show(a), Show(b));
    ReadsBack(a, t);
  }

  /** A `)` where an expression is due reads as the empty symbol and consumes nothing. */
  lemma StrayClose(s: string)
    requires Trimmed(s) && s != [] && s[0] == ')'
    ensures ParseOne(s) == Ok(Parsed(Symbol(""), s))
    ensures Parse(s) == Err(ExtraTokens(s))
  {
    TrimOfTrimmed(s);
    DispatchAtom(s);
    assert TrimStart(s) == s;
    NoNumberAhead(s);
    AtomSymbol(s);
    assert NameLength(s) == 0 && s[..0] == [] && s[0..] == s;
  }

  // ---- rationals as written ----

  /** A `/` after an integer and then no number: 'expect second integer'. */
  lemma BadDenominator(p: int, name: string)
    requires -(MaxSafeInteger as int) <= p <= MaxSafeInteger && SymbolName(name)
    ensures Parse(JsString(p) + ("/" + name)) == Err(ExpectSecondInteger(name))
  {
    var s := JsString(p) + ("/" + name);
    SlashNameAtom(p, name);
    NumberStart(s[0]);
    TrimOfTrimmed(s);
    DispatchAtom(s);
  }

  /** The atom branch on `p/name`: the numerator is read, and the name after `/` is no number. */
  lemma SlashNameAtom(p: int, name: string)
    requires -(MaxSafeInteger as int) <= p <= MaxSafeInteger && SymbolName(name)
    ensures var s := JsString(p) + ("/" + name);
      && s != [] && Trimmed(s) && (IsDigit(s[0]) || s[0] == '-')
      && ParseAtom(s) == Err(ExpectSecondInteger(name))
  {
    var t1 := "/" + name;
    var s := JsString(p) + t1;
    assert t1[0] == '/' && t1[1..] == name && t1[|t1| - 1] == name[|name| - 1];
    NumberThen(p, t1);
    TrimOfTrimmed(t1);
    assert ParseFloat(name) == NotANumber by {
      SymbolIsNotANumber(name, []);
      assert name + [] == name;
    }
    NumberStart(s[0]);
    AtomBadDenominator(s, p);
  }

  lemma AtomBadDenominator(s: string, p: int)
    requires s != [] && !IsJsSpace(s[0]) && ParseFloat(s) == Integral(p)
    requires var rest := Trim(Drop(s, |JsString(p)|));
      rest != [] && rest[0] == '/' && ParseFloat(rest[1..]) == NotANumber
    ensures ParseAtom(s) == Err(ExpectSecondInteger(Trim(Drop(s, |JsString(p)|))[1..]))
  {
  }

  /**
   * White space before the `/` is trimmed away with the rest of the numerator's text,
   * so "p /q" reads as the rational p/q.
   */
  lemma SpaceBeforeSlash(p: int, q: int)
    requires -(MaxSafeInteger as int) <= p <= MaxSafeInteger && -(MaxSafeInteger as int) <= q <= MaxSafeInteger
    ensures Parse(JsString(p) + (" /" + JsString(q))) == Ok(Rational(p, q))
  {
    var jq := JsString(q);
    var t1 := " /" + jq;
    var s := JsString(p) + t1;
    SpacedNumerator(p, jq);
    SpacedDenominator(q);
    NumberStart(s[0]);
    AtomRational(s, p, q, []);
    assert Trim([]) == [];
    TrimOfTrimmed(s);
    DispatchAtom(s);
  }

  lemma SpacedNumerator(p: int, jq: string)
    requires -(MaxSafeInteger as int) <= p <= MaxSafeInteger && jq != [] && !IsJsSpace(jq[|jq| - 1])
    ensures var s := JsString(p) + (" /" + jq);
      && (IsDigit(s[0]) || s[0] == '-') && !IsJsSpace(s[|s| - 1])
      && ParseFloat(s) == Integral(p) && Trim(Drop(s, |JsString(p)|)) == "/" + jq
  {
    var u := "/" + jq;
    var t1 := " " + u;
    assert t1 == " /" + jq && t1[0] == ' ' && t1[|t1| - 1] == jq[|jq| - 1];
    NumberThen(p, t1);
    assert u[0] == '/' && u[|u| - 1] == jq[|jq| - 1];
    TrimLeadingSpace(u);
  }

  /** String(p) followed by text that cannot extend a number and does not end in white space. */
  lemma NumberThen(p: int, t1: string)
    requires -(MaxSafeInteger as int) <= p <= MaxSafeInteger
    requires t1 != [] && !(IsDigit(t1[0]) || t1[0] == '.' || t1[0] == 'e' || t1[0] == 'E')
    requires !IsJsSpace(t1[|t1| - 1])
    ensures var s := JsString(p) + t1;
      && (IsDigit(s[0]) || s[0] == '-') && !IsJsSpace(s[|s| - 1])
      && ParseFloat(s) == Integral(p) && Drop(s, |JsString(p)|) == t1
  {
    var jp := JsString(p);
    var s := jp + t1;
    JsStringShape(p);
    assert s[0] == jp[0] && s[|s| - 1] == t1[|t1| - 1];
    DropPrefix(jp, t1);
    ParseFloatOfJsString(p, t1);
  }

  lemma {:induction false} SpacedDenominator(q: int)
    requires -(MaxSafeInteger as int) <= q <= MaxSafeInteger
    ensures var jq := JsString(q);
      && jq != [] && !IsJsSpace(jq[|jq| - 1]) && ("/" + jq)[1..] == jq
      && ParseFloat(jq) == Integral(q) && Drop(jq, |jq|) == []
  {
    var jq := JsString(q);
    JsStringShape(q);
    var c := jq[|jq| - 1];
    assert !IsJsSpace(c) by {
      assert '0' <= c <= '9';
    }
    assert ("/" + jq)[1..] == jq;
    assert Drop(jq, |jq|) == [];
    assert ParseFloat(jq) == Integral(q) by {
      assert jq + [] == jq;
      ParseFloatOfJsString(q, []);
    }
  }

  /**
   * White space after the `/` is skipped by parseFloat but not by the slice that follows
   * it, which drops as many characters as the denominator has: the denominator's last
   * character is left over.
   */
  lemma SpaceAfterSlash(p: int, q: int)
    requires -(MaxSafeInteger as int) <= p <= MaxSafeInteger && -(MaxSafeInteger as int) <= q <= MaxSafeInteger
    ensures var jq := JsString(q);
      Parse(JsString(p) + ("/ " + jq)) == Err(ExtraTokens([jq[|jq| - 1]]))
  {
    var jq := JsString(q);
    var t1 := "/ " + jq;
    var s := JsString(p) + t1;
    var last := [jq[|jq| - 1]];
    SlashSpaceParts(p, jq);
    ShiftedDenominator(q);
    NumberStart(s[0]);
    AtomRational(s, p, q, last);
    TrimOfTrimmed(last);
    TrimOfTrimmed(s);
    DispatchAtom(s);
  }

  lemma SlashSpaceParts(p: int, jq: string)
    requires -(MaxSafeInteger as int) <= p <= MaxSafeInteger && jq != [] && IsDigit(jq[|jq| - 1])
    ensures var s := JsString(p) + ("/ " + jq);
      && (IsDigit(s[0]) || s[0] == '-') && !IsJsSpace(s[|s| - 1])
      && ParseFloat(s) == Integral(p) && Trim(Drop(s, |JsString(p)|)) == "/ " + jq
      && ("/ " + jq)[1..] == " " + jq
  {
    var t1 := "/ " + jq;
    assert t1[0] == '/' && t1[|t1| - 1] == jq[|jq| - 1] && t1[1..] == " " + jq;
    NumberThen(p, t1);
    TrimOfTrimmed(t1);
  }

  lemma ShiftedDenominator(q: int)
    requires -(MaxSafeInteger as int) <= q <= MaxSafeInteger
    ensures var jq := JsString(q);
      && jq != [] && IsDigit(jq[|jq| - 1]) && !IsJsSpace(jq[|jq| - 1])
      && ParseFloat(" " + jq) == Integral(q) && Drop(" " + jq, |jq|) == [jq[|jq| - 1]]
  {
    var jq := JsString(q);
    JsStringShape(q);
    assert ParseFloat(jq) == Integral(q) by {
      ParseFloatOfJsString(q, []);
      assert jq + [] == jq;
    }
    ParseFloatSkipsSpace(jq);
    LastLeftOver(jq);
  }

  /** Dropping as many characters as x has from a space and x leaves x's last character. */
  lemma LastLeftOver(x: string)
    requires x != []
    ensures Drop(" " + x, |x|) == [x[|x| - 1]]
  {
    assert (" " + x)[|x|..] == [x[|x| - 1]];
  }

  // ---- evaluation ----

  /** `+` fails at its first argument that is not an int, whatever comes after it. */
  lemma {:induction false} FirstNonInt(args: seq<Node>, k: nat)
    requires k < |args| && !args[k].Int?
    requires forall j | 0 <= j < k :: args[j].Int?
    ensures Sum(args) == Err(CannotAdd(args[k]))
    decreases k
  {
    if k > 0 {
      FirstNonInt(args[1..], k - 1);
    }
  }

  /** `+` over two runs of ints is the sum of their sums. */
  lemma {:induction false} SumAppend(xs: seq<Node>, ys: seq<Node>)
    requires forall i | 0 <= i < |xs| :: xs[i].Int?
    requires forall i | 0 <= i < |ys| :: ys[i].Int?
    ensures Sum(xs + ys) == Ok(Int(Sum(xs).value.value + Sum(ys).value.value))
    decreases xs
  {
    if xs == [] {
      assert xs + ys == ys;
    } else {
      assert (xs + ys)[1..] == xs[1..] + ys;
      SumAppend(xs[1..], ys);
    }
  }

  /**
   * A list evaluates exactly when its head's value is `+` and every argument is an int,
   * or its head's value is one of the two inherited members of func_dict that return
   * without throwing; a string, keyword or symbol head spelled `+` all name the same
   * function. Every other inherited member throws.
   */
  lemma EvaluatesExactly(head: Node, args: seq<Node>)
    ensures Evaluated(List([head] + args)).Ok?
      <==> || (FunctionKey(head) == Some("+") && forall i | 0 <= i < |args| :: args[i].Int?)
           || FunctionKey(head) == Some("constructor")
           || FunctionKey(head) == Some("toString")
    ensures FunctionKey(head) == Some("+") ==> Evaluated(List([head] + args)) == AsValue(Sum(args))
    ensures FunctionKey(head) == Some("constructor") ==> Evaluated(List([head] + args)) == Ok(Tree(List([head] + args)))
    ensures FunctionKey(head) == Some("toString") ==> Evaluated(List([head] + args)) == Ok(Bare("[object Undefined]"))
    ensures && FunctionKey(head).Some? && FunctionKey(head).value in InheritedNames
            && FunctionKey(head) != Some("constructor") && FunctionKey(head) != Some("toString")
      ==> Evaluated(List([head] + args)) == Err(InheritedMember(FunctionKey(head).value))
  {
    InheritedKeys();
    var ast := List([head] + args);
    assert ast.items[0] == head && ast.items[1..] == args;
    var key := FunctionKey(head);
    if key == Some("+") {
      assert Evaluated(ast) == AsValue(Sum(args));
    } else if key.Some? && key.value in InheritedNames {
      assert Evaluated(ast) == CallInherited(key.value, ast);
    } else {
      assert Evaluated(ast) == Err(UndefinedFunction(head));
    }
  }

  /**
   * `+` is not a name func_dict inherits (every inherited name is longer), while
   * `constructor` and `toString` are two different inherited names.
   */
  lemma InheritedKeys()
    ensures "+" !in InheritedNames
    ensures "constructor" in InheritedNames && "toString" in InheritedNames
    ensures "+" != "constructor" && "+" != "toString" && "constructor" != "toString"
  {
    assert forall name | name in InheritedNames :: |name| > 1;
    assert |"constructor"| != |"toString"|;
  }

  /** The string, the keyword and the symbol `+` all name the one function there is. */
  lemma PlusKey(head: Node)
    ensures FunctionKey(head) == Some("+") <==> head in {Str("+"), Keyword("+"), Symbol("+")}
  {
  }

  /** Evaluating the examples of src2/eval.spec.ts. */
  lemma EvalExamples()
    ensures Evaluated(List([Symbol("+"), Int(2), Int(3)])) == Ok(Tree(Int(5)))
    ensures Evaluated(List([Symbol("+"), Str("app"), Str("le")])) == Err(CannotAdd(Str("app")))
    ensures Evaluated(List([Symbol("concat"), Str("app"), Str("le")])) == Err(UndefinedFunction(Symbol("concat")))
    ensures Evaluated(List([Symbol("toString")])) == Ok(Bare("[object Undefined]"))
    ensures Evaluated(List([Symbol("constructor"), Int(1)])) == Ok(Tree(List([Symbol("constructor"), Int(1)])))
    ensures Evaluated(List([Symbol("valueOf")])) == Err(InheritedMember("valueOf"))
  {
    var sum := [Symbol("+"), Int(2), Int(3)];
    assert sum[1..] == [Int(2), Int(3)];
    assert [Int(2), Int(3)][1..] == [Int(3)];
    var strings := [Symbol("+"), Str("app"), Str("le")];
    assert strings[1..] == [Str("app"), Str("le")];
  }
}
