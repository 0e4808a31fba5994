/**
 * What the third generation's reader (src3/parse.ts) accepts, stated about the functions
 * the `Parser` methods are proved to compute: where each scanner stops, how quoted text is
 * read back, what the list loop keeps, the error cases, and a printer whose output reads
 * back as the tree it printed.
 */
module Parse3Laws {
  import opened Results
  import opened Text
  import opened Ast3
  import opened Parse3

  /** x occurs in s at offset i. */
  predicate At(s: string, i: nat, x: string)
    ensures At(s, i, x) ==> i + |x| <= |s|
    decreases x
  {
    if x == [] then i <= |s| else i < |s| && s[i] == x[0] && At(s, i + 1, x[1..])
  }

  /** An occurrence of x is x, character by character, from offset i on. */
  lemma {:induction false} AtIndex(s: string, i: nat, x: string)
    requires At(s, i, x)
    ensures i + |x| <= |s| && forall k | 0 <= k < |x| :: s[i + k] == x[k]
    decreases x
  {
    if x != [] {
      AtIndex(s, i + 1, x[1..]);
      assert forall k | 1 <= k < |x| :: x[k] == x[1..][k - 1];
    }
  }

  /** An occurrence of x + y is an occurrence of x followed by one of y. */
  lemma {:induction false} AtSplit(s: string, i: nat, x: string, y: string)
    requires At(s, i, x + y)
    ensures At(s, i, x) && At(s, i + |x|, y)
    decreases x
  {
    if x == [] {
      assert x + y == y;
    } else {
      assert (x + y)[0] == x[0] && (x + y)[1..] == x[1..] + y;
      AtSplit(s, i + 1, x[1..], y);
    }
  }

  /** What follows offset i occurs at i. */
  lemma {:induction false} AtSuffix(s: string, i: nat)
    requires i <= |s|
    ensures At(s, i, s[i..])
    decreases |s| - i
  {
    if i < |s| {
      AtSuffix(s, i + 1);
      assert s[i..][1..] == s[i + 1..];
    }
  }

  /** A one-character occurrence is that character. */
  lemma AtChar(s: string, i: nat, c: char)
    requires At(s, i, [c])
    ensures i < |s| && s[i] == c
  {
  }

  // ---- the scanners stop exactly where their descriptions say ----

  /** parse_whitespace stops at the first character from i on that is not a blank, or at the end. */
  lemma {:induction false} BlankEndIsFirstNonBlank(s: string, i: nat, j: nat)
    requires i <= j <= |s|
    requires forall k | i <= k < j :: IsBlank(s[k])
    requires j == |s| || !IsBlank(s[j])
    ensures BlankEnd(s, i) == j
    decreases j - i
  {
    if i < j {
      BlankEndIsFirstNonBlank(s, i + 1, j);
    }
  }

  /** parse_integer stops at the first non-digit from i on, or at the end. */
  lemma {:induction false} DigitEndIsRunEnd(s: string, i: nat, j: nat)
    requires i <= j <= |s|
    requires forall k | i <= k < j :: IsDigit(s[k])
    requires j == |s| || !IsDigit(s[j])
    ensures DigitEnd(s, i) == j
    decreases j - i
  {
    if i < j {
      DigitEndIsRunEnd(s, i + 1, j);
    }
  }

  /** parse_symbol stops at the first blank or `)` from i on, or at the end. */
  lemma {:induction false} SymbolEndIsFirstStop(s: string, i: nat, j: nat)
    requires i <= j <= |s|
    requires forall k | i <= k < j :: SymbolChar(s[k])
    requires j == |s| || !SymbolChar(s[j])
    ensures SymbolEnd(s, i) == j
    decreases j - i
  {
    if i < j {
      SymbolEndIsFirstStop(s, i + 1, j);
    }
  }

  /** A digit run that is the decimal text of n is read as n, and nothing after it is taken. */
  lemma IntegerReadsDecimal(s: string, i: nat, n: nat)
    requires At(s, i, Decimal(n))
    requires var e := i + |Decimal(n)|; e == |s| || !IsDigit(s[e])
    ensures DigitEnd(s, i) == i + |Decimal(n)|
    ensures DigitsValue(s[i..DigitEnd(s, i)]) == n
  {
    DigitRunAt(s, i, Decimal(n), i + |Decimal(n)|);
    DigitsValueOfDecimal(n);
  }

  /** A run of digits d at i with no digit after it is exactly what parse_integer takes. */
  lemma DigitRunAt(s: string, i: nat, d: string, e: nat)
    requires AllDigits(d) && At(s, i, d)
    requires e == i + |d| && (e >= |s| || !IsDigit(s[e]))
    ensures DigitEnd(s, i) == e && s[i..e] == d
  {
    AtIndex(s, i, d);
    assert forall k | i <= k < i + |d| :: s[k] == d[k - i];
    assert s[i..i + |d|] == d;
    DigitEndIsRunEnd(s, i, i + |d|);
  }

  /**
   * Digits t at i, a point right after them and digits d after it, with no digit after
   * d, are read as the float whose whole part is the value of t and whose fraction is d
   * as decimal places; parse dispatches to parse_number there.
   */
  lemma FloatReadsDigits(s: string, i: nat, t: string, d: string)
    requires t != [] && AllDigits(t) && AllDigits(d)
    requires At(s, i, t) && i + |t| < |s| && s[i + |t|] == '.' && At(s, i + |t| + 1, d)
    requires i + |t| + 1 + |d| >= |s| || !IsDigit(s[i + |t| + 1 + |d|])
    ensures ParseAt(s, i) == Ok((Float(DigitsValue(t) as real + Fraction(d)), i + |t| + 1 + |d|))
  {
    var j, k := i + |t|, i + |t| + 1 + |d|;
    DigitRunAt(s, i, t, j);
    DigitRunAt(s, j + 1, d, k);
    assert IsDigit(s[i]) by {
      assert s[i] == s[i..j][0] == t[0];
    }
    FloatAt(s, i, j, k, t, d);
    NumberDispatch(s, i);
  }

  /** An occurrence of t, a point and d: t at i, the point right after it, then d. */
  lemma AtFloatParts(s: string, i: nat, t: string, d: string)
    requires At(s, i, t + "." + d)
    ensures At(s, i, t) && i + |t| < |s| && s[i + |t|] == '.' && At(s, i + |t| + 1, d)
  {
    AtSplit(s, i, t + ".", d);
    AtSplit(s, i, t, ".");
    AtChar(s, i + |t|, '.');
  }

  /**
   * parse_number where the digits t run up to j, a point follows, and the digits d run
   * from there up to k.
   */
  lemma FloatAt(s: string, i: nat, j: nat, k: nat, t: string, d: string)
    requires i < |s| && IsDigit(s[i]) && j < |s| && s[j] == '.'
    requires DigitEnd(s, i) == j && DigitEnd(s, j + 1) == k
    requires s[i..j] == t && s[j + 1..k] == d && AllDigits(d)
    ensures NumberAt(s, i) == (Float(DigitsValue(t) as real + Fraction(d)), k)
  {
  }

  /** parse on a digit is parse_number there. */
  lemma NumberDispatch(s: string, i: nat)
    requires i < |s| && IsDigit(s[i])
    ensures ParseAt(s, i) == Ok(NumberAt(s, i))
  {
    BlankEndIsFirstNonBlank(s, i, i);
    var c := s[i];
    assert c != '"' && c != '\'' && c != '[' && c != '(' by {
      assert '0' <= c <= '9';
    }
  }

  // ---- quoted text ----

  /** How a writer puts c between quotes q: the quote and the backslash get a backslash. */
  function EscapeChar(c: char, q: char): string {
    if c == q || c == '\\' then ['\\', c] else [c]
  }

  /** The text v with every character escaped for quotes q. */
  function Escape(v: string, q: char): (e: string)
    ensures |v| <= |e|
  {
    if v == [] then [] else EscapeChar(v[0], q) + Escape(v[1..], q)
  }

  /** Text with neither the quote nor a backslash is its own escaped form. */
  lemma {:induction false} EscapePlain(v: string, q: char)
    requires forall k | 0 <= k < |v| :: v[k] != q && v[k] != '\\'
    ensures Escape(v, q) == v
    decreases v
  {
    if v != [] {
      EscapePlain(v[1..], q);
      assert [v[0]] + v[1..] == v;
    }
  }

  /** Escaping works character by character, so it distributes over concatenation. */
  lemma {:induction false} EscapeConcat(u: string, v: string, q: char)
    ensures Escape(u + v, q) == Escape(u, q) + Escape(v, q)
    decreases u
  {
    if u != [] {
      assert (u + v)[1..] == u[1..] + v;
      EscapeConcat(u[1..], v, q);
    } else {
      assert u + v == v;
    }
  }

  /**
   * parse_string reads an escaped text back up to the closing quote and leaves the offset
   * after it; with no closing quote the text runs to the end of the input, without error.
   */
  lemma {:induction false} StringLoopReadsEscaped(s: string, q: char, i: nat, v: string, value: string, e: nat)
    requires q == '"' || q == '\''
    requires At(s, i, Escape(v, q))
    requires e == i + |Escape(v, q)| && (e == |s| || s[e] == q)
    ensures StringLoop(s, q, i, value) == (value + v, if e == |s| then e else e + 1)
    decreases v
  {
    if v == [] {
      assert value + v == value;
    } else {
      var n := EscapedStep(s, q, i, v);
      EscapedCharacter(s, q, i, v[0], value);
      StringLoopReadsEscaped(s, q, n, v[1..], value + [v[0]], e);
      assert value + [v[0]] + v[1..] == value + v;
    }
  }

  /** The first escaped character of v at i, and the rest of the escaped text after it. */
  lemma EscapedStep(s: string, q: char, i: nat, v: string) returns (n: nat)
    requires v != [] && At(s, i, Escape(v, q))
    ensures n == i + |EscapeChar(v[0], q)| && At(s, i, EscapeChar(v[0], q)) && At(s, n, Escape(v[1..], q))
    ensures n + |Escape(v[1..], q)| == i + |Escape(v, q)|
  {
    var ec := EscapeChar(v[0], q);
    var rest := Escape(v[1..], q);
    assert Escape(v, q) == ec + rest;
    AtSplit(s, i, ec, rest);
    n := i + |ec|;
  }

  /** One escaped character is read back as itself, and the loop goes on after it. */
  lemma EscapedCharacter(s: string, q: char, i: nat, c: char, value: string)
    requires q == '"' || q == '\''
    requires At(s, i, EscapeChar(c, q))
    ensures StringLoop(s, q, i, value) == StringLoop(s, q, i + |EscapeChar(c, q)|, value + [c])
  {
    var ec := EscapeChar(c, q);
    assert s[i] == ec[0];
    if |ec| == 2 {
      assert s[i + 1] == ec[1];
    }
  }

  // ---- the error cases ----

  /** Input that is empty or only blanks from the offset on is incomplete. */
  lemma BlankInputIsIncomplete(s: string, i: nat)
    requires forall k | i <= k < |s| :: IsBlank(s[k])
    ensures ParseAt(s, i) == Err(IncompleteInput(if i <= |s| then |s| else i, None))
    ensures ParseText(s, i) == Err(IncompleteInput(if i <= |s| then |s| else i, None))
  {
    if i <= |s| {
      BlankEndIsFirstNonBlank(s, i, |s|);
    }
  }

  /**
   * A list whose closing character never comes is incomplete. When nothing after the
   * opener starts a nested list or ends a list, the error comes from the list loop itself:
   * it names the missing character, or names none when only blanks were left where the
   * loop expected an element.
   */
  lemma {:induction false} UnclosedListIsIncomplete(s: string, i: nat, close: char, items: seq<Ast>)
    requires close == ')' || close == ']'
    requires forall k | i <= k < |s| :: s[k] != close && s[k] != ')' && s[k] != '(' && s[k] != '['
    ensures ListBody(s, i, close, items).Err?
    ensures ListBody(s, i, close, items).error.IncompleteInput?
    ensures ListBody(s, i, close, items).error.missing in {None, Some(close)}
    decreases |s| + 1 - i
  {
    if i < |s| {
      var j := BlankEnd(s, i);
      match ParseAt(s, i)
      case Err(e) =>
        assert j >= |s|;
      case Ok((a, k)) =>
        assert j < |s| && i < k by {
          if j < |s| && !(s[j] == '"' || s[j] == '\'' || IsDigit(s[j])) {
            assert SymbolEnd(s, j) > j;
          }
        }
        UnclosedListIsIncomplete(s, AfterElement(s, k), close, items + [a]);
    }
  }

  // ---- the list loop ----

  /**
   * parse_list_body appends each element it reads after the ones before: what it returns
   * from a non-empty start is that start followed by what it returns from nothing.
   */
  lemma {:induction false} ListBodyAppends(s: string, i: nat, close: char, items: seq<Ast>)
    ensures ListBody(s, i, close, items) ==
      match ListBody(s, i, close, [])
      case Ok((xs, k)) => Ok((items + xs, k))
      case Err(e) => Err(e)
    decreases |s| + 1 - i
  {
    if i < |s| && s[i] == close {
      assert items + [] == items;
    } else if i < |s| {
      match ParseAt(s, i)
      case Err(e) =>
      case Ok((a, k)) =>
        var k2 := AfterElement(s, k);
        if k2 != i {
          ListBodyStep(s, i, close, items, a, k);
          ListBodyStep(s, i, close, [], a, k);
          assert [] + [a] == [a];
          ListBodyAppends(s, k2, close, items + [a]);
          ListBodyAppends(s, k2, close, [a]);
          match ListBody(s, k2, close, [])
          case Ok((xs, _)) =>
            assert (items + [a]) + xs == items + ([a] + xs);
          case Err(_) =>
        }
    }
  }

  // ---- a printer whose output reads back ----

  /**
   * A name parse_symbol reads whole wherever it stands: not empty, no blank or `)` in it,
   * and not starting like a number, a string, a list or a separating comma.
   */
  predicate SymbolName(n: string) {
    && n != []
    && (forall k | 0 <= k < |n| :: !IsBlank(n[k]) && n[k] != ')')
    && !IsDigit(n[0]) && n[0] != '"' && n[0] != '\'' && n[0] != '[' && n[0] != '(' && n[0] != ','
  }

  /**
   * The trees the printer below writes so that they read back: integers that are natural
   * numbers, any string, symbols with a readable name, and lists and arrays of such trees,
   * where an array holds no symbol directly (a symbol would swallow the `,` or `]` after it).
   */
  predicate Printable(a: Ast) {
    match a
    case Integer(v) => 0.0 <= v && v.Floor as real == v
    case Float(_) => false
    case Str(_) => true
    case Symbol(n) => SymbolName(n)
    case List(items) => forall j | 0 <= j < |items| :: Printable(items[j])
    case Array(items) => forall j | 0 <= j < |items| :: Printable(items[j]) && !items[j].Symbol?
  }

  /** The text of a printable tree: lists with spaces between elements, arrays with commas. */
  function Print(a: Ast): string
    requires Printable(a)
  {
    match a
    case Integer(v) => Decimal(v.Floor as nat)
    case Float(_) => assert false; ""
    case Str(t) => "\"" + Escape(t, '"') + "\""
    case Symbol(n) => n
    case List(items) => "(" + Joined(Prints(items), ' ', ')')
    case Array(items) => "[" + Joined(Prints(items), ',', ']')
  }

  /** The texts of the elements of a list or array, in order. */
  function Prints(items: seq<Ast>): (texts: seq<string>)
    requires forall j | 0 <= j < |items| :: Printable(items[j])
    ensures |texts| == |items|
  {
    if items == [] then [] else [Print(items[0])] + Prints(items[1..])
  }

  /** Element texts after the opener, with separators between them, and the closing character. */
  function Joined(texts: seq<string>, sep: char, close: char): string {
    if texts == [] then [close]
    else if |texts| == 1 then texts[0] + [close]
    else texts[0] + [sep] + Joined(texts[1..], sep, close)
  }

  /** What may follow a printed tree at offset e so that it reads back unchanged. */
  predicate EndsAt(a: Ast, s: string, e: nat) {
    e < |s| ==>
      && (a.Integer? ==> !IsDigit(s[e]) && s[e] != '.')
      && (a.Symbol? ==> IsBlank(s[e]) || s[e] == ')')
  }

  /** A printed tree never starts with a blank, a comma or `)`, and starts with `]` only as a symbol. */
  lemma PrintStart(a: Ast)
    requires Printable(a)
    ensures Print(a) != []
    ensures var c := Print(a)[0];
      !IsBlank(c) && c != ')' && c != ',' && (c == ']' ==> a.Symbol?)
  {
    match a
    case Integer(v) => assert IsDigit(Print(a)[0]);
    case Str(t) => assert Print(a)[0] == '"';
    case Symbol(n) =>
    case List(items) => assert Print(a)[0] == '(';
    case Array(items) => assert Print(a)[0] == '[';
  }

  /** The text printed for a tree reads back as that tree. */
  lemma PrintReadsBack(a: Ast)
    requires Printable(a)
    ensures ParseText(Print(a), 0) == Ok(a)
  {
    var s := Print(a);
    AtSuffix(s, 0);
    assert s[0..] == s;
    PrintedReadsBack(s, 0, a);
  }

  /** A printed tree at offset i, followed by what EndsAt allows, is read as that tree, up to its end. */
  lemma {:induction false} PrintedReadsBack(s: string, i: nat, a: Ast)
    requires Printable(a) && At(s, i, Print(a)) && EndsAt(a, s, i + |Print(a)|)
    ensures ParseAt(s, i) == Ok((a, i + |Print(a)|))
    decreases a, 2
  {
    match a
    case Integer(v) => IntegerAt(s, i, v);
    case Str(t) => StringAt(s, i, t);
    case Symbol(n) => SymbolAt(s, i, n);
    case List(items) => ListAt(s, i, a, '(', ' ', ')');
    case Array(items) => ListAt(s, i, a, '[', ',', ']');
  }

  /** A printed list or array is read back by the list loop after its opener. */
  lemma {:induction false} ListAt(s: string, i: nat, a: Ast, open: char, sep: char, close: char)
    requires (a.List? && open == '(' && sep == ' ' && close == ')') || (a.Array? && open == '[' && sep == ',' && close == ']')
    requires Printable(a) && At(s, i, Print(a))
    ensures ParseAt(s, i) == Ok((a, i + |Print(a)|))
    decreases a, 1
  {
    ListElements(s, i, a, open, sep, close);
    OpenerAt(s, i, close, a.items, i + |Print(a)|);
  }

  /** After the opener of a printed list or array, the list loop reads its elements up to its end. */
  lemma {:induction false} ListElements(s: string, i: nat, a: Ast, open: char, sep: char, close: char)
    requires (a.List? && open == '(' && sep == ' ' && close == ')') || (a.Array? && open == '[' && sep == ',' && close == ']')
    requires Printable(a) && At(s, i, Print(a))
    ensures i < |s| && s[i] == open && ListBody(s, i + 1, close, []) == Ok((a.items, i + |Print(a)|))
    decreases a, 0
  {
    var texts := Prints(a.items);
    var j := Joined(texts, sep, close);
    assert Print(a) == [open] + j;
    OpenerSplit(s, i, open, j);
    ElementsPrintable(a);
    ElementsPrintAs(a.items, close);
    ItemsReadBack(s, i + 1, a.items, texts, sep, close, []);
    assert [] + a.items == a.items;
  }

  lemma OpenerSplit(s: string, i: nat, c: char, j: string)
    requires At(s, i, [c] + j)
    ensures i < |s| && s[i] == c && At(s, i + 1, j)
  {
    AtSplit(s, i, [c], j);
    AtChar(s, i, c);
  }

  lemma ElementsPrintable(a: Ast)
    requires (a.List? || a.Array?) && Printable(a)
    ensures forall k | 0 <= k < |a.items| :: Printable(a.items[k]) && (a.Array? ==> !a.items[k].Symbol?)
  {
  }

  /** parse on `(` or `[` whose list loop returns the elements and an offset. */
  lemma OpenerAt(s: string, i: nat, close: char, items: seq<Ast>, k: nat)
    requires i < |s| && ((s[i] == '(' && close == ')') || (s[i] == '[' && close == ']'))
    requires ListBody(s, i + 1, close, []) == Ok((items, k))
    ensures ParseAt(s, i) == Ok((if s[i] == '(' then List(items) else Array(items), k))
  {
    BlankEndIsFirstNonBlank(s, i, i);
  }

  lemma IntegerAt(s: string, i: nat, v: real)
    requires Printable(Integer(v)) && At(s, i, Print(Integer(v)))
    requires EndsAt(Integer(v), s, i + |Print(Integer(v))|)
    ensures ParseAt(s, i) == Ok((Integer(v), i + |Print(Integer(v))|))
  {
    var n := v.Floor as nat;
    assert s[i] == Decimal(n)[0];
    IntegerReadsDecimal(s, i, n);
    BlankEndIsFirstNonBlank(s, i, i);
  }

  lemma StringAt(s: string, i: nat, t: string)
    requires At(s, i, Print(Str(t)))
    ensures ParseAt(s, i) == Ok((Str(t), i + |Print(Str(t))|))
  {
    QuotedReadsBack(s, i, '"', t);
  }

  /** Text t escaped for quotes q and put between them is read back as t, up to the closing quote. */
  lemma QuotedReadsBack(s: string, i: nat, q: char, t: string)
    requires q == '"' || q == '\''
    requires At(s, i, [q] + Escape(t, q) + [q])
    ensures ParseAt(s, i) == Ok((Str(t), i + |Escape(t, q)| + 2))
  {
    var e := Escape(t, q);
    var n := QuotedSplit(s, i, q, e);
    StringLoopReadsEscaped(s, q, i + 1, t, "", n);
    assert "" + t == t;
    QuoteAt(s, i, q, t, n);
  }

  /** The pieces of q + e + q at offset i. */
  lemma QuotedSplit(s: string, i: nat, q: char, e: string) returns (n: nat)
    requires At(s, i, [q] + e + [q])
    ensures n == i + 1 + |e| && s[i] == q && At(s, i + 1, e) && n < |s| && s[n] == q
  {
    AtSplit(s, i, [q] + e, [q]);
    AtSplit(s, i, [q], e);
    n := i + 1 + |e|;
    AtChar(s, i, q);
    AtChar(s, n, q);
  }

  /** parse on a quote whose string loop reads t and ends at n + 1. */
  lemma QuoteAt(s: string, i: nat, q: char, t: string, n: nat)
    requires q == '"' || q == '\''
    requires i < |s| && s[i] == q && StringLoop(s, q, i + 1, "") == (t, n + 1)
    ensures ParseAt(s, i) == Ok((Str(t), n + 1))
  {
    BlankEndIsFirstNonBlank(s, i, i);
  }

  lemma SymbolAt(s: string, i: nat, n: string)
    requires SymbolName(n) && At(s, i, n) && EndsAt(Symbol(n), s, i + |n|)
    ensures ParseAt(s, i) == Ok((Symbol(n), i + |n|))
  {
    AtIndex(s, i, n);
    assert forall k | i <= k < i + |n| :: s[k] == n[k - i];
    assert s[i..i + |n|] == n;
    SymbolEndIsFirstStop(s, i, i + |n|);
    BlankEndIsFirstNonBlank(s, i, i);
  }

  /** texts are the printed elements of a list (closed by `)`) or an array (closed by `]`), in order. */
  predicate PrintsAs(items: seq<Ast>, texts: seq<string>, close: char)
    decreases items
  {
    |texts| == |items| &&
    (items != [] ==>
      && Printable(items[0]) && (close == ']' ==> !items[0].Symbol?) && texts[0] == Print(items[0])
      && PrintsAs(items[1..], texts[1..], close))
  }

  /** The elements of a printable list or array and their texts, element by element. */
  lemma {:induction false} ElementsPrintAs(items: seq<Ast>, close: char)
    requires forall k | 0 <= k < |items| :: Printable(items[k]) && (close == ']' ==> !items[k].Symbol?)
    ensures PrintsAs(items, Prints(items), close)
    decreases items
  {
    if items != [] {
      ElementsPrintAs(items[1..], close);
    }
  }

  /** The elements of a list or array, as Joined writes them, are read back in order, up to the closing character. */
  lemma {:induction false} ItemsReadBack(s: string, i: nat, items: seq<Ast>, texts: seq<string>, sep: char, close: char, acc: seq<Ast>)
    requires (sep == ' ' && close == ')') || (sep == ',' && close == ']')
    requires PrintsAs(items, texts, close)
    requires At(s, i, Joined(texts, sep, close))
    ensures ListBody(s, i, close, acc) == Ok((acc + items, i + |Joined(texts, sep, close)|))
    decreases items, 3
  {
    if items == [] {
      assert s[i] == close && acc + [] == acc;
    } else if |items| == 1 {
      var e := JoinedSplit(s, i, texts, sep, close);
      LastItem(s, i, items[0], sep, close, acc);
      assert [items[0]] == items;
    } else {
      MoreItems(s, i, items, texts, sep, close, acc);
    }
  }

  /** ItemsReadBack for two elements or more: the first, a separator, then the rest. */
  lemma {:induction false} MoreItems(s: string, i: nat, items: seq<Ast>, texts: seq<string>, sep: char, close: char, acc: seq<Ast>)
    requires (sep == ' ' && close == ')') || (sep == ',' && close == ']')
    requires PrintsAs(items, texts, close) && |items| > 1
    requires At(s, i, Joined(texts, sep, close))
    ensures ListBody(s, i, close, acc) == Ok((acc + items, i + |Joined(texts, sep, close)|))
    decreases items, 2
  {
    var e := JoinedSplit(s, i, texts, sep, close);
    MoreItemsAt(s, i, e, items, texts, sep, close, acc, i + |Joined(texts, sep, close)|);
  }

  /** MoreItems once the first element's text and the separator after it are located. */
  lemma {:induction false} MoreItemsAt(s: string, i: nat, e: nat, items: seq<Ast>, texts: seq<string>, sep: char, close: char, acc: seq<Ast>, k: nat)
    requires (sep == ' ' && close == ')') || (sep == ',' && close == ']')
    requires PrintsAs(items, texts, close) && |items| > 1
    requires e == i + |texts[0]| && At(s, i, texts[0]) && e < |s| && s[e] == sep
    requires At(s, e + 1, Joined(texts[1..], sep, close))
    requires k == e + 1 + |Joined(texts[1..], sep, close)|
    ensures ListBody(s, i, close, acc) == Ok((acc + items, k))
    decreases items, 1
  {
    ItemsReadBack(s, e + 1, items[1..], texts[1..], sep, close, acc + [items[0]]);
    ConsAppend(acc, items);
    SameItems(ListBody(s, e + 1, close, acc + [items[0]]), acc + [items[0]] + items[1..], acc + items, k);
    assert items[1..][0] == items[1];
    NextItem(s, i, e, items[0], items[1], texts[1..], sep, close, acc, acc + items, k);
  }

  /** The outcome of the list loop, rewritten with equal items. */
  lemma SameItems(r: Result<(seq<Ast>, nat), ParseError>, a: seq<Ast>, b: seq<Ast>, k: nat)
    requires r == Ok((a, k)) && a == b
    ensures r == Ok((b, k))
  {
  }

  lemma ConsAppend(acc: seq<Ast>, items: seq<Ast>)
    requires items != []
    ensures (acc + [items[0]]) + items[1..] == acc + items
  {
  }

  /** The last element, followed by the closer: the list loop ends after the closer. */
  lemma {:induction false} LastItem(s: string, i: nat, x: Ast, sep: char, close: char, acc: seq<Ast>)
    requires (sep == ' ' && close == ')') || (sep == ',' && close == ']')
    requires Printable(x) && (close == ']' ==> !x.Symbol?) && At(s, i, Print(x))
    requires var e := i + |Print(x)|; e < |s| && s[e] == close
    ensures ListBody(s, i, close, acc) == Ok((acc + [x], i + |Print(x)| + 1))
    decreases x, 4
  {
    var e := i + |Print(x)|;
    ElementRead(s, i, e, x, sep, close);
    BlankEndIsFirstNonBlank(s, e, e);
    ListBodyStep(s, i, close, acc, x, e);
  }

  /** An element followed by a separator and more elements: the list loop goes on at the next one. */
  lemma {:induction false} NextItem(s: string, i: nat, e: nat, x: Ast, y: Ast, rest: seq<string>, sep: char, close: char, acc: seq<Ast>, ys: seq<Ast>, k: nat)
    requires (sep == ' ' && close == ')') || (sep == ',' && close == ']')
    requires Printable(x) && (close == ']' ==> !x.Symbol?) && At(s, i, Print(x)) && e == i + |Print(x)|
    requires Printable(y) && rest != [] && rest[0] == Print(y)
    requires e < |s| && s[e] == sep && At(s, e + 1, Joined(rest, sep, close))
    requires ListBody(s, e + 1, close, acc + [x]) == Ok((ys, k))
    ensures ListBody(s, i, close, acc) == Ok((ys, k))
    decreases x, 4
  {
    ElementRead(s, i, e, x, sep, close);
    assert AfterElement(s, e) == e + 1 by {
      PrintStart(y);
      JoinedStart(rest, sep, close);
      assert s[e + 1] == Joined(rest, sep, close)[0];
      NextElement(s, e, sep);
    }
    ElementThenNext(s, i, e, x, close, acc);
  }

  /** An element read from i to e, with the next one at e + 1: the list loop goes on there. */
  lemma {:induction false} ElementThenNext(s: string, i: nat, e: nat, x: Ast, close: char, acc: seq<Ast>)
    requires i < |s| && s[i] != close && ParseAt(s, i) == Ok((x, e)) && AfterElement(s, e) == e + 1
    ensures ListBody(s, i, close, acc) == ListBody(s, e + 1, close, acc + [x])
  {
    ListBodyStep(s, i, close, acc, x, e);
  }

  /** Joined text starts with its first element's text, when that is not empty. */
  lemma JoinedStart(texts: seq<string>, sep: char, close: char)
    requires texts != [] && texts[0] != []
    ensures Joined(texts, sep, close) != [] && Joined(texts, sep, close)[0] == texts[0][0]
  {
  }

  /** The first element of Joined text, and what follows it: the closer, or a separator and the rest. */
  lemma JoinedSplit(s: string, i: nat, texts: seq<string>, sep: char, close: char) returns (e: nat)
    requires texts != [] && At(s, i, Joined(texts, sep, close))
    ensures e == i + |texts[0]| && At(s, i, texts[0]) && e < |s|
    ensures |texts| == 1 ==> s[e] == close && |Joined(texts, sep, close)| == |texts[0]| + 1
    ensures |texts| > 1 ==>
      && s[e] == sep && At(s, e + 1, Joined(texts[1..], sep, close))
      && |Joined(texts, sep, close)| == |texts[0]| + 1 + |Joined(texts[1..], sep, close)|
  {
    var p := texts[0];
    e := i + |p|;
    if |texts| == 1 {
      AtSplit(s, i, p, [close]);
      AtChar(s, e, close);
    } else {
      var rest := Joined(texts[1..], sep, close);
      assert Joined(texts, sep, close) == p + ([sep] + rest);
      AtSplit(s, i, p, [sep] + rest);
      AtSplit(s, e, [sep], rest);
      AtChar(s, e, sep);
    }
  }

  /** An element followed by a separator or the closer is read whole, and does not look like the closer. */
  lemma {:induction false} ElementRead(s: string, i: nat, e: nat, x: Ast, sep: char, close: char)
    requires (sep == ' ' && close == ')') || (sep == ',' && close == ']')
    requires Printable(x) && (close == ']' ==> !x.Symbol?) && At(s, i, Print(x)) && e == i + |Print(x)|
    requires e < |s| && (s[e] == sep || s[e] == close)
    ensures i < |s| && s[i] != close && ParseAt(s, i) == Ok((x, e))
    decreases x, 3
  {
    PrintStart(x);
    assert s[i] == Print(x)[0];
    PrintedReadsBack(s, i, x);
  }

  /** A separator at e before the next element's first character: the list loop goes on there. */
  lemma {:induction false} NextElement(s: string, e: nat, sep: char)
    requires sep == ' ' || sep == ','
    requires e + 1 < |s| && s[e] == sep && !IsBlank(s[e + 1]) && s[e + 1] != ','
    ensures AfterElement(s, e) == e + 1
  {
    BlankEndIsFirstNonBlank(s, e + 1, e + 1);
    if sep == ' ' {
      BlankEndIsFirstNonBlank(s, e, e + 1);
    } else {
      BlankEndIsFirstNonBlank(s, e, e);
    }
  }
}
