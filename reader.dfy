/**
 * The first generation's reader (src/reader.ts): text to one syntax tree, dispatching on
 * the type of the first character. Every step gives a node and the text after it, or a
 * tagged error. The pure dispatch is stated as functions; the scanning loops of the source
 * are methods proved to compute those functions, and the keyword loop interns its name in
 * the registry of src/token.ts.
 */
module Reader {
  import opened Results
  import opened Text
  import opened Numerals
  import opened NumberTheory
  import opened Token

  /** The character classes of parse_char_type. */
  datatype CharType =
    | Empty          // no character: end of input
    | OpenBracket
    | CloseBracket
    | Digit
    | StringQuote
    | Whitespace     // only space, newline and tab
    | KeywordChar
    | SymbolChar     // everything else

  /** The number part being read when a number ends badly (the `when` of the error). */
  datatype NumberPart = Up | Down

  /** ParseError, one variant per throw site, with the context the source attaches. */
  datatype ParseError =
    | UnexpectedCharType(charType: CharType, rest: string)        // parse_one
    | ExtraInput(value: Ast, rest: string)                         // check_parse_result
    | BadNumberEnd(part: NumberPart, value: Ast, restCharType: CharType, rest: string)
    | MissingTerminatingQuote(text: string, rest: string)
    | MissingCharAfterEscape(text: string, rest: string)
    | MissingCloseBracket(items: seq<Ast>, rest: string)
    | UnmodelledNumber(rest: string)  // a fraction, exponent or huge integer, or a zero, NaN or infinite denominator

  /** A ParseResult: the node read and the text left after it. */
  datatype Parsed = Parsed(node: Ast, rest: string)

  function CharTypeOf(c: char): (t: CharType)
    ensures t != Empty
    ensures t == Digit <==> IsDigit(c)
    ensures t == Whitespace <==> (c == ' ' || c == '\n' || c == '\t')
  {
    if c == '(' then OpenBracket
    else if c == ')' then CloseBracket
    else if IsDigit(c) then Digit
    else if c == '"' then StringQuote
    else if c == ' ' || c == '\n' || c == '\t' then Whitespace
    else if c == ':' then KeywordChar
    else SymbolChar
  }

  /** parse_char_type(rest[0]): reading past the end gives undefined, the Empty type. */
  function CharTypeAt(s: string): CharType {
    if s == [] then Empty else CharTypeOf(s[0])
  }

  /** parse(input): trim, read one expression, and demand that nothing is left. */
  function Parse(input: string): Result<Ast, ParseError> {
    var rest := Trim(input);
    if rest == [] then Ok(Sym("empty"))
    else
      match ParseOne(rest)
      case Err(e) => Err(e)
      case Ok(p) => if p.rest == [] then Ok(p.node) else Err(ExtraInput(p.node, p.rest))
  }

  /** parse_one: dispatch on the first character; whatever is read consumes some text. */
  function ParseOne(s: string): (r: Result<Parsed, ParseError>)
    ensures r.Ok? ==> |r.value.rest| < |s| && WellFormed(r.value.node)
    decreases |s|, 0
  {
    match CharTypeAt(s)
    case Digit => ParseNumber(s)
    case StringQuote => ParseString(s)
    case OpenBracket => ParseList(s[1..], [])
    case KeywordChar => ParseKeyword(s)
    case SymbolChar => ParseSymbol(s)
    case t => Err(UnexpectedCharType(t, s))
  }

  /**
   * parse_bracket's loop from the text after `(`: stop at `)`, otherwise read one element
   * and trim what follows it.
   */
  function ParseList(s: string, items: seq<Ast>): (r: Result<Parsed, ParseError>)
    requires forall i | 0 <= i < |items| :: WellFormed(items[i])
    ensures r.Ok? ==> |r.value.rest| < |s| && WellFormed(r.value.node)
    ensures r.Ok? ==> r.value.node.List? && |items| <= |r.value.node.items|
    ensures r.Ok? ==> r.value.node.items[..|items|] == items
    decreases |s|, 1
  {
    if s == [] then Err(MissingCloseBracket(items, s))
    else if s[0] == ')' then Ok(Parsed(List(items), Trim(s[1..])))
    else
      match ParseOne(s)
      case Err(e) => Err(e)
      case Ok(p) =>
        var r := ParseList(Trim(p.rest), items + [p.node]);
        assert r.Ok? ==> r.value.node.items[..|items|] == (items + [p.node])[..|items|];
        r
  }

  /**
   * parse_number: parseFloat, then drop String(number).length characters; an `a/b` builds
   * rational(a, b); the number must be followed by white space (then trimmed), the end
   * of input or `)`.
   */
  function ParseNumber(s: string): (r: Result<Parsed, ParseError>)
    requires s != [] && IsDigit(s[0])
    ensures r.Ok? ==> |r.value.rest| < |s| && r.value.node.IsNumeric() && WellFormed(r.value.node)
  {
    var up := ParseFloat(s);
    if !up.Integral? then Err(UnmodelledNumber(s))
    else
      var rest := Drop(s, |JsString(up.value)|);
      if rest != [] && rest[0] == '/' then
        var rest1 := rest[1..];
        var down := ParseFloat(rest1);
        if !down.Integral? || down.value == 0 then Err(UnmodelledNumber(rest1))
        else
          MakeRationalNormalizes(up.value, down.value);
          NumberEnd(Down, MakeRational(up.value, down.value), Drop(rest1, |JsString(down.value)|))
      else NumberEnd(Up, Num(up.value), rest)
  }

  /** The check after a number: the class of the next character decides. */
  function NumberEnd(part: NumberPart, value: Ast, rest: string): (r: Result<Parsed, ParseError>)
    ensures r.Ok? ==> r.value.node == value && |r.value.rest| <= |rest|
  {
    match CharTypeAt(rest)
    case Whitespace => Ok(Parsed(value, Trim(rest)))
    case Empty => Ok(Parsed(value, rest))
    case CloseBracket => Ok(Parsed(value, rest))
    case t => Err(BadNumberEnd(part, value, t, rest))
  }

  /** parse_string from its opening quote. */
  function ParseString(s: string): Result<Parsed, ParseError> {
    StringFrom(s, 0, [])
  }

  /**
   * parse_string's loop with `offset` at the last character consumed and `value` the text
   * so far: `\x` contributes x; the errors report the text the string started in.
   */
  function StringFrom(s: string, offset: nat, value: string): (r: Result<Parsed, ParseError>)
    ensures r.Ok? ==> |r.value.rest| + offset + 2 <= |s| && r.value.node.Str?
    decreases |s| - offset
  {
    var i := offset + 1;
    if i >= |s| then Err(MissingTerminatingQuote(value, s))
    else if s[i] == '"' then Ok(Parsed(Str(value), s[i + 1..]))
    else if s[i] == '\\' then
      if i + 1 >= |s| then Err(MissingCharAfterEscape(value, s))
      else StringFrom(s, i + 1, value + [s[i + 1]])
    else StringFrom(s, i, value + [s[i]])
  }

  /** A name ends at white space or `)`; `(`, `"` and `:` belong to it. */
  predicate EndsName(c: char) {
    CharTypeOf(c) == Whitespace || CharTypeOf(c) == CloseBracket
  }

  /** The length of the name at the start of s. */
  function NameLength(s: string): (n: nat)
    ensures n <= |s|
    ensures forall i | 0 <= i < n :: !EndsName(s[i])
    ensures n == |s| || EndsName(s[n])
  {
    if s == [] || EndsName(s[0]) then 0 else 1 + NameLength(s[1..])
  }

  /** parse_keyword: skip the colon, then the name. */
  function ParseKeyword(s: string): (r: Result<Parsed, ParseError>)
    requires s != []
    ensures r.Ok? && |r.value.rest| < |s|
  {
    var n := NameLength(s[1..]);
    Ok(Parsed(Kw(s[1..][..n]), s[1..][n..]))
  }

  /** parse_symbol: the name, from the first character on. */
  function ParseSymbol(s: string): (r: Result<Parsed, ParseError>)
    requires s != [] && !EndsName(s[0])
    ensures r.Ok? && |r.value.rest| < |s|
  {
    var n := NameLength(s);
    Ok(Parsed(Sym(s[..n]), s[n..]))
  }

  // ---- the scanning loops ----

  /** Every keyword in the tree is a name the registry holds. */
  predicate Registered(a: Ast, keys: set<string>) {
    match a
    case Kw(name) => name in keys
    case List(items) => forall i | 0 <= i < |items| :: Registered(items[i], keys)
    case _ => true
  }

  lemma {:induction false} RegisteredGrows(a: Ast, keys: set<string>, more: set<string>)
    requires Registered(a, keys) && keys <= more
    ensures Registered(a, more)
  {
    if a.List? {
      forall i | 0 <= i < |a.items|
        ensures Registered(a.items[i], more)
      {
        RegisteredGrows(a.items[i], keys, more);
      }
    }
  }

  lemma AllRegisteredGrow(items: seq<Ast>, keys: set<string>, more: set<string>)
    requires keys <= more
    requires forall i | 0 <= i < |items| :: Registered(items[i], keys)
    ensures forall i | 0 <= i < |items| :: Registered(items[i], more)
  {
    forall i | 0 <= i < |items|
      ensures Registered(items[i], more)
    {
      RegisteredGrows(items[i], keys, more);
    }
  }

  /** One turn of parse_bracket's loop. */
  lemma ListStep(s: string, items: seq<Ast>, p: Parsed)
    requires forall i | 0 <= i < |items| :: WellFormed(items[i])
    requires s != [] && s[0] != ')' && ParseOne(s) == Ok(p)
    ensures WellFormed(p.node) && |Trim(p.rest)| < |s|
    ensures ParseList(s, items) == ParseList(Trim(p.rest), items + [p.node])
  {
  }

  /** The registry keeps every entry it had. */
  ghost predicate Extends(newer: map<string, Keyword>, older: map<string, Keyword>) {
    forall v | v in older :: v in newer && newer[v] == older[v]
  }

  /** parse as a method: the same dispatch, with keywords interned on the way. */
  method Read(input: string, table: KeywordTable) returns (r: Result<Ast, ParseError>)
    requires table.Valid()
    modifies table
    ensures r == Parse(input)
    ensures table.Valid() && Extends(table.keywords, old(table.keywords))
    ensures r.Ok? ==> Registered(r.value, table.keywords.Keys)
  {
    var rest := Trim(input);
    if rest == [] {
      return Ok(Sym("empty"));
    }
    var result := ReadOne(rest, table);
    match result
    case Err(e) =>
      r := Err(e);
    case Ok(p) =>
      if p.rest == [] {
        r := Ok(p.node);
      } else {
        r := Err(ExtraInput(p.node, p.rest));
      }
  }

  /** parse_one as a method. */
  method ReadOne(s: string, table: KeywordTable) returns (r: Result<Parsed, ParseError>)
    requires table.Valid()
    modifies table
    ensures r == ParseOne(s)
    ensures table.Valid() && Extends(table.keywords, old(table.keywords))
    ensures r.Ok? ==> Registered(r.value.node, table.keywords.Keys)
    decreases |s|, 1
  {
    match CharTypeAt(s)
    case Digit =>
      r := ParseNumber(s);
    case StringQuote =>
      r := ScanString(s);
    case OpenBracket =>
      r := ScanBracket(s, table);
    case KeywordChar =>
      r := ScanKeyword(s, table);
    case SymbolChar =>
      r := ScanSymbol(s);
    case t =>
      r := Err(UnexpectedCharType(t, s));
  }

  /** parse_string's for(;;) loop. */
  method ScanString(s: string) returns (r: Result<Parsed, ParseError>)
    ensures r == ParseString(s)
  {
    var value: string := [];
    var offset: nat := 0;
    while true
      invariant offset <= |s|
      invariant StringFrom(s, offset, value) == ParseString(s)
      decreases |s| - offset
    {
      offset := offset + 1;
      if offset >= |s| {
        return Err(MissingTerminatingQuote(value, s));
      }
      var c := s[offset];
      if c == '"' {
        return Ok(Parsed(Str(value), s[offset + 1..]));
      }
      if c == '\\' {
        if offset + 1 >= |s| {
          return Err(MissingCharAfterEscape(value, s));
        }
        offset := offset + 1;
        c := s[offset];
      }
      value := value + [c];
    }
  }

  /** The loop shared by parse_keyword and parse_symbol: take characters until a name ends. */
  method ScanName(s: string) returns (value: string, rest: string)
    ensures value == s[..NameLength(s)] && rest == s[NameLength(s)..]
  {
    value, rest := [], s;
    while true
      invariant |value| <= |s| && value == s[..|value|] && rest == s[|value|..]
      invariant NameLength(s) == |value| + NameLength(rest)
      decreases |rest|
    {
      if rest == [] || EndsName(rest[0]) {
        return;
      }
      value := value + [rest[0]];
      rest := rest[1..];
    }
  }

  /** parse_keyword: the name is interned, and the node is the registered instance's name. */
  method ScanKeyword(s: string, table: KeywordTable) returns (r: Result<Parsed, ParseError>)
    requires s != [] && table.Valid()
    modifies table
    ensures r == ParseKeyword(s)
    ensures table.Valid() && Extends(table.keywords, old(table.keywords))
    ensures r.value.node.name in table.keywords
  {
    var value, rest := ScanName(s[1..]);
    var instance := table.Intern(value);
    r := Ok(Parsed(Kw(instance.value), rest));
  }

  /** parse_symbol: the name becomes the symbol of that name. */
  method ScanSymbol(s: string) returns (r: Result<Parsed, ParseError>)
    requires s != [] && !EndsName(s[0])
    ensures r == ParseSymbol(s)
  {
    var value, rest := ScanName(s);
    r := Ok(Parsed(Sym(value), rest));
  }

  /** parse_bracket's for(;;) loop, pushing each element it reads. */
  method ScanBracket(s: string, table: KeywordTable) returns (r: Result<Parsed, ParseError>)
    requires s != [] && table.Valid()
    modifies table
    ensures r == ParseList(s[1..], [])
    ensures table.Valid() && Extends(table.keywords, old(table.keywords))
    ensures r.Ok? ==> Registered(r.value.node, table.keywords.Keys)
    decreases |s|, 0
  {
    var rest := s[1..];
    var items: seq<Ast> := [];
    while true
      invariant |rest| < |s|
      invariant forall i | 0 <= i < |items| :: WellFormed(items[i])
      invariant ParseList(rest, items) == ParseList(s[1..], [])
      invariant table.Valid() && Extends(table.keywords, old(table.keywords))
      invariant forall i | 0 <= i < |items| :: Registered(items[i], table.keywords.Keys)
      decreases |rest|
    {
      if rest == [] {
        return Err(MissingCloseBracket(items, rest));
      }
      if rest[0] == ')' {
        return Ok(Parsed(List(items), Trim(rest[1..])));
      }
      ghost var before := table.keywords.Keys;
      var result := ReadOne(rest, table);
      if result.Err? {
        return Err(result.error);
      }
      ListStep(rest, items, result.value);
      AllRegisteredGrow(items, before, table.keywords.Keys);
      items := items + [result.value.node];
      rest := Trim(result.value.rest);
    }
  }
}
