/**
 * The third generation's reader (src3/parse.ts): a `Parser` object holding the input and
 * an offset that its methods move forward. Each method is proved to compute a function of
 * the input and the offset it starts from; the functions say what the reader accepts.
 *
 * An offset past the end is possible: a string ending in a lone backslash leaves the
 * offset at the input's length plus one.
 */
module Parse3 {
  import opened Results
  import opened Text
  import opened Ast3

  /** The four characters parse_whitespace skips and parse_symbol stops at. */
  predicate IsBlank(c: char) {
    c == ' ' || c == '\t' || c == '\n' || c == '\r'
  }

  /** The error classes of src3/parse.ts:151-161, each with the parser's offset when thrown. */
  datatype ParseError =
    | IncompleteInput(offset: nat, missing: Option<char>)
    | ExtraInput(offset: nat, ast: Ast)
    | Stuck(offset: nat)  // where the list loop of the source makes no progress and never ends

  // ---- the scanners, as functions of the input and an offset ----

  /** Where parse_whitespace leaves the offset: past every blank from i on. */
  function BlankEnd(s: string, i: nat): (j: nat)
    ensures i <= j && (i < j ==> j <= |s|)
    ensures forall k {:trigger IsBlank(s[k])} | i <= k < j :: IsBlank(s[k])
    ensures j >= |s| || !IsBlank(s[j])
    decreases |s| - i
  {
    if i < |s| && IsBlank(s[i]) then BlankEnd(s, i + 1) else i
  }

  /** Where parse_integer leaves the offset: past the run of decimal digits from i on. */
  function DigitEnd(s: string, i: nat): (j: nat)
    requires i <= |s|
    ensures i <= j <= |s| && AllDigits(s[i..j])
    ensures j == |s| || !IsDigit(s[j])
    decreases |s| - i
  {
    if i < |s| && IsDigit(s[i]) then
      var j := DigitEnd(s, i + 1);
      assert forall k | 0 <= k < j - i :: s[i..j][k] == s[i + k];
      j
    else i
  }

  /** A character parse_symbol takes into a name: anything but a blank or `)`. */
  predicate SymbolChar(c: char) {
    !IsBlank(c) && c != ')'
  }

  /** Where parse_symbol leaves the offset: at the first blank or `)` from i on. */
  function SymbolEnd(s: string, i: nat): (j: nat)
    requires i <= |s|
    ensures i <= j <= |s|
    ensures forall k {:trigger SymbolChar(s[k])} | i <= k < j :: SymbolChar(s[k])
    ensures j == |s| || !SymbolChar(s[j])
    decreases |s| - i
  {
    if i < |s| && SymbolChar(s[i]) then SymbolEnd(s, i + 1) else i
  }

  /**
   * The loop of parse_string from offset i, inside quotes q, with `value` read so far: the
   * text read and the offset after the closing quote. A backslash takes the next character
   * as it is; past the end that character is JavaScript's `undefined`, appended as text.
   */
  function StringLoop(s: string, q: char, i: nat, value: string): (r: (string, nat))
    ensures i <= r.1 && (i < r.1 ==> r.1 <= |s| + 1)
    decreases |s| + 1 - i
  {
    if i >= |s| then (value, i)
    else if s[i] == q then (value, i + 1)
    else if s[i] == '\\' then
      StringLoop(s, q, i + 2, value + if i + 1 < |s| then [s[i + 1]] else "undefined")
    else StringLoop(s, q, i + 1, value + [s[i]])
  }

  function Pow10(n: nat): (p: nat)
    ensures p >= 1
  {
    if n == 0 then 1 else 10 * Pow10(n - 1)
  }

  /**
   * parse_number from a digit at i: an integer, or with a `.` after it a float whose
   * fraction is the digit run after the point, read as decimal places.
   */
  function NumberAt(s: string, i: nat): (r: (Ast, nat))
    requires i < |s| && IsDigit(s[i])
    ensures i < r.1 <= |s|
  {
    var j := DigitEnd(s, i);
    var a := DigitsValue(s[i..j]);
    if j < |s| && s[j] == '.' then
      var k := DigitEnd(s, j + 1);
      (Float(a as real + Fraction(s[j + 1..k])), k)
    else (Integer(a as real), j)
  }

  /** The digits d after a decimal point as the value they denote: d over ten to the number of digits. */
  function Fraction(d: string): real
    requires AllDigits(d)
  {
    (DigitsValue(d) as real) / (Pow10(|d|) as real)
  }

  // ---- parse and parse_list_body ----

  /**
   * Parser.parse from offset i: skip blanks, then dispatch on the character found. The
   * result is the node and the offset after it.
   */
  function ParseAt(s: string, i: nat): (r: Result<(Ast, nat), ParseError>)
    ensures r.Ok? ==> i <= r.value.1 && (i < r.value.1 ==> r.value.1 <= |s| + 1)
    decreases |s| + 1 - i, 0
  {
    var j := BlankEnd(s, i);
    if j >= |s| then Err(IncompleteInput(j, None))
    else if s[j] == '"' || s[j] == '\'' then
      var (v, k) := StringLoop(s, s[j], j + 1, "");
      Ok((Str(v), k))
    else if s[j] == '[' then
      match ListBody(s, j + 1, ']', [])
      case Ok((items, k)) => Ok((Array(items), k))
      case Err(e) => Err(e)
    else if s[j] == '(' then
      match ListBody(s, j + 1, ')', [])
      case Ok((items, k)) => Ok((List(items), k))
      case Err(e) => Err(e)
    else if IsDigit(s[j]) then Ok(NumberAt(s, j))
    else
      var k := SymbolEnd(s, j);
      Ok((Symbol(s[j..k]), k))
  }

  /**
   * parse_list_body from offset i, with `items` read so far: stop after the closing
   * character, or read an element, blanks, an optional comma and blanks. An element
   * step that leaves the offset where it was is reported as Stuck: the source repeats
   * that step forever.
   */
  function ListBody(s: string, i: nat, close: char, items: seq<Ast>): (r: Result<(seq<Ast>, nat), ParseError>)
    ensures r.Ok? ==> i < r.value.1 <= |s| + 1
    decreases |s| + 1 - i, 1
  {
    if i >= |s| then Err(IncompleteInput(i, Some(close)))
    else if s[i] == close then Ok((items, i + 1))
    else
      match ParseAt(s, i)
      case Err(e) => Err(e)
      case Ok((a, k)) =>
        var k2 := AfterElement(s, k);
        if k2 == i then Err(Stuck(i))
        else ListBody(s, k2, close, items + [a])
  }

  /** One element step of parse_list_body. */
  lemma ListBodyStep(s: string, i: nat, close: char, items: seq<Ast>, a: Ast, k: nat)
    requires i < |s| && s[i] != close && ParseAt(s, i) == Ok((a, k))
    ensures var k2 := AfterElement(s, k);
      ListBody(s, i, close, items) == if k2 == i then Err(Stuck(i)) else ListBody(s, k2, close, items + [a])
  {
  }

  /** After an element: blanks, then an optional comma followed by blanks. */
  function AfterElement(s: string, k: nat): (k2: nat)
    ensures k <= k2 && (k < k2 ==> k2 <= |s|)
  {
    var k1 := BlankEnd(s, k);
    if k1 < |s| && s[k1] == ',' then BlankEnd(s, k1 + 1) else k1
  }

  /** The module function parse: one expression from offset i, and nothing may be left. */
  function ParseText(input: string, i: nat): (r: Result<Ast, ParseError>) {
    match ParseAt(input, i)
    case Err(e) => Err(e)
    case Ok((a, k)) => if k < |input| then Err(ExtraInput(k, a)) else Ok(a)
  }

  /** A method's outcome with the offset it leaves, in the shape the functions return. */
  function WithOffset<T>(r: Result<T, ParseError>, offset: nat): Result<(T, nat), ParseError> {
    match r
    case Ok(v) => Ok((v, offset))
    case Err(e) => Err(e)
  }

  // ---- the parser object ----

  class Parser {
    const input: string
    var offset: nat

    constructor (input: string, offset: nat)
      ensures this.input == input && this.offset == offset
    {
      this.input := input;
      this.offset := offset;
    }

    /** Parser.parse (src3/parse.ts:6-35). */
    method Parse() returns (r: Result<Ast, ParseError>)
      modifies this
      ensures WithOffset(r, offset) == ParseAt(input, old(offset))
      decreases |input| + 1 - offset, 0
    {
      ParseWhitespace();
      if offset >= |input| {
        return Err(IncompleteInput(offset, None));
      }
      var c := input[offset];
      if c == '"' || c == '\'' {
        var ast := ParseString();
        return Ok(ast);
      } else if c == '[' {
        offset := offset + 1;
        var value := ParseListBody(']');
        return match value case Ok(items) => Ok(Array(items)) case Err(e) => Err(e);
      } else if c == '(' {
        offset := offset + 1;
        var value := ParseListBody(')');
        return match value case Ok(items) => Ok(List(items)) case Err(e) => Err(e);
      } else if '0' <= c <= '9' {
        var ast := ParseNumber();
        return Ok(ast);
      } else {
        var ast := ParseSymbol();
        return Ok(ast);
      }
    }

    /** parse_whitespace (src3/parse.ts:37-54). */
    method ParseWhitespace()
      modifies this
      ensures offset == BlankEnd(input, old(offset))
    {
      var i := offset;
      while i < |input| && IsBlank(input[i])
        invariant BlankEnd(input, i) == BlankEnd(input, offset)
        decreases |input| - i
      {
        i := i + 1;
      }
      offset := i;
    }

    /** parse_number (src3/parse.ts:56-66), with the fraction read from its digits rather than from their value. */
    method ParseNumber() returns (ast: Ast)
      requires offset < |input| && IsDigit(input[offset])
      modifies this
      ensures (ast, offset) == NumberAt(input, old(offset))
    {
      ast := ParseInteger();
      if offset < |input| && input[offset] == '.' {
        var a := ast.value;
        offset := offset + 1;
        var start := offset;
        var b := ParseInteger();
        ast := Float(a + b.value / Pow10(offset - start) as real);
      }
    }

    /** parse_integer (src3/parse.ts:68-82): the value of the digit run, 0 when it is empty. */
    method ParseInteger() returns (ast: Ast)
      requires offset <= |input|
      modifies this
      ensures offset == DigitEnd(input, old(offset))
      ensures ast == Integer(DigitsValue(input[old(offset)..offset]) as real)
    {
      var i := offset;
      var value: real := 0.0;
      while i < |input| && IsDigit(input[i])
        invariant offset <= i <= |input| && DigitEnd(input, i) == DigitEnd(input, offset)
        invariant AllDigits(input[offset..i])
        invariant value == DigitsValue(input[offset..i]) as real
        decreases |input| - i
      {
        assert input[offset..i + 1][..i - offset] == input[offset..i];
        value := value * 10.0 + DigitValue(input[i]) as real;
        i := i + 1;
      }
      offset := i;
      ast := Integer(value);
    }

    /** parse_string (src3/parse.ts:84-104), from the opening quote. */
    method ParseString() returns (ast: Ast)
      requires offset < |input|
      modifies this
      ensures var r := StringLoop(input, input[old(offset)], old(offset) + 1, "");
        ast == Str(r.0) && offset == r.1
    {
      var quote := input[offset];
      var i := offset + 1;
      var value := "";
      ghost var whole := StringLoop(input, quote, i, value);
      while i < |input|
        invariant StringLoop(input, quote, i, value) == whole
        decreases |input| + 1 - i
      {
        var c := input[i];
        if c == quote {
          i := i + 1;
          break;
        }
        if c == '\\' {
          i := i + 1;
          value := value + (if i < |input| then [input[i]] else "undefined");
        } else {
          value := value + [c];
        }
        i := i + 1;
      }
      offset := i;
      ast := Str(value);
    }

    /** parse_list_body (src3/parse.ts:106-125), with the Stuck check the source lacks. */
    method ParseListBody(close: char) returns (r: Result<seq<Ast>, ParseError>)
      modifies this
      ensures WithOffset(r, offset) == ListBody(input, old(offset), close, [])
      decreases |input| + 1 - offset, 1
    {
      var value: seq<Ast> := [];
      ghost var start := offset;
      while offset < |input|
        invariant start <= offset
        invariant ListBody(input, offset, close, value) == ListBody(input, start, close, [])
        decreases |input| + 1 - offset
      {
        if input[offset] == close {
          offset := offset + 1;
          return Ok(value);
        }
        var before := offset;
        var ast := Parse();
        if ast.Err? {
          return Err(ast.error);
        }
        ghost var k := offset;
        value := value + [ast.value];
        ParseWhitespace();
        if offset < |input| && input[offset] == ',' {
          offset := offset + 1;
          ParseWhitespace();
        }
        assert offset == AfterElement(input, k);
        ListBodyStep(input, before, close, value[..|value| - 1], ast.value, k);
        assert value[..|value| - 1] + [ast.value] == value;
        if offset == before {
          return Err(Stuck(offset));
        }
      }
      return Err(IncompleteInput(offset, Some(close)));
    }

    /** parse_symbol (src3/parse.ts:127-148). */
    method ParseSymbol() returns (ast: Ast)
      requires offset <= |input|
      modifies this
      ensures offset == SymbolEnd(input, old(offset)) && ast == Symbol(input[old(offset)..offset])
    {
      var i := offset;
      var value := "";
      while i < |input| && SymbolChar(input[i])
        invariant offset <= i <= SymbolEnd(input, offset) && value == input[offset..i]
        decreases |input| - i
      {
        value := value + [input[i]];
        i := i + 1;
      }
      offset := i;
      ast := Symbol(value);
    }
  }

  /** The module function parse (src3/parse.ts:163-170). */
  method Parse(input: string, offset: nat) returns (r: Result<Ast, ParseError>)
    ensures r == ParseText(input, offset)
  {
    var parser := new Parser(input, offset);
    var ast := parser.Parse();
    if ast.Err? {
      return Err(ast.error);
    }
    if parser.offset < |input| {
      return Err(ExtraInput(parser.offset, ast.value));
    }
    return Ok(ast.value);
  }
}
