/**
 * The string primitives of the host language that the readers lean on:
 * String.prototype.trim, String.prototype.slice with a non-negative start,
 * and decimal digit runs. A character stands for one UTF-16 code unit.
 */
module Text {

  /** The characters trim removes: the ECMAScript WhiteSpace and LineTerminator characters. */
  predicate IsJsSpace(c: char) {
    || c == '\t' || c == '\n' || c == '\U{B}' || c == '\U{C}' || c == '\r' || c == ' '
    || c == '\U{A0}' || c == '\U{1680}' || ('\U{2000}' <= c <= '\U{200A}')
    || c == '\U{2028}' || c == '\U{2029}' || c == '\U{202F}' || c == '\U{205F}'
    || c == '\U{3000}' || c == '\U{FEFF}'
  }

  /** Leading white space removed (also what parseFloat skips before a number). */
  function TrimStart(s: string): (r: string)
    ensures |r| <= |s| && (|r| == |s| ==> r == s) && (|r| < |s| ==> r == s[|s| - |r|..])
    ensures forall i {:trigger IsJsSpace(s[i])} | 0 <= i < |s| - |r| :: IsJsSpace(s[i])
    ensures r == [] || !IsJsSpace(r[0])
  {
    if s != [] && IsJsSpace(s[0]) then TrimStart(s[1..]) else s
  }

  /** Trailing white space removed. */
  function TrimEnd(s: string): (r: string)
    ensures |r| <= |s| && r == s[..|r|]
    ensures forall i {:trigger IsJsSpace(s[i])} | |r| <= i < |s| :: IsJsSpace(s[i])
    ensures r == [] || !IsJsSpace(r[|r| - 1])
  {
    if s != [] && IsJsSpace(s[|s| - 1]) then TrimEnd(s[..|s| - 1]) else s
  }

  /** String.prototype.trim. */
  function Trim(s: string): string {
    TrimEnd(TrimStart(s))
  }

  /** Trim keeps a contiguous piece of its input whose two ends are not white space. */
  lemma TrimIsInfix(s: string)
    ensures |Trim(s)| <= |s|
    ensures var k := |s| - |TrimStart(s)|; Trim(s) == s[k..k + |Trim(s)|]
    ensures Trim(s) == [] || (!IsJsSpace(Trim(s)[0]) && !IsJsSpace(Trim(s)[|Trim(s)| - 1]))
  {
    var t := TrimStart(s);
    var k := |s| - |t|;
    assert t == s[k..] by {
      if k == 0 {
        assert s[0..] == s;
      }
    }
    var r := TrimEnd(t);
    assert Trim(s) == r;
    PrefixOfSuffix(s, t, r, k);
  }

  /** A prefix of a suffix is an infix, and starts where the suffix does. */
  lemma PrefixOfSuffix(s: string, t: string, r: string, k: nat)
    requires k <= |s| && t == s[k..] && |r| <= |t| && r == t[..|r|]
    requires t == [] || !IsJsSpace(t[0])
    requires r == [] || !IsJsSpace(r[|r| - 1])
    ensures r == s[k..k + |r|]
    ensures r == [] || (!IsJsSpace(r[0]) && !IsJsSpace(r[|r| - 1]))
  {
    if r != [] {
      assert r[0] == t[0];
    }
  }

  /** Trimming text that neither starts nor ends with white space changes nothing. */
  lemma TrimOfTrimmed(s: string)
    requires s == [] || (!IsJsSpace(s[0]) && !IsJsSpace(s[|s| - 1]))
    ensures Trim(s) == s
  {
  }

  /** Trimming twice is trimming once. */
  lemma TrimIdempotent(s: string)
    ensures Trim(Trim(s)) == Trim(s)
  {
    TrimIsInfix(s);
    TrimOfTrimmed(Trim(s));
  }

  /** A leading space is skipped like any other white space. */
  lemma TrimStartSkipsSpace(s: string)
    ensures TrimStart(" " + s) == TrimStart(s)
  {
    var u := " " + s;
    assert u[0] == ' ' && u[1..] == s;
  }

  /** A space in front of text with non-white ends is all that trim removes. */
  lemma TrimLeadingSpace(s: string)
    requires s != [] && !IsJsSpace(s[0]) && !IsJsSpace(s[|s| - 1])
    ensures Trim(" " + s) == s
  {
    TrimStartSkipsSpace(s);
    TrimOfTrimmed(s);
  }

  /** The first and last characters of a concatenation. */
  lemma Ends(x: string, y: string)
    ensures x != [] ==> (x + y)[0] == x[0]
    ensures y != [] ==> (x + y)[|x + y| - 1] == y[|y| - 1]
  {
  }

  /** String.prototype.slice(k) for k >= 0: past the end it gives the empty string. */
  function Drop(s: string, k: nat): (r: string)
    ensures |r| == if k <= |s| then |s| - k else 0
  {
    if k <= |s| then s[k..] else []
  }

  predicate StartsWith(s: string, prefix: string) {
    |prefix| <= |s| && s[..|prefix|] == prefix
  }

  predicate IsDigit(c: char) {
    '0' <= c <= '9'
  }

  predicate AllDigits(s: string) {
    forall i | 0 <= i < |s| :: IsDigit(s[i])
  }

  function DigitValue(c: char): (d: nat)
    requires IsDigit(c)
    ensures d < 10
  {
    (c as int) - ('0' as int)
  }

  function DigitChar(d: nat): (c: char)
    requires d < 10
    ensures IsDigit(c) && DigitValue(c) == d
  {
    (('0' as int) + d) as char
  }

  /** Length of the longest prefix of s made of decimal digits. */
  function DigitRun(s: string): (n: nat)
    ensures n <= |s| && AllDigits(s[..n])
    ensures n == |s| || !IsDigit(s[n])
  {
    if s != [] && IsDigit(s[0]) then
      var m := DigitRun(s[1..]);
      assert s[..m + 1] == [s[0]] + s[1..][..m];
      m + 1
    else 0
  }

  /** The value of a digit string read from the left, `value = value * 10 + digit`. */
  function DigitsValue(ds: string): nat
    requires AllDigits(ds)
  {
    if ds == [] then 0 else DigitsValue(ds[..|ds| - 1]) * 10 + DigitValue(ds[|ds| - 1])
  }

  /** String(n) for a non-negative integer: its decimal digits without leading zeros. */
  function Decimal(n: nat): (s: string)
    ensures |s| >= 1 && AllDigits(s)
    ensures n >= 10 ==> s[0] != '0'
  {
    if n < 10 then [DigitChar(n)] else Decimal(n / 10) + [DigitChar(n % 10)]
  }

  /** Reading back the decimal digits of n gives n. */
  lemma {:induction false} DigitsValueOfDecimal(n: nat)
    ensures DigitsValue(Decimal(n)) == n
  {
    if n >= 10 {
      var s := Decimal(n);
      assert s[..|s| - 1] == Decimal(n / 10);
      DigitsValueOfDecimal(n / 10);
    }
  }

  /** The digits of a value never outnumber the digits it was read from (leading zeros are lost). */
  lemma {:induction false} DecimalNoLongerThanDigits(ds: string)
    requires ds != [] && AllDigits(ds)
    ensures |Decimal(DigitsValue(ds))| <= |ds|
  {
    var init := ds[..|ds| - 1];
    var v := DigitsValue(init);
    var d := DigitValue(ds[|ds| - 1]);
    assert DigitsValue(ds) == v * 10 + d;
    if v != 0 {
      DecimalNoLongerThanDigits(init);
      assert (v * 10 + d) / 10 == v;
      assert (v * 10 + d) % 10 == d;
    }
  }

  /** A digit run is read up to the first non-digit. */
  lemma {:induction false} DigitRunOfDigitsThen(ds: string, t: string)
    requires AllDigits(ds)
    requires t == [] || !IsDigit(t[0])
    ensures DigitRun(ds + t) == |ds| && (ds + t)[..|ds|] == ds
  {
    if ds != [] {
      assert (ds + t)[1..] == ds[1..] + t;
      DigitRunOfDigitsThen(ds[1..], t);
    }
  }

  // ---- the escaped form of a string, as the reader's printers write it ----

  /** A backslash in front of each quote and backslash. */
  function Escaped(x: string): (e: string)
    ensures |e| >= |x|
  {
    if x == [] then []
    else (if x[0] == '"' || x[0] == '\\' then ['\\', x[0]] else [x[0]]) + Escaped(x[1..])
  }

  /** Escaped splits after the escaped form of the first character. */
  lemma EscapeHead(x: string, t: string)
    requires x != []
    ensures Escaped(x) + t
      == (if x[0] == '"' || x[0] == '\\' then ['\\', x[0]] else [x[0]]) + (Escaped(x[1..]) + t)
  {
  }
}
