/**
 * parseFloat and String(number), restricted to what an integer model can say exactly.
 * Both readers of the first two generations read a number with parseFloat and then
 * drop String(number).length characters, so the two are modelled together.
 */
module Numerals {
  import opened Text

  /** 2^53 - 1: every integer up to it is a double, and String prints it in plain decimal. */
  const MaxSafeInteger: nat := 9007199254740991

  /** What parseFloat returns, as far as the model follows it. */
  datatype FloatParse =
    | Integral(value: int)  // an optionally signed digit run that parseFloat reads exactly
    | NotANumber            // no numeric prefix: NaN
    | Infinite              // "Infinity" after an optional sign
    | Unmodelled            // a fraction, an exponent, or an integer beyond MaxSafeInteger

  /** parseFloat(s): white space skipped, an optional sign, then the longest numeric prefix. */
  function ParseFloat(s: string): FloatParse {
    var t := TrimStart(s);
    var signed := t != [] && (t[0] == '-' || t[0] == '+');
    var r := ParseUnsigned(if signed then t[1..] else t);
    if r.Integral? && signed && t[0] == '-' then Integral(-r.value) else r
  }

  /** The numeric prefix after the sign; an integer found here is never negative. */
  function ParseUnsigned(u: string): (r: FloatParse)
    ensures r.Integral? ==> 0 <= r.value <= MaxSafeInteger
  {
    if StartsWith(u, "Infinity") then Infinite
    else
      var n := DigitRun(u);
      if n == 0 then
        if |u| >= 2 && u[0] == '.' && IsDigit(u[1]) then Unmodelled else NotANumber
      else if n < |u| && (u[n] == '.' || u[n] == 'e' || u[n] == 'E') then Unmodelled
      else if DigitsValue(u[..n]) > MaxSafeInteger then Unmodelled
      else Integral(DigitsValue(u[..n]))
  }

  /** String(v) for an integer v (minus zero prints as "0"). */
  function JsString(v: int): (s: string)
    ensures |s| >= 1
  {
    if v < 0 then "-" + Decimal(-v) else Decimal(v)
  }

  /** An integer parseFloat returns never prints longer than the text it was read from. */
  lemma ParseFloatFits(s: string)
    requires ParseFloat(s).Integral?
    ensures |JsString(ParseFloat(s).value)| <= |s|
  {
    var t := TrimStart(s);
    var u := if t != [] && (t[0] == '-' || t[0] == '+') then t[1..] else t;
    var n := DigitRun(u);
    assert ParseUnsigned(u).Integral? && ParseUnsigned(u).value == DigitsValue(u[..n]);
    DecimalNoLongerThanDigits(u[..n]);
  }

  /** A number read from text that starts with a digit is not negative. */
  lemma ParseFloatOfDigit(s: string)
    requires s != [] && IsDigit(s[0])
    requires ParseFloat(s).Integral?
    ensures ParseFloat(s).value >= 0
  {
  }

  /** The digits of an unsigned value read back, whatever follows that cannot extend a number. */
  lemma ReadDigitsBack(m: nat, t: string)
    requires m <= MaxSafeInteger
    requires t == [] || !(IsDigit(t[0]) || t[0] == '.' || t[0] == 'e' || t[0] == 'E')
    ensures ParseUnsigned(Decimal(m) + t) == Integral(m)
  {
    var d := Decimal(m);
    var u := d + t;
    DigitRunOfDigitsThen(d, t);
    DigitsValueOfDecimal(m);
    assert u[0] == d[0];
    assert "Infinity"[0] == 'I';
    if |d| < |u| {
      assert u[|d|] == t[0];
    }
  }

  /** Text that starts with a digit or a sign has no white space to skip. */
  lemma NoLeadingSpace(s: string)
    requires s != [] && (IsDigit(s[0]) || s[0] == '-')
    ensures TrimStart(s) == s
  {
  }

  /** String(v) followed by anything that cannot extend a number reads back as v. */
  lemma ParseFloatOfJsString(v: int, t: string)
    requires -(MaxSafeInteger as int) <= v <= MaxSafeInteger
    requires t == [] || !(IsDigit(t[0]) || t[0] == '.' || t[0] == 'e' || t[0] == 'E')
    ensures ParseFloat(JsString(v) + t) == Integral(v)
  {
    if v < 0 {
      NegativeReadsBack(-v, t);
    } else {
      var d := Decimal(v);
      ReadDigitsBack(v, t);
      assert (d + t)[0] == d[0];
      NoLeadingSpace(d + t);
    }
  }

  lemma NegativeReadsBack(m: nat, t: string)
    requires 0 < m <= MaxSafeInteger
    requires t == [] || !(IsDigit(t[0]) || t[0] == '.' || t[0] == 'e' || t[0] == 'E')
    ensures ParseFloat(JsString(-(m as int)) + t) == Integral(-(m as int))
  {
    var s := JsString(-(m as int)) + t;
    SignedText(m, t);
    ReadDigitsBack(m, t);
    MinusSign(s);
  }

  lemma SignedText(m: nat, t: string)
    requires 0 < m
    ensures var s := JsString(-(m as int)) + t; s != [] && s[0] == '-' && s[1..] == Decimal(m) + t
  {
    var d := Decimal(m);
    assert JsString(-(m as int)) == "-" + d;
    assert ("-" + d + t)[1..] == d + t;
  }

  /** A leading minus negates what follows it. */
  lemma MinusSign(s: string)
    requires s != [] && s[0] == '-' && ParseUnsigned(s[1..]).Integral?
    ensures ParseFloat(s) == Integral(-ParseUnsigned(s[1..]).value)
  {
    NoLeadingSpace(s);
  }

  /** parseFloat skips a leading space. */
  lemma ParseFloatSkipsSpace(x: string)
    ensures ParseFloat(" " + x) == ParseFloat(x)
  {
    TrimStartSkipsSpace(x);
  }
}
