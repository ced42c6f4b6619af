/** The two string-to-number conversions the event form relies on: the implicit
    conversion that `text < 1` performs (ECMAScript's StringToNumber, for
    decimal literals) and `parseInt(text)` (for base ten). Numbers are exact:
    reals for the conversion, integers for `parseInt`. */
module JsNumber {
  import opened Wrappers
  import opened JsText

  predicate IsDigit(c: char) {
    '0' <= c <= '9'
  }

  predicate AllDigits(s: string) {
    forall i :: 0 <= i < |s| ==> IsDigit(s[i])
  }

  function DigitValue(c: char): (d: nat)
    requires IsDigit(c)
    ensures d < 10
  {
    (c as int) - ('0' as int)
  }

  /** The value of a run of decimal digits, most significant first. */
  function DigitsValue(ds: string): nat
    requires AllDigits(ds)
  {
    if ds == [] then 0 else DigitsValue(ds[..|ds| - 1]) * 10 + DigitValue(ds[|ds| - 1])
  }

  /** The longest prefix of `s` made of decimal digits. */
  function DigitPrefix(s: string): (r: string)
    ensures |r| <= |s| && r == s[..|r|]
    ensures AllDigits(r)
    ensures |r| < |s| ==> !IsDigit(s[|r|])
  {
    if s != [] && IsDigit(s[0]) then [s[0]] + DigitPrefix(s[1..]) else []
  }

  /** An optional leading sign, as a factor, and the text after it. */
  function SplitSign(s: string): (int, string) {
    if s != [] && s[0] == '-' then (-1, s[1..])
    else if s != [] && s[0] == '+' then (1, s[1..])
    else (1, s)
  }

  /** 10 to the power `n`. */
  function Pow10(n: nat): (p: nat)
    ensures p >= 1
  {
    if n == 0 then 1 else 10 * Pow10(n - 1)
  }

  /** The factor an exponent `e` scales by, 10 to the power `e`, negative `e`
      included. */
  function Scale(e: int): (r: real)
    ensures r > 0.0
  {
    if e >= 0 then Pow10(e) as real else 1.0 / (Pow10(-e) as real)
  }

  /** The exponent part of a decimal literal: nothing at all, which is zero, or
      `e` or `E` followed by signed decimal digits. */
  function ExponentPart(r: string): Option<int> {
    if r == "" then Some(0)
    else if r[0] == 'e' || r[0] == 'E' then IntegerText(r[1..])
    else None
  }

  /** The value of an unsigned decimal literal: digits, an optional point with
      optional digits after it, at least one digit in all, then an optional
      exponent part; `None` for any other text. */
  function UnsignedDecimal(t: string): Option<real> {
    var whole := DigitPrefix(t);
    var afterWhole := t[|whole|..];
    var hasPoint := afterWhole != [] && afterWhole[0] == '.';
    var afterPoint := if hasPoint then afterWhole[1..] else afterWhole;
    var fraction := if hasPoint then DigitPrefix(afterPoint) else "";
    var exponent := ExponentPart(afterPoint[|fraction|..]);
    if whole == "" && fraction == "" then None
    else if exponent.None? then None
    else
      var digits := DigitsValue(whole) * Pow10(|fraction|) + DigitsValue(fraction);
      Some((digits as real) / (Pow10(|fraction|) as real) * Scale(exponent.value))
  }

  /** The numeric value of a string (`Number(text)`): whitespace around it is
      ignored, blank text is zero, an optionally signed decimal literal is its
      value, and anything else is NaN, here `None`. */
  function ToNumber(s: string): Option<real> {
    if IsBlank(s) then Some(0.0)
    else
      var (sign, body) := SplitSign(Trim(s));
      var v := UnsignedDecimal(body);
      if v.Some? then Some(sign as real * v.value) else None
  }

  /** The value of signed decimal integer text, `None` for any other text. */
  function IntegerText(t: string): Option<int> {
    var (sign, body) := SplitSign(t);
    if body != "" && AllDigits(body) then Some(sign * DigitsValue(body)) else None
  }

  /** `parseInt(text)`: leading whitespace is skipped, then an optional sign and
      the longest run of digits give the value; no digits at all give NaN, here
      `None`. */
  function ParseInt(s: string): Option<int> {
    var (sign, body) := SplitSign(TrimStart(s));
    var ds := DigitPrefix(body);
    if ds == "" then None else Some(sign * DigitsValue(ds))
  }

  /** `text < 1` in JavaScript: false whenever the text is not a number. */
  predicate LessThanOne(s: string) {
    var n := ToNumber(s);
    n.Some? && n.value < 1.0
  }

  /** Digits followed by a non-digit: the digit prefix is exactly the digits. */
  lemma {:induction false} DigitPrefixStopsAtNonDigit(ds: string, rest: string)
    requires AllDigits(ds)
    requires rest == [] || !IsDigit(rest[0])
    ensures DigitPrefix(ds + rest) == ds
  {
    if ds != [] {
      assert (ds + rest)[1..] == ds[1..] + rest;
      DigitPrefixStopsAtNonDigit(ds[1..], rest);
    }
  }

  /** The sign of text that does not start empty is unaffected by what follows it. */
  lemma SplitSignExtends(t: string, rest: string)
    requires t != []
    ensures SplitSign(t + rest) == (SplitSign(t).0, SplitSign(t).1 + rest)
  {
    assert (t + rest)[0] == t[0];
    assert (t + rest)[1..] == t[1..] + rest;
  }

  /** Digits alone are a decimal literal worth their integer value. */
  lemma DigitsAreDecimal(body: string)
    requires body != "" && AllDigits(body)
    ensures UnsignedDecimal(body) == Some(DigitsValue(body) as real)
  {
    DigitPrefixStopsAtNonDigit(body, []);
    assert body + [] == body;
    assert body[|body|..] == [];
  }

  /** On non-blank text that is a decimal integer once trimmed, `parseInt` reads
      that integer and the implicit conversion finds the same number. */
  lemma ParseIntAgreesWithNumber(s: string)
    requires !IsBlank(s) && IntegerText(Trim(s)).Some?
    ensures ParseInt(s) == IntegerText(Trim(s))
    ensures ToNumber(s) == Some(ParseInt(s).value as real)
  {
    ParseIntReadsInteger(s);
    NumberOfInteger(Trim(s));
  }

  lemma ParseIntReadsInteger(s: string)
    requires IntegerText(Trim(s)).Some?
    ensures ParseInt(s) == IntegerText(Trim(s))
  {
    var u := TrimStart(s);
    var t := Trim(s);
    TrimShape(s);
    var rest := u[|t|..];
    SplitSignExtends(t, rest);
    assert rest == [] || !IsDigit(rest[0]) by {
      if rest != [] { assert IsJsWhitespace(rest[0]); }
    }
    DigitPrefixStopsAtNonDigit(SplitSign(t).1, rest);
  }

  /** Signed decimal integer text converts to its integer value. */
  lemma NumberOfInteger(t: string)
    requires IntegerText(t).Some?
    ensures UnsignedDecimal(SplitSign(t).1).Some?
    ensures SplitSign(t).0 as real * UnsignedDecimal(SplitSign(t).1).value == IntegerText(t).value as real
  {
    var (sign, body) := SplitSign(t);
    DigitsAreDecimal(body);
    assert sign == 1 || sign == -1;
  }

  /** `parseInt` of a single digit is that digit's value. */
  lemma ParseSingleDigit(c: char)
    requires IsDigit(c)
    ensures ParseInt([c]) == Some(DigitValue(c))
  {
    assert !IsJsWhitespace([c][0]);
    assert TrimStart([c]) == [c];
    assert SplitSign([c]) == (1, [c]);
    assert [c][1..] == [];
    assert DigitPrefix([c]) == [c];
    assert [c][..|[c]| - 1] == [];
    assert DigitsValue([c]) == DigitValue(c);
  }

  /** Text that is not a number passes the `< 1` test, and `parseInt` gives NaN for it. */
  lemma NonNumericTextIsNotLessThanOne()
    ensures !LessThanOne("abc") && ParseInt("abc") == None
    ensures IntegerText(Trim("abc")).None?
  {
    assert !IsBlank("abc") by { assert !IsJsWhitespace("abc"[0]); }
    assert Trim("abc") == "abc";
    assert !AllDigits("abc") by { assert !IsDigit("abc"[0]); }
    assert DigitPrefix("abc") == "";
  }

  /** Where the two conversions part: the conversion reads an exponent,
      `parseInt` stops at the point. "0.1e1" is the number one but parses to
      zero, and it is not integer text. */
  lemma ExponentText()
    ensures ToNumber("0.1e1") == Some(1.0) && ParseInt("0.1e1") == Some(0)
    ensures IntegerText(Trim("0.1e1")).None?
  {
    DecimalExample("0.1e1", '0', '1');
    assert "0.1e1"[3..] == "e1" && "e1"[1..] == "1";
    assert DigitPrefix(".1e1") == "" && DigitPrefix("1e1") == "1";
    assert !AllDigits("0.1e1") by { assert !IsDigit("0.1e1"[1]); }
  }

  /** "1.5" is one and a half but parses to one, and it is not integer text. */
  lemma FractionText()
    ensures ToNumber("1.5") == Some(1.5) && ParseInt("1.5") == Some(1)
    ensures IntegerText(Trim("1.5")).None?
  {
    DecimalExample("1.5", '1', '5');
    assert DigitPrefix(".5") == "" && DigitPrefix("5") == "5";
    assert !AllDigits("1.5") by { assert !IsDigit("1.5"[1]); }
  }

  /** "0.5" is a number below one. */
  lemma FractionBelowOne()
    ensures ToNumber("0.5") == Some(0.5) && LessThanOne("0.5")
  {
    DecimalExample("0.5", '0', '5');
    assert DigitPrefix(".5") == "" && DigitPrefix("5") == "5";
  }

  /** The shared steps for text written digit, point, digit, and rest. */
  lemma DecimalExample(s: string, a: char, b: char)
    requires |s| >= 3 && s[0] == a && s[1] == '.' && s[2] == b && IsDigit(a) && IsDigit(b)
    requires !IsJsWhitespace(s[|s| - 1])
    ensures !IsBlank(s) && Trim(s) == s && TrimStart(s) == s
    ensures SplitSign(s) == (1, s)
    ensures DigitPrefix(s) == [a]
    ensures DigitPrefix(s[2..]) == [b] + DigitPrefix(s[3..])
  {
    assert !IsJsWhitespace(s[0]);
    assert s[1..][0] == '.';
    assert s[2..][0] == b && s[2..][1..] == s[3..];
  }
}
