/** The small part of JavaScript number semantics the request handlers rely
    on: `parseInt` on query-string text (ECMAScript `parseInt` with an
    undefined radix), `Math.min` with a NaN argument, and the decimal text a
    number becomes inside a template string. Only integral values and NaN
    occur on these paths, so a number is an unbounded integer or NaN. */
module Numbers {

  import opened Wrappers

  datatype JsNum = Int(value: int) | NaN

  /** ECMAScript WhiteSpace and LineTerminator code points, the characters
      `parseInt` skips before the number. */
  predicate IsJsSpace(c: char) {
    || c == '\t' || c == '\n' || c == '\U{000B}' || c == '\U{000C}' || c == '\r'
    || c == ' ' || c == '\U{00A0}' || c == '\U{1680}'
    || ('\U{2000}' <= c <= '\U{200A}')
    || c == '\U{2028}' || c == '\U{2029}' || c == '\U{202F}' || c == '\U{205F}'
    || c == '\U{3000}' || c == '\U{FEFF}'
  }

  /** `s` without its leading white space. */
  function TrimStart(s: string): (r: string)
    ensures |r| <= |s| && r == s[|s| - |r|..]
    ensures forall i :: 0 <= i < |s| - |r| ==> IsJsSpace(s[i])
    ensures r == [] || !IsJsSpace(r[0])
  {
    if s != [] && IsJsSpace(s[0]) then TrimStart(s[1..]) else s
  }

  predicate IsDecimalDigit(c: char) {
    '0' <= c <= '9'
  }

  predicate IsHexDigit(c: char) {
    IsDecimalDigit(c) || 'a' <= c <= 'f' || 'A' <= c <= 'F'
  }

  /** Is `c` a digit of `radix`, which is 10 or 16. */
  predicate IsDigit(c: char, radix: nat) {
    if radix == 16 then IsHexDigit(c) else IsDecimalDigit(c)
  }

  function DigitValue(c: char): (d: nat)
    requires IsHexDigit(c)
    ensures d < 16
    ensures IsDecimalDigit(c) ==> d < 10
  {
    if IsDecimalDigit(c) then (c - '0') as nat
    else if 'a' <= c <= 'f' then (c - 'a') as nat + 10
    else (c - 'A') as nat + 10
  }

  /** The length of the longest prefix of `s` made of `radix` digits. */
  function DigitRun(s: string, radix: nat): (n: nat)
    ensures n <= |s|
    ensures forall i :: 0 <= i < n ==> IsDigit(s[i], radix)
    ensures n < |s| ==> !IsDigit(s[n], radix)
  {
    if s != [] && IsDigit(s[0], radix) then 1 + DigitRun(s[1..], radix) else 0
  }

  /** The value of a string of `radix` digits, most significant first. */
  function DigitsValue(s: string, radix: nat): nat
    requires radix == 10 || radix == 16
    requires forall i :: 0 <= i < |s| ==> IsDigit(s[i], radix)
  {
    if s == [] then 0
    else
      var last := s[|s| - 1];
      assert IsDigit(last, radix);
      DigitsValue(s[..|s| - 1], radix) * radix + DigitValue(last)
  }

  /** `parseInt(s)`: skip leading white space, take one optional sign, then
      read the magnitude; no digits at all gives NaN. */
  function ParseInt(s: string): JsNum {
    var t := TrimStart(s);
    if t != [] && t[0] == '-' then
      match ParseMagnitude(t[1..])
      case None => NaN
      case Some(m) => Int(-(m as int))
    else
      var u := if t != [] && t[0] == '+' then t[1..] else t;
      match ParseMagnitude(u)
      case None => NaN
      case Some(m) => Int(m)
  }

  /** The unsigned part of `parseInt`: a `0x`/`0X` prefix selects radix 16,
      then the longest run of digits is read and the rest ignored. */
  function ParseMagnitude(u: string): Option<nat> {
    var hex := |u| >= 2 && u[0] == '0' && (u[1] == 'x' || u[1] == 'X');
    var radix := if hex then 16 else 10;
    var body := if hex then u[2..] else u;
    var n := DigitRun(body, radix);
    if n == 0 then None else Some(DigitsValue(body[..n], radix))
  }

  /** `Math.min(bound, x)`: NaN if `x` is NaN. */
  function Min(bound: int, x: JsNum): (r: JsNum)
    ensures r.NaN? <==> x.NaN?
    ensures r.Int? ==> r.value <= bound && (r.value == bound || r.value == x.value)
    ensures x.Int? && x.value <= bound ==> r == x
  {
    match x
    case NaN => NaN
    case Int(v) => Int(if v < bound then v else bound)
  }

  function DecimalChar(d: nat): (c: char)
    requires d < 10
    ensures IsDecimalDigit(c) && DigitValue(c) == d
  {
    ('0' as int + d) as char
  }

  /** The decimal digits of `n`, without leading zeros. */
  function Decimal(n: nat): (r: string)
    ensures r != []
    ensures forall i :: 0 <= i < |r| ==> IsDecimalDigit(r[i])
    ensures r[0] == '0' ==> n == 0
  {
    if n < 10 then [DecimalChar(n)] else Decimal(n / 10) + [DecimalChar(n % 10)]
  }

  /** The text of a number in a template string: `${page}`. */
  function Render(x: JsNum): (r: string)
    ensures r != []
    ensures forall i :: 0 <= i < |r| ==> r[i] != ':'
  {
    match x
    case NaN => "NaN"
    case Int(v) => if v < 0 then "-" + Decimal(-v) else Decimal(v)
  }

  lemma {:induction false} DecimalValue(n: nat)
    ensures DigitsValue(Decimal(n), 10) == n
  {
    var r := Decimal(n);
    if n >= 10 {
      DecimalValue(n / 10);
      assert r[..|r| - 1] == Decimal(n / 10);
    }
  }

  lemma DigitRunAll(s: string, radix: nat)
    requires forall i :: 0 <= i < |s| ==> IsDigit(s[i], radix)
    ensures DigitRun(s, radix) == |s|
  {
  }

  /** A run of decimal digits, read as a magnitude, is its decimal value:
      a leading `0` is not followed by `x`, so it is not a hex prefix. */
  lemma MagnitudeOfDigits(s: string)
    requires s != [] && forall i :: 0 <= i < |s| ==> IsDecimalDigit(s[i])
    ensures ParseMagnitude(s) == Some(DigitsValue(s, 10))
  {
    if |s| >= 2 {
      assert IsDecimalDigit(s[1]);
    }
    DigitRunAll(s, 10);
    assert s[..|s|] == s;
  }

  /** The decimal text of a natural number is read back as that number. */
  lemma MagnitudeOfDecimal(m: nat)
    ensures ParseMagnitude(Decimal(m)) == Some(m)
  {
    DecimalValue(m);
    MagnitudeOfDigits(Decimal(m));
  }

  /** A string of decimal digits parses to its decimal value. */
  lemma ParseDigits(s: string)
    requires s != [] && forall i :: 0 <= i < |s| ==> IsDecimalDigit(s[i])
    ensures ParseInt(s) == Int(DigitsValue(s, 10))
  {
    assert IsDecimalDigit(s[0]);
    TrimStartNoSpace(s);
    assert s[0] != '-' && s[0] != '+';
    MagnitudeOfDigits(s);
  }

  /** Appending a digit to a decimal text multiplies by ten and adds it. */
  lemma DecimalDigits(n: nat, d: nat)
    requires 0 < n && d < 10
    ensures Decimal(n * 10 + d) == Decimal(n) + [DecimalChar(d)]
  {
    assert (n * 10 + d) / 10 == n && (n * 10 + d) % 10 == d;
  }

  /** A text that is the decimal form of `n` parses to `n`. */
  lemma ParseText(s: string, n: nat)
    requires s == Decimal(n)
    ensures ParseInt(s) == Int(n)
  {
    ParseDecimal(n);
  }

  /** The texts of the two-digit numbers. */
  lemma TwoDigitText(s: string, n: nat)
    requires 10 <= n < 100 && |s| == 2 && s[0] == DecimalChar(n / 10) && s[1] == DecimalChar(n % 10)
    ensures s == Decimal(n)
  {
    DecimalDigits(n / 10, n % 10);
  }

  /** The decimal text of a natural number parses to that number. */
  lemma ParseDecimal(n: nat)
    ensures ParseInt(Decimal(n)) == Int(n)
  {
    DecimalValue(n);
    ParseDigits(Decimal(n));
  }

  /** A minus sign before the decimal text of `m` parses to `-m`. */
  lemma ParseNegative(m: nat)
    ensures ParseInt("-" + Decimal(m)) == Int(-(m as int))
  {
    var r := "-" + Decimal(m);
    MagnitudeOfDecimal(m);
    TrimStartNoSpace(r);
    assert r[1..] == Decimal(m);
  }

  lemma TrimStartNoSpace(s: string)
    requires s != [] && !IsJsSpace(s[0])
    ensures TrimStart(s) == s
  {
  }

  /** The text of an integer parses back to that integer: rendering is
      `parseInt`'s right inverse. */
  lemma ParseRender(x: JsNum)
    requires x.Int?
    ensures ParseInt(Render(x)) == x
  {
    if x.value < 0 {
      ParseNegative(-x.value);
    } else {
      ParseDecimal(x.value);
    }
  }

  /** Two numbers with the same text are the same number. */
  lemma RenderInjective(x: JsNum, y: JsNum)
    requires Render(x) == Render(y)
    ensures x == y
  {
    if x.Int? && y.Int? {
      ParseRender(x);
      ParseRender(y);
    } else if x.Int? {
      NotNaNText(x);
    } else if y.Int? {
      NotNaNText(y);
    }
  }

  lemma NotNaNText(x: JsNum)
    requires x.Int?
    ensures Render(x) != "NaN"
  {
    var r := Render(x);
    if x.value >= 0 {
      assert IsDecimalDigit(r[0]);
    } else {
      assert IsDecimalDigit(r[1]);
    }
  }
}
