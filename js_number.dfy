/** Numeric conversions of the JavaScript runtime that the controllers rely on:
    `parseInt` with the radix left out, truthiness of numbers, `x || default`,
    the decimal value of a `\d+` capture (`+digits`) and `String(n)`. */
module JsNumber {
  import opened JsText

  /** The result of a JavaScript numeric conversion, with the finite values
      restricted to integers. */
  datatype Numeric = NaN | Num(v: int)

  /** JavaScript truthiness of a number: `NaN` and zero are falsy. */
  predicate NumTruthy(n: Numeric) {
    n.Num? && n.v != 0
  }

  /** `!(isNaN(x) || x <= 0)` for the number `x` denotes. */
  predicate Positive(n: Numeric) {
    n.Num? && n.v > 0
  }

  /** `n || d` for a number `n`. */
  function OrDefault(n: Numeric, d: int): int {
    if NumTruthy(n) then n.v else d
  }

  predicate IsRadixDigit(c: char, radix: nat) {
    if radix == 16 then IsDigit(c) || 'a' <= c <= 'f' || 'A' <= c <= 'F'
    else IsDigit(c)
  }

  function DigitVal(c: char): (d: nat)
    ensures IsDigit(c) ==> d < 10
    ensures IsRadixDigit(c, 16) ==> d < 16
  {
    if IsDigit(c) then c as int - '0' as int
    else if 'a' <= c <= 'f' then c as int - 'a' as int + 10
    else if 'A' <= c <= 'F' then c as int - 'A' as int + 10
    else 0
  }

  /** Value of a string of digits in the given radix, most significant first. */
  function DigitsValue(s: string, radix: nat): nat {
    if s == [] then 0 else radix * DigitsValue(s[..|s| - 1], radix) + DigitVal(s[|s| - 1])
  }

  /** The value `+m[i]` of a `(\d+)` capture. */
  function DecimalValue(s: string): nat {
    DigitsValue(s, 10)
  }

  /** Length of the longest prefix of `s` made of digits of the radix. */
  function DigitPrefix(s: string, radix: nat): (n: nat)
    ensures n <= |s|
    ensures forall i :: 0 <= i < n ==> IsRadixDigit(s[i], radix)
    ensures n < |s| ==> !IsRadixDigit(s[n], radix)
  {
    if |s| == 0 || !IsRadixDigit(s[0], radix) then 0
    else
      var m := DigitPrefix(s[1..], radix);
      assert forall i :: 1 <= i < m + 1 ==> s[i] == s[1..][i - 1];
      m + 1
  }

  /** `parseInt(String(v))` with the radix left out: leading white space is
      skipped, one sign is read, a `0x`/`0X` prefix selects radix 16, and the
      longest prefix of digits is converted; no digit gives `NaN`. `None`
      stands for `undefined`, whose string "undefined" has no digit. */
  function ParseInt(v: Option<string>): (r: Numeric)
    ensures v.None? ==> r == NaN
  {
    if v.None? then NaN
    else
      var s := v.value;
      var t := s[LeadingSpaces(s)..];
      var neg := |t| > 0 && t[0] == '-';
      var u := if |t| > 0 && (t[0] == '-' || t[0] == '+') then t[1..] else t;
      var hex := |u| >= 2 && u[0] == '0' && (u[1] == 'x' || u[1] == 'X');
      var radix := if hex then 16 else 10;
      var w := if hex then u[2..] else u;
      var n := DigitPrefix(w, radix);
      if n == 0 then NaN
      else
        var mag: int := DigitsValue(w[..n], radix);
        Num(if neg then -mag else mag)
  }

  /** `parseInt(v) || d`, the rule the listing handlers use for `page` and `limit`. */
  function ParseIntOr(v: Option<string>, d: int): (r: int)
    ensures d != 0 ==> r != 0
    ensures r == d || ParseInt(v) == Num(r)
    ensures NumTruthy(ParseInt(v)) ==> r == ParseInt(v).v
    ensures !NumTruthy(ParseInt(v)) ==> r == d
  {
    OrDefault(ParseInt(v), d)
  }

  function DigitChar(d: nat): (c: char)
    requires d < 10
    ensures IsDigit(c) && DigitVal(c) == d
  {
    ('0' as int + d) as char
  }

  /** `String(n)` for a natural number: its decimal digits without leading zeros. */
  function NatToString(n: nat): (s: string)
    ensures 0 < |s|
    ensures AllDigits(s)
    ensures DecimalValue(s) == n
    ensures s[0] == '0' ==> n == 0
  {
    if n < 10 then
      var s := [DigitChar(n)];
      assert s[..0] == [];
      assert DigitsValue(s, 10) == 10 * DigitsValue([], 10) + DigitVal(s[0]);
      s
    else
      var p := NatToString(n / 10);
      var s := p + [DigitChar(n % 10)];
      assert s[..|s| - 1] == p;
      assert DigitsValue(s, 10) == 10 * DigitsValue(p, 10) + n % 10;
      s
  }

  /** A string of decimal digits reads back through `parseInt` as its value. */
  lemma {:induction false} ParseIntDecimal(s: string)
    requires 0 < |s| && AllDigits(s)
    ensures ParseInt(Some(s)) == Num(DecimalValue(s))
  {
    assert LeadingSpaces(s) == 0;
    var t := s[LeadingSpaces(s)..];
    assert t == s;
    assert !(|s| >= 2 && s[0] == '0' && (s[1] == 'x' || s[1] == 'X'));
    assert DigitPrefix(s, 10) == |s|;
    assert s[..|s|] == s;
  }

  /** `parseInt(String(n)) === n` for every natural number. */
  lemma NatToStringRoundTrip(n: nat)
    ensures ParseInt(Some(NatToString(n))) == Num(n)
  {
    ParseIntDecimal(NatToString(n));
  }

  /** The parameter values that silently become the default: "0", the empty
      string, text without digits, and an absent parameter. */
  lemma ParseIntOrDefaults(d: int)
    ensures ParseIntOr(Some("0"), d) == d
    ensures ParseIntOr(Some(""), d) == d
    ensures ParseIntOr(Some("abc"), d) == d
    ensures ParseIntOr(None, d) == d
  {
    assert DigitPrefix("0", 10) == 1;
    assert DigitsValue("0", 10) == 0 by { assert "0"[..0] == []; }
    assert LeadingSpaces("abc") == 0;
    assert DigitPrefix("abc", 10) == 0;
  }

  /** A sign before the digits, as `parseInt` reads it. */
  lemma ParseIntSigned()
    ensures ParseInt(Some(" -3")) == Num(-3)
  {
    assert LeadingSpaces(" -3") == 1;
    assert " -3"[1..] == "-3" && "-3"[1..] == "3";
    assert DigitPrefix("3", 10) == 1;
    assert "3"[..1] == "3" && "3"[..0] == [];
  }

  /** `parseInt` stops at the first character that is not a digit. */
  lemma ParseIntPrefix()
    ensures ParseInt(Some("12abc")) == Num(12)
  {
    assert LeadingSpaces("12abc") == 0;
    assert DigitPrefix("12abc", 10) == 2;
    assert "12abc"[..2] == "12";
    assert DigitsValue("12", 10) == 12 by { assert "12"[..1] == "1"; assert "1"[..0] == []; }
  }

  /** A `0x` prefix makes `parseInt` read hexadecimal digits. */
  lemma ParseIntHex()
    ensures ParseInt(Some("0x1A")) == Num(26)
  {
    assert LeadingSpaces("0x1A") == 0;
    assert "0x1A"[2..] == "1A";
    assert DigitPrefix("1A", 16) == 2;
    assert "1A"[..2] == "1A";
    assert DigitsValue("1A", 16) == 26 by { assert "1A"[..1] == "1"; assert "1"[..0] == []; }
  }

  /** `parseInt` reads the digits before a '-' and stops there. */
  lemma ParseIntStopsAtDash(digits: string, rest: string)
    requires 0 < |digits| && AllDigits(digits) && rest != [] && rest[0] == '-'
    ensures ParseInt(Some(digits + rest)) == Num(DecimalValue(digits))
  {
    var s := digits + rest;
    assert s[0] == digits[0];
    assert LeadingSpaces(s) == 0;
    assert s[0..] == s;
    assert |s| >= 2 ==> s[1] == (if |digits| >= 2 then digits[1] else rest[0]);
    assert DigitPrefix(s, 10) == |digits| by {
      assert forall i :: 0 <= i < |digits| ==> s[i] == digits[i];
      assert s[|digits|] == '-';
    }
    assert s[..|digits|] == digits;
  }
}
