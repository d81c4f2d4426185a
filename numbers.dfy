/**
 * Integers read from form fields: Python's `int(text)` for base-10 text and the
 * bounded parse `parse_int` built on it, with `str(n)` as the partner that
 * renders an integer back to text.
 */
module Numbers {
  import opened Wrappers
  import opened Text

  predicate IsDigit(c: char) {
    '0' <= c <= '9'
  }

  function DigitValue(c: char): (d: nat)
    requires IsDigit(c)
    ensures d < 10
  {
    c as int - '0' as int
  }

  function DigitChar(d: nat): (c: char)
    requires d < 10
    ensures IsDigit(c) && DigitValue(c) == d
  {
    ('0' as int + d) as char
  }

  /** `str(n)` for a non-negative `n`: no sign, no leading zero. */
  function NatString(n: nat): (r: string)
    ensures r != [] && IsDigit(r[0])
    ensures forall i :: 0 <= i < |r| ==> IsDigit(r[i])
  {
    if n < 10 then [DigitChar(n)] else NatString(n / 10) + [DigitChar(n % 10)]
  }

  /** `str(n)` for any integer. */
  function DecimalString(n: int): string {
    if n < 0 then "-" + NatString(-n) else NatString(n)
  }

  /** Characters allowed in the digit part of a literal. */
  predicate DigitsOrUnderscores(s: string) {
    forall i :: 0 <= i < |s| ==> IsDigit(s[i]) || s[i] == '_'
  }

  /**
   * The digit part of a base-10 Python literal: at least one digit, and every
   * underscore stands between two digits.
   */
  predicate IsDigitGroups(s: string) {
    && s != []
    && IsDigit(s[0])
    && IsDigit(s[|s| - 1])
    && DigitsOrUnderscores(s)
    && forall i :: 0 <= i < |s| - 1 && s[i] == '_' ==> IsDigit(s[i + 1])
  }

  /** The value of a digit part, underscores ignored. */
  function DigitsValue(s: string): nat
    requires DigitsOrUnderscores(s)
  {
    if s == [] then 0
    else if s[|s| - 1] == '_' then DigitsValue(s[..|s| - 1])
    else DigitsValue(s[..|s| - 1]) * 10 + DigitValue(s[|s| - 1])
  }

  /** The sign of a literal, and the digit part that follows it. */
  function SignAndDigits(t: string): (bool, string) {
    if t != [] && (t[0] == '-' || t[0] == '+') then (t[0] == '-', t[1..]) else (false, t)
  }

  /**
   * The value a base-10 Python literal denotes: surrounding whitespace is
   * ignored, an optional sign, then digit groups; `None` when `s` is not
   * such a literal. No limit on its length.
   */
  function LiteralValue(s: string): Option<int> {
    var (negative, digits) := SignAndDigits(Strip(s));
    if IsDigitGroups(digits) then
      var magnitude: int := DigitsValue(digits);
      Some(if negative then -magnitude else magnitude)
    else None
  }

  /** The number of decimal digits CPython's `int()` accepts in one string by default. */
  const MaxStrDigits: nat := 4300

  /** The digits of `s`, underscores and other characters not counted. */
  function DigitCount(s: string): (r: nat)
    ensures r <= |s|
  {
    if s == [] then 0 else DigitCount(s[..|s| - 1]) + (if IsDigit(s[|s| - 1]) then 1 else 0)
  }

  /**
   * `int(s)`: the value of the literal, and `None` for the `ValueError`
   * Python raises, both when `s` is not a literal and when its digit part
   * holds more than `MaxStrDigits` digits.
   */
  function ParseIntLiteral(s: string): Option<int> {
    var (_, digits) := SignAndDigits(Strip(s));
    if DigitCount(digits) > MaxStrDigits then None else LiteralValue(s)
  }

  function Pow10(n: nat): (p: nat)
    ensures p >= 1
    ensures n >= 1 ==> p >= 10
  {
    if n == 0 then 1 else 10 * Pow10(n - 1)
  }

  /** The inclusive optional bounds of `parse_int`. */
  predicate InBounds(n: int, minValue: Option<int>, maxValue: Option<int>) {
    (minValue.None? || minValue.value <= n) && (maxValue.None? || n <= maxValue.value)
  }

  /**
   * `parse_int(value, min_value, max_value)`: no value for a missing or empty
   * field; otherwise the literal's own value when it is inside the bounds, and
   * no value (never a clamped one) when it is outside or not a literal.
   */
  function ParseInt(value: Option<string>, minValue: Option<int>, maxValue: Option<int>): (r: Option<int>)
    ensures value.None? || value == Some("") ==> r.None?
    ensures r.Some? ==> value.Some? && ParseIntLiteral(value.value) == r && InBounds(r.value, minValue, maxValue)
    ensures r.None? && value.Some? && value.value != "" ==>
              ParseIntLiteral(value.value).None? || !InBounds(ParseIntLiteral(value.value).value, minValue, maxValue)
  {
    if value.None? || value.value == "" then None
    else
      match ParseIntLiteral(value.value)
      case None => None
      case Some(number) =>
        if minValue.Some? && number < minValue.value then None
        else if maxValue.Some? && number > maxValue.value then None
        else Some(number)
  }

  /** Reading back what `str` wrote gives the number again. */
  lemma {:induction false} NatStringValue(n: nat)
    ensures DigitsOrUnderscores(NatString(n)) && DigitsValue(NatString(n)) == n
  {
    var s := NatString(n);
    if n >= 10 {
      NatStringValue(n / 10);
      assert s[..|s| - 1] == NatString(n / 10);
    }
  }

  lemma NatStringGroups(n: nat)
    ensures IsDigitGroups(NatString(n)) && IsStripped(NatString(n))
  {
  }

  /** Reading back what `str` wrote gives the number again, with no limit on its length. */
  lemma ValueOfDecimalString(n: int)
    ensures LiteralValue(DecimalString(n)) == Some(n)
  {
    var m: nat := if n < 0 then -n else n;
    DecimalDigitPart(n);
    NatStringGroups(m);
    NatStringValue(m);
    assert SignAndDigits(Strip(DecimalString(n))).0 <==> n < 0;
  }

  lemma {:induction false} DigitCountAllDigits(s: string)
    requires forall i :: 0 <= i < |s| ==> IsDigit(s[i])
    ensures DigitCount(s) == |s|
  {
    if s != [] {
      DigitCountAllDigits(s[..|s| - 1]);
    }
  }

  /** `str(n)` has at most `k` digits exactly when `n < 10^k`. */
  lemma {:induction false} NatStringLength(n: nat, k: nat)
    requires k >= 1
    ensures |NatString(n)| <= k <==> n < Pow10(k)
  {
    if n >= 10 {
      assert |NatString(n)| == |NatString(n / 10)| + 1;
      if k == 1 {
        assert Pow10(1) == 10;
      } else {
        NatStringLength(n / 10, k - 1);
        assert n < Pow10(k) <==> n / 10 < Pow10(k - 1);
      }
    }
  }

  /** `str(n)` has at most `MaxStrDigits` digits. */
  predicate WithinDigitLimit(n: int) {
    (if n < 0 then -n else n) < Pow10(MaxStrDigits)
  }

  /** The digit part of `str(n)` is `str(abs(n))`. */
  lemma DecimalDigitPart(n: int)
    ensures SignAndDigits(Strip(DecimalString(n))).1 == NatString(if n < 0 then -n else n)
  {
    var s := DecimalString(n);
    NatStringGroups(if n < 0 then -n else n);
    StripStripped(s);
    if n < 0 {
      assert s[1..] == NatString(-n);
    }
  }

  /**
   * `int(str(n)) == n` for every `n` of at most `MaxStrDigits` digits, and
   * `ValueError` for every longer one.
   */
  lemma IntOfDecimalString(n: int)
    ensures ParseIntLiteral(DecimalString(n)) == if WithinDigitLimit(n) then Some(n) else None
  {
    var m: nat := if n < 0 then -n else n;
    ValueOfDecimalString(n);
    DecimalDigitPart(n);
    DigitCountAllDigits(NatString(m));
    NatStringLength(m, MaxStrDigits);
    assert DigitCount(SignAndDigits(Strip(DecimalString(n))).1) <= MaxStrDigits <==> WithinDigitLimit(n);
  }

  /**
   * The bounded parse of a rendered integer is the integer exactly when it is
   * in range and short enough for `int()`, and nothing otherwise: out-of-range
   * input is refused, not clamped.
   */
  lemma ParseIntOfDecimal(n: int, minValue: int, maxValue: int)
    ensures ParseInt(Some(DecimalString(n)), Some(minValue), Some(maxValue)) ==
              if minValue <= n <= maxValue && WithinDigitLimit(n) then Some(n) else None
  {
    IntOfDecimalString(n);
  }
}
