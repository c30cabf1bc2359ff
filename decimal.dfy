/** Python's `str(i)` and `int(s)` for integers written as ASCII decimal digits. */
module Decimal {
  import opened Common

  predicate IsDigit(c: char) { '0' <= c <= '9' }

  function DigitValue(c: char): (d: nat)
    requires IsDigit(c)
    ensures d < 10
  {
    c as int - '0' as int
  }

  function DigitChar(d: nat): (c: char)
    requires d < 10
    ensures IsDigit(c) && DigitValue(c) == d
  {
    ('0' as int + d) as char
  }

  predicate AllDigits(s: string) { forall i :: 0 <= i < |s| ==> IsDigit(s[i]) }

  /** `str(n)` for n >= 0: the shortest decimal numeral, no leading zero. */
  function FormatNat(n: nat): (s: string)
    ensures |s| >= 1 && AllDigits(s)
    ensures s[0] == '0' ==> n == 0
  {
    if n < 10 then [DigitChar(n)] else FormatNat(n / 10) + [DigitChar(n % 10)]
  }

  /** `str(i)`: a minus sign before the magnitude of a negative number. */
  function FormatInt(i: int): (s: string)
    ensures |s| >= 1
    ensures forall k :: 0 <= k < |s| ==> IsDigit(s[k]) || (k == 0 && s[k] == '-')
  {
    if i < 0 then "-" + FormatNat(-i) else FormatNat(i)
  }

  /** The value of a non-empty run of decimal digits, read left to right. */
  function DigitsValue(s: string): nat
    requires |s| >= 1 && AllDigits(s)
  {
    if |s| == 1 then DigitValue(s[0])
    else DigitsValue(s[..|s| - 1]) * 10 + DigitValue(s[|s| - 1])
  }

  /** `int(s)` restricted to an optional sign followed by at least one digit; `None` is the
      `ValueError` Python raises for anything else. */
  function ParseInt(s: string): (r: Option<int>)
    ensures s == [] ==> r.None?
    // Only a sign or a digit may come first, and only digits after it.
    ensures r.Some? ==> (IsDigit(s[0]) || s[0] == '-' || s[0] == '+')
                        && forall k :: 1 <= k < |s| ==> IsDigit(s[k])
    ensures r.Some? ==> (r.value < 0 ==> s[0] == '-')
    ensures r.Some? && s[0] == '-' ==> r.value <= 0
  {
    if |s| >= 2 && (s[0] == '-' || s[0] == '+') && AllDigits(s[1..]) then
      Some(if s[0] == '-' then -(DigitsValue(s[1..]) as int) else DigitsValue(s[1..]))
    else if |s| >= 1 && AllDigits(s) then Some(DigitsValue(s))
    else None
  }

  lemma {:induction false} DigitsOfFormatNat(n: nat)
    ensures DigitsValue(FormatNat(n)) == n
    decreases n
  {
    if n >= 10 {
      var s := FormatNat(n);
      assert s[..|s| - 1] == FormatNat(n / 10);
      DigitsOfFormatNat(n / 10);
    }
  }

  /** Parsing what `str` produced gives back the integer, negative ones included. */
  lemma ParseFormatInt(i: int)
    ensures ParseInt(FormatInt(i)) == Some(i)
  {
    if i < 0 {
      DigitsOfFormatNat(-i);
      assert FormatInt(i)[1..] == FormatNat(-i);
    } else {
      DigitsOfFormatNat(i);
    }
  }

  /** Distinct integers have distinct numerals. */
  lemma FormatIntInjective(i: int, j: int)
    requires FormatInt(i) == FormatInt(j)
    ensures i == j
  {
    ParseFormatInt(i);
    ParseFormatInt(j);
  }
}
