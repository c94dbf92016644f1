/** Decimal text for integers, as Python writes and reads it: `str(n)`,
    `int(s)` for plain signed digit strings, and the `{:02d}` field of a
    format string. */
module Decimal {

  import opened Options

  predicate IsDigit(c: char) {
    '0' <= c <= '9'
  }

  predicate AllDigits(s: string) {
    forall i :: 0 <= i < |s| ==> IsDigit(s[i])
  }

  function DigitValue(c: char): (d: int)
    requires IsDigit(c)
    ensures 0 <= d < 10
  {
    c as int - '0' as int
  }

  function DigitChar(d: int): (c: char)
    requires 0 <= d < 10
    ensures IsDigit(c) && DigitValue(c) == d
  {
    ('0' as int + d) as char
  }

  /** The number a run of decimal digits denotes, most significant first
      (leading zeros allowed, the empty run denotes 0). */
  function DigitsValue(s: string): (n: nat)
    requires AllDigits(s)
  {
    if s == [] then 0 else DigitsValue(s[..|s| - 1]) * 10 + DigitValue(s[|s| - 1])
  }

  /** `str(n)` for n >= 0: at least one digit, and no leading zero unless
      the number is 0 itself. */
  function NatToStr(n: nat): (s: string)
    ensures |s| >= 1 && AllDigits(s)
    ensures DigitsValue(s) == n
    ensures n > 0 ==> s[0] != '0'
    ensures n < 10 <==> |s| == 1
  {
    if n < 10 then [DigitChar(n)]
    else
      var prefix := NatToStr(n / 10);
      var s := prefix + [DigitChar(n % 10)];
      assert s[..|s| - 1] == prefix;
      s
  }

  /** `str(n)` for any integer: a minus sign in front of a negative number. */
  function IntToStr(n: int): (s: string)
    ensures |s| >= 1
    ensures n >= 0 ==> s == NatToStr(n)
    ensures n < 0 ==> s == "-" + NatToStr(-n)
  {
    if n < 0 then "-" + NatToStr(-n) else NatToStr(n)
  }

  /** `int(s)` on a string: an optional `+` or `-` followed by one or more
      decimal digits; anything else is a `ValueError`, here `None`. */
  function StrToInt(s: string): (r: Option<int>)
    ensures r.Some? <==>
              (AllDigits(s) && |s| > 0) ||
              (|s| > 1 && (s[0] == '+' || s[0] == '-') && AllDigits(s[1..]))
    ensures r.Some? && AllDigits(s) ==> r.value == DigitsValue(s)
  {
    if |s| > 1 && (s[0] == '+' || s[0] == '-') && AllDigits(s[1..]) then
      var magnitude: int := DigitsValue(s[1..]);
      Some(if s[0] == '-' then -magnitude else magnitude)
    else if |s| > 0 && AllDigits(s) then
      Some(DigitsValue(s))
    else
      None
  }

  /** Reading back what `str` wrote gives the same integer. */
  lemma IntToStrRoundTrip(n: int)
    ensures StrToInt(IntToStr(n)) == Some(n)
  {
    if n < 0 {
      var s := IntToStr(n);
      assert s[1..] == NatToStr(-n);
    }
  }

  /** `str` is injective: different integers are written differently. */
  lemma IntToStrInjective(a: int, b: int)
    requires IntToStr(a) == IntToStr(b)
    ensures a == b
  {
    IntToStrRoundTrip(a);
    IntToStrRoundTrip(b);
  }

  /** The `{:02d}` field: the decimal digits of n, with a zero in front
      when n has a single digit. */
  function ZeroPad2(n: nat): (s: string)
    ensures |s| >= 2 && AllDigits(s)
    ensures DigitsValue(s) == n
    ensures n < 100 ==> |s| == 2
  {
    if n < 10 then
      var s := "0" + NatToStr(n);
      assert s[..1] == "0";
      s
    else
      var s := NatToStr(n);
      assert n >= 100 ==> |NatToStr(n / 10)| >= 2;
      assert n < 100 ==> NatToStr(n) == NatToStr(n / 10) + [DigitChar(n % 10)];
      s
  }
}
