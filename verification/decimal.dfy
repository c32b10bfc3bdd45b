/** Decimal text of integers, as `std::to_string(int)` writes it, with the parser
    that reads it back. */
module Decimal {
  import opened Outcomes

  predicate IsDigit(c: char)
  {
    '0' <= c <= '9'
  }

  predicate AllDigits(s: string)
  {
    forall i :: 0 <= i < |s| ==> IsDigit(s[i])
  }

  function DigitChar(d: nat): (c: char)
    requires d < 10
    ensures IsDigit(c)
  {
    (d + '0' as int) as char
  }

  function DigitValue(c: char): (d: nat)
    requires IsDigit(c)
    ensures d < 10
  {
    c as int - '0' as int
  }

  /** Decimal digits as `std::to_string` writes them: at least one, and no leading
      zero unless the number is 0 itself. */
  predicate Canonical(d: string)
  {
    |d| > 0 && AllDigits(d) && (|d| > 1 ==> d[0] != '0')
  }

  /** The shortest decimal digits of `n`: no leading zero except for 0 itself. */
  function NatToString(n: nat): (s: string)
    ensures Canonical(s)
    ensures n > 0 ==> s[0] != '0'
    decreases n
  {
    if n < 10 then [DigitChar(n)] else NatToString(n / 10) + [DigitChar(n % 10)]
  }

  /** The number a string of decimal digits denotes. */
  function DigitsValue(s: string): nat
    requires AllDigits(s)
  {
    if |s| == 0 then 0 else DigitsValue(s[..|s| - 1]) * 10 + DigitValue(s[|s| - 1])
  }

  /** `std::to_string(int)`: a minus sign for negative values, then the digits. */
  function IntToString(i: int): string
  {
    if i < 0 then "-" + NatToString(-i) else NatToString(i)
  }

  /** Reads back the text `std::to_string` writes: canonical digits, optionally
      after a minus sign that is not followed by 0. Anything else (leading zeros,
      "-0", stray characters) is rejected. */
  function ParseInt(s: string): Option<int>
  {
    if |s| > 1 && s[0] == '-' && Canonical(s[1..]) && s[1] != '0' then Some(0 - DigitsValue(s[1..]) as int)
    else if Canonical(s) then Some(DigitsValue(s))
    else None
  }

  lemma {:induction false} NatToStringValue(n: nat)
    ensures DigitsValue(NatToString(n)) == n
    decreases n
  {
    var s := NatToString(n);
    if n >= 10 {
      NatToStringValue(n / 10);
      assert s[..|s| - 1] == NatToString(n / 10);
    }
  }

  /** Reading back the text of any integer yields that integer. */
  lemma IntToStringRoundTrip(i: int)
    ensures ParseInt(IntToString(i)) == Some(i)
  {
    if i < 0 {
      var digits := NatToString(-i);
      var s := "-" + digits;
      assert s[0] == '-' && s[1..] == digits;
      NatToStringValue(-i);
      assert ParseInt(s) == Some(0 - DigitsValue(digits) as int);
    } else {
      var s := NatToString(i);
      assert IsDigit(s[0]);
      NatToStringValue(i);
      assert ParseInt(s) == Some(DigitsValue(s) as int);
    }
  }

  /** A digit string with a non-zero first digit denotes a positive number. */
  lemma {:induction false} LeadingDigitPositive(d: string)
    requires |d| > 0 && AllDigits(d) && d[0] != '0'
    ensures DigitsValue(d) > 0
    decreases |d|
  {
    if |d| > 1 {
      LeadingDigitPositive(d[..|d| - 1]);
    }
  }

  /** Canonical digits are exactly the text of the number they denote. */
  lemma {:induction false} CanonicalDigits(d: string)
    requires Canonical(d)
    ensures NatToString(DigitsValue(d)) == d
    decreases |d|
  {
    var n := DigitsValue(d);
    var last := d[|d| - 1];
    if |d| == 1 {
      assert DigitChar(DigitValue(last)) == last;
    } else {
      var prefix := d[..|d| - 1];
      LeadingDigitPositive(prefix);
      CanonicalDigits(prefix);
      assert n / 10 == DigitsValue(prefix) && n % 10 == DigitValue(last);
      assert DigitChar(DigitValue(last)) == last;
      assert d == prefix + [last];
    }
  }

  /** Every text the parser accepts is the text of the integer it yields. */
  lemma ParseIntExact(s: string, i: int)
    requires ParseInt(s) == Some(i)
    ensures IntToString(i) == s
  {
    if |s| > 1 && s[0] == '-' && Canonical(s[1..]) && s[1] != '0' {
      LeadingDigitPositive(s[1..]);
      CanonicalDigits(s[1..]);
      assert s == "-" + s[1..];
    } else {
      CanonicalDigits(s);
    }
  }

  /** Distinct integers have distinct texts. */
  lemma IntToStringInjective(a: int, b: int)
    requires IntToString(a) == IntToString(b)
    ensures a == b
  {
    IntToStringRoundTrip(a);
    IntToStringRoundTrip(b);
  }
}
