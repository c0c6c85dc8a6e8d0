/**
 * Character classes and decimal rendering as the C++ standard streams use
 * them: `isspace` in the "C" locale and `operator<<` on integers.
 */
module Text {
  import opened Wrappers

  /** The six characters the "C" locale classifies as white space. */
  predicate IsSpace(c: char) {
    c == ' ' || c == '\t' || c == '\n' || c == '\r' || c as int == 11 || c as int == 12
  }

  predicate NoSpace(s: string) {
    forall i :: 0 <= i < |s| ==> !IsSpace(s[i])
  }

  predicate NoCR(s: string) {
    forall i :: 0 <= i < |s| ==> s[i] != '\r'
  }

  predicate EndsWith(s: string, suffix: string) {
    |suffix| <= |s| && s[|s| - |suffix|..] == suffix
  }

  predicate IsDigit(c: char) { '0' <= c <= '9' }

  predicate AllDigits(s: string) {
    forall i :: 0 <= i < |s| ==> IsDigit(s[i])
  }

  function DigitChar(d: nat): (c: char)
    requires d < 10
    ensures IsDigit(c) && c as int - '0' as int == d
  {
    ('0' as int + d) as char
  }

  /** The decimal digits of `n`, most significant first, without leading zeros. */
  function NatToDigits(n: nat): (s: string)
    ensures |s| >= 1 && AllDigits(s)
    ensures s[0] == '0' ==> n == 0
    ensures n < 10 ==> |s| == 1
    decreases n
  {
    if n < 10 then [DigitChar(n)] else NatToDigits(n / 10) + [DigitChar(n % 10)]
  }

  /** The value of a string of decimal digits. */
  function DigitsValue(s: string): nat
    requires AllDigits(s)
  {
    if s == [] then 0 else DigitsValue(s[..|s| - 1]) * 10 + (s[|s| - 1] as int - '0' as int)
  }

  /**
   * What `std::ostream << int` writes: a minus sign for negative values, then
   * at least one digit, with no leading zero; 0 is written as the single digit "0".
   */
  function IntToDecimal(n: int): (s: string)
    ensures |s| >= 1
    ensures (s[0] == '-') <==> n < 0
    ensures n < 0 ==> |s| >= 2
    ensures AllDigits(if n < 0 then s[1..] else s)
    ensures s[if n < 0 then 1 else 0] == '0' ==> n == 0
    ensures n == 0 ==> s == "0"
  {
    if n < 0 then "-" + NatToDigits(-n) else NatToDigits(n)
  }

  /** Reads an optionally negative decimal integer; the whole string must be the number. */
  function ParseInt(s: string): (r: Option<int>)
    ensures r.Some? ==> |s| >= 1
  {
    if |s| >= 2 && s[0] == '-' && AllDigits(s[1..]) then
      var magnitude: int := DigitsValue(s[1..]); Some(-magnitude)
    else if |s| >= 1 && AllDigits(s) then Some(DigitsValue(s))
    else None
  }

  lemma {:induction false} DigitsRoundTrip(n: nat)
    ensures DigitsValue(NatToDigits(n)) == n
    decreases n
  {
    if n >= 10 {
      var s := NatToDigits(n);
      assert s[..|s| - 1] == NatToDigits(n / 10);
      DigitsRoundTrip(n / 10);
    }
  }

  /** Reading back what the stream wrote yields the same integer. */
  lemma DecimalRoundTrip(n: int)
    ensures ParseInt(IntToDecimal(n)) == Some(n)
  {
    if n < 0 {
      var d := NatToDigits(-n);
      var s := "-" + d;
      assert IntToDecimal(n) == s;
      assert s[1..] == d;
      DigitsRoundTrip(-n);
    } else {
      var d := NatToDigits(n);
      assert IsDigit(d[0]);
      DigitsRoundTrip(n);
    }
  }

  /** Decimal text never contains white space or a carriage return. */
  lemma DecimalIsPlain(n: int)
    ensures NoSpace(IntToDecimal(n)) && NoCR(IntToDecimal(n))
  {
  }
}
