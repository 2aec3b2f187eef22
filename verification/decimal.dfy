/** Decimal text for integers: `strconv.Atoi` (used to recognise numeric
    facet keys) and the `%d` rendering (used for join aliases and `%v`).
    Integers are unbounded here; the 64-bit range error of Atoi is not
    modelled. */
module Decimal {
  import opened Common

  predicate IsDigit(c: char) {
    '0' <= c <= '9'
  }

  function DigitValue(c: char): nat
    requires IsDigit(c)
  {
    (c as int) - ('0' as int)
  }

  function DigitChar(d: nat): (c: char)
    requires d < 10
    ensures IsDigit(c) && DigitValue(c) == d
  {
    (('0' as int) + d) as char
  }

  predicate AllDigits(s: string) {
    forall i :: 0 <= i < |s| ==> IsDigit(s[i])
  }

  /** The value of a digit string, most significant digit first. */
  function DigitsValue(s: string): nat
    requires AllDigits(s)
    decreases |s|
  {
    if |s| == 0 then 0 else 10 * DigitsValue(s[..|s| - 1]) + DigitValue(s[|s| - 1])
  }

  function NatToDecimal(n: nat): (s: string)
    ensures |s| > 0 && AllDigits(s)
    decreases n
  {
    if n < 10 then [DigitChar(n)] else NatToDecimal(n / 10) + [DigitChar(n % 10)]
  }

  /** `%d` / `strconv.Itoa`: a minus sign for negative numbers, no padding. */
  function Itoa(n: int): string {
    if n < 0 then "-" + NatToDecimal(-n) else NatToDecimal(n)
  }

  /** `strconv.Atoi`: an optional `+` or `-`, then one or more decimal
      digits and nothing else. */
  function Atoi(s: string): (r: Option<int>)
    ensures r.Some? ==> |s| > 0 && (IsDigit(s[0]) || s[0] == '+' || s[0] == '-')
  {
    if |s| == 0 then None
    else if s[0] == '+' || s[0] == '-' then
      var digits := s[1..];
      if |digits| == 0 || !AllDigits(digits) then None
      else if s[0] == '-' then Some(0 - DigitsValue(digits) as int)
      else Some(DigitsValue(digits))
    else if AllDigits(s) then Some(DigitsValue(s))
    else None
  }

  lemma {:induction false} NatToDecimalValue(n: nat)
    ensures DigitsValue(NatToDecimal(n)) == n
    decreases n
  {
    if n >= 10 {
      var s := NatToDecimal(n);
      NatToDecimalValue(n / 10);
      assert s[..|s| - 1] == NatToDecimal(n / 10);
    }
  }

  /** Atoi reads back exactly what Itoa writes. */
  lemma {:induction false} AtoiItoa(n: int)
    ensures Atoi(Itoa(n)) == Some(n)
  {
    if n < 0 {
      NatToDecimalValue(-n);
      assert Itoa(n)[1..] == NatToDecimal(-n);
    } else {
      NatToDecimalValue(n);
    }
  }

  /** Leading zeros do not change the value: keys such as "3", "03" and
      "003" all parse to the same number. */
  lemma {:induction false} LeadingZeroIgnored(s: string)
    requires AllDigits(s)
    ensures AllDigits("0" + s) && DigitsValue("0" + s) == DigitsValue(s)
    decreases |s|
  {
    assert AllDigits("0" + s);
    if |s| > 0 {
      var init := s[..|s| - 1];
      LeadingZeroIgnored(init);
      assert ("0" + s)[..|"0" + s| - 1] == "0" + init;
    }
  }

  lemma {:induction false} AtoiLeadingZero(s: string)
    requires |s| > 0 && AllDigits(s)
    ensures Atoi("0" + s) == Atoi(s)
  {
    LeadingZeroIgnored(s);
  }
}
