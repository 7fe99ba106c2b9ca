/** Decimal numerals and the numbers they stand for. */
module Decimals {
  function Digit(d: nat): char
    requires d < 10
  {
    ("0123456789")[d]
  }

  function Decimal(n: nat): string { if n < 10 then [Digit(n)] else Decimal(n / 10) + [Digit(n % 10)] }

  function DigitValue(c: char): int { c as int - '0' as int }

  function ValueOf(s: string): int {
    if s == "" then 0 else 10 * ValueOf(s[..|s| - 1]) + DigitValue(s[|s| - 1])
  }

  lemma DigitRoundTrip(d: nat)
    requires d < 10
    ensures DigitValue(Digit(d)) == d
  {
  }

  lemma {:induction false} DecimalRoundTrip(n: nat)
    ensures ValueOf(Decimal(n)) == n
  {
    hide Digit, DigitValue;
    if n < 10 {
      DigitRoundTrip(n);
      assert Decimal(n)[..0] == "";
    } else {
      DecimalRoundTrip(n / 10);
      DigitRoundTrip(n % 10);
      assert Decimal(n)[..|Decimal(n)| - 1] == Decimal(n / 10);
    }
  }

  lemma DecimalNonEmpty(n: nat)
    ensures Decimal(n) != ""
  {
  }

  lemma DecimalLength(n: nat)
    ensures |Decimal(n)| <= 2 <==> n < 100
  {
    hide Digit;
    if n >= 100 {
      assert |Decimal(n)| == |Decimal(n / 10)| + 1 && |Decimal(n / 10)| == |Decimal(n / 10 / 10)| + 1;
      DecimalNonEmpty(n / 10 / 10);
    }
  }

  /** Different numbers have different numerals. */
  lemma DecimalIsInjective(m: nat, n: nat)
    requires Decimal(m) == Decimal(n)
    ensures m == n
  {
    DecimalRoundTrip(m);
    DecimalRoundTrip(n);
  }
}
