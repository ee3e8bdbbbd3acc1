/** Decimal printing of natural numbers, and how many digits it takes. */
module Decimal {
  function Pow10(n: nat): (p: nat)
    ensures p > n
  {
    if n == 0 then 1 else 10 * Pow10(n - 1)
  }

  function DigitChar(d: nat): (c: char)
    requires d < 10
    ensures '0' <= c <= '9'
  {
    '0' + d as char
  }

  predicate IsDigit(c: char) { '0' <= c <= '9' }

  function DigitValue(c: char): (d: nat)
    requires IsDigit(c)
    ensures d < 10
  {
    c as nat - '0' as nat
  }

  function Print(n: nat): string {
    if n < 10 then [DigitChar(n)] else Print(n / 10) + [DigitChar(n % 10)]
  }

  function Parse(digits: string): nat
    requires forall c :: c in digits ==> IsDigit(c)
  {
    if digits == "" then 0
    else 10 * Parse(digits[..|digits| - 1]) + DigitValue(digits[|digits| - 1])
  }

  lemma {:induction false} PrintParses(n: nat)
    ensures Print(n) != "" && (forall c :: c in Print(n) ==> IsDigit(c)) && Parse(Print(n)) == n
  {
    if n < 10 {
      assert Print(n)[..0] == "";
    } else {
      PrintParses(n / 10);
      var s := Print(n);
      assert s[..|s| - 1] == Print(n / 10);
    }
  }

  /** How many characters `Print` takes. */
  function Digits(n: nat): (d: nat)
    ensures d >= 1
  {
    |Print(n)|
  }

  lemma {:induction false} DigitsBounds(n: nat)
    ensures n < Pow10(Digits(n))
    ensures Digits(n) > 1 ==> Pow10(Digits(n) - 1) <= n
  {
    if n >= 10 {
      DigitsBounds(n / 10);
    }
  }

  lemma {:induction false} Pow10Monotone(a: nat, b: nat)
    requires a <= b
    ensures Pow10(a) <= Pow10(b)
    decreases b - a
  {
    if a < b {
      Pow10Monotone(a, b - 1);
    }
  }

  lemma DigitsAtMost(n: nat, d: nat)
    requires d >= 1 && n < Pow10(d)
    ensures Digits(n) <= d
  {
    DigitsBounds(n);
    if Digits(n) > d {
      Pow10Monotone(d, Digits(n) - 1);
    }
  }

  lemma DigitsMonotone(a: nat, b: nat)
    requires a <= b
    ensures Digits(a) <= Digits(b)
  {
    DigitsBounds(b);
    DigitsAtMost(a, Digits(b));
  }
}
