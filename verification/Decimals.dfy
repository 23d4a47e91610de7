/** Decimal notation, as Python prints and reads integers. */
module Decimals {
  import opened Wrappers

  function Digit(d: nat): char
    requires d < 10
  {
    "0123456789"[d]
  }

  function DigitValue(c: char): Option<nat> {
    if '0' <= c <= '9' then Some((c - '0') as nat) else None
  }

  function Decimal(n: nat): (s: string)
    ensures s != ""
  {
    if n < 10 then [Digit(n)] else Decimal(n / 10) + [Digit(n % 10)]
  }

  /** A negative number prints with a sign. */
  function DecimalInt(n: int): string {
    if n < 0 then "-" + Decimal(-n) else Decimal(n)
  }

  predicate AllDigits(s: string) {
    s != "" && forall c | c in s :: DigitValue(c).Some?
  }

  function ParseDecimal(s: string): nat
    requires forall c | c in s :: DigitValue(c).Some?
  {
    if s == "" then 0 else 10 * ParseDecimal(s[..|s| - 1]) + DigitValue(s[|s| - 1]).value
  }

  lemma DigitIsRead(d: nat)
    requires d < 10
    ensures DigitValue(Digit(d)) == Some(d)
  {
  }

  lemma {:induction false} DecimalIsRead(n: nat)
    ensures AllDigits(Decimal(n)) && ParseDecimal(Decimal(n)) == n
  {
    DigitIsRead(n % 10);
    var s := Decimal(n);
    if n < 10 {
      assert s[..0] == "";
    } else {
      DecimalIsRead(n / 10);
      assert s[..|s| - 1] == Decimal(n / 10);
    }
  }

  /** What is all digits is exactly what prints from zero up. */
  lemma DecimalIntIsDigitsWhenNotNegative(n: int)
    ensures AllDigits(DecimalInt(n)) <==> n >= 0
  {
    if n < 0 {
      assert DecimalInt(n)[0] == '-' && DigitValue('-').None?;
      assert '-' in DecimalInt(n);
    } else {
      DecimalIsRead(n);
    }
  }
}
