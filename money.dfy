/**
 * Monetary amounts. Every amount in the application is a Decimal with
 * max_digits=12 and decimal_places=2; the model holds it exactly as an integer
 * number of satang (hundredths of a baht), so two decimal places hold by construction.
 */
module Money {
  type Satang = int

  /** max_digits of every DecimalField that holds money. */
  const MaxDigits: nat := 12

  function Abs(a: int): nat { if a < 0 then -a else a }

  function Pow10(n: nat): (r: nat)
    ensures r >= 1
  {
    if n == 0 then 1 else 10 * Pow10(n - 1)
  }

  /** Number of decimal digits of n (0 has none). */
  function DigitCount(n: nat): (d: nat)
    ensures n < Pow10(d)
    ensures d > 0 ==> Pow10(d - 1) <= n
    ensures n == 0 <==> d == 0
  {
    if n == 0 then 0 else DigitCount(n / 10) + 1
  }

  /** An amount in satang fits a DecimalField(max_digits=12, decimal_places=2). */
  predicate FitsAmountField(a: Satang)
  {
    DigitCount(Abs(a)) <= MaxDigits
  }

  lemma {:induction false} Pow10Monotone(m: nat, n: nat)
    requires m <= n
    ensures Pow10(m) <= Pow10(n)
  {
    if m < n {
      Pow10Monotone(m, n - 1);
    }
  }

  /** The digit limit is the same as a bound on the magnitude: below 10^12 satang. */
  lemma FitsAmountFieldBound(a: Satang)
    ensures FitsAmountField(a) <==> Abs(a) < Pow10(MaxDigits)
  {
    var d := DigitCount(Abs(a));
    if d <= MaxDigits {
      Pow10Monotone(d, MaxDigits);
    } else {
      Pow10Monotone(MaxDigits, d - 1);
    }
  }
}
