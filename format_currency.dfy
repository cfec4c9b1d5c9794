/**
 * Rupee/paise conversion of backend/src/utils/format-currency.ts. Rupee
 * amounts are exact reals, stored amounts integer paise.
 */
module FormatCurrency {

  /** `Math.round(x)`: the nearest integer, halves rounded up. */
  function MathRound(x: real): (r: int)
    ensures x - 1.0 / 2.0 < r as real <= x + 1.0 / 2.0
  {
    (x + 1.0 / 2.0).Floor
  }

  /** `convertToPaise`: rupees times 100, rounded to the nearest paisa. */
  function ConvertToPaise(amount: real): (p: int)
    ensures amount * 100.0 - 1.0 / 2.0 < p as real <= amount * 100.0 + 1.0 / 2.0
  {
    MathRound(amount * 100.0)
  }

  /** `convertToRupees`: paise divided by 100. */
  function ConvertToRupees(paise: int): (r: real)
    ensures r * 100.0 == paise as real
  {
    paise as real / 100.0
  }

  /** A stored amount read through the getter and written back through the setter is unchanged. */
  lemma PaiseRoundTrip(p: int)
    ensures ConvertToPaise(ConvertToRupees(p)) == p
  {
    assert ConvertToRupees(p) * 100.0 == p as real;
  }

  /** Whole-paise rupee amounts survive the setter and getter unchanged. */
  lemma RupeeRoundTrip(amount: real, p: int)
    requires amount * 100.0 == p as real
    ensures ConvertToRupees(ConvertToPaise(amount)) == amount
  {
    assert ConvertToPaise(amount) == p;
  }

  /** A JavaScript number: finite, or one of the non-finite values. */
  datatype JsNumber = Finite(value: real) | NaN | PositiveInfinity | NegativeInfinity

  /** The value `formatCurrency` hands to the number formatter: non-finite input becomes 0. */
  function FormattableAmount(amount: JsNumber): (r: real)
    ensures amount.Finite? ==> r == amount.value
    ensures !amount.Finite? ==> r == 0.0
  {
    if amount.Finite? then amount.value else 0.0
  }
}
