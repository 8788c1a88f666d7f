/**
 * Unit conversion of weight.py: grams from the provider become kilograms
 * rounded to two decimals, kilograms become pounds rounded to one decimal,
 * and BMI / body fat are rounded to one decimal. Numbers are exact reals and
 * Python's round(x, n) is exact rounding of the real value to n decimals,
 * ties going to the even neighbour.
 */
module Conversion {
  import opened Optional

  const GramsPerKg: real := 1000.0
  const LbsPerKg: real := 2.20462

  /** The integer nearest to x; a tie goes to the even neighbour. */
  function RoundHalfEven(x: real): (n: int)
    ensures x - 0.5 <= n as real <= x + 0.5
    ensures (n as real - x == 0.5 || x - n as real == 0.5) ==> n % 2 == 0
  {
    var f := x.Floor;
    var frac := x - f as real;
    if frac < 0.5 then f
    else if frac > 0.5 then f + 1
    else if f % 2 == 0 then f else f + 1
  }

  /** round(x, 2): a whole number of hundredths, at most half a hundredth from x. */
  function RoundHundredths(x: real): (r: real)
    ensures x - 0.005 <= r <= x + 0.005
    ensures (r * 100.0).Floor as real == r * 100.0
  {
    RoundHalfEven(x * 100.0) as real / 100.0
  }

  /** round(x, 1): a whole number of tenths, at most half a tenth from x. */
  function RoundTenths(x: real): (r: real)
    ensures x - 0.05 <= r <= x + 0.05
    ensures (r * 10.0).Floor as real == r * 10.0
  {
    RoundHalfEven(x * 10.0) as real / 10.0
  }

  /** kg_to_lbs: None stays None, a number becomes pounds within half a tenth. */
  function KgToLbs(kg: Option<real>): (lbs: Option<real>)
    ensures lbs.None? <==> kg.None?
    ensures kg.Some? ==> kg.value * LbsPerKg - 0.05 <= lbs.value <= kg.value * LbsPerKg + 0.05
  {
    match kg
    case None => None
    case Some(k) => Some(RoundTenths(k * LbsPerKg))
  }

  /** Python truthiness of the provider's weight: present and non-zero. */
  predicate IsTruthy(grams: Option<real>)
  {
    grams.Some? && grams.value != 0.0
  }

  /**
   * The kilograms the create and update payloads carry:
   * round(grams / 1000, 2) for a truthy weight, None for a missing or zero one.
   */
  function WrittenKg(grams: Option<real>): (kg: Option<real>)
    ensures kg.None? <==> (grams.None? || grams.value == 0.0)
    ensures kg.Some? ==>
      grams.value / GramsPerKg - 0.005 <= kg.value <= grams.value / GramsPerKg + 0.005
  {
    if IsTruthy(grams) then Some(RoundHundredths(grams.value / GramsPerKg)) else None
  }

  /**
   * The kilograms the change check compares against the stored value: a truthy
   * weight is converted as for writing, a falsy one (None, 0) is kept as it is.
   */
  function ComparedKg(grams: Option<real>): (kg: Option<real>)
    ensures grams != Some(0.0) ==> kg == WrittenKg(grams)
    ensures grams == Some(0.0) ==> kg == Some(0.0)
  {
    if IsTruthy(grams) then Some(RoundHundredths(grams.value / GramsPerKg)) else grams
  }

  /** The one weight on which the written and the compared kilograms disagree. */
  lemma ZeroWeightIsWrittenAsNone()
    ensures WrittenKg(Some(0.0)) == None
    ensures ComparedKg(Some(0.0)) == Some(0.0)
    ensures KgToLbs(WrittenKg(Some(0.0))) == None
  {
  }
}
