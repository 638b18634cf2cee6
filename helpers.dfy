/// The two numeric helpers the engine imports from its `helpers` module
/// (server/src/utils/distributionCalculations.js, line 1). That module is not
/// part of this model. The bodies below are the plain readings of the
/// helpers' names; the general lemmas of the engine use only the contracts
/// stated here, and only the concrete scenario lemmas evaluate the bodies.
module Helpers {

  /// `x` is a whole number of half hours.
  predicate IsHalfMultiple(x: real) {
    (2.0 * x).Floor as real == 2.0 * x
  }

  /// `Math.round(2 * x) / 2`: the nearest multiple of 0.5, halves rounding up.
  function RoundToNearestHalf(x: real): (r: real)
    ensures IsHalfMultiple(r)
    ensures x - 0.25 < r <= x + 0.25
  {
    (2.0 * x + 0.5).Floor as real / 2.0
  }

  /// Division that does not fail on a zero denominator.
  function SafeDivide(numerator: real, denominator: real): (r: real)
    ensures denominator != 0.0 ==> r == numerator / denominator
  {
    if denominator == 0.0 then 0.0 else numerator / denominator
  }

  /// `Math.max` on two numbers.
  function Max(a: real, b: real): (r: real)
    ensures r >= a && r >= b
    ensures r == a || r == b
  {
    if a >= b then a else b
  }
}
