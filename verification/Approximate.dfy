/** The comparison of prices: two amounts less than 1e-9 apart count as equal. */
module Approximate {

  const EPSILON := 0.000000001

  predicate NearlyEqual(a: real, b: real) {
    if a > b then a - b < EPSILON else b - a < EPSILON
  }
}
