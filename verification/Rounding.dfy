/** Money is kept in whole cents; amounts computed as reals are rounded half up. */
module Rounding {
  function RoundHalfUp(x: real): int { (x + 0.5).Floor }

  function Cents(dollars: real): int { RoundHalfUp(dollars * 100.0) }

  lemma RoundingError(x: real)
    ensures -0.5 < RoundHalfUp(x) as real - x <= 0.5
  {
  }

  lemma RoundingKeepsOrder(x: real, y: real)
    requires x <= y
    ensures RoundHalfUp(x) <= RoundHalfUp(y)
  {
  }
}
