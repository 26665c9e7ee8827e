/** Double values as far as the event system looks at them: real numbers and NaN, which compares false
    with everything. */
module Doubles {
  datatype Double = NaN | Fin(x: real)

  const ZERO := Fin(0.0)

  predicate Equal(a: Double, b: Double) {
    a.Fin? && b.Fin? && a.x == b.x
  }

  predicate Less(a: Double, b: Double) {
    a.Fin? && b.Fin? && a.x < b.x
  }

  predicate AtMost(a: Double, b: Double) {
    a.Fin? && b.Fin? && a.x <= b.x
  }
}
