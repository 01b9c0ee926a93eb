/** Non-negative quantities that start at positive infinity, as `Double.POSITIVE_INFINITY` does in the source. */
module Extended {

  datatype Quantity = Infinity | Finite(value: real)

  predicate Less(x: Quantity, y: Quantity) {
    x.Finite? && (y.Finite? ==> x.value < y.value)
  }

  predicate AtMost(x: Quantity, bound: real) {
    x.Finite? && x.value <= bound
  }
}
