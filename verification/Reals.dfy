/** Products of reals, where the solver wants to be told. */
module Reals {

  lemma PositiveProduct(x: real, r: real)
    requires r > 0.0
    ensures x > 0.0 ==> x * r > 0.0
  {}
}
