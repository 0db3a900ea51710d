/** Multiplication by a common factor. */
module Arithmetic {

  lemma Scale(a: nat, b: nat, n: nat)
    requires a <= b
    ensures a * n <= b * n
  {
  }
}
