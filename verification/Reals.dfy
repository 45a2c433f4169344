/** The larger and the smaller of two numbers, and their product as a name that proofs can hold on to. */
module Reals {

  function Max(a: real, b: real): real {
    if a > b then a else b
  }

  function Min(a: real, b: real): real {
    if a < b then a else b
  }

  function Product(a: real, b: real): real {
    a * b
  }
}
