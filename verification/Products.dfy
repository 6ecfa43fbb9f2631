/** Products as a named function, so that proofs can hide the multiplication and use its laws. */
module Products {

  function Product(a: int, b: int): int { a * b }

  lemma ProductZero(a: int)
    ensures Product(a, 0) == 0
  {
  }

  lemma ProductOne(a: int)
    ensures Product(a, 1) == a
  {
  }

  lemma ProductSum(a: int, b: int, c: int)
    ensures Product(a, b + c) == Product(a, b) + Product(a, c)
  {
  }

  lemma ProductSwap(a: int, b: int)
    ensures Product(a, b) == Product(b, a)
  {
  }
}
