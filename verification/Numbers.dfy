/** Arithmetic used throughout. */
module Numbers {

  function Max(a: int, b: int): int {
    if a > b then a else b
  }
}
