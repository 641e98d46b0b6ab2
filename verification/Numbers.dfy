/** Small functions on numbers that several modules use. */
module Numbers {
  function Min(a: int, b: int): int {
    if a < b then a else b
  }

  function Max(a: int, b: int): int {
    if a >= b then a else b
  }

  /** A position in a ring of `length` cells that may have run past the end once. */
  function Wrapped(k: nat, length: nat): nat {
    if k >= length then k - length else k
  }
}
