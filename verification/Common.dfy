/** What several modules share. */
module Common {

  /** A value, or none. */
  datatype Maybe<+T> = Nothing | Just(value: T)

  function Min(a: int, b: int): int {
    if a < b then a else b
  }

  function Max(a: int, b: int): int {
    if a < b then b else a
  }

  /** The range of an `int`. */
  predicate IsInt32(n: int) {
    -0x8000_0000 <= n < 0x8000_0000
  }
}
