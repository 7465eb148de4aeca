/** Go's fixed-width integers, the conversions between them, and the result
    wrappers used for the source's `(value, error)` returns. */
module Basics {

  newtype byte = x: int | 0 <= x < 0x100

  newtype uint64 = x: int | 0 <= x < 0x1_0000_0000_0000_0000

  newtype int64 = x: int | -0x8000_0000_0000_0000 <= x < 0x8000_0000_0000_0000

  const TWO_TO_63: int := 0x8000_0000_0000_0000
  const TWO_TO_64: int := 0x1_0000_0000_0000_0000

  datatype Option<T> = None | Some(value: T)

  datatype Result<T, E> = Success(value: T) | Failure(error: E)

  /** The outcome of a check that returns only an error (`nil` is `Pass`). */
  datatype Outcome<E> = Pass | Fail(error: E)

  /** Go's conversion `uint64(x)` of an `int64`: the same 64 bits read as unsigned,
      that is, the unique `uint64` congruent to `x` modulo 2^64. */
  function Uint64FromInt64(x: int64): (u: uint64)
    ensures u as int % TWO_TO_64 == x as int % TWO_TO_64
  {
    if x < 0 then (x as int + TWO_TO_64) as uint64 else x as int as uint64
  }

  /** Go's conversion `int64(u)` (and `int(u)` on a 64-bit platform) of a `uint64`:
      the unique `int64` congruent to `u` modulo 2^64. */
  function Int64FromUint64(u: uint64): (x: int64)
    ensures x as int % TWO_TO_64 == u as int % TWO_TO_64
  {
    if u as int < TWO_TO_63 then u as int as int64 else (u as int - TWO_TO_64) as int64
  }

  /** The two conversions are inverse bijections, and a `uint64` keeps its value
      through `int64(u)` exactly when it is below 2^63. */
  lemma CastsAreInverse(x: int64, u: uint64)
    ensures Int64FromUint64(Uint64FromInt64(x)) == x
    ensures Uint64FromInt64(Int64FromUint64(u)) == u
    ensures Int64FromUint64(u) as int == u as int <==> u as int < TWO_TO_63
    ensures Uint64FromInt64(x) as int == x as int <==> x >= 0
  {
  }
}
