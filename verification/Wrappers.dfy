/** Option and Result, and the 64-bit signed range of Go's int and int64. */
module Wrappers {

  datatype Option<+T> = None | Some(value: T)

  datatype Result<+T, +E> = Ok(value: T) | Err(error: E)

  const MIN_INT64: int := -0x8000_0000_0000_0000
  const MAX_INT64: int := 0x7FFF_FFFF_FFFF_FFFF

  predicate IsInt64(n: int) {
    MIN_INT64 <= n <= MAX_INT64
  }

  /** Two's-complement increment: the only wrap a one-step addition can make. */
  function IncInt64(n: int): int {
    if n == MAX_INT64 then MIN_INT64 else n + 1
  }
}
