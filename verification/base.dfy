/** Shared vocabulary: the fatal-abort outcome, an optional value, and the
    32-bit unsigned integers the scheduler's clock is measured in. */
module Base {

  /** The outcome of an operation that either completes or calls `abort()`. */
  datatype Result<+T> = Ok(value: T) | Aborted

  /** A value that may be absent, as returned by the non-fatal try variants. */
  datatype Option<+T> = None | Some(value: T)

  const TwoTo32: int := 0x1_0000_0000

  /** `uint32_t`. */
  type u32 = x: int | 0 <= x < TwoTo32

  /** Unsigned 32-bit subtraction `a - b`, which wraps around modulo 2^32. */
  function Sub32(a: u32, b: u32): (d: u32)
    ensures d == (a - b) % TwoTo32
    ensures b <= a ==> d == a - b
  {
    if b <= a then a - b else a - b + TwoTo32
  }
}
