/** Rust's `u64` and `i64` with overflow checks on: every operation that leaves the
    range panics instead of wrapping. */
module Arith {
  import opened Errors

  const U64_MAX: int := 0xFFFF_FFFF_FFFF_FFFF
  type U64 = x: int | 0 <= x <= U64_MAX

  const I64_MIN: int := -0x8000_0000_0000_0000
  const I64_MAX: int := 0x7FFF_FFFF_FFFF_FFFF
  type I64 = x: int | I64_MIN <= x <= I64_MAX

  predicate InI64(x: int) {
    I64_MIN <= x <= I64_MAX
  }

  /** `a + b` on u64. */
  function Add(a: U64, b: U64): Result<U64> {
    if a + b <= U64_MAX then Ok(a + b) else Err(Abort(Overflow))
  }

  /** `a - b` on u64. */
  function Sub(a: U64, b: U64): Result<U64> {
    if b <= a then Ok(a - b) else Err(Abort(Underflow))
  }

  /** `a * b` on u64, and `a.checked_mul(b).unwrap()`. */
  function Mul(a: U64, b: U64): Result<U64> {
    if a * b <= U64_MAX then Ok(a * b) else Err(Abort(Overflow))
  }

  /** `a / b` on u64, and `a.checked_div(b).unwrap()`. Both operands are
      non-negative, so Dafny's division truncates exactly as Rust's does. */
  function Div(a: U64, b: U64): Result<U64> {
    if b == 0 then Err(Abort(DivisionByZero)) else Ok(a / b)
  }

  /** `a - b` on i64. */
  function SubI64(a: I64, b: I64): Result<I64> {
    if InI64(a - b) then Ok(a - b) else Err(Abort(Overflow))
  }
}
