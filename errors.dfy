/** The ways an instruction of the lending program can fail. */
module Errors {

  /** A Rust arithmetic panic: an overflow-checked `+`, `-` or `*` that leaves its
      integer range, a division by zero, or the `unwrap()` of a failed
      `checked_mul`/`checked_div`. */
  datatype Panic = Overflow | Underflow | DivisionByZero

  /** The program's `ErrorCode` (InsufficientFunds, OverBorrowable, OverRepay),
      `NotUnderCollateralized`, which liquidation raises without declaring it,
      and `Abort` for a panic. Every one of them reverts the whole instruction. */
  datatype LendingError =
    | InsufficientFunds
    | OverBorrowable
    | OverRepay
    | NotUnderCollateralized
    | Abort(panic: Panic)

  /** The outcome of an instruction step; usable with `:-`. */
  datatype Result<+T> = Ok(value: T) | Err(error: LendingError) {

    predicate IsFailure() {
      Err?
    }

    function PropagateFailure<U>(): Result<U>
      requires Err?
    {
      Err(error)
    }

    function Extract(): T
      requires Ok?
    {
      value
    }
  }
}
