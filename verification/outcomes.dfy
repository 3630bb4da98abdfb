/** The exceptions the modelled code can raise, and the `Result` that carries
    either a value or the exception that replaced it. */
module Outcomes {

  datatype Error =
    | BlurLineWidthOutOfRange          // `require(blurLineWidth in 0f..1f)` failed
    | NegativeCount(n: int)            // `take`/`takeLast` called with n < 0
    | LineIndexOutOfBounds(line: int)  // a per-line query on a layout with no lines

  /** A value or the exception that replaced it, usable with `:-`. */
  datatype Result<+T> = Success(value: T) | Failure(error: Error) {
    predicate IsFailure() {
      Failure?
    }

    function PropagateFailure<U>(): Result<U>
      requires Failure?
    {
      Failure(error)
    }

    function Extract(): T
      requires Success?
    {
      value
    }
  }
}
