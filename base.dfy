/** Shared vocabulary of the canvas model: the byte type, the exception
    kinds the canvas throws, and the values that carry them. */
module Base {

  /** An unsigned 8-bit value, as the C# `byte`. */
  newtype byte = x: int | 0 <= x < 256

  /** The exceptions the canvas throws, named after their .NET types. */
  datatype Error =
    | InvalidOperation     // wrong drawing state
    | ArgumentOutOfRange   // bad numeric argument, or a substring past the end
    | Format               // a character that is not a hexadecimal digit
    | NullReference        // use of the buffer before the first SetSize

  /** The outcome of an operation that returns nothing when it succeeds. */
  datatype Outcome = Ok | Fail(error: Error)

  /** The outcome of an operation that returns a value when it succeeds. */
  datatype Result<+T> = Success(value: T) | Failure(error: Error) {
    predicate IsFailure() { Failure? }

    function PropagateFailure<U>(): Result<U>
      requires Failure?
    {
      Failure(error)
    }

    function Extract(): T
      requires Success?
    {
      value
    }
  }
}
