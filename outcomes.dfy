/** Python's `None`, and the exceptions the parser can raise, as values. */
module Outcomes {

  /** `None`, or a present value. */
  datatype Option<+T> = None | Some(value: T)

  /** The built-in exceptions that evaluation of the parser can raise. */
  datatype PyError =
    | IndexError   // a list or string subscript past its end
    | ValueError   // `int()` given text that is not an integer literal

  /** The value an expression evaluates to, or the exception it raises. */
  datatype Result<+T> = Ok(value: T) | Err(error: PyError)
}
