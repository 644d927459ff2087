/** Option, the Python exception kinds the core raises, and Result/Outcome types carrying them. */
module Wrappers {

  datatype Option<+T> = None | Some(value: T)

  /** The exceptions the modelled code raises, each with the message the source builds. */
  datatype Error =
    | IOError(message: string)
    | ValueError(message: string)
    | UserError(message: string)
    | KeyError(key: string)
    | TypeError(message: string)
    | UserWarning(message: string)
    | IndexError
    | RuntimeError(message: string)

  /** The RuntimeError Python 2 raises when a recursion runs past its depth limit (the
      interpreter may append where the limit was hit, such as " while calling a Python
      object"; the model keeps the common start of the message). */
  const RecursionDepthExceeded: Error := RuntimeError("maximum recursion depth exceeded")

  /** The RuntimeError Python 2 raises when a dict changes size while a loop iterates
      over it. */
  const DictChangedSize: Error := RuntimeError("dictionary changed size during iteration")

  /** A value, or the exception raised instead of returning it. */
  datatype Result<+T> = Ok(value: T) | Err(error: Error)

  /** The result of an operation that returns nothing but may raise. */
  datatype Outcome = Pass | Fail(error: Error)
}
