/** Option and Result types used throughout the model. */
module Wrappers {

  /** A value that may be absent (Python's `None`). */
  datatype Option<+T> = None | Some(value: T)

  /** Either a value or the exception that the code lets escape. */
  datatype Result<+T, +E> = Ok(value: T) | Err(error: E)
}

/** The exceptions that escape the assistant's entry points uncaught. */
module Faults {

  datatype Fault =
    | DateOutOfRange        // `datetime.replace` with hour > 23 or minute > 59 raises ValueError
    | UndefinedModel        // the global `gemini_model` was never bound: NameError
    | ReplyTextUnavailable  // `response.text` raised, and the error handler reads it again
}
