/** Failure-carrying datatypes shared by the registry model, and the Python
    exceptions that the modelled code raises. */
module Wrappers {

  datatype Option<+T> = None | Some(value: T)

  /** The outcome of an operation that returns a value or raises. */
  datatype Result<+T> = Ok(value: T) | Err(error: Exception)

  /** The outcome of an operation that returns nothing or raises. */
  datatype Outcome = Pass | Fail(error: Exception)

  /** The exceptions the modelled code can raise. */
  datatype Exception =
    | KeyError                    // `del d[k]` or `d[k]` on a missing key
    | IndexError                  // `random.choice` on an empty list
    | ValueError(reason: string)  // failed unpacking, bad int literal, unknown enum value, rejected address
    | RuntimeError(reason: string)
}
