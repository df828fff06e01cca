/** Failure-carrying values shared by the model: an optional value and a
    success-or-error result (Go's `(value, error)` pairs). */
module Wrappers {

  datatype Option<+T> = None | Some(value: T)

  /** `Err(e)` stands for a Go call that returned a non-nil error whose text
      is `e`; the accompanying value is then irrelevant to every caller. */
  datatype Result<+T, +E> = Ok(value: T) | Err(error: E)
}
