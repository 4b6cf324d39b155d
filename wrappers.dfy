/** Stock optional and error-carrying values: a Go `nil`-or-value and a value-or-error pair. */
module Wrappers {

  /** `None` stands for Go's `nil`. */
  datatype Option<+T> = None | Some(value: T)

  /** The `(value, error)` pair of a Go function, with exactly one side present. */
  datatype Result<+R, +E> = Success(value: R) | Failure(error: E)
}
