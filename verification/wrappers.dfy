/** The optional-value and validation-outcome datatypes shared by the modules of this project. */
module Wrappers {

  /** A value that may be absent: an optional field, a missing storage key,
      a field left out of a partial update. */
  datatype Option<+T> = None | Some(value: T) {

    /** The encapsulated value, or `default` when there is none (JavaScript's `x || default`
        and `{ ...old, ...patch }` for one field). */
    function GetOr(default: T): T {
      match this
      case Some(v) => v
      case None => default
    }
  }

  /** The outcome of a validation: either it passes, or it fails with the first error found. */
  datatype Outcome<+E> = Pass | Fail(error: E)
}
