/** Failure-carrying datatypes shared by the whole model.

    Every error the system can report (an empty command line, a failed spawn,
    a failed wait, a missing path) is a human-readable message in the
    implementation; none of the behaviour depends on the text, so the model
    keeps a single opaque `Err`.
 */
module Wrappers {

  datatype Option<+T> = None | Some(value: T) {

    /** The value, or `default` when absent. */
    function GetOr(default: T): T {
      match this
      case Some(v) => v
      case None => default
    }
  }

  /** The outcome of a fallible operation: a value or an opaque error. */
  datatype Result<+T> = Ok(value: T) | Err
}
