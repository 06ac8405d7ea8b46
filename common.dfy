/** Shared vocabulary: optional values and document identifiers. */
module Common {

  /** A value that may be missing (Python's None). */
  datatype Option<+T> = None | Some(value: T) {

    /** The value, or `default` when there is none (Python's `x if x is not None else d`). */
    function GetOr(default: T): T {
      match this
      case Some(v) => v
      case None => default
    }
  }

  /** Document identifiers are strings throughout the service. */
  type DocId = string
}
