/** The optional-value datatype used for the nullable columns of the fact tables. */
module Wrappers {

  /** `None` stands for a SQL NULL or a Python `None`. */
  datatype Option<+T> = None | Some(value: T) {

    /** Returns the value in `Some`, or `default` for `None` (SQL `COALESCE`). */
    function GetOr(default: T): T {
      match this
      case Some(v) => v
      case None => default
    }
  }
}
