/** The conventional Some/None datatype, used wherever the source returns
    `None` or a lookup may miss. */
module Optional {

  datatype Option<+T> = None | Some(value: T) {

    /** The value in Some, or `default` for None (Python's `x or default`
        pattern on an optional value). */
    function GetOr(default: T): T {
      match this
      case Some(v) => v
      case None => default
    }
  }
}
