/** The absent-or-present value the chat views use for Python's `None`
    results and for `dict.get` lookups that may miss. */
module Options {

  datatype Option<+T> = None | Some(value: T) {

    /** `d.get(key, default)`: the value when present, else the default. */
    function GetOr(default: T): T {
      match this
      case Some(v) => v
      case None => default
    }
  }
}
