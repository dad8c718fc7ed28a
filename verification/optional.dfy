/** A JSON member that may be absent, as read with Python's `dict.get`. */
module Optional {

  datatype Option<+T> = None | Some(value: T) {

    /** The value when present, otherwise the given default (`dict.get(key, default)`). */
    function GetOr(default: T): T {
      match this
      case Some(v) => v
      case None => default
    }
  }
}
