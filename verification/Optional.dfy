/** The Option type used for every field that Python may leave as None. */
module Optional {

  datatype Option<+T> = None | Some(value: T) {

    /** The value inside Some, or a default when None. */
    function GetOr(default: T): T {
      match this
      case Some(v) => v
      case None => default
    }
  }
}
