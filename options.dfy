/** An optional value: `null` results and partial field updates. */
module Options {

  datatype Option<T> = None | Some(value: T) {

    /** The value if there is one, else `default`. */
    function GetOr(default: T): T {
      match this
      case Some(v) => v
      case None => default
    }
  }
}
