/** Optional values: JavaScript's `undefined`, as a value. */
module Maybe {

  datatype Option<+T> = None | Some(value: T) {
    function GetOr(default: T): T {
      match this
      case Some(v) => v
      case None => default
    }
  }
}
