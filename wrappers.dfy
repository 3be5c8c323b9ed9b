/** Nullable values of the app: a Kotlin `T?` is an `Option<T>`. */
module Wrappers {

  datatype Option<+T> = None | Some(value: T) {

    /** The Elvis operator `x ?: default`. */
    function GetOr(default: T): T {
      match this
      case Some(v) => v
      case None => default
    }
  }
}
