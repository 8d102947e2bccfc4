/** The nullable value of the dashboard: `number | null` amounts, optional
    selections and optional lookups all use this datatype. */
module Wrappers {

  datatype Option<+T> = None | Some(value: T) {

    /** The value, or `default` when absent (JavaScript's `x ?? d` and, for
        amounts that cannot be 0-vs-null confused, `x || d`). */
    function GetOr(default: T): T {
      match this
      case Some(v) => v
      case None => default
    }
  }
}
