/** The optional value used wherever a JavaScript handler reads something that
    may be absent (`null`, `undefined`, a query that found nothing). */
module Wrappers {

  datatype Option<+T> = None | Some(value: T) {

    /** The value, or `default` when absent. */
    function GetOr(default: T): T {
      match this
      case Some(v) => v
      case None => default
    }
  }
}
