/** An optional value: the model's stand-in for JavaScript's `undefined`/`null`
    next to a present value (a missing request field, an absent header, an
    empty storage slot). */
module Maybe {

  datatype Option<+T> = None | Some(value: T) {

    /** The value, or `default` when absent: JavaScript's `x ?? default`. */
    function GetOr(default: T): T {
      match this
      case Some(v) => v
      case None => default
    }
  }
}
