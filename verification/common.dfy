/** Small shared vocabulary: an optional value (JavaScript's `null` /
    `undefined`) and absolute value for the tolerance tests. */
module Common {

  /** A value that may be absent (`null` or `undefined` in the source). */
  datatype Option<+T> = None | Some(value: T) {

    /** The value, or `default` when absent (JavaScript's `x || default`
        for values that are never falsy). */
    function GetOr(default: T): T {
      match this
      case Some(v) => v
      case None => default
    }
  }

  function Abs(n: int): nat {
    if n < 0 then -n else n
  }
}
