/** JavaScript's `null` / `undefined` versus a present value. */
module Options {

  datatype Option<+T> = None | Some(value: T) {

    /** `x ?? d` */
    function GetOr(d: T): T {
      match this
      case Some(v) => v
      case None => d
    }
  }

  /** `a ?? b`: the first operand unless it is null or undefined. */
  function OrElse<T>(a: Option<T>, b: Option<T>): Option<T> {
    if a.Some? then a else b
  }
}
