/** `undefined`/`null` versus a present value, as the TypeScript source uses optional fields. */
module Options {

  datatype Option<T> = None | Some(value: T) {

    /** The value, or `default` when absent (the source's `x || default` / `x ?? default`). */
    function GetOr(default: T): T {
      match this
      case Some(v) => v
      case None => default
    }
  }
}
