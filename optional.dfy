/** The absent-or-present value that stands for JavaScript's `undefined` and `null`. */
module Optional {

  datatype Option<+T> = None | Some(value: T) {

    /** `x ?? fallback`. */
    function OrElse(fallback: T): (r: T)
      ensures Some? ==> r == value
      ensures None? ==> r == fallback
    {
      match this
      case Some(v) => v
      case None => fallback
    }
  }
}
