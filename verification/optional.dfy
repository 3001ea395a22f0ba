/** The optional value used wherever the source has `null`/`undefined` or a failed lookup. */
module Optional {

  datatype Option<+T> = None | Some(value: T) {

    /** `x ?? fallback` */
    function GetOr(fallback: T): T {
      match this
      case Some(v) => v
      case None => fallback
    }
  }
}
