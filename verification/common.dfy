/** Small value wrappers shared by every module of the model. */
module Common {

  /** A value that may be absent: C#'s nullable references and empty slots. */
  datatype Option<+T> = None | Some(value: T) {

    /** The held value, or `default` when there is none. */
    function GetOr(default: T): T {
      match this
      case Some(v) => v
      case None => default
    }
  }

  /** How a call into code outside the model ended: a value, or an exception. */
  datatype Outcome<+T> = Returned(value: T) | Raised
}
