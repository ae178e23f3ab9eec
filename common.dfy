/** Small failure-compatible wrappers shared by the layout modules. */
module Common {

  /** A Java reference that may be null. */
  datatype Option<T> = None | Some(value: T) {
    function GetOr(default: T): T
    {
      if Some? then value else default
    }
  }

  /** The two exceptions the layout throws: IllegalArgumentException and AssertionError. */
  datatype Error = IllegalArgument | AssertionFailure

  /** A call that either returns a value or throws one of the exceptions above. */
  datatype Result<T> = Success(value: T) | Failure(error: Error)
}
