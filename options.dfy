/** Failure-compatible wrappers shared by every stage of the pipeline. */
module Options {

  /** A value that may be absent: a missing timestamp (NaT), a failed parse. */
  datatype Option<+T> = None | Some(value: T) {
    predicate IsFailure() { None? }

    function PropagateFailure<U>(): Option<U>
      requires None?
    {
      None
    }

    function Extract(): T
      requires Some?
    {
      value
    }

    function GetOr(default: T): T {
      match this
      case Some(v) => v
      case None => default
    }
  }

  /** Either a value or the reason the stage did not produce one. */
  datatype Result<+T, +E> = Ok(value: T) | Err(error: E)
}
