/** Failure-compatible wrappers shared by every module of the model. */
module Wrappers {

  /** A value that may be absent: Python's `None` or a missing dictionary key. */
  datatype Option<+T> = None | Some(value: T) {

    /** The wrapped value, or `default` when absent (Python's `d.get(k, default)`). */
    function GetOr(default: T): T
    {
      match this
      case Some(v) => v
      case None => default
    }
  }

  /**
    The outcome of one HTTP exchange as the clients see it: `Failed` for a
    connection error, a timeout or a body that does not parse; otherwise the
    status code and the parsed body.
  */
  datatype HttpReply<T> = Failed | Reply(status: int, body: T)
}
