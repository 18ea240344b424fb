/** Failure-carrying result types shared by every module of the model.
    `Option` stands for a value that pandas would report as NaN/NaT (None),
    `Result` for a call that either returns or raises a Python exception. */
module Wrappers {

  datatype Option<+T> = None | Some(value: T) {
    /** The wrapped value, or `default` when there is none. */
    function GetOr(default: T): T
    {
      match this
      case Some(v) => v
      case None => default
    }
  }

  datatype Result<+T, +E> = Ok(value: T) | Err(error: E)
}
