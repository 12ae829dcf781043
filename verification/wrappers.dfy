/** Failure-carrying result types shared by the game and the agents. */
module Wrappers {

  /** A value that may be absent: Python's `None` versus a value. */
  datatype Option<+T> = None | Some(value: T)

  /** Either a computed value or the error that `make_move` raises instead. */
  datatype Result<+R, +E> = Success(value: R) | Failure(error: E)
}
