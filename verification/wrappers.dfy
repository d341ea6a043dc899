/** Small failure-compatible datatypes shared by every module of the model:
    `Option` stands for Swift's optional, `Outcome` for an `async throws`
    call that returns nothing (it either passes or throws an error). */
module Wrappers {

  datatype Option<+T> = None | Some(value: T) {

    /** Swift's `??`: the wrapped value, or `default` when absent. */
    function GetOr(default: T): T {
      match this
      case Some(v) => v
      case None => default
    }
  }

  datatype Outcome<+E> = Pass | Fail(error: E)
}
