/** Failure-compatible wrappers shared by the whole model. */
module Results {

  datatype Option<+T> = None | Some(value: T) {
    function GetOr(default: T): T {
      match this
      case Some(v) => v
      case None => default
    }
  }

  /** The outcome of an operation that the source reports through `anyhow::Result` or a panic. */
  datatype Result<+T, +E> = Ok(value: T) | Err(error: E) {
    predicate IsFailure() {
      Err?
    }

    function PropagateFailure<U>(): Result<U, E>
      requires Err?
    {
      Err(error)
    }

    function Extract(): T
      requires Ok?
    {
      value
    }
  }

  /** The outcome of a cursor operation together with the cursor position it leaves behind. */
  datatype Scan<+T, +E> = Scan(result: Result<T, E>, pos: nat)
}
