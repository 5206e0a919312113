/** Result types shared by the whole model. */
module Common {
  datatype Option<+T> = None | Some(value: T) {
    predicate IsFailure() { None? }

    function PropagateFailure<U>(): Option<U>
      requires None?
    {
      None
    }

    function Extract(): T
      requires Some?
    {
      value
    }
  }

  /** Go's `(value, error)` pairs; the error is its text. */
  datatype Result<+T> = Success(value: T) | Failure(message: string) {
    predicate IsFailure() { Failure? }

    function PropagateFailure<U>(): Result<U>
      requires Failure?
    {
      Failure(message)
    }

    function Extract(): T
      requires Success?
    {
      value
    }
  }
}
