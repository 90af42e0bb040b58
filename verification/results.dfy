/** Failure-compatible wrappers used by every operation of the model: a nullable
    Java reference is an `Option`, an operation that may throw is a `Result`, and a
    `void` check that may throw is an `Outcome`. */
module Results {

  /** A Java reference that may be null. */
  datatype Option<+T> = None | Some(value: T) {

    /** The value, or `default` when null. */
    function GetOr(default: T): T {
      match this
      case Some(v) => v
      case None => default
    }
  }

  /** The value of a Java call that either returns or throws exactly one exception. */
  datatype Result<+T, +E> = Ok(value: T) | Err(error: E) {

    predicate IsFailure() {
      Err?
    }

    function PropagateFailure<U>(): Result<U, E>
      requires Err?
    {
      Err(error)
    }

    function Extract(): T
      requires Ok?
    {
      value
    }
  }

  /** The outcome of a Java `void` check: it either returns or throws. */
  datatype Outcome<+E> = Pass | Fail(error: E) {

    predicate IsFailure() {
      Fail?
    }

    function PropagateFailure<U>(): Result<U, E>
      requires Fail?
    {
      Err(error)
    }
  }

  /** Passes exactly when `condition` holds, failing with `error` otherwise. */
  function Need<E>(condition: bool, error: E): (o: Outcome<E>)
    ensures o.Pass? <==> condition
    ensures o.Fail? ==> o.error == error
  {
    if condition then Pass else Fail(error)
  }
}
