/** Failure-compatible wrappers used by every stage of the renderer.
    The engine reports each broken expectation of the template as a typed
    error carrying the cursor position at which it was detected. */
module Results {

  datatype Option<+T> = None | Some(value: T)

  /** The kinds of error a render can stop with. */
  datatype ErrorKind =
    | SyntaxError     // malformed delimiter, missing closing quote or end tag
    | NameError       // identifier not bound in the active context
    | FieldError      // `.field` names a key the object does not have
    | TypeError       // an entity of the wrong variant
    | UnknownHandler  // control tag name not registered
    | UnknownFilter   // filter name not registered
    | Unimplemented   // list literals

  datatype Error = Error(kind: ErrorKind, at: nat)

  datatype Result<+T> = Success(value: T) | Failure(error: Error) {

    predicate IsFailure() {
      Failure?
    }

    function PropagateFailure<U>(): Result<U>
      requires Failure?
    {
      Failure(error)
    }

    function Extract(): T
      requires Success?
    {
      value
    }
  }

  function Fail<T>(kind: ErrorKind, at: nat): Result<T> {
    Failure(Error(kind, at))
  }
}
