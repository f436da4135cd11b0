/** Optional values, the failures the modelled code can raise, and a
    failure-compatible result type shared by every module of the model. */
module Results {

  /** An optional value; `None` plays the part of JavaScript's `undefined`. */
  datatype Option<+T> = None | Some(value: T)

  /** What the modelled code throws. The file-system cases carry Node's
      error codes in their names' meaning: a missing path (ENOENT), a path
      used as a directory that is not one (ENOTDIR), a directory written as
      a file (EISDIR), a directory to create that is already a file
      (EEXIST). */
  datatype Error =
    | NoEntry(path: string)
    | NotADirectory(path: string)
    | IsADirectory(path: string)
    | AlreadyExists(path: string)
      /** A TypeError: a property was read from `undefined`. */
    | UndefinedProperty(property: string)
      /** A SyntaxError from the RegExp constructor. */
    | InvalidPattern(source: string)
      /** A RangeError: the call stack was exhausted by recursion. */
    | StackExhausted

  /** The outcome of an operation that may throw. */
  datatype Result<+T> = Success(value: T) | Failure(error: Error) {

    predicate IsFailure() {
      Failure?
    }

    function PropagateFailure<U>(): Result<U>
      requires Failure?
    {
      Failure(error)
    }

    function Extract(): T
      requires Success?
    {
      value
    }
  }
}
