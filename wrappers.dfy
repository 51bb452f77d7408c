/** Optional values, results and the one failure the value types can raise. */
module Wrappers {

  /** `java.util.Optional`, and a nullable reference where the source uses one. */
  datatype Option<+T> = None | Some(value: T)

  /** The outcome of a builder or factory that may throw. */
  datatype Result<+R> = Success(value: R) | Failure(error: Error)

  /** The exception a builder or factory throws: a null where a value is required. */
  datatype Error = NullPointer(argument: string)

  /** A witness for a non-empty set (generic, so that it also works for sets of integers). */
  ghost function Any<T>(s: set<T>): (x: T)
    requires s != {}
    ensures x in s
  {
    var x :| x in s; x
  }
}
