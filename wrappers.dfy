/** Option and Result, the error-carrying wrappers used throughout the model.
    A Java `null` becomes `None`; a thrown exception becomes `Failure`. */
module Wrappers {

  datatype Option<+T> = None | Some(value: T) {
    function GetOr(default: T): T {
      match this
      case Some(v) => v
      case None => default
    }
  }

  datatype Result<+R, +E> = Success(value: R) | Failure(error: E) {
    predicate IsFailure() {
      Failure?
    }

    function PropagateFailure<U>(): Result<U, E>
      requires Failure?
    {
      Failure(error)
    }

    function Extract(): R
      requires Success?
    {
      value
    }
  }

  /** Some element of a non-empty set: the next entry a loop over a hash
      map or hash set visits, in an order the model does not fix. */
  method Pick<T>(s: set<T>) returns (x: T)
    requires s != {}
    ensures x in s
  {
    x :| x in s;
  }

  /** Moving one element from the entries still to visit to the visited
      ones keeps the two a partition of the same set. */
  lemma MoveVisited<T>(remaining: set<T>, visited: set<T>, all: set<T>, x: T)
    requires remaining + visited == all && remaining !! visited && x in remaining
    ensures (remaining - {x}) + (visited + {x}) == all && (remaining - {x}) !! (visited + {x})
  {
  }
}
