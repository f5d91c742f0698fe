/** Option and Result, the two failure-carrying wrappers the model uses:
    Option for Python's `None`, Result for an operation that can raise;
    and distinctness of the rows a query returns. */
module Wrappers {

  datatype Option<+T> = None | Some(value: T) {
    /** `x if x is not None else d`. */
    function GetOr(default: T): T {
      match this
      case Some(v) => v
      case None => default
    }
  }

  datatype Result<+T, +E> = Ok(value: T) | Err(error: E)

  /** No element occurs twice, as for the rows of a database query. */
  predicate Distinct<T(==)>(s: seq<T>) {
    forall i, j :: 0 <= i < j < |s| ==> s[i] != s[j]
  }
}
