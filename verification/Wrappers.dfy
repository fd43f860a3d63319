// Failure-compatible datatypes shared by the other modules.
module Wrappers {

  datatype Option<+T> = None | Some(value: T) {
    function GetOr(default: T): T {
      if Some? then value else default
    }
  }

  datatype Result<+T, +E> = Success(value: T) | Failure(error: E)

  function Elements<T(==)>(s: seq<T>): set<T> {
    set x | x in s
  }
}
