/** Values that may be missing, and sequences without repetition. */
module Wrappers {

  datatype Option<+T> = None | Some(value: T)

  /** No element is repeated. */
  predicate Distinct<T(==)>(s: seq<T>) {
    forall i, j | 0 <= i < j < |s| :: s[i] != s[j]
  }
}
