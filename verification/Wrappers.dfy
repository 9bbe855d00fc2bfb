/** Success-or-absence types shared by the whole project. */
module Wrappers {

  datatype Option<+T> = None | Some(value: T)

  /** The outcome of a step that the source ends either normally or with a typed halt. */
  datatype Result<+T, +E> = Ok(value: T) | Err(error: E)

  /** No element occurs twice. */
  ghost predicate Distinct<T>(s: seq<T>) {
    forall i, j :: 0 <= i < j < |s| ==> s[i] != s[j]
  }
}
