/** What all modules use: possibly missing values, and brackets in concatenations. */
module Wrappers {
  /** What the source returns as a possibly NULL pointer. */
  datatype Option<+T> = None | Some(value: T)

  lemma Regroup<T>(a: seq<T>, b: seq<T>, c: seq<T>)
    ensures a + (b + c) == a + b + c
  {
  }
}
