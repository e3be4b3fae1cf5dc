/**
 * Failure-carrying values (a Java `null` becomes `None`, a thrown exception
 * `Failure`), and the regrouping of concatenations that the string proofs share.
 */
module Wrappers {

  datatype Option<+T> = None | Some(value: T)

  datatype Result<+T, +E> = Success(value: T) | Failure(error: E)

  /** Regrouping a concatenation, for proofs that build strings piece by piece. */
  lemma ConcatAssoc<T>(a: seq<T>, b: seq<T>, c: seq<T>)
    ensures a + (b + c) == a + b + c
  {
  }
}
