/** Optional values (the source's `null` and `undefined`) and one fact about sequences. */
module Wrappers {

  datatype Option<T> = None | Some(value: T)

  /**
   * Concatenation is associative. Proof helper: callers that append to a
   * long log cite it instead of re-deriving the equality element by element.
   */
  lemma AppendAssoc<T>(a: seq<T>, b: seq<T>, c: seq<T>)
    ensures (a + b) + c == a + (b + c)
  {
  }
}
