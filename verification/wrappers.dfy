/** Small shared definitions: optional values (a JavaScript value that may be
    `undefined`/`null`) and regrouping of appended sequences. */
module Wrappers {

  datatype Option<+T> = None | Some(value: T)

  /** Appending is associative; stated once so that proofs can regroup a long
      append in one step. */
  lemma AppendAssoc<T>(a: seq<T>, b: seq<T>, c: seq<T>)
    ensures a + b + c == a + (b + c)
  {
  }
}
