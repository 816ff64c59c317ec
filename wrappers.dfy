/** Small shared definitions: the model's stand-in for Go's nil pointers and interface values, and sequence regrouping. */
module Wrappers {

  /** `None` plays the role of a nil pointer or nil interface value. */
  datatype Option<+T> = None | Some(value: T)

  /** Concatenation regroups freely; the one associativity step the other modules call on. */
  lemma Assoc<T>(a: seq<T>, b: seq<T>, c: seq<T>)
    ensures a + b + c == a + (b + c)
  {
  }
}
