/** Facts about sequences used by several proofs. */
module Sequences {

  /** Concatenation is associative. Stated once for any element type, it
      spares the solver from comparing sequences of strings element by
      element. */
  lemma Assoc<T>(a: seq<T>, b: seq<T>, c: seq<T>)
    ensures a + b + c == a + (b + c)
  {
  }
}
