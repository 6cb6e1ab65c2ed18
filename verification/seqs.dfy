/** Facts about sequences shared by the modules. */
module Seqs {

  /** Regrouping a concatenation, kept out of the larger proofs that need it. */
  lemma ConcatAssoc<T>(a: seq<T>, b: seq<T>, c: seq<T>)
    ensures a + b + c == a + (b + c)
  {
  }
}
