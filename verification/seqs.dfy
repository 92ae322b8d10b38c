/** Two facts about sequences that the proofs name explicitly, so that each
    use is a single step instead of a search over sequence elements. */
module Seqs {

  /** Concatenation is associative. */
  lemma ConcatAssoc<T>(a: seq<T>, b: seq<T>, c: seq<T>)
    ensures (a + b) + c == a + (b + c)
  {
  }

  /** Two consecutive slices join into the suffix they start. */
  lemma SliceJoin<T>(s: seq<T>, i: nat, j: nat, a: seq<T>, b: seq<T>)
    requires i <= j <= |s| && s[i..j] == a && s[j..] == b
    ensures a + b == s[i..]
  {
  }
}
