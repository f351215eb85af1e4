/** Small generic facts the other modules share: the last element of a
    sequence, two steps that loops over prefixes use at every pass, and the
    sign of a product with a positive factor. */
module Seqs {
  function Last<T>(s: seq<T>): T
    requires |s| > 0
  {
    s[|s| - 1]
  }

  lemma PrefixStep<T>(s: seq<T>, i: nat)
    requires i < |s|
    ensures s[..i + 1] == s[..i] + [s[i]]
  {
  }

  lemma AppendAssoc<T>(a: seq<T>, b: seq<T>, c: seq<T>)
    ensures a + (b + c) == (a + b) + c
  {
  }

  /** A product with a positive factor has the sign of the other factor. */
  lemma SignOfFactor(c: real, b: real)
    requires b > 0.0 && c * b >= 0.0
    ensures c >= 0.0
  {
  }
}
