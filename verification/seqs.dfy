/** Small facts about sequence concatenation, stated once so that proofs
    elsewhere can cite them instead of re-deriving them by extensionality. */
module Seqs {

  /** The head and tail of a non-empty sequence put it back together. */
  lemma ConsSplit<T>(xs: seq<T>)
    requires |xs| > 0
    ensures [xs[0]] + xs[1..] == xs
  {
  }

  /** The head and tail of a sequence built by prepending one element. */
  lemma ConsParts<T>(x: T, xs: seq<T>)
    ensures ([x] + xs)[0] == x && ([x] + xs)[1..] == xs
  {
  }

  /** Prepending commutes with appending. */
  lemma ConsAssoc<T>(x: T, p: seq<T>, q: seq<T>)
    ensures [x] + (p + q) == ([x] + p) + q
  {
  }

  /** Concatenation is associative. */
  lemma Assoc<T>(p: seq<T>, q: seq<T>, r: seq<T>)
    ensures p + (q + r) == (p + q) + r
  {
  }

  /** The head and tail of a concatenation whose first part is non-empty. */
  lemma FrontParts<T>(p: seq<T>, q: seq<T>)
    requires |p| > 0
    ensures (p + q)[0] == p[0] && (p + q)[1..] == p[1..] + q
  {
  }
}
