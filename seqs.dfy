/** Facts about sequences that both components need. */
module Seqs {

  /** `a` is obtained from `b` by deleting elements, so the elements of `a`
      appear in `b` in the same order. */
  ghost predicate IsSubsequence<T>(a: seq<T>, b: seq<T>)
    decreases |b|
  {
    if a == [] then true
    else if b == [] then false
    else if a[0] == b[0] then IsSubsequence(a[1..], b[1..])
    else IsSubsequence(a, b[1..])
  }
}
