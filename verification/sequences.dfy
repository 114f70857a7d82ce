/** Order-preserving subsequences, shared by the batch parser (which drops
    blank fragments) and the lookup (which drops non-matching entities). */
module Sequences {

  /** `sub` is obtained from `xs` by deleting elements, without reordering. */
  ghost predicate IsSubsequence<T>(sub: seq<T>, xs: seq<T>)
    decreases |xs|
  {
    if sub == [] then true
    else if xs == [] then false
    else (sub[0] == xs[0] && IsSubsequence(sub[1..], xs[1..])) || IsSubsequence(sub, xs[1..])
  }
}
