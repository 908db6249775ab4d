/** Order-preserving selection: what every `filter` of the ledger promises about order. */
module Seqs {

  /** `r` can be obtained from `s` by deleting elements, keeping the order of the rest. */
  predicate SubsequenceOf<T(==)>(r: seq<T>, s: seq<T>)
  {
    if r == [] then true
    else if s == [] then false
    else (r[0] == s[0] && SubsequenceOf(r[1..], s[1..])) || SubsequenceOf(r, s[1..])
  }
}
