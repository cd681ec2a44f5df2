/** Properties of a "strictly below" relation, used to state what a sort key
    order must satisfy. */
module Ordering {

  ghost predicate Irreflexive<K(!new)>(less: (K, K) -> bool) {
    forall a :: !less(a, a)
  }

  ghost predicate Transitive<K(!new)>(less: (K, K) -> bool) {
    forall a, b, c :: less(a, b) && less(b, c) ==> less(a, c)
  }

  /** Any two distinct keys are comparable. */
  ghost predicate Connected<K(!new)>(less: (K, K) -> bool) {
    forall a, b :: a != b ==> less(a, b) || less(b, a)
  }

  ghost predicate StrictTotalOrder<K(!new)>(less: (K, K) -> bool) {
    Irreflexive(less) && Transitive(less) && Connected(less)
  }
}
