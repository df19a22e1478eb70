/** Strict total orders.  The laws stand behind predicates so that a proof names the instances it needs. */
module Orders {

  ghost predicate Irreflexive<K>(less: (K, K) -> bool, a: K) {
    !less(a, a)
  }

  ghost predicate Transitive<K>(less: (K, K) -> bool, a: K, b: K, c: K) {
    less(a, b) && less(b, c) ==> less(a, c)
  }

  ghost predicate Total<K>(less: (K, K) -> bool, a: K, b: K) {
    a == b || less(a, b) || less(b, a)
  }

  ghost predicate StrictOrder<K(!new)>(less: (K, K) -> bool) {
    && (forall a {:trigger Irreflexive(less, a)} :: Irreflexive(less, a))
    && (forall a, b, c {:trigger Transitive(less, a, b, c)} :: Transitive(less, a, b, c))
    && (forall a, b {:trigger Total(less, a, b)} :: Total(less, a, b))
  }
}
