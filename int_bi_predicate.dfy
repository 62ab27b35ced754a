/**
 * IntBiPredicate: a test on two ints, with negate, and and or. And and or short-circuit: the second
 * predicate is consulted only when the first does not already decide, so it need only be defined there.
 */
module IntBiPredicates {

  /** negate(): the opposite answer everywhere the predicate is defined. */
  function Negate(p: (int, int) --> bool): (r: (int, int) --> bool)
    ensures forall a, b :: p.requires(a, b) ==> r.requires(a, b)
    ensures forall a, b :: p.requires(a, b) ==> r(a, b) == !p(a, b)
  {
    (a, b) requires p.requires(a, b) => !p(a, b)
  }

  /** and(q): true exactly when both are; q is needed only where p holds. */
  function And(p: (int, int) --> bool, q: (int, int) --> bool): (r: (int, int) --> bool)
    ensures forall a, b :: p.requires(a, b) && (p(a, b) ==> q.requires(a, b)) ==> r.requires(a, b)
    ensures forall a, b :: p.requires(a, b) && (p(a, b) ==> q.requires(a, b)) ==> r(a, b) == (p(a, b) && q(a, b))
    ensures forall a, b :: p.requires(a, b) && !p(a, b) ==> r.requires(a, b) && !r(a, b)
  {
    (a, b) requires p.requires(a, b) && (p(a, b) ==> q.requires(a, b)) => p(a, b) && q(a, b)
  }

  /** or(q): true exactly when either is; q is needed only where p fails. */
  function Or(p: (int, int) --> bool, q: (int, int) --> bool): (r: (int, int) --> bool)
    ensures forall a, b :: p.requires(a, b) && (!p(a, b) ==> q.requires(a, b)) ==> r.requires(a, b)
    ensures forall a, b :: p.requires(a, b) && (!p(a, b) ==> q.requires(a, b)) ==> r(a, b) == (p(a, b) || q(a, b))
    ensures forall a, b :: p.requires(a, b) && p(a, b) ==> r.requires(a, b) && r(a, b)
  {
    (a, b) requires p.requires(a, b) && (!p(a, b) ==> q.requires(a, b)) => p(a, b) || q(a, b)
  }

  /** Negating twice agrees with the original wherever it is defined. */
  lemma NegateTwice(p: (int, int) --> bool, a: int, b: int)
    requires p.requires(a, b)
    ensures Negate(Negate(p)).requires(a, b) && Negate(Negate(p))(a, b) == p(a, b)
  {
  }

  /** De Morgan: the negation of an and is the or of the negations, for total predicates. */
  lemma NegateAnd(p: (int, int) -> bool, q: (int, int) -> bool, a: int, b: int)
    ensures Negate(And(p, q))(a, b) == Or(Negate(p), Negate(q))(a, b)
  {
  }

  /** De Morgan: the negation of an or is the and of the negations, for total predicates. */
  lemma NegateOr(p: (int, int) -> bool, q: (int, int) -> bool, a: int, b: int)
    ensures Negate(Or(p, q))(a, b) == And(Negate(p), Negate(q))(a, b)
  {
  }
}
