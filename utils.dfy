/** The symmetric lookup of a collision pair in two queries (`query_double`
    and `query_double_mut`). A query is modelled by the map from the entities
    it matches to their items. */
module Utils {
  import opened Ecs

  /** `query_double`: the items of `(e1, e2)` in `(q1, q2)`, trying the given
      orientation first and the swapped one second. Every lookup is guarded by
      membership, which is what makes the source's `unwrap`s safe. */
  function QueryDouble<A, B>(q1: map<Entity, A>, q2: map<Entity, B>, e1: Entity, e2: Entity)
    : (r: Option<(A, B)>)
    ensures e1 in q1 && e2 in q2 ==> r == Some((q1[e1], q2[e2]))
    ensures !(e1 in q1 && e2 in q2) && e2 in q1 && e1 in q2 ==> r == Some((q1[e2], q2[e1]))
    ensures r.None? <==> !(e1 in q1 && e2 in q2) && !(e2 in q1 && e1 in q2)
  {
    if e1 in q1 && e2 in q2 then Some((q1[e1], q2[e2]))
    else if e2 in q1 && e1 in q2 then Some((q1[e2], q2[e1]))
    else None
  }

  /** `query_double_mut`: the same rule, giving the two entities whose components
      are borrowed mutably (`get_mut`) from the first and the second query. */
  function QueryDoubleMut(k1: set<Entity>, k2: set<Entity>, e1: Entity, e2: Entity)
    : (r: Option<(Entity, Entity)>)
    ensures r.Some? ==> r.value.0 in k1 && r.value.1 in k2
    ensures r.Some? ==> (r.value == (e1, e2) || r.value == (e2, e1))
    ensures r.None? <==> !(e1 in k1 && e2 in k2) && !(e2 in k1 && e1 in k2)
  {
    if e1 in k1 && e2 in k2 then Some((e1, e2))
    else if e2 in k1 && e1 in k2 then Some((e2, e1))
    else None
  }

  /** The given orientation wins, even when the swapped one matches too. */
  lemma QueryDoubleGivenOrientation<A, B>(q1: map<Entity, A>, q2: map<Entity, B>, e1: Entity, e2: Entity)
    requires e1 in q1 && e2 in q2
    ensures QueryDouble(q1, q2, e1, e2) == Some((q1[e1], q2[e2]))
  {
  }

  /** Otherwise the swapped orientation is used. */
  lemma QueryDoubleSwappedOrientation<A, B>(q1: map<Entity, A>, q2: map<Entity, B>, e1: Entity, e2: Entity)
    requires !(e1 in q1 && e2 in q2) && e2 in q1 && e1 in q2
    ensures QueryDouble(q1, q2, e1, e2) == Some((q1[e2], q2[e1]))
  {
  }

  /** No result exactly when neither orientation matches. */
  lemma QueryDoubleNoneIff<A, B>(q1: map<Entity, A>, q2: map<Entity, B>, e1: Entity, e2: Entity)
    ensures QueryDouble(q1, q2, e1, e2) == None <==> !(e1 in q1 && e2 in q2) && !(e2 in q1 && e1 in q2)
  {
  }

  /** When at most one orientation matches, the order of the pair does not matter. */
  lemma QueryDoubleSymmetric<A, B>(q1: map<Entity, A>, q2: map<Entity, B>, e1: Entity, e2: Entity)
    requires !(e1 in q1 && e2 in q2 && e2 in q1 && e1 in q2)
    ensures QueryDouble(q1, q2, e1, e2) == QueryDouble(q1, q2, e2, e1)
  {
  }

  /** When both orientations match and the items differ, the order of the pair does matter. */
  lemma QueryDoubleAsymmetricWhenBothMatch<A, B>(q1: map<Entity, A>, q2: map<Entity, B>, e1: Entity, e2: Entity)
    requires e1 in q1 && e2 in q2 && e2 in q1 && e1 in q2
    requires q1[e1] != q1[e2]
    ensures QueryDouble(q1, q2, e1, e2) != QueryDouble(q1, q2, e2, e1)
  {
  }

  /** The mutable variant borrows exactly the items the read-only variant returns. */
  lemma QueryDoubleMutSelectsSamePair<A, B>(q1: map<Entity, A>, q2: map<Entity, B>, e1: Entity, e2: Entity)
    ensures QueryDouble(q1, q2, e1, e2) ==
            match QueryDoubleMut(q1.Keys, q2.Keys, e1, e2)
            case None => None
            case Some(p) => Some((q1[p.0], q2[p.1]))
  {
  }
}
