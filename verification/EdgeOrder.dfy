/** Inserting the same edges in another order changes neither the cut nor any trust after both passes. */
module EdgeOrder {
  import opened Bags
  import opened LogOddsAggregation
  import opened LogOddsLaws
  import opened SupportGraph
  import opened TrustFlow
  import opened FlowIteration
  import opened TrustFlowLaws
  import opened NoAmplification

  ghost predicate Reordered(w: World, w': World) {
    && multiset(w.edges) == multiset(w'.edges)
    && w'.cut == w.cut && w'.base == w.base && w'.claims == w.claims && w'.groups == w.groups
    && w'.reputation == w.reputation && w'.discount == w.discount && w'.damping == w.damping
  }

  lemma SameTargets(w: World, w': World)
    requires Reordered(w, w')
    ensures FlowTargets(w.edges, w.cut) == FlowTargets(w'.edges, w'.cut)
    ensures Contradicted(w.edges) == Contradicted(w'.edges)
  {
    BagMembers(w.edges, w'.edges);
  }

  // ---- pass 1 ----

  lemma SameContribution(w: World, w': World, t: TrustMap, e: Edge)
    requires Reordered(w, w')
    ensures Contribution(w, t, e) == Contribution(w', t, e)
  {
    SumPermuted(w.edges, w'.edges, StrengthFrom(w, e.from));
    SumSame(w'.edges, StrengthFrom(w, e.from), StrengthFrom(w', e.from));
  }

  lemma IncomingPermuted(w: World, w': World, t: TrustMap, v: nat)
    requires Reordered(w, w')
    ensures multiset(Incoming(w, t, v)) == multiset(Incoming(w', t, v))
  {
    FilterMapPermuted(w.edges, w'.edges, PickIncoming(w, t, v));
    forall e | e in w'.edges
      ensures PickIncoming(w, t, v)(e) == PickIncoming(w', t, v)(e)
    {
      SameContribution(w, w', t, e);
    }
    FilterMapSame(w'.edges, PickIncoming(w, t, v), PickIncoming(w', t, v));
  }

  lemma SameBonus(w: World, w': World, t: TrustMap, v: nat)
    requires Reordered(w, w')
    ensures Bonus(w, t, v) == Bonus(w', t, v)
  {
    IncomingPermuted(w, w', t, v);
    IncomingSupports(w, t, v);
    AggregateIgnoresOrder(Incoming(w, t, v), Incoming(w', t, v), w.discount, UNASSESSED_DISCOUNT_BPS);
  }

  lemma SameStep(w: World, w': World, t: TrustMap)
    requires Reordered(w, w')
    ensures Step(w, t) == Step(w', t)
  {
    SameTargets(w, w');
    forall v
      ensures StepAt(w, t, v) == StepAt(w', t, v)
    {
      SameBonus(w, w', t, v);
    }
  }

  lemma SameIterate(w: World, w': World, k: nat)
    requires Reordered(w, w')
    ensures IterateOf(w)(k) == IterateOf(w')(k)
  {
    IterateIsOrbit(w);
    IterateIsOrbit(w');
    forall t ensures StepOf(w)(t) == StepOf(w')(t) { SameStep(w, w', t); }
    SameOrbit(StepOf(w), StepOf(w'), IterateOf(w), IterateOf(w'), k);
  }

  // ---- pass 2 ----

  lemma SameAlpha(w: World, w': World, t: TrustMap, v: nat)
    requires Reordered(w, w')
    ensures DynamicAlpha(w, t, v) == DynamicAlpha(w', t, v)
  {
    SumPermuted(w.edges, w'.edges, VoiceInto(t, v, false));
    SumPermuted(w.edges, w'.edges, VoiceInto(t, v, true));
  }

  lemma SamePenalty(w: World, w': World, t: TrustMap, v: nat)
    requires Reordered(w, w')
    ensures TotalPenalty(w, t, v) == TotalPenalty(w', t, v)
  {
    SumPermuted(w.edges, w'.edges, PenaltyInto(w, t, v));
    SameAlpha(w, w', t, v);
    SumSame(w'.edges, PenaltyInto(w, t, v), PenaltyInto(w', t, v));
  }

  lemma SameSweep(w: World, w': World, t: TrustMap)
    requires Reordered(w, w')
    ensures Sweep(w, t) == Sweep(w', t)
  {
    SameTargets(w, w');
    forall v
      ensures FinalAt(w, t, v) == FinalAt(w', t, v)
    {
      SamePenalty(w, w', t, v);
    }
  }

  /** The cut pairs, parallel edges included, and the trust map after both passes ignore insertion order. */
  lemma PropagationIgnoresEdgeOrder(w: World, edges': seq<Edge>, k: nat)
    requires w.cut == CutPairs(w.edges) && multiset(w.edges) == multiset(edges')
    ensures CutPairs(edges') == w.cut
    ensures Propagated(w, k) == Propagated(w.(edges := edges'), k)
  {
    SearchIgnoresEdgeOrder(w.edges, edges');
    var w' := w.(edges := edges');
    SameIterate(w, w', k);
    SameSweep(w, w', Iterate(w, k));
  }
}
