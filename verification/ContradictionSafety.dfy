/** Pass 2 never raises a trust, and never takes more than the damping allows from a positive one. */
module ContradictionSafety {
  import opened Numeric
  import opened Bags
  import opened SupportGraph
  import opened TrustFlow

  lemma AlphaWithinDamping(w: World, t: TrustMap, v: nat)
    ensures 0 <= DynamicAlpha(w, t, v) <= w.damping
  {
    SumNonNegative(w.edges, VoiceInto(t, v, false));
    SumNonNegative(w.edges, VoiceInto(t, v, true));
    var s, c := SumOf(w.edges, VoiceInto(t, v, false)), SumOf(w.edges, VoiceInto(t, v, true));
    DivMonotone(0, c * 10000, s + c + 1);
  }

  lemma PenaltyNonNegative(w: World, t: TrustMap, e: Edge)
    ensures 0 <= CappedPenalty(w, t, e)
  {
    AlphaWithinDamping(w, t, e.to);
    var target := Trust(t, e.to);
    if target > 0 {
      ScaleMonotone(0, target, DynamicAlpha(w, t, e.to));
    }
  }

  lemma TotalNonNegative(w: World, t: TrustMap, v: nat)
    ensures 0 <= TotalPenalty(w, t, v)
  {
    forall e | e in w.edges
      ensures 0 <= PenaltyInto(w, t, v)(e)
    {
      PenaltyNonNegative(w, t, e);
    }
    SumNonNegative(w.edges, PenaltyInto(w, t, v));
  }

  /** A capped penalty takes something between nothing and the damping's share of a positive trust. */
  lemma PenalizedBounds(trust: LogOdds, total: int, damping: Bps)
    requires total >= 0
    ensures Penalized(trust, total, damping) <= trust
    ensures trust > 0 ==> 0 <= trust - Quot(trust * damping, 10000) <= Penalized(trust, total, damping)
  {
    if trust > 0 { ScaleShrinks(trust, damping); }
  }

  /**
   * For any number of contradictions: no trust is raised, and a positive trust `t` keeps at least
   * `t - t * damping / 10000`, so it never turns negative.
   */
  lemma SweepBounds(w: World, t: TrustMap, v: nat)
    ensures Trust(Sweep(w, t), v) <= Trust(t, v)
    ensures Trust(t, v) > 0 ==> 0 <= Trust(t, v) - Quot(Trust(t, v) * w.damping, 10000) <= Trust(Sweep(w, t), v)
  {
    TotalNonNegative(w, t, v);
    PenalizedBounds(Trust(t, v), TotalPenalty(w, t, v), w.damping);
    if Trust(t, v) > 0 { ScaleShrinks(Trust(t, v), w.damping); }
  }

  /** Contradicting sources without positive trust, whatever their number, take nothing. */
  lemma VoicelessContradictionsAreFree(w: World, t: TrustMap, v: nat)
    requires forall e :: e in w.edges && e.relation.Contradicts? && e.to == v ==> Trust(t, e.from) <= 0
    ensures Trust(Sweep(w, t), v) == Trust(t, v)
  {
    forall e | e in w.edges
      ensures PenaltyInto(w, t, v)(e) <= 0
    {
      if e.relation.Contradicts? && e.to == v {
        AlphaWithinDamping(w, t, e.to);
        assert RawPenalty(w, t, e) == 0;
      }
    }
    SumBounded(w.edges, PenaltyInto(w, t, v), (e: Edge) => 0);
    SumVanishes(w.edges, (e: Edge) => 0);
    TotalNonNegative(w, t, v);
  }
}
