/** The loops of `propagate_trust_correlated`. */
module TrustPropagation {
  import opened Numeric
  import opened Bags
  import opened LogOddsAggregation
  import opened Claims
  import opened Correlation
  import opened CorrelationGrouping
  import opened SupportGraph
  import opened KnowledgeGraphs
  import opened TrustFlow
  import opened TrustFlowLaws

  /** The world a propagation works in: decayed base trust, exact cut, groups of the claim array. */
  ghost function WorldOf(edges: seq<Edge>, base: TrustMap, damping: Bps, claims: seq<Claim>, reputation: nat -> Bps,
                         currentTick: nat, halfLife: nat, discount: Bps): World
  {
    World(edges, CutPairs(edges), DecayedBase(base, claims, currentTick, halfLife), claims,
          GroupsOf(claims, DEFAULT_SUPPORT_THRESHOLD), reputation, discount, damping)
  }

  /** The marked positions are the carrying edges whose pair is cut. */
  ghost predicate MarksCut(w: World, cyclic: set<nat>) {
    forall i :: i in cyclic <==> 0 <= i < |w.edges| && Carries(w.edges[i]) && (w.edges[i].from, w.edges[i].to) in w.cut
  }

  lemma UnmarkedFlows(w: World, cyclic: set<nat>, i: nat)
    requires MarksCut(w, cyclic) && i < |w.edges|
    ensures Flows(w.cut, w.edges[i]) <==> Carries(w.edges[i]) && i !in cyclic
  {
  }

  // ---- outgoing strength over the adjacency index ----

  ghost function StrengthAt(w: World, edges: seq<Edge>, u: nat): nat -> int {
    (i: nat) => if i < |edges| then StrengthFrom(w, u)(edges[i]) else 0
  }

  lemma {:induction false} OutIndicesStrength(w: World, edges: seq<Edge>, u: nat)
    ensures SumOf(OutIndices(edges, u), StrengthAt(w, edges, u)) == SumOf(edges, StrengthFrom(w, u))
  {
    if edges != [] {
      var n: nat := |edges| - 1;
      var a := edges[..n];
      OutIndicesStrength(w, a, u);
      var idxs := OutIndices(a, u);
      SumSame(idxs, StrengthAt(w, edges, u), StrengthAt(w, a, u));
      if edges[n].from == u {
        SumConcat(idxs, [n], StrengthAt(w, edges, u));
        SumSingle(n, StrengthAt(w, edges, u));
      }
    }
  }

  method TotalOutStrength(graph: KnowledgeGraph, u: nat, cyclic: set<nat>, ghost w: World) returns (total: int)
    requires graph.Valid() && graph.edges == w.edges && MarksCut(w, cyclic)
    ensures total == OutStrength(w, u)
  {
    var indices := graph.IndicesOf(u);
    ghost var f := StrengthAt(w, w.edges, u);
    OutIndicesStrength(w, w.edges, u);
    total := 0;
    for k := 0 to |indices|
      invariant total == SumOf(indices[..k], f)
    {
      var i := indices[k];
      assert i in indices;
      UnmarkedFlows(w, cyclic, i);
      assert indices[..k + 1][..k] == indices[..k];
      if i !in cyclic && Carries(graph.edges[i]) {
        total := total + graph.edges[i].strength;
      }
    }
    assert indices[..|indices|] == indices;
  }

  // ---- pass 1 ----

  /** Some flowing edge seen so far ends at `v`. */
  ghost predicate Arrives(w: World, seen: seq<Edge>, v: nat) {
    exists e :: e in seen && Flows(w.cut, e) && e.to == v
  }

  ghost predicate GatheredAt(w: World, t: TrustMap, seen: seq<Edge>, incoming: map<nat, seq<Evidence>>, v: nat) {
    && (v in incoming <==> Arrives(w, seen, v))
    && (v in incoming ==> incoming[v] == FilterMap(seen, PickIncoming(w, t, v)))
  }

  /** The contributions gathered from the edges seen so far, by target. */
  ghost predicate Gathered(w: World, t: TrustMap, seen: seq<Edge>, incoming: map<nat, seq<Evidence>>) {
    forall v: nat :: GatheredAt(w, t, seen, incoming, v)
  }

  function Gather(incoming: map<nat, seq<Evidence>>, v: nat, x: Evidence): map<nat, seq<Evidence>> {
    incoming[v := (if v in incoming then incoming[v] else []) + [x]]
  }

  ghost function EvidenceOf(w: World, t: TrustMap, e: Edge): Evidence {
    Evidence(Contribution(w, t, e), SourceGroup(w, e.from), SourceId(w, e.from))
  }

  ghost function GatherEdge(w: World, t: TrustMap, incoming: map<nat, seq<Evidence>>, e: Edge): map<nat,
                            seq<Evidence>> {
    if Flows(w.cut, e) then Gather(incoming, e.to, EvidenceOf(w, t, e)) else incoming
  }

  lemma GatherStepAt(w: World, t: TrustMap, seen: seq<Edge>, e: Edge, incoming: map<nat, seq<Evidence>>, v: nat)
    requires GatheredAt(w, t, seen, incoming, v)
    ensures GatheredAt(w, t, seen + [e], GatherEdge(w, t, incoming, e), v)
  {
    var pick := PickIncoming(w, t, v);
    assert Arrives(w, seen + [e], v) <==> Arrives(w, seen, v) || (Flows(w.cut, e) && e.to == v) by {
      assert forall x :: x in seen + [e] <==> x in seen || x == e;
    }
    FilterMapConcat(seen, [e], pick);
    FilterMapSingle(e, pick);
    if v !in incoming { FilterMapNone(seen, pick); }
  }

  lemma GatherStep(w: World, t: TrustMap, seen: seq<Edge>, e: Edge, incoming: map<nat, seq<Evidence>>)
    requires Gathered(w, t, seen, incoming)
    ensures Gathered(w, t, seen + [e], GatherEdge(w, t, incoming, e))
  {
    forall v: nat
      ensures GatheredAt(w, t, seen + [e], GatherEdge(w, t, incoming, e), v)
    {
      assert GatheredAt(w, t, seen, incoming, v);
      GatherStepAt(w, t, seen, e, incoming, v);
    }
  }

  lemma NothingYet(w: World, t: TrustMap)
    ensures Gathered(w, t, [], map[])
  {
    forall v: nat
      ensures GatheredAt(w, t, [], map[], v)
    {
      assert !Arrives(w, [], v);
    }
  }

  /** The contribution of one flowing edge. */
  method ContributionOf(graph: KnowledgeGraph, edge: Edge, cyclic: set<nat>, trust: TrustMap, claims: seq<Claim>,
                        reputation: nat -> Bps, ghost w: World)
    returns (contribution: LogOdds)
    requires graph.Valid() && graph.edges == w.edges && MarksCut(w, cyclic)
    requires w.claims == claims && w.reputation == reputation
    ensures contribution == Contribution(w, trust, edge)
  {
    var fromTrust := Max(Trust(trust, edge.from), 0);
    var authorRep: int := if edge.from < |claims| then reputation(claims[edge.from].origin) else 0;
    var totalOut := TotalOutStrength(graph, edge.from, cyclic, w);
    var share := edge.strength * 10000 / Max(totalOut, 1);
    var raw := Quot(Quot(fromTrust * share, 10000) * authorRep, 10000);
    contribution := Clamp(raw, I32_MIN, I32_MAX);
  }

  /** Gather every target's incoming contributions before applying any. */
  method GatherIncoming(graph: KnowledgeGraph, cyclic: set<nat>, trust: TrustMap, claims: seq<Claim>,
                        groups: seq<CorrelationGroup>, reputation: nat -> Bps, ghost w: World)
    returns (incoming: map<nat, seq<Evidence>>)
    requires graph.Valid() && graph.edges == w.edges && MarksCut(w, cyclic)
    requires w.claims == claims && w.reputation == reputation && w.groups == groups
    ensures Gathered(w, trust, w.edges, incoming)
  {
    incoming := map[];
    NothingYet(w, trust);
    assert w.edges[..0] == [];
    for idx := 0 to |graph.edges|
      invariant Gathered(w, trust, w.edges[..idx], incoming)
    {
      var edge := graph.edges[idx];
      UnmarkedFlows(w, cyclic, idx);
      GatherStep(w, trust, w.edges[..idx], edge, incoming);
      assert w.edges[..idx + 1] == w.edges[..idx] + [edge];
      if !Carries(edge) {
        continue;
      }
      if idx in cyclic {
        continue;
      }
      var contribution := ContributionOf(graph, edge, cyclic, trust, claims, reputation, w);
      var srcId := if edge.from < |claims| then claims[edge.from].id else 0;
      var srcGroup := if edge.from < |groups| then groups[edge.from] else CorrelationGroup(0, false);
      incoming := Gather(incoming, edge.to, Evidence(contribution, srcGroup, srcId));
    }
    assert w.edges[..|w.edges|] == w.edges;
  }

  /** `next` is `base` with the entries of `done` replaced by those of `goal`. */
  ghost predicate Applied(next: TrustMap, base: TrustMap, goal: TrustMap, done: set<nat>)
    requires done <= goal.Keys
  {
    && next.Keys == base.Keys + done
    && forall v :: v in next ==> next[v] == if v in done then goal[v] else base[v]
  }

  lemma ApplyOne(next: TrustMap, base: TrustMap, goal: TrustMap, done: set<nat>, v: nat)
    requires done <= goal.Keys && v in goal && v !in done && Applied(next, base, goal, done)
    ensures Trust(next, v) == Trust(base, v)
    ensures Applied(next[v := goal[v]], base, goal, done + {v})
  {
  }

  /** `goal` replaces exactly the entries of `targets`. */
  ghost predicate Replaces(goal: TrustMap, base: TrustMap, targets: set<nat>) {
    && goal.Keys == base.Keys + targets
    && forall v :: v in base && v !in targets ==> goal[v] == base[v]
  }

  lemma ApplyAll(next: TrustMap, base: TrustMap, goal: TrustMap, targets: set<nat>)
    requires Replaces(goal, base, targets) && Applied(next, base, goal, targets)
    ensures next == goal
  {
  }

  /** `goal` holds, at `v`, the base trust updated by the aggregate of the contributions gathered there. */
  ghost predicate UpdatedAt(goal: TrustMap, base: TrustMap, contributions: seq<Evidence>, discount: Bps, v: nat) {
    v in goal && goal[v] == Update(Trust(base, v), Aggregate(contributions, discount, UNASSESSED_DISCOUNT_BPS))
  }

  ghost predicate Updated(goal: TrustMap, base: TrustMap, incoming: map<nat, seq<Evidence>>, discount: Bps) {
    forall v {:trigger UpdatedAt(goal, base, incoming[v], discount, v)} ::
      v in incoming ==> UpdatedAt(goal, base, incoming[v], discount, v)
  }

  /** One target: its current trust updated by the aggregated contributions. */
  method ApplyTarget(next: TrustMap, incoming: map<nat, seq<Evidence>>, discount: Bps, target: nat,
                     ghost done: set<nat>, ghost base: TrustMap, ghost goal: TrustMap)
    returns (next': TrustMap)
    requires target in incoming && target in goal && target !in done && done <= goal.Keys
    requires Updated(goal, base, incoming, discount)
    requires Applied(next, base, goal, done)
    ensures Applied(next', base, goal, done + {target})
  {
    ApplyOne(next, base, goal, done, target);
    assert UpdatedAt(goal, base, incoming[target], discount, target);
    var bonus := AggregateHierarchical(incoming[target], discount, UNASSESSED_DISCOUNT_BPS);
    next' := next[target := Update(Trust(next, target), bonus)];
  }

  /** Apply the gathered support: one update per target, in whatever order the map yields its keys. */
  method ApplyIncoming(incoming: map<nat, seq<Evidence>>, base: TrustMap, discount: Bps, ghost goal: TrustMap)
    returns (next: TrustMap)
    requires Replaces(goal, base, incoming.Keys) && Updated(goal, base, incoming, discount)
    ensures next == goal
  {
    next := base;
    var remaining := incoming.Keys;
    ghost var done := {};
    while remaining != {}
      invariant done !! remaining && done + remaining == incoming.Keys
      invariant Applied(next, base, goal, done)
      decreases remaining
    {
      var target :| target in remaining;
      next := ApplyTarget(next, incoming, discount, target, done, base, goal);
      remaining, done := remaining - {target}, done + {target};
    }
    ApplyAll(next, base, goal, done);
  }

  lemma StepIsGoal(w: World, t: TrustMap, incoming: map<nat, seq<Evidence>>)
    requires Gathered(w, t, w.edges, incoming)
    ensures Replaces(Step(w, t), w.base, incoming.Keys)
    ensures Updated(Step(w, t), w.base, incoming, w.discount)
  {
    StepKeys(w, t);
    GatheredTargets(w, t, incoming);
    forall v | v in incoming
      ensures UpdatedAt(Step(w, t), w.base, incoming[v], w.discount, v)
    {
      StepEntry(w, t, incoming, v);
    }
  }

  lemma StepKeys(w: World, t: TrustMap)
    ensures Step(w, t).Keys == w.base.Keys + FlowTargets(w.edges, w.cut)
    ensures forall v :: v in w.base && v !in FlowTargets(w.edges, w.cut) ==> Step(w, t)[v] == w.base[v]
  {
  }

  lemma GatheredTargets(w: World, t: TrustMap, incoming: map<nat, seq<Evidence>>)
    requires Gathered(w, t, w.edges, incoming)
    ensures incoming.Keys == FlowTargets(w.edges, w.cut)
  {
    forall v: nat
      ensures v in incoming <==> v in FlowTargets(w.edges, w.cut)
    {
      assert GatheredAt(w, t, w.edges, incoming, v);
    }
  }

  lemma StepEntry(w: World, t: TrustMap, incoming: map<nat, seq<Evidence>>, v: nat)
    requires Gathered(w, t, w.edges, incoming) && v in incoming
    ensures v in Step(w, t)
    ensures Step(w, t)[v] == Update(Trust(w.base, v), Aggregate(incoming[v], w.discount, UNASSESSED_DISCOUNT_BPS))
  {
    assert GatheredAt(w, t, w.edges, incoming, v);
    GatheredTargets(w, t, incoming);
  }

  /** Pass 1: iterate, stopping early once nothing changes. */
  method SupportPass(graph: KnowledgeGraph, cyclic: set<nat>, base: TrustMap, maxIterations: nat, claims: seq<Claim>,
                     groups: seq<CorrelationGroup>, reputation: nat -> Bps, discount: Bps, ghost w: World)
    returns (trust: TrustMap)
    requires graph.Valid() && graph.edges == w.edges && MarksCut(w, cyclic)
    requires w.claims == claims && w.reputation == reputation && w.groups == groups
    requires w.base == base && w.discount == discount
    ensures trust == IterateOf(w)(maxIterations)
  {
    trust := base;
    IterateIsOrbit(w);
    for k := 0 to maxIterations
      invariant trust == IterateOf(w)(k)
    {
      var incoming := GatherIncoming(graph, cyclic, trust, claims, groups, reputation, w);
      StepIsGoal(w, trust, incoming);
      assert IterateOf(w)(k + 1) == StepOf(w)(IterateOf(w)(k)) == Step(w, trust);
      var next := ApplyIncoming(incoming, base, discount, Step(w, trust));
      var changed := exists v :: v in next && Trust(trust, v) != next[v];
      if !changed {
        if k + 1 < maxIterations { EarlyBreakIsExact(w, k, maxIterations); }
        trust := next;
        return;
      }
      trust := next;
    }
  }

  // ---- pass 2 ----

  /** The trust-weighted shares of support and contradiction at a node. */
  method DampingAt(graph: KnowledgeGraph, v: nat, stabilized: TrustMap, damping: Bps, ghost w: World)
    returns (alpha: int)
    requires graph.edges == w.edges && w.damping == damping
    ensures alpha == DynamicAlpha(w, stabilized, v)
  {
    var support, contradict := 0, 0;
    for i := 0 to |graph.edges|
      invariant support == SumOf(w.edges[..i], VoiceInto(stabilized, v, false))
      invariant contradict == SumOf(w.edges[..i], VoiceInto(stabilized, v, true))
    {
      var e := graph.edges[i];
      assert w.edges[..i + 1][..i] == w.edges[..i];
      if e.to != v {
        continue;
      }
      var weight := Max(Trust(stabilized, e.from), 0);
      match e.relation
      case Supports => support := support + weight;
      case DerivedFrom => support := support + weight;
      case Contradicts => contradict := contradict + weight;
      case SharedSource =>
    }
    assert w.edges[..|w.edges|] == w.edges;
    SumNonNegative(w.edges, VoiceInto(stabilized, v, false));
    SumNonNegative(w.edges, VoiceInto(stabilized, v, true));
    alpha := Min(Quot(contradict * 10000, support + contradict + 1), damping);
  }

  ghost predicate Charged(w: World, t: TrustMap, seen: seq<Edge>, penalties: map<nat, int>) {
    && (forall v :: v in penalties <==> v in Contradicted(seen))
    && (forall v :: v in penalties ==> penalties[v] == SumOf(seen, PenaltyInto(w, t, v)))
  }

  lemma {:induction false} NotCharged(w: World, t: TrustMap, seen: seq<Edge>, v: nat)
    requires v !in Contradicted(seen)
    ensures SumOf(seen, PenaltyInto(w, t, v)) == 0
  {
    if seen != [] {
      var n := |seen| - 1;
      assert seen[n] in seen && forall e :: e in seen[..n] ==> e in seen;
      NotCharged(w, t, seen[..n], v);
    }
  }

  ghost function Charge(w: World, t: TrustMap, penalties: map<nat, int>, e: Edge): map<nat, int> {
    if e.relation.Contradicts?
    then penalties[e.to := (if e.to in penalties then penalties[e.to] else 0) + CappedPenalty(w, t, e)]
    else penalties
  }

  lemma ChargeStep(w: World, t: TrustMap, seen: seq<Edge>, e: Edge, penalties: map<nat, int>)
    requires Charged(w, t, seen, penalties)
    ensures Charged(w, t, seen + [e], Charge(w, t, penalties, e))
  {
    var next := seen + [e];
    assert next[..|seen|] == seen;
    assert forall x :: x in next <==> x in seen || x == e;
    if e.relation.Contradicts? && e.to !in penalties { NotCharged(w, t, seen, e.to); }
  }

  /** The capped penalty of one contradicting edge, read from the frozen snapshot. */
  method PenaltyOf(graph: KnowledgeGraph, edge: Edge, stabilized: TrustMap, damping: Bps, claims: seq<Claim>,
                   reputation: nat -> Bps, ghost w: World)
    returns (capped: int)
    requires graph.edges == w.edges && w.damping == damping && w.claims == claims && w.reputation == reputation
    ensures capped == CappedPenalty(w, stabilized, edge)
  {
    var fromTrust := Max(Trust(stabilized, edge.from), 0);
    var authorRep: int := if edge.from < |claims| then reputation(claims[edge.from].origin) else 0;
    var weight := Quot(edge.strength * authorRep, 10000);
    var raw := Quot(fromTrust * weight, 10000);
    var alpha := DampingAt(graph, edge.to, stabilized, damping, w);
    var target := Trust(stabilized, edge.to);
    var maxPenalty := if target > 0 then Quot(target * alpha, 10000) else Abs(raw);
    capped := Min(Abs(raw), maxPenalty);
  }

  method CollectPenalties(graph: KnowledgeGraph, stabilized: TrustMap, damping: Bps, claims: seq<Claim>,
                          reputation: nat -> Bps, ghost w: World)
    returns (penalties: map<nat, int>)
    requires graph.edges == w.edges && w.damping == damping && w.claims == claims && w.reputation == reputation
    ensures Charged(w, stabilized, w.edges, penalties)
  {
    penalties := map[];
    for i := 0 to |graph.edges|
      invariant Charged(w, stabilized, w.edges[..i], penalties)
    {
      var edge := graph.edges[i];
      ChargeStep(w, stabilized, w.edges[..i], edge, penalties);
      assert w.edges[..i + 1] == w.edges[..i] + [edge];
      penalties := ChargeEdge(graph, edge, penalties, stabilized, damping, claims, reputation, w);
    }
    assert w.edges[..|w.edges|] == w.edges;
  }

  /** One turn of the penalty loop: skip all but contradictions, add the capped penalty to the target's entry. */
  method ChargeEdge(graph: KnowledgeGraph, edge: Edge, penalties: map<nat, int>, stabilized: TrustMap, damping: Bps,
                    claims: seq<Claim>, reputation: nat -> Bps, ghost w: World)
    returns (next: map<nat, int>)
    requires graph.edges == w.edges && w.damping == damping && w.claims == claims && w.reputation == reputation
    ensures next == Charge(w, stabilized, penalties, edge)
  {
    if !edge.relation.Contradicts? {
      return penalties;
    }
    var capped := PenaltyOf(graph, edge, stabilized, damping, claims, reputation, w);
    next := penalties[edge.to := (if edge.to in penalties then penalties[edge.to] else 0) + capped];
  }

  /** Pass 2: collect all penalties from the frozen snapshot, then apply them under the global cap. */
  method ContradictionPass(graph: KnowledgeGraph, stabilized: TrustMap, damping: Bps, claims: seq<Claim>,
                           reputation: nat -> Bps, ghost w: World)
    returns (trust: TrustMap)
    requires graph.edges == w.edges && w.damping == damping && w.claims == claims && w.reputation == reputation
    ensures trust == Sweep(w, stabilized)
  {
    var penalties := CollectPenalties(graph, stabilized, damping, claims, reputation, w);
    SweepEntries(w, stabilized, penalties);
    trust := ApplyPenalties(penalties, stabilized, damping, Sweep(w, stabilized));
  }

  method ApplyPenalties(penalties: map<nat, int>, stabilized: TrustMap, damping: Bps, ghost goal: TrustMap)
    returns (trust: TrustMap)
    requires Replaces(goal, stabilized, penalties.Keys)
    requires forall v :: v in penalties ==> goal[v] == Penalized(Trust(stabilized, v), penalties[v], damping)
    ensures trust == goal
  {
    trust := stabilized;
    var remaining := penalties.Keys;
    ghost var done := {};
    while remaining != {}
      invariant done !! remaining && done + remaining == penalties.Keys
      invariant Applied(trust, stabilized, goal, done)
      decreases remaining
    {
      var node :| node in remaining;
      ApplyOne(trust, stabilized, goal, done, node);
      trust := trust[node := Penalized(Trust(trust, node), penalties[node], damping)];
      remaining, done := remaining - {node}, done + {node};
    }
    ApplyAll(trust, stabilized, goal, done);
  }

  lemma SweepEntries(w: World, t: TrustMap, penalties: map<nat, int>)
    requires Charged(w, t, w.edges, penalties)
    ensures Replaces(Sweep(w, t), t, penalties.Keys)
    ensures forall v :: v in penalties ==> Sweep(w, t)[v] == Penalized(Trust(t, v), penalties[v], w.damping)
  {
    assert penalties.Keys == Contradicted(w.edges);
  }

  // ---- both passes ----

  /** Halve each base trust once per half-life of its claim's age, entry by entry. */
  method DecayBase(base: TrustMap, claims: seq<Claim>, currentTick: nat, halfLife: nat) returns (decayed: TrustMap)
    ensures decayed == DecayedBase(base, claims, currentTick, halfLife)
  {
    decayed := base;
    if halfLife == 0 || currentTick == 0 {
      return;
    }
    var remaining := base.Keys;
    while remaining != {}
      invariant remaining <= base.Keys == decayed.Keys
      invariant forall v :: v in base && v !in remaining ==>
        decayed[v] == Decayed(claims, currentTick, halfLife, v, base[v])
      invariant forall v :: v in remaining ==> decayed[v] == base[v]
      decreases remaining
    {
      var v :| v in remaining;
      if v < |claims| {
        var age := if currentTick > claims[v].tick then currentTick - claims[v].tick else 0;
        var shifts := Min(age / halfLife, 30);
        ShiftRightShrinks(decayed[v], shifts);
        decayed := decayed[v := ShiftRight(decayed[v], shifts)];
      }
      remaining := remaining - {v};
    }
  }

  method PropagateTrust(graph: KnowledgeGraph, base: TrustMap, maxIterations: nat, damping: Bps, claims: seq<Claim>,
                        reputation: nat -> Bps, currentTick: nat, halfLife: nat, discount: Bps)
    returns (trust: TrustMap)
    requires graph.Valid()
    ensures trust ==
            Propagated(WorldOf(graph.edges, base, damping, claims, reputation, currentTick, halfLife, discount),
                       maxIterations)
  {
    ghost var w := WorldOf(graph.edges, base, damping, claims, reputation, currentTick, halfLife, discount);
    var cyclic := graph.CyclicEdgeIndices();
    var decayedBase := DecayBase(base, claims, currentTick, halfLife);
    var groups := CorrelationGroups(claims, DEFAULT_SUPPORT_THRESHOLD);
    var stabilized := SupportPass(graph, cyclic, decayedBase, maxIterations, claims, groups, reputation, discount, w);
    trust := ContradictionPass(graph, stabilized, damping, claims, reputation, w);
  }
}
