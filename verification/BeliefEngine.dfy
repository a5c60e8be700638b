/** The log-odds belief engine: base trust, both passes, and the three-way classification. */
module BeliefEngine {
  import opened Numeric
  import opened Bags
  import opened LogOddsAggregation
  import opened Claims
  import opened SupportGraph
  import opened KnowledgeGraphs
  import opened TrustFlow
  import opened FlowIteration
  import opened TrustFlowLaws
  import opened NoAmplification
  import opened ContradictionSafety
  import opened TrustPropagation

  const ITERATIONS: nat := 5

  datatype BeliefState = BeliefState(accepted: seq<nat>, rejected: seq<nat>, uncertain: seq<nat>)

  datatype Engine = Engine(accept: LogOdds, reject: LogOdds, damping: Bps)

  const DEFAULT_ENGINE: Engine := Engine(2197, -2197, 5000)

  function BaseTrust(claims: seq<Claim>, reputation: nat -> Bps): TrustMap {
    map i: nat | i < |claims| :: WeightEvidence(reputation(claims[i].origin), DeclaredConfidence(claims[i]))
  }

  /** The world in which the engine propagates: no temporal decay, default discount. */
  ghost function EngineWorld(engine: Engine, edges: seq<Edge>, claims: seq<Claim>, reputation: nat -> Bps): World {
    WorldOf(edges, BaseTrust(claims, reputation), engine.damping, claims, reputation, 0, 0, DEFAULT_DISCOUNT_BPS)
  }

  lemma BaseWithinDeclared(claims: seq<Claim>, reputation: nat -> Bps, v: nat)
    ensures Abs(Trust(BaseTrust(claims, reputation), v)) <= MAX_DECLARED
  {
    if v < |claims| {
      ScaleShrinks(DeclaredConfidence(claims[v]), reputation(claims[v].origin));
    }
  }

  lemma UndecayedBase(engine: Engine, edges: seq<Edge>, claims: seq<Claim>, reputation: nat -> Bps)
    ensures EngineWorld(engine, edges, claims, reputation).base == BaseTrust(claims, reputation)
  {
  }

  lemma {:induction false} MassAtMost(base: TrustMap, n: nat, m: nat)
    requires forall v :: Voice(Trust(base, v)) <= m
    ensures Mass(base, n) <= n * m
  {
    if n > 0 {
      MassAtMost(base, n - 1, m);
      assert n * m == (n - 1) * m + m;
    }
  }

  /**
   * In the engine's own runs trust climbs monotonically, and no node ever exceeds the declared maximum times the
   * number of claims, whatever the edges.
   */
  lemma EngineTrustBounded(engine: Engine, edges: seq<Edge>, claims: seq<Claim>, reputation: nat -> Bps, k: nat, v: nat)
    ensures var w := EngineWorld(engine, edges, claims, reputation);
            && AtMost(IterateOf(w)(k), IterateOf(w)(k + 1))
            && Trust(IterateOf(w)(k), v) <= Mass(BaseTrust(claims, reputation), |claims|) <= |claims| * MAX_DECLARED
  {
    var w := EngineWorld(engine, edges, claims, reputation);
    UndecayedBase(engine, edges, claims, reputation);
    forall u
      ensures Abs(Trust(BaseTrust(claims, reputation), u)) <= MAX_DECLARED
    {
      BaseWithinDeclared(claims, reputation, u);
    }
    assert SafeTargets(w);
    IteratesClimbIff(w);
    TrustIsNeverAmplified(w, k, v, |claims|);
    MassAtMost(BaseTrust(claims, reputation), |claims|, MAX_DECLARED);
  }

  /** Relations of shared source aside, no edge leads to `v`. */
  ghost predicate Alone(edges: seq<Edge>, v: nat) {
    forall e :: e in edges && e.to == v ==> e.relation == SharedSource
  }

  /**
   * A claim that no edge supports or contradicts is judged by its own word: its confidence within the declarable
   * range, in proportion to the reputation of its author, rounded toward zero.
   */
  lemma JudgedAlone(engine: Engine, edges: seq<Edge>, claims: seq<Claim>, reputation: nat -> Bps, k: nat, v: nat)
    requires v < |claims| && Alone(edges, v)
    ensures var t: int := Trust(Propagated(EngineWorld(engine, edges, claims, reputation), k), v);
      var c: int := Min(Max(claims[v].confidence, MIN_DECLARED), MAX_DECLARED);
      && 0 <= Abs(c) * reputation(claims[v].origin) - 10000 * Abs(t) < 10000
      && (c >= 0 ==> t >= 0) && (c <= 0 ==> t <= 0)
  {
    AloneKeeps(EngineWorld(engine, edges, claims, reputation), k, v);
    UndecayedBase(engine, edges, claims, reputation);
    WeightedMagnitude(reputation(claims[v].origin), DeclaredConfidence(claims[v]));
  }

  lemma AloneKeeps(w: World, k: nat, v: nat)
    requires Alone(w.edges, v)
    ensures Trust(Propagated(w, k), v) == Trust(w.base, v)
  {
    Unsupported(w, k, v);
  }

  lemma WeightedMagnitude(rho: Bps, c: LogOdds)
    ensures var t: int := WeightEvidence(rho, c);
      0 <= Abs(c) * rho - 10000 * Abs(t) < 10000 && (c >= 0 ==> t >= 0) && (c <= 0 ==> t <= 0)
  {
    WeightedIs(rho, c);
    ScaleShrinks(c, rho);
    if c < 0 { assert c * rho == 0 - Abs(c) * rho; }
  }

  /** `s` lists, in claim order, exactly the claims below `n` that satisfy `p`. */
  ghost predicate Lists(s: seq<nat>, n: nat, p: nat -> bool) {
    StrictlyAscending(s) && forall i: nat :: i in s <==> i < n && p(i)
  }

  lemma ListNext(s: seq<nat>, n: nat, p: nat -> bool)
    requires Lists(s, n, p)
    ensures Lists(if p(n) then s + [n] else s, n + 1, p)
  {
    assert forall k :: 0 <= k < |s| ==> s[k] in s;
  }

  function Accepts(engine: Engine, t: TrustMap): nat -> bool {
    (i: nat) => Trust(t, i) >= engine.accept
  }

  function Rejects(engine: Engine, t: TrustMap): nat -> bool {
    (i: nat) => Trust(t, i) < engine.accept && Trust(t, i) <= engine.reject
  }

  function Doubts(engine: Engine, t: TrustMap): nat -> bool {
    (i: nat) => engine.reject < Trust(t, i) < engine.accept
  }

  method Classify(engine: Engine, n: nat, propagated: TrustMap) returns (state: BeliefState)
    ensures Lists(state.accepted, n, Accepts(engine, propagated))
    ensures Lists(state.rejected, n, Rejects(engine, propagated))
    ensures Lists(state.uncertain, n, Doubts(engine, propagated))
  {
    var accepted: seq<nat>, rejected: seq<nat>, uncertain: seq<nat> := [], [], [];
    for i := 0 to n
      invariant Lists(accepted, i, Accepts(engine, propagated))
      invariant Lists(rejected, i, Rejects(engine, propagated))
      invariant Lists(uncertain, i, Doubts(engine, propagated))
    {
      ListNext(accepted, i, Accepts(engine, propagated));
      ListNext(rejected, i, Rejects(engine, propagated));
      ListNext(uncertain, i, Doubts(engine, propagated));
      var final := Trust(propagated, i);
      if final >= engine.accept {
        accepted := accepted + [i];
      } else if final <= engine.reject {
        rejected := rejected + [i];
      } else {
        uncertain := uncertain + [i];
      }
    }
    state := BeliefState(accepted, rejected, uncertain);
  }

  // ---- accepted claims are not rejected by contradictions ----

  /** The least that any penalties leave of a trust that pass 1 accepts. */
  function LeastLeft(engine: Engine): int {
    if engine.accept > 0 then engine.accept - Quot(engine.accept * engine.damping, 10000)
    else Max(engine.accept - I32_MAX, I32_MIN)
  }

  predicate KeepsAccepted(engine: Engine) {
    engine.reject < LeastLeft(engine)
  }

  /** What damping leaves grows with the trust. */
  lemma LeftMonotone(x: int, y: int, damping: Bps)
    requires 0 < x <= y
    ensures 0 <= x - Quot(x * damping, 10000) <= y - Quot(y * damping, 10000)
  {
    ScaleShrinks(x, damping);
    DampedSum(x, y - x, damping);
    Times(damping, 10000, y - x);
    Times(0, damping, x);
    Times(0, damping, y);
    DivBounds(x * damping, 10000);
    DivBounds(y * damping, 10000);
  }

  lemma DampedSum(x: int, z: int, damping: int)
    ensures (x + z) * damping == x * damping + z * damping
  {
  }

  lemma PenalizedAtLeast(engine: Engine, trust: LogOdds, total: int)
    requires trust >= engine.accept && total >= 0
    ensures Penalized(trust, total, engine.damping) >= LeastLeft(engine)
  {
    PenalizedBounds(trust, total, engine.damping);
    if trust > 0 && engine.accept > 0 { LeftMonotone(engine.accept, trust, engine.damping); }
  }

  /** At the threshold itself a large enough penalty leaves just that. */
  lemma LeastLeftIsMet(engine: Engine)
    ensures Penalized(engine.accept, I32_MAX, engine.damping) == LeastLeft(engine)
  {
    if engine.accept > 0 { ScaleShrinks(engine.accept, engine.damping); }
  }

  /** No penalty takes an accepted trust down to rejection exactly if the thresholds are that far apart. */
  lemma KeepsAcceptedIff(engine: Engine)
    ensures KeepsAccepted(engine) <==>
      forall trust: LogOdds, total: nat ::
        trust >= engine.accept ==> Penalized(trust, total, engine.damping) > engine.reject
  {
    LeastLeftIsMet(engine);
    if KeepsAccepted(engine) {
      forall trust: LogOdds, total: nat | trust >= engine.accept
        ensures Penalized(trust, total, engine.damping) > engine.reject
      {
        PenalizedAtLeast(engine, trust, total);
      }
    }
  }

  /** The default engine has thresholds far enough apart, for every damping. */
  lemma DefaultEngineKeepsAccepted(damping: Bps)
    ensures KeepsAccepted(DEFAULT_ENGINE.(damping := damping))
  {
    LeftMonotone(DEFAULT_ENGINE.accept, DEFAULT_ENGINE.accept, damping);
  }

  lemma SweepKeepsAccepted(engine: Engine, w: World, t: TrustMap, v: nat)
    requires KeepsAccepted(engine) && w.damping == engine.damping && Trust(t, v) >= engine.accept
    ensures Trust(Sweep(w, t), v) > engine.reject
  {
    TotalNonNegative(w, t, v);
    PenalizedAtLeast(engine, Trust(t, v), TotalPenalty(w, t, v));
    PenalizedAtLeast(engine, Trust(t, v), 0);
  }

  /** Weigh each claim's declared confidence with its origin's reputation. */
  method WeightClaims(claims: seq<Claim>, reputation: nat -> Bps) returns (base: TrustMap)
    ensures base == BaseTrust(claims, reputation)
  {
    base := map[];
    for i := 0 to |claims|
      invariant base == BaseTrust(claims[..i], reputation)
    {
      base := base[i := WeightEvidence(reputation(claims[i].origin), DeclaredConfidence(claims[i]))];
    }
    assert claims[..|claims|] == claims;
  }

  /**
   * Classify every claim by its trust after both passes. If the rejection threshold is below what damping leaves of
   * an accepted trust, no number of contradictions turns a claim that pass 1 would accept into a rejected one.
   */
  method Compute(engine: Engine, claims: seq<Claim>, graph: KnowledgeGraph, reputation: nat -> Bps)
    returns (state: BeliefState)
    requires graph.Valid()
    ensures var t := Propagated(EngineWorld(engine, graph.edges, claims, reputation), ITERATIONS);
            && Lists(state.accepted, |claims|, Accepts(engine, t))
            && Lists(state.rejected, |claims|, Rejects(engine, t))
            && Lists(state.uncertain, |claims|, Doubts(engine, t))
    ensures KeepsAccepted(engine) ==>
      forall i :: i in state.rejected ==>
        Trust(IterateOf(EngineWorld(engine, graph.edges, claims, reputation))(ITERATIONS), i) < engine.accept
  {
    var base := WeightClaims(claims, reputation);
    var propagated := PropagateTrust(graph, base, ITERATIONS, engine.damping, claims, reputation, 0, 0,
                                     DEFAULT_DISCOUNT_BPS);
    state := Classify(engine, |claims|, propagated);
    ghost var w := EngineWorld(engine, graph.edges, claims, reputation);
    if KeepsAccepted(engine) {
      forall i | i in state.rejected && Trust(IterateOf(w)(ITERATIONS), i) >= engine.accept
        ensures false
      {
        SweepKeepsAccepted(engine, w, Iterate(w, ITERATIONS), i);
      }
    }
  }
}
