/** Pass 1 over every graph: monotone, when its iterates climb, when they settle, and on what. */
module TrustFlowLaws {
  import opened Numeric
  import opened Bags
  import opened LogOddsAggregation
  import opened LogOddsBounds
  import opened SupportGraph
  import opened TrustFlow
  import opened FlowIteration

  // ---- contributions ----

  lemma {:induction false} StrengthsNonNegative(w: World, u: nat)
    ensures 0 <= OutStrength(w, u)
  {
    SumNonNegative(w.edges, StrengthFrom(w, u));
  }

  lemma ShareNonNegative(w: World, e: Edge)
    ensures 0 <= Share(w, e)
  {
    DivMonotone(0, e.strength * 10000, Max(OutStrength(w, e.from), 1));
  }

  /** What an edge passes on is non-negative and grows with its source's trust. */
  lemma PassedMonotone(w: World, e: Edge, x: int, y: int)
    requires x <= y
    ensures 0 <= Passed(w, e, x) <= Passed(w, e, y)
  {
    ShareNonNegative(w, e);
    ScaleMonotone(Voice(x), Voice(y), Share(w, e));
    ScaleMonotone(Quot(Voice(x) * Share(w, e), 10000), Quot(Voice(y) * Share(w, e), 10000),
                  AuthorReputation(w, e.from));
  }

  lemma {:induction false} IncomingWeaker(w: World, t: TrustMap, t': TrustMap, v: nat, edges: seq<Edge>)
    requires AtMost(t, t')
    ensures Weaker(FilterMap(edges, PickIncoming(w, t, v)), FilterMap(edges, PickIncoming(w, t', v)))
  {
    if edges != [] {
      var n := |edges| - 1;
      IncomingWeaker(w, t, t', v, edges[..n]);
      var e := edges[n];
      assert Trust(t, e.from) <= Trust(t', e.from);
      PassedMonotone(w, e, Trust(t, e.from), Trust(t', e.from));
    }
  }

  lemma BonusMonotone(w: World, t: TrustMap, t': TrustMap, v: nat)
    requires AtMost(t, t')
    ensures 0 <= Bonus(w, t, v) <= Bonus(w, t', v)
  {
    IncomingWeaker(w, t, t', v, w.edges);
    AggregateMonotone(Incoming(w, t, v), Incoming(w, t', v), w.discount, UNASSESSED_DISCOUNT_BPS);
  }

  lemma StepTrust(w: World, t: TrustMap, v: nat)
    ensures Trust(Step(w, t), v) == StepAt(w, t, v)
  {
  }

  lemma UpdateMonotone(x: LogOdds, a: LogOdds, b: LogOdds)
    requires a <= b
    ensures Update(x, a) <= Update(x, b)
  {
  }

  lemma StepAtMonotone(w: World, t: TrustMap, t': TrustMap, v: nat)
    requires AtMost(t, t')
    ensures StepAt(w, t, v) <= StepAt(w, t', v)
  {
    BonusMonotone(w, t, t', v);
    UpdateMonotone(Trust(w.base, v), Bonus(w, t, v), Bonus(w, t', v));
  }

  /** One iteration is monotone in the whole trust map. */
  lemma StepMonotone(w: World, t: TrustMap, t': TrustMap)
    requires AtMost(t, t')
    ensures AtMost(Step(w, t), Step(w, t'))
  {
    forall v
      ensures Trust(Step(w, t), v) <= Trust(Step(w, t'), v)
    {
      StepTrust(w, t, v);
      StepTrust(w, t', v);
      StepAtMonotone(w, t, t', v);
    }
  }

  // ---- the iteration as an orbit ----

  ghost function StepOf(w: World): Operator {
    (t: TrustMap) => Step(w, t)
  }

  ghost function IterateOf(w: World): nat -> TrustMap {
    (n: nat) => Iterate(w, n)
  }

  /** Source and target of every edge whose flow survives the cut. */
  ghost function Links(w: World): set<(nat, nat)> {
    set e | e in w.edges && Flows(w.cut, e) :: (e.from, e.to)
  }

  lemma StepAtSame(w: World, t: TrustMap, t': TrustMap, v: nat)
    requires SourcesAgree(Links(w), t, t', v)
    ensures StepAt(w, t, v) == StepAt(w, t', v)
  {
    forall e | e in w.edges && Flows(w.cut, e) && e.to == v
      ensures Trust(t, e.from) == Trust(t', e.from)
    {
      assert (e.from, v) in Links(w);
    }
    FilterMapSame(w.edges, PickIncoming(w, t, v), PickIncoming(w, t', v));
  }

  lemma IterateIsOrbit(w: World)
    ensures Orbit(StepOf(w), IterateOf(w)) && IterateOf(w)(0) == w.base
  {
  }

  lemma StepIsLocal(w: World)
    ensures Local(Links(w), StepOf(w))
  {
    forall t, t', v | SourcesAgree(Links(w), t, t', v)
      ensures Trust(StepOf(w)(t), v) == Trust(StepOf(w)(t'), v)
    {
      StepTrust(w, t, v);
      StepTrust(w, t', v);
      StepAtSame(w, t, t', v);
    }
  }

  lemma StepIsExtensional(w: World)
    ensures Extensional(StepOf(w))
  {
    forall t, t' | Same(t, t')
      ensures StepOf(w)(t) == StepOf(w)(t')
    {
      forall v ensures StepAt(w, t, v) == StepAt(w, t', v) { StepAtSame(w, t, t', v); }
    }
  }

  lemma StepIsMonotone(w: World)
    ensures Monotone(StepOf(w))
  {
    forall t, t' | AtMost(t, t')
      ensures AtMost(StepOf(w)(t), StepOf(w)(t'))
    {
      StepMonotone(w, t, t');
    }
  }

  lemma BaseIsGrounded(w: World)
    ensures Grounded(Links(w), StepOf(w), w.base)
  {
    forall v: nat | forall u :: (u, v) !in Links(w)
      ensures Trust(w.base, v) == Trust(StepOf(w)(w.base), v)
    {
      StepTrust(w, w.base, v);
      assert forall e :: e in w.edges && Flows(w.cut, e) ==> (e.from, e.to) in Links(w);
      assert v !in FlowTargets(w.edges, w.cut);
    }
  }

  // ---- no oscillation ----

  /** No node that receives support starts above the range that updates are clamped to. */
  ghost predicate SafeTargets(w: World) {
    forall v :: v in FlowTargets(w.edges, w.cut) ==> Trust(w.base, v) <= SAFE_MAX
  }

  lemma FirstStep(w: World, v: nat)
    ensures v !in FlowTargets(w.edges, w.cut) ==> Trust(Step(w, w.base), v) == Trust(w.base, v)
    ensures v in FlowTargets(w.edges, w.cut) && Trust(w.base, v) <= SAFE_MAX ==>
      Trust(w.base, v) <= Trust(Step(w, w.base), v)
    ensures v in FlowTargets(w.edges, w.cut) ==> Trust(Step(w, w.base), v) <= SAFE_MAX
  {
    StepTrust(w, w.base, v);
    BonusMonotone(w, w.base, w.base, v);
  }

  /**
   * Trust never decreases from one iteration to the next, at any node, exactly when no supported node has a
   * base trust above `SAFE_MAX`.
   */
  lemma IteratesClimbIff(w: World)
    ensures SafeTargets(w) <==> forall k: nat :: AtMost(IterateOf(w)(k), IterateOf(w)(k + 1))
  {
    var x := IterateOf(w);
    if SafeTargets(w) {
      FirstClimbs(w);
      IterateIsOrbit(w);
      StepIsMonotone(w);
      forall k: nat ensures AtMost(x(k), x(k + 1)) { Climbs(StepOf(w), x, k); }
    }
    if forall k: nat :: AtMost(x(k), x(k + 1)) {
      assert AtMost(x(0), x(0 + 1));
      FirstClimbs(w);
    }
  }

  lemma FirstClimbs(w: World)
    ensures SafeTargets(w) <==> AtMost(IterateOf(w)(0), IterateOf(w)(1))
  {
    assert IterateOf(w)(1) == Step(w, Iterate(w, 0)) == Step(w, w.base);
    forall v
      ensures Trust(w.base, v) <= Trust(Step(w, w.base), v) <==>
        v !in FlowTargets(w.edges, w.cut) || Trust(w.base, v) <= SAFE_MAX
    {
      FirstStep(w, v);
    }
  }

  /** One supported node with a base trust above the safe range. */
  function OverconfidentWorld(): World {
    World([Edge(0, 1, Supports, 10000)], {}, map[1 := 2_000_000_000], [], [], _ => 0, 3000, 5000)
  }

  /** Its trust falls in the first iteration, from the declared value to the top of the safe range. */
  lemma TrustMayFall()
    ensures Trust(IterateOf(OverconfidentWorld())(1), 1) < Trust(IterateOf(OverconfidentWorld())(0), 1)
  {
    var w := OverconfidentWorld();
    assert w.edges[0] in w.edges && Flows(w.cut, w.edges[0]);
    assert 1 in FlowTargets(w.edges, w.cut);
    assert IterateOf(w)(1) == Step(w, Iterate(w, 0)) == Step(w, w.base);
    FirstStep(w, 1);
  }

  // ---- convergence ----

  /**
   * With no surviving path longer than `d`, the iteration has settled after `d` rounds: every larger budget
   * gives the same trust, it solves `t = t_0 + A t`, and it is the only solution.
   */
  lemma Converges(w: World, d: nat, n: nat)
    requires DepthAtMost(Links(w), d) && n >= d
    ensures Same(IterateOf(w)(n), IterateOf(w)(d))
    ensures Same(IterateOf(w)(n), StepOf(w)(IterateOf(w)(n)))
    ensures forall t :: Same(t, StepOf(w)(t)) ==> Same(t, IterateOf(w)(n))
  {
    IterateIsOrbit(w);
    StepIsLocal(w);
    BaseIsGrounded(w);
    OrbitConverges(Links(w), StepOf(w), IterateOf(w), d, n);
  }

  /** Positions in the rank order strictly drop along a surviving path. */
  lemma {:induction false} PathDrops(w: World, order: seq<nat>, p: seq<nat>, k: nat)
    requires Ranks(w.edges, w.cut, order) && Path(Links(w), p) && 0 < k < |p|
    ensures p[0] in order && p[k] in order && IndexOf(order, p[k]) + k <= IndexOf(order, p[0])
  {
    assert (p[k - 1], p[k]) in Links(w);
    var e :| e in w.edges && Flows(w.cut, e) && (e.from, e.to) == (p[k - 1], p[k]);
    if k > 1 {
      PathDrops(w, order, p, k - 1);
    }
  }

  /** On the cut graph of any edge set the depth is finite, so the iteration always converges. */
  lemma CutGraphIsShallow(w: World)
    requires w.cut == CutPairs(w.edges)
    ensures DepthAtMost(Links(w), |NodeOrder(w.edges)|)
  {
    CycleCutTheorem(w.edges);
    FinishOrderSize(w.edges);
    var order := SearchGraph(w.edges).finished;
    forall p: seq<nat> | Path(Links(w), p)
      ensures |p| <= |NodeOrder(w.edges)| + 1
    {
      if |p| > 1 { PathDrops(w, order, p, |p| - 1); }
    }
  }

  /** Whatever the graph, as many rounds as it has nodes reach the unique solution of `t = t_0 + A t`. */
  lemma ConvergesOnEveryGraph(w: World, n: nat)
    requires w.cut == CutPairs(w.edges) && n >= |NodeOrder(w.edges)|
    ensures Same(IterateOf(w)(n), StepOf(w)(IterateOf(w)(n)))
    ensures forall t :: Same(t, StepOf(w)(t)) ==> Same(t, IterateOf(w)(n))
  {
    CutGraphIsShallow(w);
    Converges(w, |NodeOrder(w.edges)|, n);
  }

  /** The loop may stop at the first iteration that changes nothing: all later ones return the very same map. */
  lemma EarlyBreakIsExact(w: World, n: nat, m: nat)
    requires n < m && forall v :: v in IterateOf(w)(n + 1) ==> Trust(IterateOf(w)(n), v) == IterateOf(w)(n + 1)[v]
    ensures IterateOf(w)(m) == IterateOf(w)(n + 1)
  {
    var x := IterateOf(w);
    IterateIsOrbit(w);
    StepIsExtensional(w);
    assert x(n + 1).Keys == w.base.Keys + FlowTargets(w.edges, w.cut);
    assert x(n).Keys <= x(n + 1).Keys;
    assert Same(x(n), x(n + 1));
    FixedForever(StepOf(w), x, n, m);
  }
}
