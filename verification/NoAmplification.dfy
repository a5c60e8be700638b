/** No topology amplifies trust: a cut argument along the rank order of the surviving edges. */
module NoAmplification {
  import opened Numeric
  import opened Bags
  import opened LogOddsAggregation
  import opened LogOddsBounds
  import opened SupportGraph
  import opened TrustFlow
  import opened TrustFlowLaws

  // ---- a source hands out at most what it has ----

  /** What `e` passes on when its source has trust `x`, if `e` leaves `u` and its flow survives. */
  function PassedFrom(w: World, u: nat, x: int): Edge -> int {
    (e: Edge) => if Flows(w.cut, e) && e.from == u then Passed(w, e, x) else 0
  }

  function ShareFrom(w: World, u: nat): Edge -> int {
    (e: Edge) => if Flows(w.cut, e) && e.from == u then Share(w, e) else 0
  }

  lemma PassedAtMostShare(w: World, e: Edge, x: int)
    ensures 0 <= 10000 * Passed(w, e, x) <= Voice(x) * Share(w, e)
  {
    ShareNonNegative(w, e);
    PassedMonotone(w, e, x, x);
    var a: int := Voice(x) * Share(w, e);
    assert 0 <= a by { Times(0, Share(w, e), Voice(x)); }
    ScaleShrinks(Quot(a, 10000), AuthorReputation(w, e.from));
  }

  lemma {:induction false} SharesSum(edges: seq<Edge>, w: World, u: nat, total: int)
    requires total == Max(OutStrength(w, u), 1)
    ensures SumOf(edges, ShareFrom(w, u)) * total <= 10000 * SumOf(edges, StrengthFrom(w, u))
  {
    if edges != [] {
      var n := |edges| - 1;
      var e := edges[n];
      SharesSum(edges[..n], w, u, total);
      var rest, own: int := SumOf(edges[..n], ShareFrom(w, u)), ShareFrom(w, u)(e);
      DivBounds(e.strength * 10000, total);
      assert own * total <= 10000 * StrengthFrom(w, u)(e);
      assert (rest + own) * total == rest * total + own * total;
    }
  }

  /** The outgoing shares of a source sum to at most 10000 basis points. */
  lemma SharesAtMostWhole(w: World, u: nat)
    ensures SumOf(w.edges, ShareFrom(w, u)) <= 10000
  {
    var total: int := Max(OutStrength(w, u), 1);
    var s := SumOf(w.edges, ShareFrom(w, u));
    SharesSum(w.edges, w, u, total);
    StrengthsNonNegative(w, u);
    if s > 10000 {
      Times(10001, s, total);
    }
  }

  lemma {:induction false} PassedSum(edges: seq<Edge>, w: World, u: nat, x: int)
    ensures 10000 * SumOf(edges, PassedFrom(w, u, x)) <= Voice(x) * SumOf(edges, ShareFrom(w, u))
  {
    if edges != [] {
      var n := |edges| - 1;
      var e := edges[n];
      PassedSum(edges[..n], w, u, x);
      PassedAtMostShare(w, e, x);
      AddScaled(Voice(x), SumOf(edges[..n], PassedFrom(w, u, x)), PassedFrom(w, u, x)(e),
                SumOf(edges[..n], ShareFrom(w, u)), ShareFrom(w, u)(e));
    }
  }

  lemma AddScaled(v: int, p: int, q: int, s: int, t: int)
    requires 10000 * p <= v * s && 10000 * q <= v * t
    ensures 10000 * (p + q) <= v * (s + t)
  {
    assert v * (s + t) == v * s + v * t;
  }

  /** Conservation at a source: its surviving contributions sum to at most its own positive trust. */
  lemma OutflowAtMostVoice(w: World, u: nat, x: int)
    ensures SumOf(w.edges, PassedFrom(w, u, x)) <= Voice(x)
  {
    SharesAtMostWhole(w, u);
    PassedSum(w.edges, w, u, x);
    Times(SumOf(w.edges, ShareFrom(w, u)), 10000, Voice(x));
  }

  // ---- a ceiling for every node, built from the sources down ----

  type Ceiling = map<nat, int>

  function At(c: Ceiling, v: nat): int {
    if v in c then c[v] else 0
  }

  function PassedInto(w: World, c: Ceiling, v: nat): Edge -> int {
    (e: Edge) => if Flows(w.cut, e) && e.to == v then Passed(w, e, At(c, e.from)) else 0
  }

  /** Own positive base plus everything that can arrive. */
  function CeilingAt(w: World, c: Ceiling, v: nat): int {
    Voice(Trust(w.base, v)) + SumOf(w.edges, PassedInto(w, c, v))
  }

  /** The ceilings of `order[i..]`: sources stand last in the order. */
  ghost function Ceilings(w: World, order: seq<nat>, i: nat): Ceiling
    requires i <= |order|
    decreases |order| - i
  {
    if i == |order| then map[]
    else
      var upstream := Ceilings(w, order, i + 1);
      upstream[order[i] := CeilingAt(w, upstream, order[i])]
  }

  lemma {:induction false} CeilingKeys(w: World, order: seq<nat>, i: nat)
    requires i <= |order|
    ensures forall v :: v in Ceilings(w, order, i) <==> v in order[i..]
    decreases |order| - i
  {
    if i < |order| {
      CeilingKeys(w, order, i + 1);
      assert order[i..] == [order[i]] + order[i + 1..];
    }
  }

  /** Ceilings already given stay when further nodes are added. */
  lemma {:induction false} CeilingsStay(w: World, order: seq<nat>, i: nat, j: nat, v: nat)
    requires Distinct(order) && i <= j <= |order| && v in order[j..]
    ensures At(Ceilings(w, order, i), v) == At(Ceilings(w, order, j), v)
    decreases j - i
  {
    if i < j {
      CeilingsStay(w, order, i + 1, j, v);
      CeilingKeys(w, order, i + 1);
      var k :| 0 <= k < |order[j..]| && order[j..][k] == v;
      assert order[j + k] == v;
    }
  }

  /** In the finished ceilings every node's ceiling is its base plus what its sources' ceilings pass on. */
  lemma CeilingsSolve(w: World, order: seq<nat>, i: nat)
    requires Ranks(w.edges, w.cut, order) && i < |order|
    ensures At(Ceilings(w, order, 0), order[i]) == CeilingAt(w, Ceilings(w, order, 0), order[i])
  {
    var all, upstream := Ceilings(w, order, 0), Ceilings(w, order, i + 1);
    var v := order[i];
    assert order[i..][0] == v;
    CeilingsStay(w, order, 0, i, v);
    forall e | e in w.edges
      ensures PassedInto(w, all, v)(e) == PassedInto(w, upstream, v)(e)
    {
      if Flows(w.cut, e) && e.to == v {
        RankedUpstream(w, order, i, e);
        CeilingsStay(w, order, 0, i + 1, e.from);
      }
    }
    SumSame(w.edges, PassedInto(w, all, v), PassedInto(w, upstream, v));
  }

  lemma RankedUpstream(w: World, order: seq<nat>, i: nat, e: Edge)
    requires Ranks(w.edges, w.cut, order) && i < |order| && e in w.edges && Flows(w.cut, e) && e.to == order[i]
    ensures e.from in order[i + 1..]
  {
    var j, k := IndexOf(order, e.from), IndexOf(order, e.to);
    assert k == i;
    assert order[i + 1..][j - i - 1] == e.from;
  }

  // ---- every iterate stays below the ceilings ----

  ghost predicate Under(t: TrustMap, c: Ceiling) {
    forall v :: v in c ==> Voice(Trust(t, v)) <= c[v]
  }

  function ContributionInto(w: World, t: TrustMap, v: nat): Edge -> int {
    (e: Edge) => if Flows(w.cut, e) && e.to == v then Contribution(w, t, e) else 0
  }

  lemma {:induction false} IncomingSupports(w: World, t: TrustMap, v: nat)
    ensures forall e :: e in Incoming(w, t, v) ==> e.weight >= 0
  {
    FilterMapOrigin(w.edges, PickIncoming(w, t, v));
    forall x | x in Incoming(w, t, v)
      ensures x.weight >= 0
    {
      var e :| e in w.edges && PickIncoming(w, t, v)(e) == Some(x);
      PassedMonotone(w, e, Trust(t, e.from), Trust(t, e.from));
    }
  }

  /** The aggregated support of a node is at most the sum of the contributions that arrive. */
  lemma BonusAtMostSum(w: World, t: TrustMap, v: nat)
    ensures 0 <= Bonus(w, t, v) <= SumOf(w.edges, ContributionInto(w, t, v))
  {
    IncomingSupports(w, t, v);
    AggregateAtMostSum(Incoming(w, t, v), w.discount, UNASSESSED_DISCOUNT_BPS);
    SumFilterMap(w.edges, PickIncoming(w, t, v), EvidenceWeight(), ContributionInto(w, t, v));
  }

  lemma ContributionAtMost(w: World, t: TrustMap, e: Edge, x: int)
    requires Voice(Trust(t, e.from)) <= x
    ensures Contribution(w, t, e) <= Passed(w, e, x)
  {
    var y := Trust(t, e.from);
    PassedMonotone(w, e, y, x);
  }

  lemma UpdateVoice(x: LogOdds, b: LogOdds)
    requires b >= 0
    ensures Voice(Update(x, b)) <= Voice(x) + b
  {
  }

  lemma StepUnder(w: World, order: seq<nat>, t: TrustMap, v: nat)
    requires Ranks(w.edges, w.cut, order) && Under(t, Ceilings(w, order, 0)) && v in order
    ensures Voice(StepAt(w, t, v)) <= At(Ceilings(w, order, 0), v)
  {
    var c := Ceilings(w, order, 0);
    CeilingsSolve(w, order, IndexOf(order, v));
    CeilingKeys(w, order, 0);
    assert order[0..] == order;
    forall e | e in w.edges
      ensures ContributionInto(w, t, v)(e) <= PassedInto(w, c, v)(e)
    {
      if Flows(w.cut, e) && e.to == v { ContributionAtMost(w, t, e, c[e.from]); }
    }
    SumBounded(w.edges, ContributionInto(w, t, v), PassedInto(w, c, v));
    BonusAtMostSum(w, t, v);
    UpdateVoice(Trust(w.base, v), Bonus(w, t, v));
  }

  lemma {:induction false} IterateUnder(w: World, order: seq<nat>, k: nat)
    requires Ranks(w.edges, w.cut, order)
    ensures Under(IterateOf(w)(k), Ceilings(w, order, 0))
  {
    var c, x := Ceilings(w, order, 0), IterateOf(w);
    CeilingKeys(w, order, 0);
    assert order[0..] == order;
    IterateIsOrbit(w);
    forall v | v in c
      ensures Voice(Trust(x(k), v)) <= c[v]
    {
      if k == 0 {
        CeilingsSolve(w, order, IndexOf(order, v));
        InflowNonNegative(w, c, v);
      } else {
        IterateUnder(w, order, k - 1);
        assert x(k - 1 + 1) == StepOf(w)(x(k - 1));
        StepTrust(w, x(k - 1), v);
        StepUnder(w, order, x(k - 1), v);
      }
    }
  }

  lemma InflowNonNegative(w: World, c: Ceiling, v: nat)
    ensures 0 <= SumOf(w.edges, PassedInto(w, c, v))
  {
    forall e | e in w.edges
      ensures 0 <= PassedInto(w, c, v)(e)
    {
      PassedMonotone(w, e, At(c, e.from), At(c, e.from));
    }
    SumNonNegative(w.edges, PassedInto(w, c, v));
  }

  // ---- the cut ----

  /** Flow across the frontier: from a node of `order[i..]` to a node not among them. */
  ghost function Crossing(w: World, order: seq<nat>, i: nat): Edge -> int
    requires i <= |order|
  {
    (e: Edge) => if Flows(w.cut, e) && e.from in order[i..] && e.to !in order[i..]
                 then Passed(w, e, At(Ceilings(w, order, 0), e.from)) else 0
  }

  /** The positive base trust of the nodes of `order[i..]`. */
  ghost function BaseFrom(w: World, order: seq<nat>, i: nat): int
    requires i <= |order|
    decreases |order| - i
  {
    if i == |order| then 0 else BaseFrom(w, order, i + 1) + Voice(Trust(w.base, order[i]))
  }

  /** Moving one node upstream trades its inflow for its outflow. */
  lemma ExchangeAt(w: World, order: seq<nat>, i: nat, e: Edge)
    requires Ranks(w.edges, w.cut, order) && i < |order| && e in w.edges
    ensures var c := Ceilings(w, order, 0);
            Crossing(w, order, i)(e) + PassedInto(w, c, order[i])(e)
            <= Crossing(w, order, i + 1)(e) + PassedFrom(w, order[i], At(c, order[i]))(e)
  {
    var c, v := Ceilings(w, order, 0), order[i];
    PassedMonotone(w, e, At(c, e.from), At(c, e.from));
    Behind(order, i);
    if Flows(w.cut, e) {
      if e.to == v {
        RankedUpstream(w, order, i, e);
      }
    }
  }

  lemma Behind(order: seq<nat>, i: nat)
    requires Distinct(order) && i < |order|
    ensures forall x :: x in order[i..] <==> x == order[i] || x in order[i + 1..]
    ensures order[i] !in order[i + 1..]
  {
    assert order[i..] == [order[i]] + order[i + 1..];
  }

  /** At every frontier the crossing flow, and hence every ceiling downstream of it, is within the base behind it. */
  lemma {:induction false} CutBound(w: World, order: seq<nat>, i: nat)
    requires Ranks(w.edges, w.cut, order) && i <= |order|
    ensures SumOf(w.edges, Crossing(w, order, i)) <= BaseFrom(w, order, i)
    ensures forall j :: i <= j < |order| ==> At(Ceilings(w, order, 0), order[j]) <= BaseFrom(w, order, i)
    decreases |order| - i
  {
    var c := Ceilings(w, order, 0);
    if i == |order| {
      SumSame(w.edges, Crossing(w, order, i), (e: Edge) => 0);
      SumVanishes(w.edges, (e: Edge) => 0);
    } else {
      var v := order[i];
      CutBound(w, order, i + 1);
      forall e | e in w.edges
        ensures Crossing(w, order, i)(e) + PassedInto(w, c, v)(e)
                <= Crossing(w, order, i + 1)(e) + PassedFrom(w, v, At(c, v))(e)
        ensures PassedInto(w, c, v)(e) <= Crossing(w, order, i + 1)(e)
      {
        ExchangeAt(w, order, i, e);
        InflowCrosses(w, order, i, e);
      }
      SumExchange(w.edges, Crossing(w, order, i), PassedInto(w, c, v), Crossing(w, order, i + 1),
                  PassedFrom(w, v, At(c, v)));
      SumBounded(w.edges, PassedInto(w, c, v), Crossing(w, order, i + 1));
      CeilingsSolve(w, order, i);
      InflowNonNegative(w, c, v);
      OutflowAtMostVoice(w, v, At(c, v));
    }
  }

  lemma InflowCrosses(w: World, order: seq<nat>, i: nat, e: Edge)
    requires Ranks(w.edges, w.cut, order) && i < |order| && e in w.edges
    ensures PassedInto(w, Ceilings(w, order, 0), order[i])(e) <= Crossing(w, order, i + 1)(e)
  {
    var c := Ceilings(w, order, 0);
    PassedMonotone(w, e, At(c, e.from), At(c, e.from));
    if Flows(w.cut, e) && e.to == order[i] {
      RankedUpstream(w, order, i, e);
      Behind(order, i);
    }
  }

  // ---- the total mass ----

  /** The sum over all nodes below `n` of their positive base trust. */
  function Mass(base: TrustMap, n: nat): nat {
    if n == 0 then 0 else Mass(base, n - 1) + Voice(Trust(base, n - 1))
  }

  /** Distinct nodes hold no more base trust than all nodes. */
  lemma {:induction false} MassHolds(w: World, s: seq<nat>, n: nat)
    requires Distinct(s) && forall v :: v in w.base ==> v < n
    ensures BaseFrom(w, s, 0) <= Mass(w.base, n)
  {
    MassBelow(w.base, s, n);
    BaseFromIs(w, s, 0);
    assert s[0..] == s;
  }

  function VoiceOf(base: TrustMap): nat -> int {
    (v: nat) => Voice(Trust(base, v))
  }

  function VoiceBelow(base: TrustMap, n: nat): nat -> int {
    (v: nat) => if v < n then Voice(Trust(base, v)) else 0
  }

  lemma {:induction false} BaseFromIs(w: World, s: seq<nat>, i: nat)
    requires i <= |s|
    ensures BaseFrom(w, s, i) == SumOf(s[i..], VoiceOf(w.base))
    decreases |s| - i
  {
    if i < |s| {
      BaseFromIs(w, s, i + 1);
      assert s[i..] == [s[i]] + s[i + 1..];
      SumConcat([s[i]], s[i + 1..], VoiceOf(w.base));
      SumSingle(s[i], VoiceOf(w.base));
    }
  }

  lemma MassBelow(base: TrustMap, s: seq<nat>, n: nat)
    requires Distinct(s) && forall v :: v in base ==> v < n
    ensures SumOf(s, VoiceOf(base)) <= Mass(base, n)
  {
    SumSame(s, VoiceOf(base), VoiceBelow(base, n));
    DistinctMass(base, s, n);
  }

  lemma {:induction false} DistinctMass(base: TrustMap, s: seq<nat>, n: nat)
    requires Distinct(s)
    ensures SumOf(s, VoiceBelow(base, n)) <= Mass(base, n)
  {
    if n == 0 {
      SumVanishes(s, VoiceBelow(base, n));
    } else {
      DistinctMass(base, s, n - 1);
      OneMore(base, s, n);
    }
  }

  lemma {:induction false} OneMore(base: TrustMap, s: seq<nat>, n: nat)
    requires Distinct(s) && n > 0
    ensures SumOf(s, VoiceBelow(base, n)) <=
            SumOf(s, VoiceBelow(base, n - 1)) + if n - 1 in s then Voice(Trust(base, n - 1)) else 0
  {
    if s != [] {
      var a, z := s[..|s| - 1], s[|s| - 1];
      OneMore(base, a, n);
      assert forall x :: x in s <==> x in a || x == z;
      assert z !in a;
    }
  }

  lemma {:induction false} MassHoldsEach(base: TrustMap, v: nat, n: nat)
    requires v < n
    ensures Voice(Trust(base, v)) <= Mass(base, n)
  {
    if v < n - 1 { MassHoldsEach(base, v, n - 1); }
  }

  /**
   * For every graph, every node and every number of iterations, the pass 1 trust is at most the sum over all
   * claims of their positive base trust: diamonds, parallel edges and support cycles included.
   */
  lemma TrustIsNeverAmplified(w: World, k: nat, v: nat, n: nat)
    requires w.cut == CutPairs(w.edges) && forall u :: u in w.base ==> u < n
    ensures Trust(IterateOf(w)(k), v) <= Mass(w.base, n)
  {
    CycleCutTheorem(w.edges);
    var order := SearchGraph(w.edges).finished;
    if v in order {
      IterateUnder(w, order, k);
      CeilingKeys(w, order, 0);
      assert order[0..] == order;
      CutBound(w, order, 0);
      assert order[IndexOf(order, v)] == v;
      MassHolds(w, order, n);
    } else {
      Unsupported(w, k, v);
      if v < n { MassHoldsEach(w.base, v, n); }
    }
  }

  lemma Unsupported(w: World, k: nat, v: nat)
    requires v !in FlowTargets(w.edges, w.cut)
    ensures Trust(IterateOf(w)(k), v) == Trust(w.base, v)
  {
    if k > 0 { StepTrust(w, Iterate(w, k - 1), v); }
  }
}
