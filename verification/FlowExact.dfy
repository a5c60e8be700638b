/** How much support an edge passes on and what arrives at its target, exactly. */
module FlowExact {
  import opened Numeric
  import opened Bags
  import opened LogOddsAggregation
  import opened SupportGraph
  import opened TrustFlow
  import opened TrustFlowLaws
  import opened AggregateExact

  // ---- one edge ----

  /** Three roundings down, each by less than one unit. */
  lemma ThreeRoundings(x: nat, s: nat, total: nat, rho: Bps, share: nat, a: nat, c: nat)
    requires total > 0
    requires total * share <= 10000 * s < total * share + total
    requires 10000 * a <= x * share < 10000 * a + 10000
    requires 10000 * c <= a * rho < 10000 * c + 10000
    ensures 0 <= x * s * rho - 10000 * total * c < total * (x + 20000)
  {
    RoundedBelow(x, s, total, rho, share, a, c);
    RoundedAbove(x, s, total, rho, share, a, c);
  }

  lemma Product3(a: int, b: int, c: int)
    ensures a * b * c == a * (b * c) == b * (a * c) == c * (a * b)
  {
  }

  lemma RoundedBelow(x: nat, s: nat, total: nat, rho: nat, share: nat, a: nat, c: nat)
    requires total * share <= 10000 * s && 10000 * a <= x * share && 10000 * c <= a * rho
    ensures 10000 * total * c <= x * s * rho
  {
    var q := rho * total;
    Times(10000 * c, a * rho, total);
    assert total * (10000 * c) == 10000 * total * c;
    Times(10000 * a, x * share, q);
    Times(total * share, 10000 * s, x * rho);
    calc {
      10000 * (total * (a * rho));
      { Product3(total, a, rho); Product3(a, rho, total); }
      q * (10000 * a);
      <=
      q * (x * share);
      { Product3(rho, total, x * share); Product3(total, x, share); Product3(rho, x, total * share); }
      x * rho * (total * share);
      <=
      x * rho * (10000 * s);
      { Product3(x, rho, 10000 * s); Product3(x, s, rho); }
      10000 * (x * s * rho);
    }
  }

  lemma RoundedAbove(x: nat, s: nat, total: nat, rho: Bps, share: nat, a: nat, c: nat)
    requires total > 0
    requires 10000 * s <= total * share + total && x * share <= 10000 * a + 9999 && a * rho <= 10000 * c + 9999
    ensures x * s * rho < 10000 * total * c + total * (x + 20000)
  {
    ShareRoundedAbove(x, s, total, rho, share);
    VoiceRoundedAbove(x * share, a, rho * total);
    Product3(rho, total, a);
    Product3(total, a, rho);
    VoiceRoundedAbove(a * rho, c, total);
    Times(rho, 10000, total);
    Times(rho, 10000, x * total);
    Distribute3(total, x, 20000);
    Product3(10000, total, c);
    AddUp(x * s * rho, rho * total * (x * share), rho * (x * total), total * (a * rho), rho * total, total * c,
          x * total, total);
  }

  /** The chain of bounds, once the products are taken as given. */
  lemma AddUp(f: int, g: int, h: int, k: int, q: int, m: int, y: int, total: int)
    requires 10000 * f <= g + h && g <= 10000 * k + 9999 * q && k <= 10000 * m + 9999 * total
    requires q <= 10000 * total && h <= 10000 * y && total > 0
    ensures f < 10000 * m + y + 20000 * total
  {
  }

  lemma ShareRoundedAbove(x: nat, s: nat, total: nat, rho: nat, share: nat)
    requires 10000 * s <= total * share + total
    ensures 10000 * (x * s * rho) <= rho * total * (x * share) + rho * (x * total)
  {
    Times(10000 * s, total * share + total, x * rho);
    Product3(x, rho, 10000 * s);
    Product3(x, s, rho);
    Distribute3(x * rho, total * share, total);
    Product3(rho, total, x * share);
    Product3(total, x, share);
    Product3(rho, x, total * share);
    Product3(x, rho, total);
  }

  lemma VoiceRoundedAbove(y: nat, a: nat, q: nat)
    requires y <= 10000 * a + 9999
    ensures q * y <= 10000 * (q * a) + 9999 * q
  {
    Times(y, 10000 * a + 9999, q);
    Distribute3(q, 10000 * a, 9999);
    assert q * (10000 * a) == 10000 * (q * a);
  }

  lemma Distribute3(a: int, b: int, c: int)
    ensures a * (b + c) == a * b + a * c
  {
  }

  /** An edge of support or of derivation that is not cut. */
  predicate PassesOn(w: World, e: Edge) {
    (e.relation == Supports || e.relation == DerivedFrom) && (e.from, e.to) !in w.cut
  }

  /** The summed strength of the flowing edges that leave `u`. */
  function FlowStrength(w: World, u: nat): int {
    SumOf(w.edges, (d: Edge) => if PassesOn(w, d) && d.from == u then d.strength else 0)
  }

  lemma OutStrengthIs(w: World, u: nat)
    ensures OutStrength(w, u) == FlowStrength(w, u)
  {
    SumSame(w.edges, StrengthFrom(w, u), (d: Edge) => if PassesOn(w, d) && d.from == u then d.strength else 0);
  }

  /** The three divisions of the flow computation on plain numbers. */
  lemma FlowNumbers(v: nat, s: nat, total: nat, rho: Bps)
    requires total > 0
    ensures var share := s * 10000 / total;
      var c := Quot(Quot(v * share, 10000) * rho, 10000);
      0 <= c && 0 <= v * s * rho - 10000 * total * c < total * (v + 20000) && (s <= total ==> c <= v)
  {
    var share := s * 10000 / total;
    DivBounds(s * 10000, total);
    DivMonotone(0, s * 10000, total);
    Times(0, share, v);
    var a := v * share / 10000;
    Times(0, a, rho);
    var c := a * rho / 10000;
    ThreeRoundings(v, s, total, rho, share, a, c);
    if s <= total {
      WholeShare(s, total, share);
      Times(share, 10000, v);
      Times(rho, 10000, a);
    }
  }

  lemma WholeShare(s: nat, total: nat, share: int)
    requires 0 < total && s <= total && total * share <= s * 10000
    ensures share <= 10000
  {
    if share > 10000 { Times(10001, share, total); }
  }

  lemma {:induction false} StrengthWithin(w: World, edges: seq<Edge>, e: Edge)
    requires e in edges && PassesOn(w, e)
    ensures e.strength <= SumOf(edges, StrengthFrom(w, e.from))
  {
    var n := |edges| - 1;
    SumNonNegative(edges[..n], StrengthFrom(w, e.from));
    if e != edges[n] { StrengthWithin(w, edges[..n], e); }
  }

  /**
   * The contribution of a flowing edge is its share of the source's positive trust, scaled by the author's reputation:
   * with `x` the positive trust, `s` of the source's total strength and reputation `rho` it is `x * s/total * rho`
   * basis points, less than three units of rounding below. Sources outside the claim array contribute nothing.
   */
  lemma ContributionIs(w: World, t: TrustMap, e: Edge)
    requires e in w.edges && PassesOn(w, e)
    ensures var x, total, c := Max(Trust(t, e.from), 0), FlowStrength(w, e.from), Contribution(w, t, e);
      if e.from >= |w.claims| || total == 0 then c == 0
      else
        var rho := w.reputation(w.claims[e.from].origin);
        0 <= x * e.strength * rho - 10000 * total * c < total * (x + 20000)
  {
    var x, total := Max(Trust(t, e.from), 0), OutStrength(w, e.from);
    OutStrengthIs(w, e.from);
    StrengthWithin(w, w.edges, e);
    if total > 0 {
      FlowNumbers(x, e.strength, total, AuthorReputation(w, e.from));
    } else {
      assert e.strength == 0;
    }
  }

  // ---- one target ----

  /** None of these edges carries flow from `u`. */
  ghost predicate NoFlowFrom(w: World, edges: seq<Edge>, u: nat) {
    forall d :: d in edges && PassesOn(w, d) ==> d.from != u
  }

  /** None of these edges carries flow to `v`. */
  ghost predicate NoFlowTo(w: World, edges: seq<Edge>, v: nat) {
    forall d :: d in edges && PassesOn(w, d) ==> d.to != v
  }

  /** The author is a fully trusted one of the claim array. */
  ghost predicate FullReputation(w: World, u: nat) {
    u < |w.claims| && w.reputation(w.claims[u].origin) == 10000
  }

  lemma SoleStrength(w: World, a: seq<Edge>, e: Edge, b: seq<Edge>)
    requires w.edges == a + [e] + b && PassesOn(w, e) && NoFlowFrom(w, a, e.from) && NoFlowFrom(w, b, e.from)
    ensures OutStrength(w, e.from) == e.strength
  {
    var f := StrengthFrom(w, e.from);
    SumConcat(a + [e], b, f);
    SumConcat(a, [e], f);
    SumSingle(e, f);
    SumVanishes(a, f);
    SumVanishes(b, f);
  }

  /** The only flowing edge of a fully trusted author passes on the whole positive trust, whatever its strength. */
  lemma WholeVoice(w: World, t: TrustMap, a: seq<Edge>, e: Edge, b: seq<Edge>)
    requires w.edges == a + [e] + b && PassesOn(w, e) && NoFlowFrom(w, a, e.from) && NoFlowFrom(w, b, e.from)
    requires e.strength > 0 && FullReputation(w, e.from)
    ensures Contribution(w, t, e) == Max(Trust(t, e.from), 0)
  {
    SoleStrength(w, a, e, b);
    assert e.strength * 10000 / e.strength == 10000 by { DivExact(e.strength, 10000); }
  }

  lemma DivExact(n: nat, q: nat)
    requires n > 0
    ensures n * q / n == q
  {
    DivBounds(n * q, n);
    QuotientOrder(n, q, n * q / n, n * q, n * q);
    QuotientOrder(n, n * q / n, q, n * q, n * q);
  }

  /** What arrives through `e`: its contribution, under the group and id of its source. */
  function Arrival(w: World, t: TrustMap, e: Edge): Evidence {
    var known := e.from < |w.claims|;
    Evidence(Contribution(w, t, e),
             if e.from < |w.groups| then w.groups[e.from] else CorrelationGroup(0, false),
             if known then w.claims[e.from].id else 0)
  }

  lemma SoleArrival(w: World, t: TrustMap, a: seq<Edge>, e: Edge, b: seq<Edge>)
    requires w.edges == a + [e] + b && PassesOn(w, e) && NoFlowTo(w, a, e.to) && NoFlowTo(w, b, e.to)
    ensures Incoming(w, t, e.to) == [Arrival(w, t, e)] && e.to in FlowTargets(w.edges, w.cut)
  {
    var pick := PickIncoming(w, t, e.to);
    FilterMapNone(a, pick);
    FilterMapNone(b, pick);
    FilterMapSingle(e, pick);
    FilterMapConcat(a + [e], b, pick);
    FilterMapConcat(a, [e], pick);
    assert e in w.edges;
  }

  /** A sole supporter of full reputation, with no other flow, raises its target by its whole voice, up to the clamp. */
  lemma SoleSupporter(w: World, t: TrustMap, a: seq<Edge>, e: Edge, b: seq<Edge>)
    requires w.edges == a + [e] + b && PassesOn(w, e) && e.strength > 0 && FullReputation(w, e.from)
    requires NoFlowFrom(w, a, e.from) && NoFlowFrom(w, b, e.from) && NoFlowTo(w, a, e.to) && NoFlowTo(w, b, e.to)
    ensures var voice: int := Max(Trust(t, e.from), 0);
      Trust(Step(w, t), e.to) == Raised(w, e.to, voice)
  {
    WholeVoice(w, t, a, e, b);
    SoleArrival(w, t, a, e, b);
    OnePieceAggregate(Arrival(w, t, e), w.discount, UNASSESSED_DISCOUNT_BPS);
    StepTrust(w, t, e.to);
  }

  /** Two edges are the only ones with flow to their target, and each the only one with flow from its source. */
  ghost predicate OnlyTwo(w: World, e: Edge, f: Edge, a: seq<Edge>, b: seq<Edge>, c: seq<Edge>) {
    && w.edges == a + [e] + b + [f] + c && e.to == f.to && e.from != f.from && PassesOn(w, e) && PassesOn(w, f)
    && forall s :: s in [a, b, c] ==> NoFlowTo(w, s, e.to) && NoFlowFrom(w, s, e.from) && NoFlowFrom(w, s, f.from)
  }

  lemma FilterMapTwo<T, U>(a: seq<T>, x: T, b: seq<T>, y: T, c: seq<T>, f: T -> Option<U>)
    requires forall s :: s in [a, b, c] ==> forall z :: z in s ==> f(z) == None
    requires f(x).Some? && f(y).Some?
    ensures FilterMap(a + [x] + b + [y] + c, f) == [f(x).value, f(y).value]
  {
    assert a in [a, b, c] && b in [a, b, c] && c in [a, b, c];
    FilterMapNone(a, f);
    FilterMapNone(b, f);
    FilterMapNone(c, f);
    FilterMapSingle(x, f);
    FilterMapSingle(y, f);
    FilterMapConcat(a + [x] + b + [y], c, f);
    FilterMapConcat(a + [x] + b, [y], f);
    FilterMapConcat(a + [x], b, f);
    FilterMapConcat(a, [x], f);
  }

  lemma TwoArrivals(w: World, t: TrustMap, e: Edge, f: Edge, a: seq<Edge>, b: seq<Edge>, c: seq<Edge>)
    requires OnlyTwo(w, e, f, a, b, c)
    ensures Incoming(w, t, e.to) == [Arrival(w, t, e), Arrival(w, t, f)] && e.to in FlowTargets(w.edges, w.cut)
  {
    FilterMapTwo(a, e, b, f, c, PickIncoming(w, t, e.to));
    assert w.edges[|a|] == e;
  }

  lemma TwoVoices(w: World, t: TrustMap, e: Edge, f: Edge, a: seq<Edge>, b: seq<Edge>, c: seq<Edge>)
    requires OnlyTwo(w, e, f, a, b, c) && e.strength > 0 && f.strength > 0
    requires FullReputation(w, e.from) && FullReputation(w, f.from)
    ensures Contribution(w, t, e) == Max(Trust(t, e.from), 0) && Contribution(w, t, f) == Max(Trust(t, f.from), 0)
  {
    assert a in [a, b, c] && b in [a, b, c] && c in [a, b, c];
    assert w.edges == a + [e] + (b + [f] + c);
    assert w.edges == (a + [e] + b) + [f] + c;
    WholeVoice(w, t, a, e, b + [f] + c);
    WholeVoice(w, t, a + [e] + b, f, c);
  }

  /**
   * What two voices are worth together: in one assessed group the weaker is discounted as correlated, unassessed in
   * different groups as unsubstantiated, and in different assessed groups both count in full.
   */
  function PairWorth(g: CorrelationGroup, h: CorrelationGroup, x: int, y: int, d: Bps): Option<int> {
    if g == h && g.assessed then Some(Max(x, y) + Min(x, y) * d / 10000)
    else if g.key != h.key && !g.assessed && !h.assessed then Some(Max(x, y) + Min(x, y) * 8000 / 10000)
    else if g.key != h.key && g.assessed && h.assessed then Some(x + y)
    else None
  }

  lemma PairAggregate(p: Evidence, q: Evidence, d: Bps)
    requires p.weight >= 0 && q.weight >= 0
    ensures var worth := PairWorth(p.group, q.group, p.weight, q.weight, d);
      worth.Some? ==> Aggregate([p, q], d, UNASSESSED_DISCOUNT_BPS) == Clamp(worth.value, SAFE_MIN, SAFE_MAX)
  {
    var u := UNASSESSED_DISCOUNT_BPS;
    if p.group == q.group && p.group.assessed {
      if p.weight >= q.weight {
        TwoInGroupAggregate(p, q, [p, q], d, u);
      } else {
        TwoInGroupAggregate(q, p, [p, q], d, u);
      }
    } else if p.group.key != q.group.key && !p.group.assessed && !q.group.assessed {
      if p.weight >= q.weight {
        TwoLooseAggregate(p, q, d, u);
      } else {
        TwoLooseAggregate(q, p, d, u);
      }
    } else if p.group.key != q.group.key && p.group.assessed && q.group.assessed {
      SolidAggregate([p, q], d, u);
      SumOfTwo(p, q, (x: Evidence) => x.weight);
    }
  }

  /** Two supporters of full reputation raise their target by what their voices are worth together. */
  lemma TwoSupporters(w: World, t: TrustMap, e: Edge, f: Edge, a: seq<Edge>, b: seq<Edge>, c: seq<Edge>)
    requires OnlyTwo(w, e, f, a, b, c) && e.strength > 0 && f.strength > 0
    requires FullReputation(w, e.from) && FullReputation(w, f.from) && e.from < |w.groups| && f.from < |w.groups|
    ensures var x, y := Max(Trust(t, e.from), 0), Max(Trust(t, f.from), 0);
      var worth := PairWorth(w.groups[e.from], w.groups[f.from], x, y, w.discount);
      worth.Some? ==> Trust(Step(w, t), e.to) == Raised(w, e.to, worth.value)
  {
    TwoVoices(w, t, e, f, a, b, c);
    PairAggregate(Arrival(w, t, e), Arrival(w, t, f), w.discount);
    TwoRaise(w, t, e, f, a, b, c);
  }

  lemma TwoRaise(w: World, t: TrustMap, e: Edge, f: Edge, a: seq<Edge>, b: seq<Edge>, c: seq<Edge>)
    requires OnlyTwo(w, e, f, a, b, c)
    ensures var bonus: int := Aggregate([Arrival(w, t, e), Arrival(w, t, f)], w.discount, UNASSESSED_DISCOUNT_BPS);
      Trust(Step(w, t), e.to) == Clamp(Trust(w.base, e.to) + bonus, SAFE_MIN, SAFE_MAX)
  {
    TwoArrivals(w, t, e, f, a, b, c);
    StepTrust(w, t, e.to);
  }

  lemma SumOfTwo<T>(p: T, q: T, f: T -> int)
    ensures SumOf([p, q], f) == f(p) + f(q)
  {
    assert [p, q] == [p] + [q];
    SumConcat([p], [q], f);
    SumSingle(p, f);
    SumSingle(q, f);
  }

  /** The base trust of `v` raised by a bonus, both clamped. */
  function Raised(w: World, v: nat, bonus: int): int {
    Clamp(Trust(w.base, v) + Clamp(bonus, SAFE_MIN, SAFE_MAX), SAFE_MIN, SAFE_MAX)
  }
}
