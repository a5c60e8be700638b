/** How much contradictions take, exactly: the contradicting share, the cap, and how both voices move the result. */
module ContradictionExact {
  import opened Numeric
  import opened Bags
  import opened SupportGraph
  import opened TrustFlow
  import opened ContradictionSafety

  // ---- the two voices at a node ----

  /** The summed positive trust of the edges that support `v`. */
  function SupportVoice(w: World, t: TrustMap, v: nat): int {
    SumOf(w.edges, (e: Edge) =>
      if e.to == v && (e.relation.Supports? || e.relation.DerivedFrom?) then Max(Trust(t, e.from), 0) else 0)
  }

  /** The summed positive trust of the edges that contradict `v`. */
  function ContraVoice(w: World, t: TrustMap, v: nat): int {
    SumOf(w.edges, (e: Edge) => if e.to == v && e.relation.Contradicts? then Max(Trust(t, e.from), 0) else 0)
  }

  lemma VoicesNonNegative(w: World, t: TrustMap, v: nat)
    ensures SupportVoice(w, t, v) >= 0 && ContraVoice(w, t, v) >= 0
  {
    SumNonNegative(w.edges, (e: Edge) =>
      if e.to == v && (e.relation.Supports? || e.relation.DerivedFrom?) then Max(Trust(t, e.from), 0) else 0);
    SumNonNegative(w.edges, (e: Edge) => if e.to == v && e.relation.Contradicts? then Max(Trust(t, e.from), 0) else 0);
  }

  /** The dynamic damping is the contradicting share of all voices plus one, rounded down, and capped. */
  lemma AlphaIs(w: World, t: TrustMap, v: nat)
    ensures var p, c := SupportVoice(w, t, v), ContraVoice(w, t, v);
      && p >= 0 && c >= 0 && DynamicAlpha(w, t, v) == Min(c * 10000 / (p + c + 1), w.damping)
  {
    VoicesNonNegative(w, t, v);
    SumSame(w.edges, VoiceInto(t, v, false), (e: Edge) =>
      if e.to == v && (e.relation.Supports? || e.relation.DerivedFrom?) then Max(Trust(t, e.from), 0) else 0);
    SumSame(w.edges, VoiceInto(t, v, true),
            (e: Edge) => if e.to == v && e.relation.Contradicts? then Max(Trust(t, e.from), 0) else 0);
  }

  // ---- what one edge takes ----

  function Reputed(w: World, u: nat): nat {
    if u < |w.claims| then w.reputation(w.claims[u].origin) else 0
  }

  /** The uncapped penalty of an edge is trust times strength times reputation, two roundings below. */
  lemma RawPenaltyIs(w: World, t: TrustMap, e: Edge)
    ensures var x, rho := Max(Trust(t, e.from), 0), Reputed(w, e.from);
      0 <= x * (e.strength * rho) - 100_000_000 * RawPenalty(w, t, e) < 10000 * x + 100_000_000
  {
    var x, rho := Max(Trust(t, e.from), 0), Reputed(w, e.from);
    Times(0, rho, e.strength);
    var q := e.strength * rho / 10000;
    DivBounds(e.strength * rho, 10000);
    Times(0, q, x);
    DivBounds(x * q, 10000);
    Times(10000 * q, e.strength * rho, x);
    Times(e.strength * rho, 10000 * q + 10000, x);
    assert x * (10000 * q + 10000) == 10000 * (x * q) + 10000 * x;
    assert x * (10000 * q) == 10000 * (x * q);
  }

  lemma AlphaScaled(t: nat, c: nat, n: nat, alpha: nat)
    requires n > 0 && alpha <= c * 10000 / n
    ensures t * alpha / 10000 * n <= t * c
  {
    DivBounds(c * 10000, n);
    Times(alpha, c * 10000 / n, n);
    Times(n * alpha, c * 10000, t);
    Times(0, alpha, t);
    DivBounds(t * alpha, 10000);
    Times(10000 * (t * alpha / 10000), t * alpha, n);
    assert n * (t * alpha) == t * (n * alpha);
    assert t * (c * 10000) == 10000 * (t * c);
  }

  /** A contradicting edge takes at most the contradicting share of a positive trust. */
  lemma EdgeTakesAtMost(w: World, t: TrustMap, e: Edge)
    requires Trust(t, e.to) > 0
    ensures var p, c := SupportVoice(w, t, e.to), ContraVoice(w, t, e.to);
      p >= 0 && c >= 0 && 0 <= CappedPenalty(w, t, e) && CappedPenalty(w, t, e) * (p + c + 1) <= Trust(t, e.to) * c
  {
    var p, c, x: nat := SupportVoice(w, t, e.to), ContraVoice(w, t, e.to), Trust(t, e.to);
    AlphaIs(w, t, e.to);
    AlphaWithinDamping(w, t, e.to);
    PenaltyNonNegative(w, t, e);
    var alpha: nat := DynamicAlpha(w, t, e.to);
    AlphaScaled(x, c, p + c + 1, alpha);
    Times(0, alpha, x);
    Times(CappedPenalty(w, t, e), x * alpha / 10000, p + c + 1);
  }

  /** The number of edges that contradict `v`. */
  function Contradictions(edges: seq<Edge>, v: nat): nat {
    if edges == [] then 0
    else
      var e := edges[|edges| - 1];
      Contradictions(edges[..|edges| - 1], v) + if e.relation.Contradicts? && e.to == v then 1 else 0
  }

  lemma AddTaken(s: int, q: int, m: int, k: int, x: int)
    requires s * m <= k * x && q * m <= x
    ensures (s + q) * m <= (k + 1) * x
  {
    assert (s + q) * m == s * m + q * m;
    assert (k + 1) * x == k * x + x;
  }

  lemma {:induction false} TotalTakesAtMost(w: World, t: TrustMap, v: nat, edges: seq<Edge>)
    requires Trust(t, v) > 0
    ensures var p, c := SupportVoice(w, t, v), ContraVoice(w, t, v);
      SumOf(edges, PenaltyInto(w, t, v)) * (p + c + 1) <= Contradictions(edges, v) * (Trust(t, v) * c)
  {
    if edges != [] {
      var n := |edges| - 1;
      var e := edges[n];
      TotalTakesAtMost(w, t, v, edges[..n]);
      VoicesNonNegative(w, t, v);
      var m, x := SupportVoice(w, t, v) + ContraVoice(w, t, v) + 1, Trust(t, v) * ContraVoice(w, t, v);
      var s := SumOf(edges[..n], PenaltyInto(w, t, v));
      if e.relation.Contradicts? && e.to == v {
        EdgeTakesAtMost(w, t, e);
        AddTaken(s, CappedPenalty(w, t, e), m, Contradictions(edges[..n], v), x);
      }
    }
  }

  /**
   * Contradicting edges take from a positive trust at most their number times its contradicting share; in particular
   * a single one takes at most `t * C / (P + C + 1)`.
   */
  lemma ContradictionsTakeAtMost(w: World, t: TrustMap, v: nat)
    requires Trust(t, v) > 0
    ensures var p, c := SupportVoice(w, t, v), ContraVoice(w, t, v);
      (Trust(t, v) - Trust(Sweep(w, t), v)) * (p + c + 1) <= Contradictions(w.edges, v) * (Trust(t, v) * c)
  {
    TotalTakesAtMost(w, t, v, w.edges);
    TotalNonNegative(w, t, v);
    VoicesNonNegative(w, t, v);
    var m := SupportVoice(w, t, v) + ContraVoice(w, t, v) + 1;
    var loss: int := Trust(t, v) - Trust(Sweep(w, t), v);
    LossWithinTotal(w, t, v);
    if v in Contradicted(w.edges) {
      Times(loss, TotalPenalty(w, t, v), m);
    } else {
      Times(0, SumOf(w.edges, PenaltyInto(w, t, v)), m);
    }
  }

  lemma LossWithinTotal(w: World, t: TrustMap, v: nat)
    requires Trust(t, v) > 0
    ensures Trust(t, v) - Trust(Sweep(w, t), v) <= TotalPenalty(w, t, v)
    ensures v !in Contradicted(w.edges) ==> Trust(t, v) == Trust(Sweep(w, t), v)
  {
    TotalNonNegative(w, t, v);
    ScaleShrinks(Trust(t, v), w.damping);
  }

  // ---- when the cap is reached ----

  lemma {:induction false} OnePenaltyCounts(w: World, t: TrustMap, e: Edge, edges: seq<Edge>)
    requires e in edges && e.relation.Contradicts?
    ensures CappedPenalty(w, t, e) <= SumOf(edges, PenaltyInto(w, t, e.to))
  {
    var n := |edges| - 1;
    forall d | d in edges[..n] ensures 0 <= PenaltyInto(w, t, e.to)(d) { PenaltyNonNegative(w, t, d); }
    SumNonNegative(edges[..n], PenaltyInto(w, t, e.to));
    PenaltyNonNegative(w, t, edges[n]);
    if e != edges[n] { OnePenaltyCounts(w, t, e, edges[..n]); }
  }

  /** The contradictor's weighted trust covers what the damping allows to be taken. */
  ghost predicate Covers(w: World, t: TrustMap, e: Edge) {
    Max(Trust(t, e.from), 0) * (e.strength * Reputed(w, e.from) / 10000) >= Trust(t, e.to) * w.damping
  }

  /**
   * If the contradicting share reaches the damping and one contradictor covers it, exactly the damping's share of a
   * positive trust is taken.
   */
  lemma FullDampingIsTaken(w: World, t: TrustMap, e: Edge)
    requires e in w.edges && e.relation.Contradicts? && Trust(t, e.to) > 0 && Covers(w, t, e)
    requires var p, c := SupportVoice(w, t, e.to), ContraVoice(w, t, e.to); c * 10000 >= w.damping * (p + c + 1)
    ensures Trust(Sweep(w, t), e.to) == Trust(t, e.to) - Trust(t, e.to) * w.damping / 10000
  {
    var x: nat := Trust(t, e.to);
    AlphaIs(w, t, e.to);
    var p, c := SupportVoice(w, t, e.to), ContraVoice(w, t, e.to);
    ReachesDamping(c, p + c + 1, w.damping);
    assert DynamicAlpha(w, t, e.to) == w.damping;
    CoveredCap(w, t, e);
    OnePenaltyCounts(w, t, e, w.edges);
    assert e.to in Contradicted(w.edges);
    Times(0, w.damping, x);
    ScaleShrinks(x, w.damping);
  }

  /**
   * Below the damping, a contradictor that covers it takes the contradicting share of a positive trust, up to two
   * roundings.
   */
  lemma ShareIsTaken(w: World, t: TrustMap, e: Edge)
    requires e in w.edges && e.relation.Contradicts? && Trust(t, e.to) > 0 && Covers(w, t, e)
    ensures var n := SupportVoice(w, t, e.to) + ContraVoice(w, t, e.to) + 1;
      n * w.damping > ContraVoice(w, t, e.to) * 10000 ==>
        n * (10000 * (Trust(t, e.to) - Trust(Sweep(w, t), e.to) + 1) + Trust(t, e.to)) >
        Trust(t, e.to) * (10000 * ContraVoice(w, t, e.to))
  {
    var x: nat := Trust(t, e.to);
    AlphaIs(w, t, e.to);
    AlphaWithinDamping(w, t, e.to);
    var c, n, alpha: nat := ContraVoice(w, t, e.to), SupportVoice(w, t, e.to) + ContraVoice(w, t, e.to) + 1,
                            DynamicAlpha(w, t, e.to);
    DivBounds(c * 10000, n);
    if n * w.damping > c * 10000 {
      BelowDamping(c, n, w.damping);
      CoveredCap(w, t, e);
      OnePenaltyCounts(w, t, e, w.edges);
      assert e.to in Contradicted(w.edges);
      AlphaGrows(x, alpha, w.damping);
      ScaleShrinks(x, w.damping);
      TakenShare(x, c, n, alpha, x - Trust(Sweep(w, t), e.to));
    }
  }

  lemma BelowDamping(c: nat, n: nat, damping: nat)
    requires n > 0 && n * damping > c * 10000
    ensures c * 10000 / n <= damping
  {
    DivBounds(c * 10000, n);
    QuotientOrder(n, c * 10000 / n, damping, c * 10000, n * damping);
  }

  lemma TakenShare(x: nat, c: nat, n: nat, alpha: nat, loss: int)
    requires x > 0 && n > 0 && c * 10000 < n * alpha + n && x * alpha / 10000 <= loss
    ensures n * (10000 * (loss + 1) + x) > x * (10000 * c)
  {
    Times(0, alpha, x);
    DivBounds(x * alpha, 10000);
    TakenLoss(x * alpha, n, 10000 * (loss + 1));
    TakenVoice(x, c, n, alpha);
    assert n * (10000 * (loss + 1) + x) == n * (10000 * (loss + 1)) + n * x;
  }

  lemma TakenLoss(y: nat, n: nat, z: int)
    requires n > 0 && y < z
    ensures n * y + n <= n * z
  {
    Times(y + 1, z, n);
    assert n * (y + 1) == n * y + n;
  }

  lemma TakenVoice(x: nat, c: nat, n: nat, alpha: nat)
    requires x > 0 && c * 10000 < n * alpha + n
    ensures x * (10000 * c) < n * (x * alpha) + n * x
  {
    Times(c * 10000 + 1, n * alpha + n, x);
    assert x * (c * 10000 + 1) == x * (10000 * c) + x;
    assert x * (n * alpha + n) == x * (n * alpha) + x * n;
    assert x * (n * alpha) == n * (x * alpha);
  }

  lemma ReachesDamping(c: nat, n: nat, damping: nat)
    requires n > 0 && c * 10000 >= damping * n
    ensures c * 10000 / n >= damping
  {
    DivBounds(c * 10000, n);
    QuotientOrder(n, damping, c * 10000 / n, c * 10000, c * 10000);
  }

  lemma CoveredCap(w: World, t: TrustMap, e: Edge)
    requires Trust(t, e.to) > 0 && Covers(w, t, e)
    ensures RawPenalty(w, t, e) >= Trust(t, e.to) * w.damping / 10000 >= 0
  {
    Times(0, w.damping, Trust(t, e.to));
    Times(0, Reputed(w, e.from), e.strength);
    DivMonotone(Trust(t, e.to) * w.damping,
                Max(Trust(t, e.from), 0) * (e.strength * Reputed(w, e.from) / 10000), 10000);
  }

  // ---- moving the voices ----

  lemma Cancel(m: nat, x: int, y: int)
    requires m > 0 && m * x <= m * y
    ensures x <= y
  {
    assert m * (y + 1) == m * y + m;
    if x > y { Times(y + 1, x, m); }
  }

  lemma DivCross(a: nat, m: nat, b: nat, n: nat)
    requires m > 0 && n > 0 && a * n <= b * m
    ensures a / m <= b / n
  {
    var q := a / m;
    DivBounds(a, m);
    DivBounds(b, n);
    Times(m * q, a, n);
    assert n * (m * q) == m * (n * q) && b * m == m * b && a * n == n * a;
    Cancel(m, n * q, b);
    QuotientOrder(n, q, b / n, n * q, b);
  }

  lemma ShareMonotone(p: nat, c: nat, p': nat, c': nat)
    requires p <= p' && c' <= c
    ensures c' * 10000 / (p' + c' + 1) <= c * 10000 / (p + c + 1)
  {
    CrossShares(p, c, p', c');
    DivCross(c' * 10000, p' + c' + 1, c * 10000, p + c + 1);
  }

  lemma CrossShares(p: nat, c: nat, p': nat, c': nat)
    requires p <= p' && c' <= c
    ensures (c' * 10000) * (p + c + 1) <= (c * 10000) * (p' + c' + 1)
  {
    Times(p, p', c);
    Times(c', c, p);
    assert c' * (p + c + 1) == c' * p + c' * c + c';
    assert c * (p' + c' + 1) == c * p' + c * c' + c;
    assert (c' * 10000) * (p + c + 1) == 10000 * (c' * (p + c + 1));
    assert (c * 10000) * (p' + c' + 1) == 10000 * (c * (p' + c' + 1));
  }

  /** `t'` has the same trust at `v`, its supporters no quieter and its contradictors no louder. */
  ghost predicate Kinder(w: World, t: TrustMap, t': TrustMap, v: nat) {
    && Trust(t', v) == Trust(t, v)
    && forall e :: e in w.edges && e.to == v ==> KinderEdge(t, t', e)
  }

  ghost predicate KinderEdge(t: TrustMap, t': TrustMap, e: Edge) {
    var x, x' := Max(Trust(t, e.from), 0), Max(Trust(t', e.from), 0);
    && (e.relation.Supports? || e.relation.DerivedFrom? ==> x <= x')
    && (e.relation.Contradicts? ==> x' <= x)
  }

  lemma KinderVoices(w: World, t: TrustMap, t': TrustMap, v: nat)
    requires Kinder(w, t, t', v)
    ensures SupportVoice(w, t, v) <= SupportVoice(w, t', v) && ContraVoice(w, t', v) <= ContraVoice(w, t, v)
  {
    var f := (e: Edge) =>
      if e.to == v && (e.relation.Supports? || e.relation.DerivedFrom?) then Max(Trust(t, e.from), 0) else 0;
    var f' := (e: Edge) =>
      if e.to == v && (e.relation.Supports? || e.relation.DerivedFrom?) then Max(Trust(t', e.from), 0) else 0;
    var g := (e: Edge) => if e.to == v && e.relation.Contradicts? then Max(Trust(t, e.from), 0) else 0;
    var g' := (e: Edge) => if e.to == v && e.relation.Contradicts? then Max(Trust(t', e.from), 0) else 0;
    forall e | e in w.edges
      ensures f(e) <= f'(e) && g'(e) <= g(e)
    {
      if e.to == v { assert KinderEdge(t, t', e); }
    }
    SumBounded(w.edges, f, f');
    SumBounded(w.edges, g', g);
  }

  lemma KinderPenalty(w: World, t: TrustMap, t': TrustMap, e: Edge)
    requires e in w.edges && e.relation.Contradicts? && Kinder(w, t, t', e.to)
    ensures CappedPenalty(w, t', e) <= CappedPenalty(w, t, e)
  {
    var v := e.to;
    assert KinderEdge(t, t', e);
    KinderVoices(w, t, t', v);
    AlphaIs(w, t, v);
    AlphaIs(w, t', v);
    ShareMonotone(SupportVoice(w, t, v), ContraVoice(w, t, v), SupportVoice(w, t', v), ContraVoice(w, t', v));
    Times(0, AuthorReputation(w, e.from), e.strength);
    var reach := Quot(e.strength * AuthorReputation(w, e.from), 10000);
    ScaleMonotone(Voice(Trust(t', e.from)), Voice(Trust(t, e.from)), reach);
    if Trust(t, v) > 0 {
      AlphaWithinDamping(w, t', v);
      AlphaGrows(Trust(t, v), DynamicAlpha(w, t', v), DynamicAlpha(w, t, v));
    }
  }

  lemma AlphaGrows(x: nat, a: int, b: int)
    requires 0 <= a <= b
    ensures 0 <= Quot(x * a, 10000) <= Quot(x * b, 10000)
  {
    Times(0, a, x);
    Times(a, b, x);
    DivMonotone(x * a, x * b, 10000);
  }

  lemma PenalizedAntitone(trust: LogOdds, a: int, b: int, damping: Bps)
    requires 0 <= a <= b
    ensures Penalized(trust, b, damping) <= Penalized(trust, a, damping)
  {
    if trust > 0 { ScaleShrinks(trust, damping); }
  }

  /** Louder supporters never lower the final trust, and louder contradictors never raise it. */
  lemma LouderVoices(w: World, t: TrustMap, t': TrustMap, v: nat)
    requires Kinder(w, t, t', v)
    ensures Trust(Sweep(w, t), v) <= Trust(Sweep(w, t'), v)
  {
    forall e | e in w.edges
      ensures PenaltyInto(w, t', v)(e) <= PenaltyInto(w, t, v)(e)
    {
      if e.relation.Contradicts? && e.to == v { KinderPenalty(w, t, t', e); }
    }
    SumBounded(w.edges, PenaltyInto(w, t', v), PenaltyInto(w, t, v));
    TotalNonNegative(w, t', v);
    PenalizedAntitone(Trust(t, v), TotalPenalty(w, t', v), TotalPenalty(w, t, v), w.damping);
  }
}
