/** Trust propagation as functions of the trust map: the support iteration and the contradiction sweep. */
module TrustFlow {
  import opened Numeric
  import opened Bags
  import opened LogOddsAggregation
  import opened Claims
  import opened SupportGraph

  type TrustMap = map<nat, LogOdds>

  /** Everything a propagation reads: `base` is the base trust after temporal decay. */
  datatype World = World(
    edges: seq<Edge>, cut: set<(nat, nat)>, base: TrustMap,
    claims: seq<Claim>, groups: seq<CorrelationGroup>, reputation: nat -> Bps,
    discount: Bps, damping: Bps)

  /** The trust of a node; nodes without an entry are neutral. */
  function Trust(t: TrustMap, v: nat): LogOdds {
    if v in t then t[v] else 0
  }

  /** Only positive trust has a voice. */
  function Voice(x: int): nat {
    Max(x, 0)
  }

  // ---- temporal decay ----

  /** The number of half-lives by which a base trust is shifted down. */
  function DecaySteps(currentTick: nat, tick: nat, halfLife: nat): nat
    requires halfLife > 0
  {
    var age := if currentTick > tick then currentTick - tick else 0;
    Min(age / halfLife, 30)
  }

  function Decayed(claims: seq<Claim>, currentTick: nat, halfLife: nat, v: nat, x: LogOdds): (r: LogOdds) {
    if halfLife > 0 && currentTick > 0 && v < |claims| then
      ShiftRightShrinks(x, DecaySteps(currentTick, claims[v].tick, halfLife));
      ShiftRight(x, DecaySteps(currentTick, claims[v].tick, halfLife))
    else x
  }

  function DecayedBase(base: TrustMap, claims: seq<Claim>, currentTick: nat, halfLife: nat): TrustMap {
    map v | v in base :: Decayed(claims, currentTick, halfLife, v, base[v])
  }

  // ---- pass 1 ----

  function AuthorReputation(w: World, u: nat): Bps {
    if u < |w.claims| then w.reputation(w.claims[u].origin) else 0
  }

  function SourceId(w: World, u: nat): ClaimHash {
    if u < |w.claims| then w.claims[u].id else 0
  }

  function SourceGroup(w: World, u: nat): CorrelationGroup {
    if u < |w.groups| then w.groups[u] else CorrelationGroup(0, false)
  }

  function StrengthFrom(w: World, u: nat): Edge -> int {
    (e: Edge) => if Flows(w.cut, e) && e.from == u then e.strength else 0
  }

  /** The total strength of the flowing edges that leave `u`. */
  function OutStrength(w: World, u: nat): int {
    SumOf(w.edges, StrengthFrom(w, u))
  }

  /** The share of its source's flow that goes through `e`, in basis points. */
  function Share(w: World, e: Edge): int {
    e.strength * 10000 / Max(OutStrength(w, e.from), 1)
  }

  /** What `e` passes on when its source has trust `x`. */
  function Passed(w: World, e: Edge, x: int): int {
    Quot(Quot(Voice(x) * Share(w, e), 10000) * AuthorReputation(w, e.from), 10000)
  }

  function Contribution(w: World, t: TrustMap, e: Edge): LogOdds {
    Clamp(Passed(w, e, Trust(t, e.from)), I32_MIN, I32_MAX)
  }

  function PickIncoming(w: World, t: TrustMap, v: nat): Edge -> Option<Evidence> {
    (e: Edge) =>
      if Flows(w.cut, e) && e.to == v
      then Some(Evidence(Contribution(w, t, e), SourceGroup(w, e.from), SourceId(w, e.from)))
      else None
  }

  /** The support arriving at `v`, in edge order. */
  function Incoming(w: World, t: TrustMap, v: nat): seq<Evidence> {
    FilterMap(w.edges, PickIncoming(w, t, v))
  }

  function Bonus(w: World, t: TrustMap, v: nat): LogOdds {
    Aggregate(Incoming(w, t, v), w.discount, UNASSESSED_DISCOUNT_BPS)
  }

  /** Bayesian update: add and clamp to the safe range. */
  function Update(x: LogOdds, evidence: LogOdds): LogOdds {
    Clamp(x + evidence, SAFE_MIN, SAFE_MAX)
  }

  /** The nodes at which some edge's flow arrives. */
  function FlowTargets(edges: seq<Edge>, cut: set<(nat, nat)>): set<nat> {
    set e | e in edges && Flows(cut, e) :: e.to
  }

  function StepAt(w: World, t: TrustMap, v: nat): LogOdds {
    if v in FlowTargets(w.edges, w.cut) then Update(Trust(w.base, v), Bonus(w, t, v)) else Trust(w.base, v)
  }

  /** One iteration of `t' = t_0 + A t`. */
  function Step(w: World, t: TrustMap): TrustMap {
    map v | v in w.base.Keys + FlowTargets(w.edges, w.cut) :: StepAt(w, t, v)
  }

  function Iterate(w: World, n: nat): TrustMap {
    if n == 0 then w.base else Step(w, Iterate(w, n - 1))
  }

  // ---- pass 2 ----

  function VoiceInto(t: TrustMap, v: nat, contradicting: bool): Edge -> int {
    (e: Edge) =>
      if e.to == v && (if contradicting then e.relation.Contradicts? else Carries(e)) then Voice(Trust(t, e.from))
      else 0
  }

  /** The share of contradicting trust at `v` in basis points, Laplace-smoothed and capped by the damping. */
  function DynamicAlpha(w: World, t: TrustMap, v: nat): int {
    var support := SumOf(w.edges, VoiceInto(t, v, false));
    var contradict := SumOf(w.edges, VoiceInto(t, v, true));
    SumNonNegative(w.edges, VoiceInto(t, v, false));
    SumNonNegative(w.edges, VoiceInto(t, v, true));
    Min(Quot(contradict * 10000, support + contradict + 1), w.damping)
  }

  function RawPenalty(w: World, t: TrustMap, e: Edge): int {
    Quot(Voice(Trust(t, e.from)) * Quot(e.strength * AuthorReputation(w, e.from), 10000), 10000)
  }

  function CappedPenalty(w: World, t: TrustMap, e: Edge): int {
    var raw := Abs(RawPenalty(w, t, e));
    var target := Trust(t, e.to);
    Min(raw, if target > 0 then Quot(target * DynamicAlpha(w, t, e.to), 10000) else raw)
  }

  function PenaltyInto(w: World, t: TrustMap, v: nat): Edge -> int {
    (e: Edge) => if e.relation.Contradicts? && e.to == v then CappedPenalty(w, t, e) else 0
  }

  function TotalPenalty(w: World, t: TrustMap, v: nat): int {
    SumOf(w.edges, PenaltyInto(w, t, v))
  }

  function Contradicted(edges: seq<Edge>): set<nat> {
    set e | e in edges && e.relation.Contradicts? :: e.to
  }

  /** The trust of `v` after subtracting the globally capped penalty, saturating at the bottom of `i32`. */
  function Penalized(trust: LogOdds, total: int, damping: Bps): LogOdds {
    var cap := if trust > 0 then Quot(trust * damping, 10000) else total;
    Clamp(trust - Clamp(Min(total, cap), 0, I32_MAX), I32_MIN, I32_MAX)
  }

  function FinalAt(w: World, t: TrustMap, v: nat): LogOdds {
    if v in Contradicted(w.edges) then Penalized(Trust(t, v), TotalPenalty(w, t, v), w.damping) else Trust(t, v)
  }

  /** The contradiction sweep over the frozen result `t` of pass 1. */
  function Sweep(w: World, t: TrustMap): TrustMap {
    map v | v in t.Keys + Contradicted(w.edges) :: FinalAt(w, t, v)
  }

  /** Both passes. */
  function Propagated(w: World, iterations: nat): TrustMap {
    Sweep(w, Iterate(w, iterations))
  }
}
