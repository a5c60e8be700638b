/** Correlation-aware aggregation of evidence: the functions it computes, and the loops that compute them. */
module LogOddsAggregation {
  import opened Numeric
  import opened Bags

  const SAFE_MAX: int := 1_000_000_000
  const SAFE_MIN: int := -1_000_000_000
  const MAX_DISCOUNT_DEPTH: nat := 30
  const DEFAULT_DISCOUNT_BPS: Bps := 3000
  const UNASSESSED_DISCOUNT_BPS: Bps := 8000

  type ClaimHash = nat

  /** A claim's correlation group and whether its independence could be checked. */
  datatype CorrelationGroup = CorrelationGroup(key: nat, assessed: bool)

  datatype Evidence = Evidence(weight: LogOdds, group: CorrelationGroup, id: ClaimHash)

  /** A weight with the id that breaks ties between equal magnitudes. */
  datatype Ranked = Ranked(weight: int, id: ClaimHash)

  // ---- geometric discounting ----

  /** `n` steps of `factor * d / 10000`, starting at 10000. */
  function Decay(n: nat, d: Bps): (f: Bps)
  {
    if n == 0 then 10000
    else
      var previous := Decay(n - 1, d);
      assert 0 <= previous * d <= previous * 10000;
      previous * d / 10000
  }

  function DiscountFactor(rank: nat, d: Bps): Bps {
    Decay(if rank < MAX_DISCOUNT_DEPTH then rank else MAX_DISCOUNT_DEPTH, d)
  }

  method ComputeDiscountFactor(rank: nat, d: Bps) returns (factor: nat)
    ensures factor == DiscountFactor(rank, d)
  {
    factor := 10000;
    var steps := if rank < MAX_DISCOUNT_DEPTH then rank else MAX_DISCOUNT_DEPTH;
    for i := 0 to steps
      invariant factor == Decay(i, d)
    {
      factor := factor * d / 10000;
    }
  }

  // ---- ranking ----

  /** The comparator of both sorts: larger magnitude first, then smaller id. */
  predicate Precedes(a: Ranked, b: Ranked) {
    Abs(a.weight) > Abs(b.weight) || (Abs(a.weight) == Abs(b.weight) && a.id <= b.id)
  }

  function InsertRanked(x: Ranked, s: seq<Ranked>): seq<Ranked> {
    if s == [] || Precedes(x, s[0]) then [x] + s
    else [s[0]] + InsertRanked(x, s[1..])
  }

  /** The stable sort by `Precedes`. */
  function RankSort(s: seq<Ranked>): seq<Ranked> {
    if s == [] then [] else InsertRanked(s[0], RankSort(s[1..]))
  }

  /** Every weight scaled by the discount factor of its rank, added up. */
  function DiscountedSum(ranked: seq<Ranked>, d: Bps): int {
    if ranked == [] then 0
    else
      var rank := |ranked| - 1;
      DiscountedSum(ranked[..rank], d) + Quot(ranked[rank].weight * DiscountFactor(rank, d), 10000)
  }

  // ---- level 1: groups ----

  function PickMember(key: nat): Evidence -> Option<Ranked> {
    (e: Evidence) => if e.group.key == key then Some(Ranked(e.weight, e.id)) else None
  }

  function Members(ev: seq<Evidence>, key: nat): seq<Ranked> {
    FilterMap(ev, PickMember(key))
  }

  predicate AllAssessed(ev: seq<Evidence>, key: nat) {
    forall e :: e in ev && e.group.key == key ==> e.group.assessed
  }

  function LeastId(s: seq<Ranked>): ClaimHash
    requires s != []
  {
    if |s| == 1 then s[0].id
    else
      var m, z := LeastId(s[..|s| - 1]), s[|s| - 1].id;
      if z < m then z else m
  }

  /** The anchor of a group: its least claim id (0 for a key nobody carries). */
  function Anchor(ev: seq<Evidence>, key: nat): ClaimHash {
    var members := Members(ev, key);
    if members == [] then 0 else LeastId(members)
  }

  function GroupTotal(ev: seq<Evidence>, key: nat, d: Bps): int {
    DiscountedSum(RankSort(Members(ev, key)), d)
  }

  /** The keys in use, in `BTreeMap` order. */
  function Keys(ev: seq<Evidence>): (ks: seq<nat>)
    ensures StrictlyAscending(ks)
    ensures forall k :: k in ks <==> exists e :: e in ev && e.group.key == k
  {
    if ev == [] then []
    else
      var a, z := ev[..|ev| - 1], ev[|ev| - 1];
      assert forall e :: e in ev <==> e in a || e == z;
      InsertKey(z.group.key, Keys(a))
  }

  // ---- level 2: across groups ----

  function AssessedPart(ev: seq<Evidence>, d: Bps): nat -> int {
    (key: nat) => if AllAssessed(ev, key) then GroupTotal(ev, key, d) else 0
  }

  function PickUnassessed(ev: seq<Evidence>, d: Bps): nat -> Option<Ranked> {
    (key: nat) => if AllAssessed(ev, key) then None
                  else Some(Ranked(GroupTotal(ev, key, d), Anchor(ev, key)))
  }

  function AssessedTotal(ev: seq<Evidence>, d: Bps): int {
    SumOf(Keys(ev), AssessedPart(ev, d))
  }

  function Unassessed(ev: seq<Evidence>, d: Bps): seq<Ranked> {
    FilterMap(Keys(ev), PickUnassessed(ev, d))
  }

  function UpToDepth(s: seq<Ranked>): seq<Ranked> {
    if |s| <= MAX_DISCOUNT_DEPTH then s else s[..MAX_DISCOUNT_DEPTH]
  }

  function UnassessedTotal(ev: seq<Evidence>, d: Bps, u: Bps): int {
    DiscountedSum(UpToDepth(RankSort(Unassessed(ev, d))), u)
  }

  /** What `aggregate_hierarchical` returns. */
  function Aggregate(ev: seq<Evidence>, d: Bps, u: Bps): LogOdds {
    Clamp(AssessedTotal(ev, d) + UnassessedTotal(ev, d, u), SAFE_MIN, SAFE_MAX)
  }

  // ---- the loops ----

  datatype GroupAccumulator = GroupAccumulator(members: seq<Ranked>, assessed: bool, anchor: ClaimHash)

  ghost predicate Accumulates(acc: GroupAccumulator, ev: seq<Evidence>, key: nat) {
    acc == GroupAccumulator(Members(ev, key), AllAssessed(ev, key), Anchor(ev, key))
  }

  lemma AccumulateOther(ev: seq<Evidence>, e: Evidence, key: nat)
    requires e.group.key != key
    ensures Members(ev + [e], key) == Members(ev, key)
    ensures AllAssessed(ev + [e], key) == AllAssessed(ev, key)
    ensures Anchor(ev + [e], key) == Anchor(ev, key)
  {
    assert (ev + [e])[..|ev|] == ev;
    assert forall x :: x in ev + [e] <==> x in ev || x == e;
  }

  lemma AccumulateOwn(ev: seq<Evidence>, e: Evidence)
    ensures Members(ev + [e], e.group.key) == Members(ev, e.group.key) + [Ranked(e.weight, e.id)]
    ensures AllAssessed(ev + [e], e.group.key) == (AllAssessed(ev, e.group.key) && e.group.assessed)
  {
    assert (ev + [e])[..|ev|] == ev;
    assert forall x :: x in ev + [e] <==> x in ev || x == e;
  }

  lemma KeysSnoc(ev: seq<Evidence>, e: Evidence)
    ensures Keys(ev + [e]) == InsertKey(e.group.key, Keys(ev))
  {
    assert (ev + [e])[..|ev|] == ev;
  }

  lemma MembersExist(ev: seq<Evidence>, key: nat)
    ensures Members(ev, key) != [] <==> key in Keys(ev)
  {
    FilterMapOrigin(ev, PickMember(key));
    if Members(ev, key) != [] {
      var m := Members(ev, key)[0];
      assert m in Members(ev, key);
    }
    if key in Keys(ev) {
      var e :| e in ev && e.group.key == key;
      assert PickMember(key)(e) == Some(Ranked(e.weight, e.id));
      assert Ranked(e.weight, e.id) in Members(ev, key);
    }
  }

  method DiscountAndSum(ranked: seq<Ranked>, d: Bps) returns (total: int)
    ensures total == DiscountedSum(ranked, d)
  {
    total := 0;
    for rank := 0 to |ranked|
      invariant total == DiscountedSum(ranked[..rank], d)
    {
      var factor := ComputeDiscountFactor(rank, d);
      assert ranked[..rank + 1][..rank] == ranked[..rank];
      total := total + Quot(ranked[rank].weight * factor, 10000);
    }
    assert ranked[..|ranked|] == ranked;
  }

  /** Push one member, as the level-1 loop does. */
  function Absorb(acc: GroupAccumulator, e: Evidence): GroupAccumulator {
    GroupAccumulator(acc.members + [Ranked(e.weight, e.id)],
                     acc.assessed && e.group.assessed,
                     if e.id < acc.anchor then e.id else acc.anchor)
  }

  lemma AbsorbAccumulates(ev: seq<Evidence>, e: Evidence, acc: GroupAccumulator)
    requires if e.group.key in Keys(ev) then Accumulates(acc, ev, e.group.key)
             else acc == GroupAccumulator([], e.group.assessed, e.id)
    ensures Accumulates(Absorb(acc, e), ev + [e], e.group.key)
  {
    MembersExist(ev, e.group.key);
    AccumulateOwn(ev, e);
    var members := acc.members + [Ranked(e.weight, e.id)];
    assert members[..|members| - 1] == acc.members;
  }

  ghost predicate Collected(groups: map<nat, GroupAccumulator>, ev: seq<Evidence>) {
    && (forall k :: k in groups <==> k in Keys(ev))
    && (forall k :: k in groups ==> Accumulates(groups[k], ev, k))
  }

  function Entry(groups: map<nat, GroupAccumulator>, e: Evidence): GroupAccumulator {
    if e.group.key in groups then groups[e.group.key] else GroupAccumulator([], e.group.assessed, e.id)
  }

  lemma CollectStep(groups: map<nat, GroupAccumulator>, ev: seq<Evidence>, e: Evidence)
    requires Collected(groups, ev)
    ensures Collected(groups[e.group.key := Absorb(Entry(groups, e), e)], ev + [e])
  {
    var key := e.group.key;
    KeysSnoc(ev, e);
    AbsorbAccumulates(ev, e, Entry(groups, e));
    forall k | k in groups && k != key
      ensures Accumulates(groups[k], ev + [e], k)
    {
      AccumulateOther(ev, e, k);
    }
  }

  method CollectGroups(ev: seq<Evidence>) returns (keys: seq<nat>, groups: map<nat, GroupAccumulator>)
    ensures keys == Keys(ev)
    ensures Collected(groups, ev)
  {
    keys, groups := [], map[];
    for i := 0 to |ev|
      invariant keys == Keys(ev[..i])
      invariant Collected(groups, ev[..i])
    {
      var e := ev[i];
      KeysSnoc(ev[..i], e);
      CollectStep(groups, ev[..i], e);
      assert ev[..i + 1] == ev[..i] + [e];
      groups := groups[e.group.key := Absorb(Entry(groups, e), e)];
      keys := InsertKey(e.group.key, keys);
    }
    assert ev[..|ev|] == ev;
  }

  /** Level 1: total every group, and set the unassessed ones aside. */
  method TotalGroups(ev: seq<Evidence>, d: Bps) returns (assessedTotal: int, unassessed: seq<Ranked>)
    ensures assessedTotal == AssessedTotal(ev, d)
    ensures unassessed == Unassessed(ev, d)
  {
    var keys, groups := CollectGroups(ev);
    assessedTotal, unassessed := 0, [];
    for i := 0 to |keys|
      invariant assessedTotal == SumOf(keys[..i], AssessedPart(ev, d))
      invariant unassessed == FilterMap(keys[..i], PickUnassessed(ev, d))
    {
      assert keys[..i + 1][..i] == keys[..i];
      assert keys[i] in keys;
      var acc := groups[keys[i]];
      assert Accumulates(acc, ev, keys[i]);
      var groupTotal := DiscountAndSum(RankSort(acc.members), d);
      if acc.assessed {
        assessedTotal := assessedTotal + groupTotal;
      } else {
        unassessed := unassessed + [Ranked(groupTotal, acc.anchor)];
      }
    }
    assert keys[..|keys|] == keys;
  }

  /** Level 2: add the discounted group totals to `start`, stopping at the depth cap. */
  method AddUnassessed(start: int, sorted: seq<Ranked>, u: Bps) returns (total: int)
    ensures total == start + DiscountedSum(UpToDepth(sorted), u)
  {
    total := start;
    var rank := 0;
    while rank < |sorted|
      invariant 0 <= rank <= |sorted| && rank <= MAX_DISCOUNT_DEPTH
      invariant total == start + DiscountedSum(sorted[..rank], u)
    {
      if rank >= MAX_DISCOUNT_DEPTH {
        break;
      }
      var factor := ComputeDiscountFactor(rank, u);
      assert sorted[..rank + 1][..rank] == sorted[..rank];
      total := total + Quot(sorted[rank].weight * factor, 10000);
      rank := rank + 1;
    }
    assert sorted[..rank] == UpToDepth(sorted);
  }

  method AggregateHierarchical(ev: seq<Evidence>, d: Bps, u: Bps) returns (r: LogOdds)
    ensures r == Aggregate(ev, d, u)
  {
    if |ev| == 0 {
      return 0;
    }
    var assessedTotal, unassessed := TotalGroups(ev, d);
    var total := AddUnassessed(assessedTotal, RankSort(unassessed), u);
    r := Clamp(total, SAFE_MIN, SAFE_MAX);
  }
}
