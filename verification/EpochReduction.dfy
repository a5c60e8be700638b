/** Epoch-aligned reduction of claims to summaries, and its freedom from claim order and repetition. */
module EpochReduction {
  import opened Numeric
  import opened Bags
  import opened LogOddsAggregation
  import opened Claims
  import opened Correlation
  import opened CorrelationGrouping
  import opened ClaimOrder

  /** What a summary's id is the digest of. */
  datatype SummaryInput = SummaryInput(primary: nat, uniqueSources: nat, tickStart: nat, tickEnd: nat,
                                       aggregated: LogOdds, variance: int, cell: Option<nat>)

  /** Reputation of every author if it is tracked, discount, and the digest that names summaries. */
  datatype Reducer = Reducer(reputation: Option<nat -> Bps>, discount: Bps, digest: SummaryInput -> ClaimHash)

  // ---- one bucket ----

  predicate CanReduce(claims: seq<Claim>) {
    |claims| >= 2 && forall c :: c in claims ==> c.primary == claims[0].primary && c.secondary == claims[0].secondary
  }

  /** The claims in id order, each id once. */
  function Canonical(claims: seq<Claim>): seq<Claim> {
    DedupById(SortById(claims))
  }

  /** With reputations tracked, claims of authors without any do not count. */
  predicate Excluded(r: Reducer, c: Claim) {
    r.reputation.Some? && r.reputation.value(c.origin) == 0
  }

  /** The declared confidence, scaled by the author's reputation if that is tracked. */
  function WeightOf(r: Reducer, c: Claim): LogOdds {
    if r.reputation.Some? then WeightEvidence(r.reputation.value(c.origin), DeclaredConfidence(c))
    else DeclaredConfidence(c)
  }

  /** The positions whose author has reputation and whose evidence source is not yet among the kept ones. */
  function Kept(r: Reducer, s: seq<Claim>): (k: seq<nat>)
    ensures forall i :: 0 <= i < |k| ==> k[i] < |s|
  {
    if s == [] then []
    else
      var n := |s| - 1;
      var k := Kept(r, s[..n]);
      if Excluded(r, s[n]) || SourceSeen(s, k, s[n].evidenceSource) then k else k + [n]
  }

  predicate SourceSeen(s: seq<Claim>, k: seq<nat>, source: nat)
    requires forall i :: 0 <= i < |k| ==> k[i] < |s|
  {
    exists i :: 0 <= i < |k| && s[k[i]].evidenceSource == source
  }

  /** The evidence of the kept claims. */
  function EvidenceOf(r: Reducer, s: seq<Claim>, groups: seq<CorrelationGroup>, k: seq<nat>): seq<Evidence>
    requires |groups| == |s| && forall i :: 0 <= i < |k| ==> k[i] < |s|
  {
    seq(|k|, i requires 0 <= i < |k| =>
      Evidence(WeightOf(r, s[k[i]]), groups[k[i]], s[k[i]].id))
  }

  function SquaredFrom(mean: int): Evidence -> int {
    (e: Evidence) => (e.weight - mean) * (e.weight - mean)
  }

  /** Integer variance of the evidence around the mean of its aggregate. */
  function Variance(ev: seq<Evidence>, aggregated: LogOdds): int {
    if |ev| <= 1 then 0
    else Min(Quot(SumOf(ev, SquaredFrom(Quot(aggregated, |ev|))), |ev|), I64_MAX)
  }

  function LeastWeight(ev: seq<Evidence>): LogOdds
    requires ev != []
  {
    if |ev| == 1 then ev[0].weight else Min(LeastWeight(ev[..|ev| - 1]), ev[|ev| - 1].weight)
  }

  function GreatestWeight(ev: seq<Evidence>): LogOdds
    requires ev != []
  {
    if |ev| == 1 then ev[0].weight else Max(GreatestWeight(ev[..|ev| - 1]), ev[|ev| - 1].weight)
  }

  function FirstTick(s: seq<Claim>): nat
    requires s != []
  {
    if |s| == 1 then s[0].tick else Min(FirstTick(s[..|s| - 1]), s[|s| - 1].tick)
  }

  function LastTick(s: seq<Claim>): nat
    requires s != []
  {
    if |s| == 1 then s[0].tick else Max(LastTick(s[..|s| - 1]), s[|s| - 1].tick)
  }

  /** The summary of the canonical claims `s` with evidence `ev`, out of `count` claims. */
  function Summarize(r: Reducer, s: seq<Claim>, ev: seq<Evidence>, aggregated: LogOdds, data: seq<nat>,
                     count: nat): Claim
    requires s != [] && ev != []
  {
    var variance := Variance(ev, aggregated);
    var input := SummaryInput(s[0].primary, |ev|, FirstTick(s), LastTick(s), aggregated, variance, s[0].cell);
    var id := r.digest(input);
    Claim(id, s[0].primary, s[0].secondary, 0,
          Summary(count, FirstTick(s), LastTick(s), data, aggregated, |ev|, variance, LeastWeight(ev),
                  GreatestWeight(ev)),
          aggregated, id, LastTick(s), s[0].cell, None, 0)
  }

  /** Correlation groups if reputations are tracked; the plain reduction does not look at correlation. */
  ghost function GroupsFor(r: Reducer, s: seq<Claim>): (groups: seq<CorrelationGroup>)
    ensures |groups| == |s|
  {
    if r.reputation.Some? then GroupsOf(s, DEFAULT_SUPPORT_THRESHOLD) else Ungrouped(|s|)
  }

  function Ungrouped(n: nat): seq<CorrelationGroup> {
    seq(n, _ => CorrelationGroup(0, false))
  }

  function WeightIn(): Evidence -> int {
    (e: Evidence) => e.weight
  }

  /** The two-level aggregate if reputations are tracked, else the plain sum. */
  function AggregateFor(r: Reducer, ev: seq<Evidence>): LogOdds {
    if r.reputation.Some? then Aggregate(ev, r.discount, UNASSESSED_DISCOUNT_BPS)
    else Clamp(SumOf(ev, WeightIn()), SAFE_MIN, SAFE_MAX)
  }

  /** The width of a summary's tick window, as a wrapping 64-bit difference. */
  function Window(k: ClaimKind): nat
    requires k.Summary?
  {
    (k.tickEnd - k.tickStart) % 0x1_0000_0000_0000_0000
  }

  /** Summary `k` has the wider window, or an equal one and at least the confidence. */
  predicate NoLess(k: ClaimKind, best: ClaimKind)
    requires k.Summary? && best.Summary?
  {
    Window(k) > Window(best) || (Window(k) == Window(best) && k.aggregated >= best.aggregated)
  }

  /** The last greatest summary by window and confidence. */
  function BestSummary(s: seq<Claim>): (best: Option<ClaimKind>)
    ensures best.Some? ==> best.value.Summary?
  {
    if s == [] then None
    else
      var n := |s| - 1;
      var best := BestSummary(s[..n]);
      if s[n].kind.Summary? && (best.None? || NoLess(s[n].kind, best.value)) then Some(s[n].kind) else best
  }

  /** What the summary carries: the first claim's data, or in the plain reduction of summaries the best one's. */
  function DataFor(r: Reducer, s: seq<Claim>): seq<nat>
    requires s != [] && (s[0].kind.Observation? || s[0].kind.Summary?)
  {
    if r.reputation.None? && s[0].kind.Summary? && BestSummary(s).Some? then BestSummary(s).value.data
    else s[0].kind.data
  }

  /** The summary of one bucket, if it is reducible and some claim in it counts. */
  ghost function ReduceBucket(r: Reducer, claims: seq<Claim>): Option<Claim> {
    if !CanReduce(claims) then None else ReduceCanonical(r, Canonical(claims), |claims|)
  }

  ghost function ReduceCanonical(r: Reducer, s: seq<Claim>, count: nat): Option<Claim> {
    if s == [] || !(s[0].kind.Observation? || s[0].kind.Summary?) then None
    else
      var ev := EvidenceOf(r, s, GroupsFor(r, s), Kept(r, s));
      if ev == [] then None
      else Some(Summarize(r, s, ev, AggregateFor(r, ev), DataFor(r, s), count))
  }

  lemma {:induction false} SomeKeptIff(r: Reducer, s: seq<Claim>)
    ensures Kept(r, s) != [] <==> exists c :: c in s && !Excluded(r, c)
  {
    if s != [] {
      var n := |s| - 1;
      SomeKeptIff(r, s[..n]);
      assert forall c :: c in s <==> c in s[..n] || c == s[n];
    }
  }

  /**
   * A bucket yields a summary exactly if it has two claims, all with one fingerprint, its least id is of a reducible
   * kind, and some claim counts. Buckets do not separate fingerprints, so two contents in one bucket block it.
   */
  lemma SummaryIff(r: Reducer, claims: seq<Claim>)
    requires IdsIdentify(claims)
    ensures ReduceBucket(r, claims).Some? <==>
      && |claims| >= 2
      && (forall c, c' :: c in claims && c' in claims ==> c.primary == c'.primary && c.secondary == c'.secondary)
      && (exists c :: c in claims && Least(claims, c) && (c.kind.Observation? || c.kind.Summary?))
      && (exists c :: c in claims && (r.reputation.Some? ==> r.reputation.value(c.origin) > 0))
  {
    if |claims| >= 2 {
      SameContentIff(claims);
      LeastKindIff(claims);
      SomeCountsIff(r, claims);
      ReduceCanonicalIff(r, Canonical(claims), |claims|);
    }
  }

  lemma LeastKindIff(claims: seq<Claim>)
    requires IdsIdentify(claims) && claims != []
    ensures Canonical(claims) != []
    ensures (exists c :: c in claims && Least(claims, c) && (c.kind.Observation? || c.kind.Summary?)) <==>
      Canonical(claims)[0].kind.Observation? || Canonical(claims)[0].kind.Summary?
  {
    CanonicalMembers(claims);
    assert claims[0] in Canonical(claims);
    assert Canonical(claims)[0] in Canonical(claims);
    if c :| c in claims && Least(claims, c) && (c.kind.Observation? || c.kind.Summary?) {
      LeastIsFirst(claims, c);
    }
  }

  lemma SomeCountsIff(r: Reducer, claims: seq<Claim>)
    requires IdsIdentify(claims)
    ensures (exists c :: c in claims && (r.reputation.Some? ==> r.reputation.value(c.origin) > 0)) <==>
      exists c :: c in Canonical(claims) && !Excluded(r, c)
  {
    CanonicalMembers(claims);
    if c :| c in claims && (r.reputation.Some? ==> r.reputation.value(c.origin) > 0) {
      assert c in Canonical(claims) && !Excluded(r, c);
    }
    if c :| c in Canonical(claims) && !Excluded(r, c) {
      assert c in claims;
    }
  }

  lemma SameContentIff(claims: seq<Claim>)
    requires |claims| >= 2
    ensures CanReduce(claims) <==>
      forall c, c' :: c in claims && c' in claims ==> c.primary == c'.primary && c.secondary == c'.secondary
  {
    assert claims[0] in claims;
  }

  lemma ReduceCanonicalIff(r: Reducer, s: seq<Claim>, count: nat)
    ensures ReduceCanonical(r, s, count).Some? <==>
      s != [] && (s[0].kind.Observation? || s[0].kind.Summary?) && exists c :: c in s && !Excluded(r, c)
  {
    SomeKeptIff(r, s);
  }

  lemma LeastIsFirst(claims: seq<Claim>, least: Claim)
    requires IdsIdentify(claims) && least in claims && Least(claims, least)
    ensures Canonical(claims) != [] && Canonical(claims)[0] == least
  {
    var s := Canonical(claims);
    CanonicalMembers(claims);
    var i :| 0 <= i < |s| && s[i] == least;
    assert s[0] in claims;
  }

  ghost predicate Least(claims: seq<Claim>, c: Claim) {
    forall x :: x in claims ==> c.id <= x.id
  }

  lemma CanonicalMembers(claims: seq<Claim>)
    requires IdsIdentify(claims)
    ensures forall c :: c in Canonical(claims) <==> c in claims
    ensures IdStrict(Canonical(claims))
    ensures Canonical(claims) != [] ==> Least(claims, Canonical(claims)[0])
  {
    var s := SortById(claims);
    SortByIdSorted(claims);
    BagMembers(claims, s);
    DedupByIdKeeps(s);
    DedupByIdAscends(s);
    var d := Canonical(claims);
    forall x | x in claims && d != []
      ensures d[0].id <= x.id
    {
      var i :| 0 <= i < |d| && d[i] == x;
    }
  }

  method CollectEvidence(r: Reducer, s: seq<Claim>, groups: seq<CorrelationGroup>) returns (ev: seq<Evidence>)
    requires |groups| == |s|
    ensures ev == EvidenceOf(r, s, groups, Kept(r, s))
  {
    ev := [];
    var uniqueSources: seq<nat> := [];
    ghost var k: seq<nat> := [];
    for i := 0 to |s|
      invariant k == Kept(r, s[..i]) && |uniqueSources| == |k|
      invariant forall j :: 0 <= j < |k| ==> k[j] < i && uniqueSources[j] == s[k[j]].evidenceSource
      invariant ev == EvidenceOf(r, s, groups, k)
    {
      var c := s[i];
      assert s[..i + 1][..i] == s[..i];
      assert SourceSeen(s[..i + 1], k, c.evidenceSource) <==> c.evidenceSource in uniqueSources;
      if Excluded(r, c) {
        continue;
      }
      if c.evidenceSource !in uniqueSources {
        uniqueSources := uniqueSources + [c.evidenceSource];
        ev := ev + [Evidence(WeightOf(r, c), groups[i], c.id)];
        k := k + [i];
      }
    }
    assert s[..|s|] == s;
  }

  method ReduceWithReputation(r: Reducer, claims: seq<Claim>) returns (summary: Option<Claim>)
    requires r.reputation.Some?
    ensures summary == ReduceBucket(r, claims)
  {
    if !CanReduce(claims) {
      return None;
    }
    var sorted := Canonical(claims);
    if sorted == [] {
      return None;
    }
    var first := sorted[0];
    if !(first.kind.Observation? || first.kind.Summary?) {
      return None;
    }
    var groups := CorrelationGroups(sorted, DEFAULT_SUPPORT_THRESHOLD);
    var ev := CollectEvidence(r, sorted, groups);
    if ev == [] {
      return None;
    }
    var aggregated := AggregateHierarchical(ev, r.discount, UNASSESSED_DISCOUNT_BPS);
    summary := Some(Summarize(r, sorted, ev, aggregated, first.kind.data, |claims|));
  }

  method FindBest(s: seq<Claim>) returns (best: Option<ClaimKind>)
    ensures best == BestSummary(s)
  {
    best := None;
    for i := 0 to |s|
      invariant best == BestSummary(s[..i])
    {
      assert s[..i + 1][..i] == s[..i];
      if s[i].kind.Summary? && (best.None? || NoLess(s[i].kind, best.value)) {
        best := Some(s[i].kind);
      }
    }
    assert s[..|s|] == s;
  }

  method AddUp(ev: seq<Evidence>) returns (total: LogOdds)
    ensures total == Clamp(SumOf(ev, WeightIn()), SAFE_MIN, SAFE_MAX)
  {
    var sum: int := 0;
    for i := 0 to |ev|
      invariant sum == SumOf(ev[..i], WeightIn())
    {
      assert ev[..i + 1][..i] == ev[..i];
      sum := sum + ev[i].weight;
    }
    assert ev[..|ev|] == ev;
    total := Clamp(sum, SAFE_MIN, SAFE_MAX);
  }

  /** The plain reduction, without reputations: every source counts as declared, and evidence just adds up. */
  method Reduce(r: Reducer, claims: seq<Claim>) returns (summary: Option<Claim>)
    requires r.reputation.None?
    ensures summary == ReduceBucket(r, claims)
  {
    if !CanReduce(claims) {
      return None;
    }
    var sorted := Canonical(claims);
    if sorted == [] {
      return None;
    }
    var first := sorted[0];
    if !(first.kind.Observation? || first.kind.Summary?) {
      return None;
    }
    var data := first.kind.data;
    if first.kind.Summary? {
      var best := FindBest(sorted);
      if best.Some? { data := best.value.data; }
    }
    var ev := CollectEvidence(r, sorted, Ungrouped(|sorted|));
    SomeKeptIff(r, sorted);
    assert first in sorted && !Excluded(r, first);
    var aggregated := AddUp(ev);
    summary := Some(Summarize(r, sorted, ev, aggregated, data, |claims|));
  }

  // ---- buckets ----

  datatype Bucket = Bucket(epoch: nat, cell: Option<nat>)

  function BucketOf(grid: nat, c: Claim): Bucket
    requires grid > 0
  {
    Bucket(c.tick / grid, c.cell)
  }

  /** The key order of the bucket map: by epoch, then undeclared cells before declared ones. */
  predicate Before(a: Bucket, b: Bucket) {
    a.epoch < b.epoch ||
    (a.epoch == b.epoch && b.cell.Some? && (a.cell.None? || a.cell.value < b.cell.value))
  }

  predicate Listed(s: seq<Bucket>) {
    forall i, j :: 0 <= i < j < |s| ==> Before(s[i], s[j])
  }

  function InsertBucket(x: Bucket, s: seq<Bucket>): (r: seq<Bucket>)
    requires Listed(s)
    ensures Listed(r)
    ensures forall y :: y in r <==> y == x || y in s
  {
    if s == [] then [x]
    else if x == s[0] then s
    else if Before(x, s[0]) then [x] + s
    else
      var rest := InsertBucket(x, s[1..]);
      assert s == [s[0]] + s[1..];
      assert forall i :: 0 <= i < |rest| ==> rest[i] in rest;
      [s[0]] + rest
  }

  function Buckets(grid: nat, claims: seq<Claim>): (r: seq<Bucket>)
    requires grid > 0
    ensures Listed(r)
  {
    if claims == [] then []
    else InsertBucket(BucketOf(grid, claims[|claims| - 1]), Buckets(grid, claims[..|claims| - 1]))
  }

  lemma {:induction false} BucketsAre(grid: nat, claims: seq<Claim>)
    requires grid > 0
    ensures forall b :: b in Buckets(grid, claims) <==> exists c :: c in claims && BucketOf(grid, c) == b
  {
    if claims != [] {
      var a, z := claims[..|claims| - 1], claims[|claims| - 1];
      BucketsAre(grid, a);
      assert forall c :: c in claims <==> c in a || c == z;
    }
  }

  lemma {:induction false} ListedUnique(s: seq<Bucket>, t: seq<Bucket>)
    requires Listed(s) && Listed(t) && forall b :: b in s <==> b in t
    ensures s == t
    decreases |s|
  {
    assert |s| > 0 ==> |t| > 0 by { if |s| > 0 { assert s[0] in t; } }
    assert |t| > 0 ==> |s| > 0 by { if |t| > 0 { assert t[0] in s; } }
    if |s| > 0 {
      assert s[0] in t && t[0] in s;
      assert s == [s[0]] + s[1..] && t == [t[0]] + t[1..];
      assert s[0] !in s[1..] && t[0] !in t[1..];
      assert forall b :: b in s[1..] <==> b in s && b != s[0];
      assert forall b :: b in t[1..] <==> b in t && b != t[0];
      ListedUnique(s[1..], t[1..]);
    }
  }

  function PickBucket(grid: nat, b: Bucket): Claim -> Option<Claim>
    requires grid > 0
  {
    (c: Claim) => if BucketOf(grid, c) == b then Some(c) else None
  }

  function ClaimsIn(grid: nat, claims: seq<Claim>, b: Bucket): seq<Claim>
    requires grid > 0
  {
    FilterMap(claims, PickBucket(grid, b))
  }

  ghost function PickSummary(r: Reducer, grid: nat, claims: seq<Claim>): Bucket -> Option<Claim>
    requires grid > 0
  {
    (b: Bucket) => ReduceBucket(r, ClaimsIn(grid, claims, b))
  }

  /** The summaries of an epoch reduction, in bucket order. */
  ghost function Summaries(r: Reducer, grid: nat, claims: seq<Claim>): seq<Claim> {
    if grid == 0 || |claims| < 2 then []
    else FilterMap(Buckets(grid, claims), PickSummary(r, grid, claims))
  }

  function PushClaim(m: map<Bucket, seq<Claim>>, b: Bucket, c: Claim): map<Bucket, seq<Claim>> {
    m[b := (if b in m then m[b] else []) + [c]]
  }

  ghost predicate BucketedAt(grid: nat, claims: seq<Claim>, m: map<Bucket, seq<Claim>>, b: Bucket)
    requires grid > 0
  {
    && (b in m <==> b in Buckets(grid, claims))
    && ClaimsIn(grid, claims, b) == if b in m then m[b] else []
  }

  ghost predicate Bucketed(grid: nat, claims: seq<Claim>, m: map<Bucket, seq<Claim>>)
    requires grid > 0
  {
    forall b {:trigger BucketedAt(grid, claims, m, b)} :: BucketedAt(grid, claims, m, b)
  }

  lemma BucketsSnoc(grid: nat, claims: seq<Claim>, c: Claim)
    requires grid > 0
    ensures Buckets(grid, claims + [c]) == InsertBucket(BucketOf(grid, c), Buckets(grid, claims))
  {
    assert (claims + [c])[..|claims|] == claims;
  }

  lemma BucketStep(grid: nat, claims: seq<Claim>, c: Claim, m: map<Bucket, seq<Claim>>)
    requires grid > 0 && Bucketed(grid, claims, m)
    ensures Bucketed(grid, claims + [c], PushClaim(m, BucketOf(grid, c), c))
  {
    BucketsSnoc(grid, claims, c);
    forall b
      ensures BucketedAt(grid, claims + [c], PushClaim(m, BucketOf(grid, c), c), b)
    {
      assert BucketedAt(grid, claims, m, b);
      FilterMapConcat(claims, [c], PickBucket(grid, b));
      FilterMapSingle(c, PickBucket(grid, b));
    }
  }

  lemma NoBuckets(grid: nat)
    requires grid > 0
    ensures Bucketed(grid, [], map[])
  {
    forall b ensures BucketedAt(grid, [], map[], b) { }
  }

  method FillBuckets(claims: seq<Claim>, grid: nat) returns (keys: seq<Bucket>, buckets: map<Bucket, seq<Claim>>)
    requires grid > 0
    ensures keys == Buckets(grid, claims) && Bucketed(grid, claims, buckets)
  {
    keys, buckets := [], map[];
    NoBuckets(grid);
    assert claims[..0] == [];
    for i := 0 to |claims|
      invariant keys == Buckets(grid, claims[..i]) && Bucketed(grid, claims[..i], buckets)
    {
      var b := BucketOf(grid, claims[i]);
      BucketsSnoc(grid, claims[..i], claims[i]);
      BucketStep(grid, claims[..i], claims[i], buckets);
      assert claims[..i + 1] == claims[..i] + [claims[i]];
      buckets := PushClaim(buckets, b, claims[i]);
      keys := InsertBucket(b, keys);
    }
    assert claims[..|claims|] == claims;
  }

  /** `pick` gives, at `b`, the summary of the claims collected for `b`. */
  ghost predicate Picks(r: Reducer, buckets: map<Bucket, seq<Claim>>, pick: Bucket -> Option<Claim>, b: Bucket) {
    b in buckets && pick(b) == ReduceBucket(r, buckets[b])
  }

  method SummarizeBucket(r: Reducer, buckets: map<Bucket, seq<Claim>>, b: Bucket, ghost pick: Bucket -> Option<Claim>)
    returns (summary: Option<Claim>)
    requires Picks(r, buckets, pick, b)
    ensures summary == pick(b)
  {
    if r.reputation.Some? {
      summary := ReduceWithReputation(r, buckets[b]);
    } else {
      summary := Reduce(r, buckets[b]);
    }
  }

  method SummarizeBuckets(r: Reducer, keys: seq<Bucket>, buckets: map<Bucket, seq<Claim>>,
                          ghost pick: Bucket -> Option<Claim>)
    returns (summaries: seq<Claim>)
    requires forall i {:trigger Picks(r, buckets, pick, keys[i])} ::
      0 <= i < |keys| ==> Picks(r, buckets, pick, keys[i])
    ensures summaries == FilterMap(keys, pick)
  {
    summaries := [];
    for i := 0 to |keys|
      invariant summaries == FilterMap(keys[..i], pick)
    {
      assert keys[..i + 1][..i] == keys[..i];
      var summary := SummarizeBucket(r, buckets, keys[i], pick);
      if summary.Some? {
        summaries := summaries + [summary.value];
      }
    }
    assert keys[..|keys|] == keys;
  }

  method ReduceEpochAligned(r: Reducer, claims: seq<Claim>, grid: nat) returns (summaries: seq<Claim>)
    ensures summaries == Summaries(r, grid, claims)
  {
    if grid == 0 || |claims| < 2 {
      return [];
    }
    var keys, buckets := FillBuckets(claims, grid);
    ghost var pick := PickSummary(r, grid, claims);
    forall i | 0 <= i < |keys|
      ensures Picks(r, buckets, pick, keys[i])
    {
      assert keys[i] in keys;
      assert BucketedAt(grid, claims, buckets, keys[i]);
    }
    summaries := SummarizeBuckets(r, keys, buckets, pick);
  }

  // ---- order and repetition ----

  /** Two summaries of the same evidence that may differ in how many claims were counted. */
  ghost predicate SameButCount(a: Option<Claim>, b: Option<Claim>) {
    match (a, b)
    case (Some(x), Some(y)) =>
      && x.kind.Summary? && y.kind.Summary?
      && x.(kind := x.kind.(sourceCount := 0)) == y.(kind := y.kind.(sourceCount := 0))
    case (None, None) => true
    case (_, _) => false
  }

  lemma CanReduceSameMembers(claims: seq<Claim>, claims': seq<Claim>)
    requires forall c :: c in claims <==> c in claims'
    requires |claims| >= 2 && |claims'| >= 2
    ensures CanReduce(claims) == CanReduce(claims')
  {
    assert claims[0] in claims && claims'[0] in claims';
  }

  /**
   * A bucket of at least two claims reduces to the same summary, up to the counted claims, as any other bucket of
   * at least two claims with the same members: order and repetition do not matter, and with equally many claims
   * the summaries are identical.
   */
  lemma ReduceSameMembers(r: Reducer, claims: seq<Claim>, claims': seq<Claim>)
    requires IdsIdentify(claims) && forall c :: c in claims <==> c in claims'
    requires |claims| >= 2 && |claims'| >= 2
    ensures SameButCount(ReduceBucket(r, claims), ReduceBucket(r, claims'))
    ensures |claims| == |claims'| ==> ReduceBucket(r, claims) == ReduceBucket(r, claims')
  {
    CanReduceSameMembers(claims, claims');
    CanonicalClaims(claims, claims');
  }

  /**
   * The trait asks for idempotency; a single claim is where it fails, because one claim is not reducible. Its
   * repetition changes the outcome exactly if the claim has a reducible kind and counts.
   */
  lemma RepetitionMatters(r: Reducer, c: Claim)
    ensures ReduceBucket(r, [c, c]) == ReduceBucket(r, [c]) <==>
      !(c.kind.Observation? || c.kind.Summary?) || Excluded(r, c)
  {
    var s := [c, c];
    assert s[1..] == [c] && [c][1..] == [];
    assert SortById([c]) == [c];
    assert SortById(s) == s;
    assert s[..1] == [c];
    assert DedupById([c]) == [c];
    assert Canonical(s) == [c];
    assert [c][..0] == [];
    assert Kept(r, [c]) == if Excluded(r, c) then [] else [0];
  }

  lemma SummaryPermuted(r: Reducer, grid: nat, claims: seq<Claim>, claims': seq<Claim>, b: Bucket)
    requires grid > 0 && multiset(claims) == multiset(claims') && IdsIdentify(claims)
    ensures PickSummary(r, grid, claims)(b) == PickSummary(r, grid, claims')(b)
  {
    var s, s' := ClaimsIn(grid, claims, b), ClaimsIn(grid, claims', b);
    FilterMapPermuted(claims, claims', PickBucket(grid, b));
    FilterMapOrigin(claims, PickBucket(grid, b));
    BagMembers(s, s');
    BagLength(s, s');
    if |s| >= 2 {
      ReduceSameMembers(r, s, s');
    }
  }

  /** Two replicas that hold the same claims in any order compute the same summaries in the same order. */
  lemma SummariesIgnoreOrder(r: Reducer, grid: nat, claims: seq<Claim>, claims': seq<Claim>)
    requires multiset(claims) == multiset(claims') && IdsIdentify(claims)
    ensures Summaries(r, grid, claims) == Summaries(r, grid, claims')
  {
    BagLength(claims, claims');
    if grid > 0 {
      BagMembers(claims, claims');
      BucketsAre(grid, claims);
      BucketsAre(grid, claims');
      ListedUnique(Buckets(grid, claims), Buckets(grid, claims'));
      forall b ensures PickSummary(r, grid, claims)(b) == PickSummary(r, grid, claims')(b) {
        SummaryPermuted(r, grid, claims, claims', b);
      }
      FilterMapSame(Buckets(grid, claims), PickSummary(r, grid, claims), PickSummary(r, grid, claims'));
    }
  }
}
