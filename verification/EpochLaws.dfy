/** What a summary says about its bucket: one voice per source, attained bounds, and which bucket a claim is in. */
module EpochLaws {
  import opened Numeric
  import opened Bags
  import opened LogOddsAggregation
  import opened Claims
  import opened Correlation
  import opened EpochReduction

  /** With reputations tracked, a claim counts if its author has any. */
  ghost predicate Counts(r: Reducer, c: Claim) {
    r.reputation.Some? ==> r.reputation.value(c.origin) > 0
  }

  // ---- one voice per source ----

  /** Some claim in front of position `n` counts for the source. */
  ghost predicate Sourced(r: Reducer, s: seq<Claim>, n: nat, source: nat)
    requires n <= |s|
  {
    exists i :: 0 <= i < n && Counts(r, s[i]) && s[i].evidenceSource == source
  }

  /** The claim at `n` counts, and none in front of it counts for the same source. */
  ghost predicate FirstVoice(r: Reducer, s: seq<Claim>, n: nat) {
    n < |s| && Counts(r, s[n]) && !Sourced(r, s, n, s[n].evidenceSource)
  }

  lemma SourcedNext(r: Reducer, s: seq<Claim>, n: nat, source: nat)
    requires n < |s|
    ensures Sourced(r, s, n + 1, source) <==>
      Sourced(r, s, n, source) || (Counts(r, s[n]) && s[n].evidenceSource == source)
    ensures Sourced(r, s[..n], n, source) <==> Sourced(r, s, n, source)
  {
  }

  lemma SeenNext(s: seq<Claim>, k: seq<nat>, n: nat, source: nat)
    requires n < |s| && forall i :: 0 <= i < |k| ==> k[i] < n
    ensures SourceSeen(s[..n], k, source) <==> SourceSeen(s, k, source)
    ensures SourceSeen(s, k + [n], source) <==> SourceSeen(s, k, source) || s[n].evidenceSource == source
  {
    if SourceSeen(s, k, source) {
      var i :| 0 <= i < |k| && s[k[i]].evidenceSource == source;
      assert (k + [n])[i] == k[i] && s[..n][k[i]] == s[k[i]];
    }
    if s[n].evidenceSource == source { assert (k + [n])[|k|] == n; }
  }

  /** The kept positions stand for exactly the sources that count. */
  lemma {:induction false} KeptSources(r: Reducer, s: seq<Claim>, source: nat)
    ensures SourceSeen(s, Kept(r, s), source) <==> Sourced(r, s, |s|, source)
  {
    if s != [] {
      var n: nat := |s| - 1;
      var k := Kept(r, s[..n]);
      KeptSources(r, s[..n], source);
      KeptSources(r, s[..n], s[n].evidenceSource);
      SeenNext(s, k, n, source);
      SeenNext(s, k, n, s[n].evidenceSource);
      SourcedNext(r, s, n, source);
      SourcedNext(r, s, n, s[n].evidenceSource);
    }
  }

  /** Kept are exactly the first voices of their sources. */
  lemma {:induction false} KeptAreFirst(r: Reducer, s: seq<Claim>)
    ensures forall n: nat :: n in Kept(r, s) <==> FirstVoice(r, s, n)
    ensures StrictlyAscending(Kept(r, s))
  {
    if s != [] {
      var n: nat := |s| - 1;
      var k := Kept(r, s[..n]);
      KeptAreFirst(r, s[..n]);
      KeptSources(r, s[..n], s[n].evidenceSource);
      SeenNext(s, k, n, s[n].evidenceSource);
      SourcedNext(r, s, n, s[n].evidenceSource);
      forall m: nat
        ensures m < n ==> (FirstVoice(r, s[..n], m) <==> FirstVoice(r, s, m))
      {
      }
    }
  }

  ghost function CountingSources(r: Reducer, claims: seq<Claim>): set<nat> {
    set c | c in claims && Counts(r, c) :: c.evidenceSource
  }

  lemma {:induction false} DistinctSources(r: Reducer, s: seq<Claim>)
    ensures |Kept(r, s)| == |CountingSources(r, s)|
  {
    if s != [] {
      var n: nat := |s| - 1;
      var a, z := s[..n], s[n];
      DistinctSources(r, a);
      KeptSources(r, a, z.evidenceSource);
      SeenNext(s, Kept(r, a), n, z.evidenceSource);
      assert Sourced(r, a, n, z.evidenceSource) <==> z.evidenceSource in CountingSources(r, a) by {
        SourcedIffCounting(r, a, z.evidenceSource);
      }
      assert s == a + [z];
      assert CountingSources(r, s) ==
        CountingSources(r, a) + if Counts(r, z) then {z.evidenceSource} else {};
    }
  }

  lemma SourcedIffCounting(r: Reducer, s: seq<Claim>, source: nat)
    ensures Sourced(r, s, |s|, source) <==> source in CountingSources(r, s)
  {
    if source in CountingSources(r, s) {
      var c :| c in s && Counts(r, c) && c.evidenceSource == source;
      var i :| 0 <= i < |s| && s[i] == c;
    }
  }

  /** The evidence from which a bucket is summarized. */
  ghost function BucketEvidence(r: Reducer, claims: seq<Claim>): seq<Evidence> {
    var s := Canonical(claims);
    EvidenceOf(r, s, GroupsFor(r, s), Kept(r, s))
  }

  /** Every source that counts is one piece of evidence, however many of its claims are in the bucket. */
  lemma OneVoicePerSource(r: Reducer, claims: seq<Claim>)
    requires IdsIdentify(claims) && ReduceBucket(r, claims).Some?
    ensures ReduceBucket(r, claims).value.kind.Summary?
    ensures ReduceBucket(r, claims).value.kind.uniqueSources == |CountingSources(r, claims)|
    ensures |BucketEvidence(r, claims)| == |CountingSources(r, claims)|
  {
    var s := Canonical(claims);
    CanonicalMembers(claims);
    DistinctSources(r, s);
    assert CountingSources(r, s) == CountingSources(r, claims);
  }

  /** The claim counts, and no other counting claim of its source has a smaller id. */
  ghost predicate LeastOfSource(r: Reducer, claims: seq<Claim>, c: Claim) {
    && c in claims && Counts(r, c)
    && forall x :: x in claims && Counts(r, x) && x.evidenceSource == c.evidenceSource ==> c.id <= x.id
  }

  /** The piece carries the claim's id, its weighted declared confidence and, with reputations, its group in `s`. */
  ghost predicate SpeaksFor(r: Reducer, s: seq<Claim>, e: Evidence, c: Claim) {
    && e.id == c.id && (r.reputation.Some? ==> c in s && e.group == GroupOf(s, DEFAULT_SUPPORT_THRESHOLD, c))
    && e.weight == if r.reputation.Some? then WeightEvidence(r.reputation.value(c.origin), DeclaredConfidence(c))
                   else DeclaredConfidence(c)
  }

  lemma FirstIsLeast(r: Reducer, claims: seq<Claim>, n: nat)
    requires IdsIdentify(claims) && n < |Canonical(claims)|
    ensures FirstVoice(r, Canonical(claims), n) <==> LeastOfSource(r, claims, Canonical(claims)[n])
  {
    var s := Canonical(claims);
    CanonicalMembers(claims);
    assert s[n] in s;
    if FirstVoice(r, s, n) {
      forall x | x in claims && Counts(r, x) && x.evidenceSource == s[n].evidenceSource
        ensures s[n].id <= x.id
      {
        var i :| 0 <= i < |s| && s[i] == x;
        assert i >= n;
      }
    }
    if LeastOfSource(r, claims, s[n]) {
      forall i | 0 <= i < n && Counts(r, s[i])
        ensures s[i].evidenceSource != s[n].evidenceSource
      {
        assert s[i] in s;
      }
    }
  }

  /** The pieces of evidence speak for exactly the counting claims with the least id of their source. */
  lemma EvidenceOfLeast(r: Reducer, claims: seq<Claim>)
    requires IdsIdentify(claims)
    ensures forall e :: e in BucketEvidence(r, claims) ==>
      exists c :: LeastOfSource(r, claims, c) && SpeaksFor(r, Canonical(claims), e, c)
    ensures forall c :: LeastOfSource(r, claims, c) ==>
      exists e :: e in BucketEvidence(r, claims) && SpeaksFor(r, Canonical(claims), e, c)
  {
    var s, ev := Canonical(claims), BucketEvidence(r, claims);
    var k := Kept(r, s);
    CanonicalMembers(claims);
    KeptAreFirst(r, s);
    forall e | e in ev
      ensures exists c :: LeastOfSource(r, claims, c) && SpeaksFor(r, Canonical(claims), e, c)
    {
      var i :| 0 <= i < |ev| && ev[i] == e;
      assert k[i] in k;
      FirstIsLeast(r, claims, k[i]);
      assert LeastOfSource(r, claims, s[k[i]]) && SpeaksFor(r, s, e, s[k[i]]);
    }
    forall c | LeastOfSource(r, claims, c)
      ensures exists e :: e in ev && SpeaksFor(r, Canonical(claims), e, c)
    {
      var n: nat :| n < |s| && s[n] == c;
      FirstIsLeast(r, claims, n);
      assert n in k;
      var i :| 0 <= i < |k| && k[i] == n;
      assert ev[i] in ev && SpeaksFor(r, s, ev[i], c);
    }
  }

  // ---- the fields of a summary ----

  lemma {:induction false} WeightsBounded(ev: seq<Evidence>)
    requires ev != []
    ensures forall e :: e in ev ==> LeastWeight(ev) <= e.weight <= GreatestWeight(ev)
    ensures exists e :: e in ev && e.weight == LeastWeight(ev)
    ensures exists e :: e in ev && e.weight == GreatestWeight(ev)
  {
    var n := |ev| - 1;
    var a, z := ev[..n], ev[n];
    assert forall e :: e in ev <==> e in a || e == z;
    if a != [] {
      WeightsBounded(a);
      var x :| x in a && x.weight == LeastWeight(a);
      var y :| y in a && y.weight == GreatestWeight(a);
      assert x in ev && y in ev && z in ev;
    }
  }

  lemma {:induction false} TicksBounded(s: seq<Claim>)
    requires s != []
    ensures forall c :: c in s ==> FirstTick(s) <= c.tick <= LastTick(s)
    ensures (exists c :: c in s && c.tick == FirstTick(s)) && (exists c :: c in s && c.tick == LastTick(s))
  {
    var n := |s| - 1;
    var a, z := s[..n], s[n];
    assert forall c :: c in s <==> c in a || c == z;
    if a != [] {
      TicksBounded(a);
      var x :| x in a && x.tick == FirstTick(a);
      var y :| y in a && y.tick == LastTick(a);
      assert x in s && y in s && z in s;
    }
  }

  /** The range of a summary is the least and greatest weight among its evidence, its window that of all its claims. */
  lemma SummaryBounds(r: Reducer, claims: seq<Claim>)
    requires IdsIdentify(claims) && ReduceBucket(r, claims).Some?
    ensures var k, ev := ReduceBucket(r, claims).value.kind, BucketEvidence(r, claims);
      && k.Summary?
      && (forall e :: e in ev ==> k.rangeMin <= e.weight <= k.rangeMax)
      && (exists e :: e in ev && e.weight == k.rangeMin) && (exists e :: e in ev && e.weight == k.rangeMax)
      && (forall c :: c in claims ==> k.tickStart <= c.tick <= k.tickEnd)
      && (exists c :: c in claims && c.tick == k.tickStart) && (exists c :: c in claims && c.tick == k.tickEnd)
  {
    var s := Canonical(claims);
    CanonicalMembers(claims);
    WeightsBounded(BucketEvidence(r, claims));
    TicksBounded(s);
    var x :| x in s && x.tick == FirstTick(s);
    var y :| y in s && y.tick == LastTick(s);
    assert x in claims && y in claims;
  }

  /**
   * The rest of a summary: it counts all claims, stands under its own id as evidence source, is dated by its last
   * tick, keeps fingerprint and cell of the bucket's least claim, and declares what it aggregated.
   */
  lemma SummaryFields(r: Reducer, claims: seq<Claim>, least: Claim)
    requires IdsIdentify(claims) && ReduceBucket(r, claims).Some? && least in claims && Least(claims, least)
    ensures var x := ReduceBucket(r, claims).value;
      && x.kind.Summary? && x.kind.sourceCount == |claims| && x.evidenceSource == x.id && x.tick == x.kind.tickEnd
      && x.primary == least.primary && x.secondary == least.secondary && x.cell == least.cell
      && x.confidence == x.kind.aggregated && x.embedding == None && x.origin == 0
  {
    LeastIsFirst(claims, least);
  }

  /** With reputations the evidence is aggregated by its groups; without, it is the plain sum, clamped. */
  lemma SummaryAggregateIs(r: Reducer, claims: seq<Claim>)
    requires ReduceBucket(r, claims).Some?
    ensures ReduceBucket(r, claims).value.kind.Summary?
    ensures ReduceBucket(r, claims).value.kind.aggregated ==
      if r.reputation.Some? then Aggregate(BucketEvidence(r, claims), r.discount, 8000)
      else Clamp(SumOf(BucketEvidence(r, claims), (e: Evidence) => e.weight), SAFE_MIN, SAFE_MAX)
  {
    SumSame(BucketEvidence(r, claims), WeightIn(), (e: Evidence) => e.weight);
  }

  /** Unanimous evidence that was plainly added has no variance. */
  lemma {:induction false} NoSquares(ev: seq<Evidence>, mean: int)
    requires forall e :: e in ev ==> e.weight == mean
    ensures SumOf(ev, SquaredFrom(mean)) == 0
  {
    if ev != [] {
      assert ev[|ev| - 1] in ev;
      NoSquares(ev[..|ev| - 1], mean);
    }
  }

  lemma QuotExact(n: nat, w: int)
    requires n > 0
    ensures Quot(n * w, n) == w
  {
    var m: nat := Abs(w);
    DivBounds(n * m, n);
    QuotientOrder(n, m, n * m / n, n * m, n * m);
    QuotientOrder(n, n * m / n, m, n * m, n * m);
    if w < 0 {
      Negate(n, w);
      Times(1, n, m);
    } else {
      Times(0, n, m);
    }
  }

  lemma UnanimousHasNoVariance(ev: seq<Evidence>, w: LogOdds, aggregated: LogOdds)
    requires (forall e :: e in ev ==> e.weight == w) && aggregated == |ev| * w
    ensures Variance(ev, aggregated) == 0
  {
    if |ev| > 1 {
      QuotExact(|ev|, w);
      NoSquares(ev, w);
    }
  }

  /** The variance of several pieces is the mean squared distance from the mean aggregate, rounded down, up to `i64`. */
  lemma VarianceIs(ev: seq<Evidence>, aggregated: LogOdds)
    requires |ev| >= 2
    ensures var m := Quot(aggregated, |ev|);
      var squares := SumOf(ev, (e: Evidence) => (e.weight - m) * (e.weight - m));
      var v := Variance(ev, aggregated);
      && 0 <= v <= I64_MAX && |ev| * v <= squares && (v < I64_MAX ==> squares < |ev| * v + |ev|)
  {
    var m := Quot(aggregated, |ev|);
    var f := (e: Evidence) => (e.weight - m) * (e.weight - m);
    SumSame(ev, SquaredFrom(m), f);
    forall e | e in ev ensures 0 <= f(e) { Square(e.weight - m); }
    SumNonNegative(ev, f);
    var squares := SumOf(ev, f);
    DivBounds(squares, |ev|);
    DivMonotone(0, squares, |ev|);
    Times(Variance(ev, aggregated), squares / |ev|, |ev|);
  }

  lemma Square(x: int)
    ensures 0 <= x * x
  {
  }

  /** Summary `x` comes before `y`: by width of its window, then by confidence, then by `xKey` and `yKey`. */
  predicate ComesBefore(x: ClaimKind, xKey: nat, y: ClaimKind, yKey: nat)
    requires x.Summary? && y.Summary?
  {
    var m := 0x1_0000_0000_0000_0000;
    var a, b := (x.tickEnd - x.tickStart) % m, (y.tickEnd - y.tickStart) % m;
    a < b || (a == b && (x.aggregated < y.aggregated || (x.aggregated == y.aggregated && xKey <= yKey)))
  }

  /** The summary at position `i` comes after all others, later positions breaking ties. */
  ghost predicate Greatest(s: seq<Claim>, i: nat) {
    && i < |s| && s[i].kind.Summary?
    && (forall j: nat :: j < |s| && s[j].kind.Summary? ==> ComesBefore(s[j].kind, j, s[i].kind, i))
  }

  lemma {:induction false} BestIsGreatest(s: seq<Claim>) returns (i: nat)
    ensures BestSummary(s).None? ==> forall c :: c in s ==> !c.kind.Summary?
    ensures BestSummary(s).Some? ==> Greatest(s, i) && s[i].kind == BestSummary(s).value
  {
    if s == [] {
      i := 0;
    } else {
      var n: nat := |s| - 1;
      var k := BestIsGreatest(s[..n]);
      var best := BestSummary(s[..n]);
      i := if s[n].kind.Summary? && (best.None? || NoLess(s[n].kind, best.value)) then n else k;
      assert forall c :: c in s <==> c in s[..n] || c == s[n];
      if best.Some? { GreatestNext(s, k); } else { assert forall j :: 0 <= j < n ==> s[j] in s[..n]; }
    }
  }

  lemma GreatestNext(s: seq<Claim>, k: nat)
    requires s != [] && Greatest(s[..|s| - 1], k)
    ensures var n := |s| - 1; s[n].kind.Summary? && NoLess(s[n].kind, s[k].kind) ==> Greatest(s, n)
    ensures var n := |s| - 1; !(s[n].kind.Summary? && NoLess(s[n].kind, s[k].kind)) ==> Greatest(s, k)
  {
    var a := s[..|s| - 1];
    assert forall j :: 0 <= j < |a| ==> s[j] == a[j];
  }

  /** The summary `c` of the bucket comes after all others, the greater id breaking ties. */
  ghost predicate Best(claims: seq<Claim>, c: Claim) {
    && c in claims && c.kind.Summary?
    && (forall x :: x in claims && x.kind.Summary? ==> ComesBefore(x.kind, x.id, c.kind, c.id))
  }

  /**
   * A summary carries the data of the bucket's least claim; but the plain reduction of summaries that of the one with
   * the widest window, the highest confidence among those, and the greatest id among these.
   */
  lemma SummaryDataIs(r: Reducer, claims: seq<Claim>, least: Claim)
    requires IdsIdentify(claims) && ReduceBucket(r, claims).Some? && least in claims && Least(claims, least)
    ensures ReduceBucket(r, claims).value.kind.Summary? && (least.kind.Observation? || least.kind.Summary?)
    ensures var data := ReduceBucket(r, claims).value.kind.data;
      if r.reputation.Some? || least.kind.Observation? then data == least.kind.data
      else exists c :: Best(claims, c) && data == c.kind.data
  {
    LeastIsFirst(claims, least);
    if r.reputation.None? && least.kind.Summary? { var c := BestOfBucket(claims, least); }
  }

  lemma BestOfBucket(claims: seq<Claim>, some: Claim) returns (c: Claim)
    requires IdsIdentify(claims) && some in claims && some.kind.Summary?
    ensures BestSummary(Canonical(claims)).Some?
    ensures Best(claims, c) && c.kind == BestSummary(Canonical(claims)).value
  {
    var s := Canonical(claims);
    CanonicalMembers(claims);
    var i := BestIsGreatest(s);
    c := s[i];
    assert c in s;
    forall x | x in claims && x.kind.Summary?
      ensures ComesBefore(x.kind, x.id, c.kind, c.id)
    {
      var j: nat :| j < |s| && s[j] == x;
      assert ComesBefore(s[j].kind, j, s[i].kind, i);
    }
  }

  // ---- buckets ----

  /** The claims fall into one window of the grid and one cell. */
  ghost predicate SameBucket(grid: nat, a: Claim, b: Claim) {
    a.cell == b.cell && exists q: nat :: q * grid <= a.tick < q * grid + grid && q * grid <= b.tick < q * grid + grid
  }

  lemma BucketIff(grid: nat, a: Claim, b: Claim)
    requires grid > 0
    ensures BucketOf(grid, a) == BucketOf(grid, b) <==> SameBucket(grid, a, b)
  {
    WindowIs(grid, a.tick, a.tick / grid);
    WindowIs(grid, b.tick, b.tick / grid);
    if m: nat :| m * grid <= a.tick < m * grid + grid && m * grid <= b.tick < m * grid + grid {
      WindowIs(grid, a.tick, m);
      WindowIs(grid, b.tick, m);
    }
  }

  lemma WindowIs(grid: nat, tick: nat, m: nat)
    requires grid > 0
    ensures m * grid <= tick < m * grid + grid <==> m == tick / grid
  {
    DivBounds(tick, grid);
    if m * grid <= tick < m * grid + grid {
      QuotientOrder(grid, m, tick / grid, grid * m, tick);
      QuotientOrder(grid, tick / grid, m, grid * (tick / grid), tick);
    }
  }

  /** The claims that share a bucket with `c`. */
  ghost predicate BucketMates(grid: nat, claims: seq<Claim>, c: Claim, mates: seq<Claim>) {
    forall x :: x in mates <==> x in claims && SameBucket(grid, x, c)
  }

  lemma MatesAre(grid: nat, claims: seq<Claim>, c: Claim)
    requires grid > 0
    ensures BucketMates(grid, claims, c, ClaimsIn(grid, claims, BucketOf(grid, c)))
  {
    var pick := PickBucket(grid, BucketOf(grid, c));
    FilterMapOrigin(claims, pick);
    forall y
      ensures y in FilterMap(claims, pick) <==> y in claims && SameBucket(grid, y, c)
    {
      BucketIff(grid, y, c);
      if y in claims && SameBucket(grid, y, c) { assert pick(y) == Some(y); }
    }
  }

  /** The summary of the bucket that `c` is in. */
  ghost predicate SummaryAround(r: Reducer, grid: nat, claims: seq<Claim>, c: Claim, x: Claim)
    requires grid > 0
  {
    c in claims && ReduceBucket(r, ClaimsIn(grid, claims, BucketOf(grid, c))) == Some(x)
  }

  /**
   * The summaries are exactly those of the reducible buckets, each bucket being the claims of one grid window and one
   * cell.
   */
  lemma SummariesAre(r: Reducer, grid: nat, claims: seq<Claim>, x: Claim)
    requires grid > 0 && |claims| >= 2
    ensures x in Summaries(r, grid, claims) <==> exists c :: SummaryAround(r, grid, claims, c, x)
    ensures forall c :: c in claims ==> BucketMates(grid, claims, c, ClaimsIn(grid, claims, BucketOf(grid, c)))
  {
    var pick := PickSummary(r, grid, claims);
    FilterMapOrigin(Buckets(grid, claims), pick);
    BucketsAre(grid, claims);
    if x in Summaries(r, grid, claims) {
      var b :| b in Buckets(grid, claims) && pick(b) == Some(x);
      var c :| c in claims && BucketOf(grid, c) == b;
      assert SummaryAround(r, grid, claims, c, x);
    }
    if c :| SummaryAround(r, grid, claims, c, x) {
      assert pick(BucketOf(grid, c)) == Some(x);
    }
    forall c | c in claims
      ensures BucketMates(grid, claims, c, ClaimsIn(grid, claims, BucketOf(grid, c)))
    {
      MatesAre(grid, claims, c);
    }
  }
}
