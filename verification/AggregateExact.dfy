/** What evidence aggregates to, exactly: single pieces, whole groups, and mixtures of both kinds of groups. */
module AggregateExact {
  import opened Numeric
  import opened Bags
  import opened LogOddsAggregation
  import opened LogOddsLaws
  import opened LogOddsBounds
  import opened DiscountCeiling

  /** No two pieces belong to one group. */
  ghost predicate Singles(ev: seq<Evidence>) {
    forall i, j :: 0 <= i < j < |ev| ==> ev[i].group.key != ev[j].group.key
  }

  lemma NoDiscountAlone(r: Ranked, d: Bps)
    ensures RankSort([r]) == [r] && DiscountedSum([r], d) == r.weight
  {
    assert [r][1..] == [] && [r][..0] == [];
    assert DiscountFactor(0, d) == 10000;
  }

  /** A piece alone in its group is the total of that group. */
  lemma SingleTotal(ev: seq<Evidence>, i: nat, d: Bps)
    requires Singles(ev) && i < |ev|
    ensures var key := ev[i].group.key;
      && Members(ev, key) == [Ranked(ev[i].weight, ev[i].id)]
      && GroupTotal(ev, key, d) == ev[i].weight && (AllAssessed(ev, key) <==> ev[i].group.assessed)
  {
    SingleMember(ev, i);
    NoDiscountAlone(Ranked(ev[i].weight, ev[i].id), d);
  }

  lemma SingleMember(ev: seq<Evidence>, i: nat)
    requires Singles(ev) && i < |ev|
    ensures Members(ev, ev[i].group.key) == [Ranked(ev[i].weight, ev[i].id)]
  {
    var a, e, b := ev[..i], ev[i], ev[i + 1..];
    var pick := PickMember(e.group.key);
    assert ev == a + ([e] + b);
    FilterMapNone(a, pick);
    FilterMapNone(b, pick);
    FilterMapSingle(e, pick);
    FilterMapConcat(a, [e] + b, pick);
    FilterMapConcat([e], b, pick);
  }

  lemma {:induction false} InsertKeyLonger(x: nat, s: seq<nat>)
    requires StrictlyAscending(s) && x !in s
    ensures |InsertKey(x, s)| == |s| + 1
  {
    if s != [] && s[0] < x {
      assert s == [s[0]] + s[1..];
      InsertKeyLonger(x, s[1..]);
    }
  }

  lemma {:induction false} SingleKeys(ev: seq<Evidence>)
    requires Singles(ev)
    ensures |Keys(ev)| == |ev|
  {
    if ev != [] {
      var n := |ev| - 1;
      SingleKeys(ev[..n]);
      assert ev == ev[..n] + [ev[n]];
      KeysSnoc(ev[..n], ev[n]);
      InsertKeyLonger(ev[n].group.key, Keys(ev[..n]));
    }
  }

  lemma {:induction false} FilterMapAll<T, U>(s: seq<T>, f: T -> Option<U>)
    requires forall x :: x in s ==> f(x).Some?
    ensures |FilterMap(s, f)| == |s|
  {
    if s != [] {
      assert s[|s| - 1] in s;
      FilterMapAll(s[..|s| - 1], f);
    }
  }

  ghost predicate Weighs(ev: seq<Evidence>, w: int) {
    exists e :: e in ev && e.weight == w
  }

  ghost predicate Ranks(s: seq<Ranked>, w: int) {
    exists r :: r in s && r.weight == w
  }

  lemma LooseKey(ev: seq<Evidence>, k: nat, d: Bps)
    requires Singles(ev) && AllLoose(ev) && k in Keys(ev)
    ensures PickUnassessed(ev, d)(k).Some? && AssessedPart(ev, d)(k) == 0
    ensures Weighs(ev, PickUnassessed(ev, d)(k).value.weight)
  {
    var i: nat :| i < |ev| && ev[i].group.key == k;
    SingleTotal(ev, i, d);
    assert ev[i] in ev;
  }

  lemma LooseRank(ev: seq<Evidence>, i: nat, d: Bps)
    requires Singles(ev) && AllLoose(ev) && i < |ev|
    ensures Ranks(Unassessed(ev, d), ev[i].weight)
  {
    SingleTotal(ev, i, d);
    assert ev[i] in ev;
    FilterMapOrigin(Keys(ev), PickUnassessed(ev, d));
    assert PickUnassessed(ev, d)(ev[i].group.key).value in Unassessed(ev, d);
  }

  lemma LooseWeights(ev: seq<Evidence>, r: Ranked, d: Bps)
    requires Singles(ev) && AllLoose(ev) && r in Unassessed(ev, d)
    ensures Weighs(ev, r.weight)
  {
    FilterMapOrigin(Keys(ev), PickUnassessed(ev, d));
    var k :| k in Keys(ev) && PickUnassessed(ev, d)(k) == Some(r);
    LooseKey(ev, k, d);
  }

  /** Unassessed single pieces are one group each at level 2. */
  lemma LooseSingles(ev: seq<Evidence>, d: Bps)
    requires Singles(ev) && AllLoose(ev)
    ensures |Unassessed(ev, d)| == |ev| && AssessedTotal(ev, d) == 0
  {
    var keys := Keys(ev);
    SingleKeys(ev);
    forall k | k in keys
      ensures PickUnassessed(ev, d)(k).Some?
    {
      LooseKey(ev, k, d);
    }
    FilterMapAll(keys, PickUnassessed(ev, d));
    LooseHasNoAssessedPart(ev, d);
  }

  lemma {:induction false} EqualDiscounted(s: seq<Ranked>, d: Bps)
    requires forall r :: r in s ==> r.weight == 10000
    ensures DiscountedSum(s, d) == FactorSum(|s|, d)
  {
    if s != [] {
      assert s[|s| - 1] in s;
      EqualDiscounted(s[..|s| - 1], d);
    }
  }

  /** Unassessed pieces of weight 10000 from different groups add up by the discount factors of the first 30 ranks. */
  lemma EqualLooseAggregate(ev: seq<Evidence>, d: Bps, u: Bps)
    requires Singles(ev) && AllLoose(ev) && forall e :: e in ev ==> e.weight == 10000
    ensures Aggregate(ev, d, u) == FactorSum(if |ev| < 30 then |ev| else 30, u)
  {
    LooseSingles(ev, d);
    var s := Unassessed(ev, d);
    var t := RankSort(s);
    RankSortSorted(s);
    BagMembers(s, t);
    BagLength(s, t);
    forall r | r in t
      ensures r.weight == 10000
    {
      LooseWeights(ev, r, d);
    }
    EqualDiscounted(UpToDepth(t), u);
    FactorSumAtMost(|UpToDepth(t)|, u);
  }

  /** Of two unassessed pieces from different groups the stronger counts in full and the weaker discounted. */
  lemma TwoLooseAggregate(x: Evidence, y: Evidence, d: Bps, u: Bps)
    requires x.group.key != y.group.key && !x.group.assessed && !y.group.assessed && x.weight >= y.weight >= 0
    ensures Aggregate([x, y], d, u) == Clamp(x.weight + y.weight * u / 10000, SAFE_MIN, SAFE_MAX)
    ensures Aggregate([y, x], d, u) == Clamp(x.weight + y.weight * u / 10000, SAFE_MIN, SAFE_MAX)
  {
    TwoLooseInOrder(x, y, [x, y], d, u);
    TwoLooseInOrder(x, y, [y, x], d, u);
  }

  lemma TwoLooseInOrder(x: Evidence, y: Evidence, ev: seq<Evidence>, d: Bps, u: Bps)
    requires x.group.key != y.group.key && !x.group.assessed && !y.group.assessed && x.weight >= y.weight >= 0
    requires ev == [x, y] || ev == [y, x]
    ensures Aggregate(ev, d, u) == Clamp(x.weight + y.weight * u / 10000, SAFE_MIN, SAFE_MAX)
  {
    var s := Unassessed(ev, d);
    LoosePair(x, y, ev, d);
    TwoRanked(s, x.weight, y.weight, u);
  }

  lemma LoosePair(x: Evidence, y: Evidence, ev: seq<Evidence>, d: Bps)
    requires x.group.key != y.group.key && !x.group.assessed && !y.group.assessed && (ev == [x, y] || ev == [y, x])
    ensures |Unassessed(ev, d)| == 2 && AssessedTotal(ev, d) == 0
    ensures Ranks(Unassessed(ev, d), x.weight) && Ranks(Unassessed(ev, d), y.weight)
    ensures forall r :: r in Unassessed(ev, d) ==> r.weight == x.weight || r.weight == y.weight
  {
    LooseSingles(ev, d);
    LooseRank(ev, 0, d);
    LooseRank(ev, 1, d);
    forall r | r in Unassessed(ev, d)
      ensures r.weight == x.weight || r.weight == y.weight
    {
      LooseWeights(ev, r, d);
    }
  }

  lemma InsertTwo(x: Ranked, y: Ranked)
    ensures InsertRanked(x, [y]) == if Precedes(x, y) then [x, y] else [y, x]
  {
    assert [y][1..] == [];
    assert InsertRanked(x, []) == [x];
  }

  lemma TwoSorted(s: seq<Ranked>, a: int, b: int)
    requires |s| == 2 && a >= b >= 0 && Ranks(s, a) && Ranks(s, b)
    requires forall r :: r in s ==> r.weight == a || r.weight == b
    ensures |RankSort(s)| == 2 && RankSort(s)[0].weight == a && RankSort(s)[1].weight == b
  {
    var x, y := s[0], s[1];
    assert s == [x, y] && x in s && y in s;
    assert (x.weight == a && y.weight == b) || (x.weight == b && y.weight == a);
    NoDiscountAlone(y, 0);
    assert s[1..] == [y];
    InsertTwo(x, y);
  }

  lemma TwoRanked(s: seq<Ranked>, a: int, b: int, u: Bps)
    requires |s| == 2 && a >= b >= 0 && Ranks(s, a) && Ranks(s, b)
    requires forall r :: r in s ==> r.weight == a || r.weight == b
    ensures DiscountedSum(UpToDepth(RankSort(s)), u) == a + b * u / 10000
  {
    TwoSorted(s, a, b);
    var t := RankSort(s);
    assert t == [t[0], t[1]];
    TwoDiscounted(t[0], t[1], u);
  }

  lemma TwoDiscounted(x: Ranked, y: Ranked, u: Bps)
    requires x.weight >= 0 && y.weight >= 0
    ensures DiscountedSum([x, y], u) == x.weight + y.weight * u / 10000
  {
    assert [x, y][..1] == [x];
    NoDiscountAlone(x, u);
    assert Decay(0, u) == 10000;
    assert DiscountFactor(1, u) == u;
    assert y.weight * u >= 0 by { Times(0, y.weight, u); }
  }

  // ---- assessed pieces ----

  lemma KeyedSingle(ev: seq<Evidence>, i: nat, f: Evidence -> int)
    requires Singles(ev) && i < |ev|
    ensures SumOf(ev, Keyed(ev[i].group.key, f)) == f(ev[i])
  {
    var a, e, b := ev[..i], ev[i], ev[i + 1..];
    var g := Keyed(e.group.key, f);
    assert ev == a + ([e] + b);
    SumConcat(a, [e] + b, g);
    SumConcat([e], b, g);
    SumSingle(e, g);
    SumVanishes(a, g);
    SumVanishes(b, g);
  }

  /** Assessed pieces from different groups add up plainly. */
  lemma SolidAggregate(ev: seq<Evidence>, d: Bps, u: Bps)
    requires Singles(ev) && forall e :: e in ev ==> e.group.assessed
    ensures Aggregate(ev, d, u) == Clamp(SumOf(ev, (e: Evidence) => e.weight), SAFE_MIN, SAFE_MAX)
  {
    var keys, f := Keys(ev), (e: Evidence) => e.weight;
    forall k | k in keys
      ensures AssessedPart(ev, d)(k) == GroupSum(ev, f)(k) && PickUnassessed(ev, d)(k) == None
    {
      var i: nat :| i < |ev| && ev[i].group.key == k;
      SingleTotal(ev, i, d);
      KeyedSingle(ev, i, f);
      assert ev[i] in ev;
    }
    SumSame(keys, AssessedPart(ev, d), GroupSum(ev, f));
    GroupsPartition(ev, keys, f);
    FilterMapNone(keys, PickUnassessed(ev, d));
    assert RankSort([]) == [];
  }

  /** A single piece counts in full. */
  lemma OnePieceAggregate(e: Evidence, d: Bps, u: Bps)
    ensures Aggregate([e], d, u) == Clamp(e.weight, SAFE_MIN, SAFE_MAX)
  {
    if e.group.assessed {
      SolidAggregate([e], d, u);
      SumSingle(e, (x: Evidence) => x.weight);
    } else {
      LooseSingles([e], d);
      LooseRank([e], 0, d);
      var s := Unassessed([e], d);
      assert s == [s[0]];
      NoDiscountAlone(s[0], u);
    }
  }

  // ---- one group ----

  lemma {:induction false} OneKey(ev: seq<Evidence>, key: nat)
    requires ev != [] && forall e :: e in ev ==> e.group.key == key
    ensures Keys(ev) == [key]
  {
    var n := |ev| - 1;
    assert ev == ev[..n] + [ev[n]];
    KeysSnoc(ev[..n], ev[n]);
    assert ev[n] in ev;
    if n > 0 { OneKey(ev[..n], key); } else { assert Keys(ev[..0]) == []; }
  }

  /** An assessed group is worth its total: every member at the factor of its rank. */
  lemma OneGroupAggregate(ev: seq<Evidence>, key: nat, d: Bps, u: Bps)
    requires ev != [] && forall e :: e in ev ==> e.group == CorrelationGroup(key, true)
    ensures Aggregate(ev, d, u) == Clamp(GroupTotal(ev, key, d), SAFE_MIN, SAFE_MAX)
  {
    OneKey(ev, key);
    SumSingle(key, AssessedPart(ev, d));
    FilterMapSingle(key, PickUnassessed(ev, d));
    assert RankSort([]) == [];
  }

  lemma {:induction false} AllMembers(ev: seq<Evidence>, key: nat)
    requires forall e :: e in ev ==> e.group.key == key
    ensures |Members(ev, key)| == |ev|
    ensures forall i :: 0 <= i < |ev| ==> Members(ev, key)[i] == Ranked(ev[i].weight, ev[i].id)
  {
    if ev != [] {
      var n := |ev| - 1;
      assert ev[n] in ev;
      AllMembers(ev[..n], key);
    }
  }

  /** Correlated pieces of weight 10000 add up by the discount factors of all their ranks. */
  lemma EqualGroupAggregate(ev: seq<Evidence>, key: nat, d: Bps, u: Bps)
    requires ev != [] && forall e :: e in ev ==> e.group == CorrelationGroup(key, true) && e.weight == 10000
    ensures Aggregate(ev, d, u) == Clamp(FactorSum(|ev|, d), SAFE_MIN, SAFE_MAX)
  {
    OneGroupAggregate(ev, key, d, u);
    AllMembers(ev, key);
    var s := Members(ev, key);
    RankSortSorted(s);
    BagMembers(s, RankSort(s));
    BagLength(s, RankSort(s));
    EqualDiscounted(RankSort(s), d);
  }

  /** Of two correlated pieces the stronger counts in full and the weaker discounted, in either order. */
  lemma TwoInGroupAggregate(x: Evidence, y: Evidence, ev: seq<Evidence>, d: Bps, u: Bps)
    requires x.group == y.group && x.group.assessed && x.weight >= y.weight >= 0
    requires ev == [x, y] || ev == [y, x]
    ensures Aggregate(ev, d, u) == Clamp(x.weight + y.weight * d / 10000, SAFE_MIN, SAFE_MAX)
  {
    OneGroupAggregate(ev, x.group.key, d, u);
    AllMembers(ev, x.group.key);
    var s := Members(ev, x.group.key);
    assert s[0] in s && s[1] in s;
    assert Ranks(s, x.weight) && Ranks(s, y.weight);
    TwoRanked(s, x.weight, y.weight, d);
    BagLength(s, RankSort(s)) by { RankSortSorted(s); }
    assert UpToDepth(RankSort(s)) == RankSort(s);
  }

  // ---- mixtures ----

  ghost predicate Disjoint(a: seq<Evidence>, b: seq<Evidence>) {
    forall x, y :: x in a && y in b ==> x.group.key != y.group.key
  }

  lemma MembersApart(a: seq<Evidence>, b: seq<Evidence>, key: nat, d: Bps)
    requires Disjoint(a, b)
    ensures key in Keys(a) ==> Members(a + b, key) == Members(a, key) && AllAssessed(a + b, key) == AllAssessed(a, key)
    ensures key in Keys(b) ==> Members(a + b, key) == Members(b, key) && AllAssessed(a + b, key) == AllAssessed(b, key)
  {
    FilterMapConcat(a, b, PickMember(key));
    assert forall e :: e in a + b <==> e in a || e in b;
    if key in Keys(a) { FilterMapNone(b, PickMember(key)); }
    if key in Keys(b) { FilterMapNone(a, PickMember(key)); }
  }

  lemma {:induction false} StrictBag(s: seq<nat>)
    requires StrictlyAscending(s)
    ensures forall x :: multiset(s)[x] == if x in s then 1 else 0
  {
    if s != [] {
      var n := |s| - 1;
      assert s == s[..n] + [s[n]];
      StrictBag(s[..n]);
      assert s[n] !in s[..n];
    }
  }

  lemma KeyOfBoth(a: seq<Evidence>, b: seq<Evidence>, k: nat)
    requires Disjoint(a, b)
    ensures k in Keys(a + b) <==> k in Keys(a) || k in Keys(b)
    ensures !(k in Keys(a) && k in Keys(b))
  {
    assert forall e :: e in a + b <==> e in a || e in b;
  }

  lemma KeysOfBoth(a: seq<Evidence>, b: seq<Evidence>)
    requires Disjoint(a, b)
    ensures multiset(Keys(a + b)) == multiset(Keys(a) + Keys(b))
  {
    StrictBag(Keys(a + b));
    StrictBag(Keys(a));
    StrictBag(Keys(b));
    var m, n := multiset(Keys(a + b)), multiset(Keys(a)) + multiset(Keys(b));
    forall k
      ensures m[k] == n[k]
    {
      KeyOfBoth(a, b, k);
    }
    assert m == n;
  }

  /** Assessed totals of evidence without common groups add up. */
  lemma AssessedTotalsAdd(a: seq<Evidence>, b: seq<Evidence>, d: Bps)
    requires Disjoint(a, b)
    ensures AssessedTotal(a + b, d) == AssessedTotal(a, d) + AssessedTotal(b, d)
  {
    var f := AssessedPart(a + b, d);
    KeysOfBoth(a, b);
    SumPermuted(Keys(a + b), Keys(a) + Keys(b), f);
    SumConcat(Keys(a), Keys(b), f);
    forall k | k in Keys(a) ensures f(k) == AssessedPart(a, d)(k) { MembersApart(a, b, k, d); }
    forall k | k in Keys(b) ensures f(k) == AssessedPart(b, d)(k) { MembersApart(a, b, k, d); }
    SumSame(Keys(a), f, AssessedPart(a, d));
    SumSame(Keys(b), f, AssessedPart(b, d));
  }

  lemma {:induction false} FilterMapInsert<U>(x: nat, s: seq<nat>, f: nat -> Option<U>)
    requires StrictlyAscending(s) && f(x) == None
    ensures FilterMap(InsertKey(x, s), f) == FilterMap(s, f)
  {
    if s == [] {
      FilterMapSingle(x, f);
    } else if x < s[0] {
      FilterMapConcat([x], s, f);
      FilterMapSingle(x, f);
    } else if s[0] < x {
      assert s == [s[0]] + s[1..];
      FilterMapInsert(x, s[1..], f);
      FilterMapConcat([s[0]], s[1..], f);
      FilterMapConcat([s[0]], InsertKey(x, s[1..]), f);
    }
  }

  lemma {:induction false} FilterMapKeys<U>(a: seq<Evidence>, b: seq<Evidence>, f: nat -> Option<U>)
    requires forall e :: e in b ==> f(e.group.key) == None
    ensures FilterMap(Keys(a + b), f) == FilterMap(Keys(a), f)
  {
    if b == [] {
      assert a + b == a;
    } else {
      var n := |b| - 1;
      assert a + b == (a + b[..n]) + [b[n]];
      KeysSnoc(a + b[..n], b[n]);
      assert b[n] in b;
      FilterMapInsert(b[n].group.key, Keys(a + b[..n]), f);
      FilterMapKeys(a, b[..n], f);
    }
  }

  /** Assessed evidence of other groups does not touch the unassessed part. */
  lemma UnassessedApart(loose: seq<Evidence>, solid: seq<Evidence>, d: Bps)
    requires Disjoint(loose, solid) && forall e :: e in solid ==> e.group.assessed
    ensures Unassessed(loose + solid, d) == Unassessed(loose, d)
  {
    var f := PickUnassessed(loose + solid, d);
    forall e | e in solid
      ensures f(e.group.key) == None
    {
      MembersApart(loose, solid, e.group.key, d);
      assert e.group.key in Keys(solid);
      assert AllAssessed(solid, e.group.key);
    }
    FilterMapKeys(loose, solid, f);
    forall k | k in Keys(loose) ensures f(k) == PickUnassessed(loose, d)(k) { MembersApart(loose, solid, k, d); }
    FilterMapSame(Keys(loose), f, PickUnassessed(loose, d));
  }

  ghost predicate AllLoose(ev: seq<Evidence>) {
    forall e :: e in ev ==> !e.group.assessed
  }

  lemma LooseHasNoAssessedPart(ev: seq<Evidence>, d: Bps)
    requires AllLoose(ev)
    ensures AssessedTotal(ev, d) == 0
  {
    forall k | k in Keys(ev)
      ensures AssessedPart(ev, d)(k) == 0
    {
      var e :| e in ev && e.group.key == k;
    }
    SumSame(Keys(ev), AssessedPart(ev, d), Nothing());
    SumNothing(Keys(ev));
  }

  lemma SolidHasNoUnassessed(ev: seq<Evidence>, d: Bps, u: Bps)
    requires forall e :: e in ev ==> e.group.assessed
    ensures UnassessedTotal(ev, d, u) == 0
  {
    forall k | k in Keys(ev)
      ensures PickUnassessed(ev, d)(k) == None
    {
    }
    FilterMapNone(Keys(ev), PickUnassessed(ev, d));
    assert RankSort([]) == [];
  }

  ghost predicate InSafeRange(x: int) {
    SAFE_MIN < x < SAFE_MAX
  }

  /**
   * Unassessed and assessed evidence without common groups is worth the sum of what each is worth alone, as long as
   * neither is clamped.
   */
  lemma MixedAggregate(loose: seq<Evidence>, solid: seq<Evidence>, d: Bps, u: Bps)
    requires Disjoint(loose, solid) && AllLoose(loose) && forall e :: e in solid ==> e.group.assessed
    requires InSafeRange(Aggregate(loose, d, u)) && InSafeRange(Aggregate(solid, d, u))
    ensures Aggregate(loose + solid, d, u) ==
      Clamp(Aggregate(loose, d, u) + Aggregate(solid, d, u), SAFE_MIN, SAFE_MAX)
  {
    AssessedTotalsAdd(loose, solid, d);
    UnassessedApart(loose, solid, d);
    LooseHasNoAssessedPart(loose, d);
    SolidHasNoUnassessed(solid, d, u);
  }

  /** The same pieces, apart from their assessed flags. */
  ghost predicate SamePieces(ev: seq<Evidence>, ev': seq<Evidence>) {
    |ev| == |ev'| && forall i :: 0 <= i < |ev| ==> SamePiece(ev[i], ev'[i])
  }

  ghost predicate SamePiece(e: Evidence, e': Evidence) {
    e.weight == e'.weight && e.id == e'.id && e.group.key == e'.group.key
  }

  /** The group has a member that could not be assessed. */
  ghost predicate Doubted(ev: seq<Evidence>, key: nat) {
    exists e :: e in ev && e.group.key == key && !e.group.assessed
  }

  lemma {:induction false} SameMembers(ev: seq<Evidence>, ev': seq<Evidence>, key: nat)
    requires SamePieces(ev, ev')
    ensures Members(ev, key) == Members(ev', key) && Keys(ev) == Keys(ev')
  {
    if ev != [] {
      var n := |ev| - 1;
      assert SamePiece(ev[n], ev'[n]);
      SameMembers(ev[..n], ev'[..n], key);
    }
  }

  /** One unassessed member makes its whole group unassessed, and more of them change nothing further. */
  lemma OneUnassessedDemotes(ev: seq<Evidence>, ev': seq<Evidence>, d: Bps, u: Bps)
    requires SamePieces(ev, ev') && forall k :: Doubted(ev, k) <==> Doubted(ev', k)
    ensures Aggregate(ev, d, u) == Aggregate(ev', d, u)
  {
    SameMembers(ev, ev', 0);
    forall k
      ensures AssessedPart(ev, d)(k) == AssessedPart(ev', d)(k)
      ensures PickUnassessed(ev, d)(k) == PickUnassessed(ev', d)(k)
    {
      SameMembers(ev, ev', k);
      assert Doubted(ev, k) <==> !AllAssessed(ev, k);
      assert Doubted(ev', k) <==> !AllAssessed(ev', k);
    }
    SumSame(Keys(ev), AssessedPart(ev, d), AssessedPart(ev', d));
    FilterMapSame(Keys(ev), PickUnassessed(ev, d), PickUnassessed(ev', d));
  }

  // ---- opposite evidence ----

  function Opposite(r: Ranked): Ranked {
    Ranked(-r.weight, r.id)
  }

  function Opposites(s: seq<Ranked>): seq<Ranked> {
    seq(|s|, i requires 0 <= i < |s| => Opposite(s[i]))
  }

  lemma {:induction false} InsertOpposite(x: Ranked, s: seq<Ranked>)
    ensures InsertRanked(Opposite(x), Opposites(s)) == Opposites(InsertRanked(x, s))
  {
    if s != [] {
      assert Opposites(s)[0] == Opposite(s[0]) && Opposites(s)[1..] == Opposites(s[1..]);
      InsertOpposite(x, s[1..]);
    }
  }

  lemma {:induction false} SortOpposites(s: seq<Ranked>)
    ensures RankSort(Opposites(s)) == Opposites(RankSort(s))
  {
    if s != [] {
      assert Opposites(s)[0] == Opposite(s[0]) && Opposites(s)[1..] == Opposites(s[1..]);
      SortOpposites(s[1..]);
      InsertOpposite(s[0], RankSort(s[1..]));
    }
  }

  lemma QuotOpposite(w: int, f: nat)
    ensures Quot(-w * f, 10000) == -Quot(w * f, 10000)
  {
    assert -w * f == -(w * f);
  }

  lemma {:induction false} DiscountedOpposites(s: seq<Ranked>, d: Bps)
    ensures DiscountedSum(Opposites(s), d) == -DiscountedSum(s, d)
  {
    if s != [] {
      var n := |s| - 1;
      assert Opposites(s)[..n] == Opposites(s[..n]);
      DiscountedOpposites(s[..n], d);
      QuotOpposite(s[n].weight, DiscountFactor(n, d));
    }
  }

  /** The weights of `ev'` are the opposites of those of `ev`. */
  ghost predicate Opposed(ev: seq<Evidence>, ev': seq<Evidence>) {
    |ev| == |ev'| && forall i :: 0 <= i < |ev| ==> OpposedPiece(ev[i], ev'[i])
  }

  ghost predicate OpposedPiece(e: Evidence, e': Evidence) {
    0 - (e.weight as int) == e'.weight && e'.id == e.id && e'.group == e.group
  }

  lemma {:induction false} OpposedMembers(ev: seq<Evidence>, ev': seq<Evidence>, key: nat)
    requires Opposed(ev, ev')
    ensures Members(ev', key) == Opposites(Members(ev, key)) && Keys(ev') == Keys(ev)
  {
    if ev != [] {
      var n := |ev| - 1;
      assert OpposedPiece(ev[n], ev'[n]);
      OpposedMembers(ev[..n], ev'[..n], key);
    }
  }

  lemma {:induction false} OppositeLeast(s: seq<Ranked>)
    requires s != []
    ensures LeastId(Opposites(s)) == LeastId(s)
  {
    if |s| > 1 {
      assert Opposites(s)[..|s| - 1] == Opposites(s[..|s| - 1]);
      OppositeLeast(s[..|s| - 1]);
    }
  }

  lemma OpposedFlags(ev: seq<Evidence>, ev': seq<Evidence>, key: nat)
    requires Opposed(ev, ev')
    ensures AllAssessed(ev', key) <==> AllAssessed(ev, key)
  {
    forall i | 0 <= i < |ev|
      ensures ev'[i].group == ev[i].group
    {
      assert OpposedPiece(ev[i], ev'[i]);
    }
  }

  lemma OpposedTotal(ev: seq<Evidence>, ev': seq<Evidence>, key: nat, d: Bps)
    requires Opposed(ev, ev')
    ensures GroupTotal(ev', key, d) == -GroupTotal(ev, key, d) && Anchor(ev', key) == Anchor(ev, key)
  {
    OpposedMembers(ev, ev', key);
    SortOpposites(Members(ev, key));
    DiscountedOpposites(RankSort(Members(ev, key)), d);
    if Members(ev, key) != [] { OppositeLeast(Members(ev, key)); }
  }

  lemma OpposedGroup(ev: seq<Evidence>, ev': seq<Evidence>, key: nat, d: Bps)
    requires Opposed(ev, ev')
    ensures AssessedPart(ev', d)(key) == -AssessedPart(ev, d)(key)
    ensures PickUnassessed(ev', d)(key) ==
      match PickUnassessed(ev, d)(key) case None => None case Some(r) => Some(Opposite(r))
  {
    OpposedFlags(ev, ev', key);
    OpposedTotal(ev, ev', key, d);
  }

  lemma {:induction false} OpposedPicks(keys: seq<nat>, f: nat -> Option<Ranked>, g: nat -> Option<Ranked>)
    requires forall k :: g(k) == match f(k) case None => None case Some(r) => Some(Opposite(r))
    ensures FilterMap(keys, g) == Opposites(FilterMap(keys, f))
  {
    if keys != [] { OpposedPicks(keys[..|keys| - 1], f, g); }
  }

  lemma {:induction false} OpposedSum(keys: seq<nat>, f: nat -> int, g: nat -> int)
    requires forall k :: g(k) == -f(k)
    ensures SumOf(keys, g) == -SumOf(keys, f)
  {
    if keys != [] { OpposedSum(keys[..|keys| - 1], f, g); }
  }

  /** Opposite evidence aggregates to the opposite: support and doubt are treated alike. */
  lemma OppositeAggregate(ev: seq<Evidence>, ev': seq<Evidence>, d: Bps, u: Bps)
    requires Opposed(ev, ev')
    ensures var x: int, x': int := Aggregate(ev, d, u), Aggregate(ev', d, u); x' == -x
  {
    OpposedMembers(ev, ev', 0);
    forall k
      ensures AssessedPart(ev', d)(k) == -AssessedPart(ev, d)(k)
      ensures PickUnassessed(ev', d)(k) ==
        match PickUnassessed(ev, d)(k) case None => None case Some(r) => Some(Opposite(r))
    {
      OpposedGroup(ev, ev', k, d);
    }
    OpposedSum(Keys(ev), AssessedPart(ev, d), AssessedPart(ev', d));
    OpposedPicks(Keys(ev), PickUnassessed(ev, d), PickUnassessed(ev', d));
    SortOpposites(Unassessed(ev, d));
    var t := RankSort(Unassessed(ev, d));
    assert UpToDepth(Opposites(t)) == Opposites(UpToDepth(t));
    DiscountedOpposites(UpToDepth(t), u);
  }
}
