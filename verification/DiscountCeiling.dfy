/** How much unsubstantiated evidence can ever weigh: the two-level discount ceiling. */
module DiscountCeiling {
  import opened Numeric
  import opened Bags
  import opened LogOddsAggregation
  import opened LogOddsLaws
  import opened LogOddsBounds

  /** The sum of the first `n` discount factors. */
  function FactorSum(n: nat, d: Bps): nat {
    if n == 0 then 0 else FactorSum(n - 1, d) + DiscountFactor(n - 1, d)
  }

  // ---- the geometric series ----

  lemma DecayStep(n: nat, d: Bps)
    ensures 10000 * Decay(n + 1, d) <= Decay(n, d) * d
  {
    assert Decay(n + 1, d) == Decay(n, d) * d / 10000;
  }

  /** Below the depth cap the factors sum to at most `1 / (1 - d/10000)`: the series telescopes. */
  lemma {:induction false} GeometricSum(n: nat, d: Bps)
    requires n <= MAX_DISCOUNT_DEPTH + 1
    ensures (10000 - d) * FactorSum(n, d) <= 100_000_000 - 10000 * Decay(n, d)
  {
    if n > 0 {
      GeometricSum(n - 1, d);
      DecayStep(n - 1, d);
      var f: int, s: int, c: int := Decay(n - 1, d), FactorSum(n - 1, d), 10000 - d;
      assert FactorSum(n, d) == s + f;
      Distribute(c, s, f);
      Distribute(f, 10000 - d, d);
    }
  }

  lemma Distribute(c: int, x: int, y: int)
    ensures c * (x + y) == c * x + c * y
  {
  }

  lemma {:induction false} DecayShrinks(m: nat, n: nat, d: Bps)
    requires m <= n
    ensures Decay(n, d) <= Decay(m, d)
  {
    if m < n {
      DecayShrinks(m, n - 1, d);
      DecayStep(n - 1, d);
      Times(d, 10000, Decay(n - 1, d));
    }
  }

  /** Beyond the cap every further rank contributes the same factor. */
  lemma {:induction false} Plateau(n: nat, d: Bps)
    requires n >= MAX_DISCOUNT_DEPTH
    ensures FactorSum(n, d) ==
      FactorSum(MAX_DISCOUNT_DEPTH, d) + (n - MAX_DISCOUNT_DEPTH) * Decay(MAX_DISCOUNT_DEPTH, d)
  {
    if n > MAX_DISCOUNT_DEPTH {
      Plateau(n - 1, d);
      var f, k := Decay(MAX_DISCOUNT_DEPTH, d), n - MAX_DISCOUNT_DEPTH;
      assert k * f == (k - 1) * f + f;
    }
  }

  lemma SumDiesOut(n: nat, d: Bps)
    requires Decay(MAX_DISCOUNT_DEPTH, d) == 0
    ensures (10000 - d) * FactorSum(n, d) <= 100_000_000
  {
    if n <= MAX_DISCOUNT_DEPTH {
      GeometricSum(n, d);
    } else {
      Plateau(n, d);
      GeometricSum(MAX_DISCOUNT_DEPTH, d);
    }
  }

  // ---- discounted sums ----

  ghost predicate WithinMagnitude(s: seq<Ranked>, m: nat) {
    forall r :: r in s ==> Abs(r.weight) <= m
  }

  lemma {:induction false} DiscountedMagnitude(s: seq<Ranked>, d: Bps, m: nat)
    requires WithinMagnitude(s, m)
    ensures 10000 * Abs(DiscountedSum(s, d)) <= m * FactorSum(|s|, d)
  {
    if s != [] {
      var n := |s| - 1;
      var f: int, w: int := DiscountFactor(n, d), s[n].weight;
      assert s[n] in s;
      DiscountedMagnitude(s[..n], d, m);
      ScaleShrinks(w, f);
      Times(Abs(w), m, f);
      Distribute(m, FactorSum(n, d), f);
    }
  }

  lemma RankedMagnitude(s: seq<Ranked>, m: nat)
    requires WithinMagnitude(s, m)
    ensures WithinMagnitude(RankSort(s), m) && |RankSort(s)| == |s|
    ensures WithinMagnitude(UpToDepth(RankSort(s)), m)
  {
    RankSortSorted(s);
    BagMembers(s, RankSort(s));
  }

  lemma {:induction false} EqualWeights(n: nat, d: Bps)
    ensures DiscountedSum(seq(n, _ => Ranked(10000, 0)), d) == FactorSum(n, d)
  {
    if n > 0 {
      EqualWeights(n - 1, d);
      assert seq(n, _ => Ranked(10000, 0))[..n - 1] == seq(n - 1, _ => Ranked(10000, 0));
    }
  }

  /**
   * Level 1 has no cut-off, so its ceiling `1 / (1 - d/10000)` holds for groups of every size
   * exactly when the discount factor has died out by the depth cap.
   */
  lemma GroupCeilingIff(d: Bps)
    requires d < 10000
    ensures Decay(MAX_DISCOUNT_DEPTH, d) == 0 <==>
            forall s: seq<Ranked>, m: nat ::
              WithinMagnitude(s, m) ==> (10000 - d) * Abs(DiscountedSum(s, d)) <= 10000 * m
  {
    if Decay(MAX_DISCOUNT_DEPTH, d) == 0 {
      forall s: seq<Ranked>, m: nat | WithinMagnitude(s, m)
        ensures (10000 - d) * Abs(DiscountedSum(s, d)) <= 10000 * m
      {
        DiscountedMagnitude(s, d, m);
        SumDiesOut(|s|, d);
        ChainBounds(10000 - d, Abs(DiscountedSum(s, d)), FactorSum(|s|, d), m);
      }
    } else {
      var n := 100_000_001 + MAX_DISCOUNT_DEPTH;
      var s := seq(n, _ => Ranked(10000, 0));
      EqualWeights(n, d);
      Plateau(n, d);
      var f: int := Decay(MAX_DISCOUNT_DEPTH, d);
      assert 100_000_001 * f >= 100_000_001;
      assert DiscountedSum(s, d) >= 100_000_001;
      assert (10000 - d) * Abs(DiscountedSum(s, d)) >= 100_000_001 by {
        Scale(10000 - d, Abs(DiscountedSum(s, d)));
      }
      assert WithinMagnitude(s, 10000);
    }
  }

  // ---- for which discounts the factor dies out ----

  const LAST_DYING_DISCOUNT: Bps := 7564

  lemma DecayStepMonotone(p: nat, p': nat, d: nat, d': nat)
    requires p <= p' && d <= d'
    ensures p * d / 10000 <= p' * d' / 10000
  {
    Times(p, p', d);
    Times(d, d', p');
    assert p' * d == d * p' && p' * d' == d' * p';
    DivMonotone(p * d, p' * d', 10000);
  }

  lemma {:induction false} DecayMonotone(n: nat, d: Bps, d': Bps)
    requires d <= d'
    ensures Decay(n, d) <= Decay(n, d')
  {
    if n > 0 {
      DecayMonotone(n - 1, d, d');
      DecayStepMonotone(Decay(n - 1, d), Decay(n - 1, d'), d, d');
    }
  }

  lemma LastDyingDecay()
    ensures Decay(MAX_DISCOUNT_DEPTH, LAST_DYING_DISCOUNT) == 0
  {
    assert Decay(1, 7564) == 7564 && Decay(2, 7564) == 5721 && Decay(3, 7564) == 4327;
    assert Decay(4, 7564) == 3272 && Decay(5, 7564) == 2474;
    assert Decay(6, 7564) == 1871 && Decay(7, 7564) == 1415 && Decay(8, 7564) == 1070;
    assert Decay(9, 7564) == 809 && Decay(10, 7564) == 611;
    assert Decay(11, 7564) == 462 && Decay(12, 7564) == 349 && Decay(13, 7564) == 263;
    assert Decay(14, 7564) == 198 && Decay(15, 7564) == 149;
    assert Decay(16, 7564) == 112 && Decay(17, 7564) == 84 && Decay(18, 7564) == 63;
    assert Decay(19, 7564) == 47 && Decay(20, 7564) == 35;
    assert Decay(21, 7564) == 26 && Decay(22, 7564) == 19 && Decay(23, 7564) == 14;
    assert Decay(24, 7564) == 10 && Decay(25, 7564) == 7;
    assert Decay(26, 7564) == 5 && Decay(27, 7564) == 3 && Decay(28, 7564) == 2;
    assert Decay(29, 7564) == 1 && Decay(30, 7564) == 0;
  }

  lemma FirstLastingDecay()
    ensures Decay(MAX_DISCOUNT_DEPTH, LAST_DYING_DISCOUNT + 1) == 1
  {
    assert Decay(1, 7565) == 7565 && Decay(2, 7565) == 5722 && Decay(3, 7565) == 4328;
    assert Decay(4, 7565) == 3274 && Decay(5, 7565) == 2476;
    assert Decay(6, 7565) == 1873 && Decay(7, 7565) == 1416 && Decay(8, 7565) == 1071;
    assert Decay(9, 7565) == 810 && Decay(10, 7565) == 612;
    assert Decay(11, 7565) == 462 && Decay(12, 7565) == 349 && Decay(13, 7565) == 264;
    assert Decay(14, 7565) == 199 && Decay(15, 7565) == 150;
    assert Decay(16, 7565) == 113 && Decay(17, 7565) == 85 && Decay(18, 7565) == 64;
    assert Decay(19, 7565) == 48 && Decay(20, 7565) == 36;
    assert Decay(21, 7565) == 27 && Decay(22, 7565) == 20 && Decay(23, 7565) == 15;
    assert Decay(24, 7565) == 11 && Decay(25, 7565) == 8;
    assert Decay(26, 7565) == 6 && Decay(27, 7565) == 4 && Decay(28, 7565) == 3;
    assert Decay(29, 7565) == 2 && Decay(30, 7565) == 1;
  }

  /** The ceiling of one group holds for groups of every size exactly up to a discount of 7564 basis points. */
  lemma GroupCeilingUpTo(d: Bps)
    requires d < 10000
    ensures d <= LAST_DYING_DISCOUNT <==>
            forall s: seq<Ranked>, m: nat ::
              WithinMagnitude(s, m) ==> (10000 - d) * Abs(DiscountedSum(s, d)) <= 10000 * m
  {
    GroupCeilingIff(d);
    LastDyingDecay();
    FirstLastingDecay();
    if d <= LAST_DYING_DISCOUNT {
      DecayMonotone(MAX_DISCOUNT_DEPTH, d, LAST_DYING_DISCOUNT);
    } else {
      DecayMonotone(MAX_DISCOUNT_DEPTH, LAST_DYING_DISCOUNT + 1, d);
    }
  }

  /** At 8000 basis points some group goes over the ceiling. */
  lemma SomeGroupOverCeiling() returns (s: seq<Ranked>, m: nat)
    ensures WithinMagnitude(s, m) && (10000 - 8000) * Abs(DiscountedSum(s, 8000)) > 10000 * m
  {
    GroupCeilingUpTo(8000);
    s, m :| WithinMagnitude(s, m) && !((10000 - 8000) * Abs(DiscountedSum(s, 8000)) <= 10000 * m);
  }

  /** From `10000 * x <= m * f` and `c * f <= 10^8`: `c * x <= 10^4 * m`. */
  lemma ChainBounds(c: nat, x: nat, f: nat, m: nat)
    requires 10000 * x <= m * f && c * f <= 100_000_000
    ensures c * x <= 10000 * m
  {
    assert c * (10000 * x) <= c * (m * f) by { assert c * (m * f - 10000 * x) >= 0; }
    assert c * (m * f) == m * (c * f);
    assert m * (c * f) <= m * 100_000_000 by { assert m * (100_000_000 - c * f) >= 0; }
    assert c * (10000 * x) == 10000 * (c * x);
  }

  // ---- the whole aggregate ----

  lemma GroupMagnitude(ev: seq<Evidence>, key: nat, d: Bps, m: nat)
    requires forall e :: e in ev ==> Abs(e.weight) <= m
    ensures 10000 * Abs(GroupTotal(ev, key, d)) <= m * FactorSum(|Members(ev, key)|, d)
  {
    var s := Members(ev, key);
    FilterMapOrigin(ev, PickMember(key));
    assert WithinMagnitude(s, m);
    RankedMagnitude(s, m);
    DiscountedMagnitude(RankSort(s), d, m);
  }

  /** With level-1 factors summing to at most `c`, every unassessed group total is at most `m * c / 10000`. */
  lemma UnassessedTotals(ev: seq<Evidence>, d: Bps, m: nat, c: nat, g: nat)
    requires forall e :: e in ev ==> Abs(e.weight) <= m
    requires forall n: nat :: FactorSum(n, d) <= c
    requires g == m * c / 10000
    ensures WithinMagnitude(Unassessed(ev, d), g)
  {
    var s := Unassessed(ev, d);
    FilterMapOrigin(Keys(ev), PickUnassessed(ev, d));
    forall r | r in s
      ensures Abs(r.weight) <= g
    {
      var k :| k in Keys(ev) && PickUnassessed(ev, d)(k) == Some(r);
      GroupMagnitude(ev, k, d, m);
      Times(FactorSum(|Members(ev, k)|, d), c, m);
    }
  }

  lemma ScaleTwice(x: nat, g: nat, f: nat, c: nat, mc: nat)
    requires 10000 * x <= g * f && f <= c && 10000 * g <= mc
    ensures 100_000_000 * x <= mc * c
  {
    Times(f, c, g);
    Times(10000 * g, mc, c);
    assert (10000 * g) * c == 10000 * (g * c);
  }

  /** And with level-2 factors summing to at most `c'`, so is their discounted total, twice scaled. */
  lemma UnassessedMagnitude(ev: seq<Evidence>, d: Bps, u: Bps, m: nat, c: nat, c': nat)
    requires forall e :: e in ev ==> Abs(e.weight) <= m
    requires forall n: nat :: FactorSum(n, d) <= c
    requires forall n: nat :: n <= MAX_DISCOUNT_DEPTH ==> FactorSum(n, u) <= c'
    ensures 100_000_000 * Abs(UnassessedTotal(ev, d, u)) <= m * c * c'
  {
    var g: nat := m * c / 10000;
    UnassessedTotals(ev, d, m, c, g);
    RankedMagnitude(Unassessed(ev, d), g);
    var t := UpToDepth(RankSort(Unassessed(ev, d)));
    DiscountedMagnitude(t, u, g);
    ScaleTwice(Abs(DiscountedSum(t, u)), g, FactorSum(|t|, u), c', m * c);
  }

  lemma DefaultFactorsSum(n: nat)
    ensures FactorSum(n, DEFAULT_DISCOUNT_BPS) <= 14284
  {
    var d := DEFAULT_DISCOUNT_BPS;
    assert Decay(0, d) == 10000;
    assert Decay(1, d) == 3000;
    assert Decay(2, d) == 900;
    assert Decay(3, d) == 270;
    assert Decay(4, d) == 81;
    assert Decay(5, d) == 24;
    assert Decay(6, d) == 7;
    assert Decay(7, d) == 2;
    assert Decay(8, d) == 0;
    assert FactorSum(1, d) == 10000;
    assert FactorSum(2, d) == 13000;
    assert FactorSum(3, d) == 13900;
    assert FactorSum(4, d) == 14170;
    assert FactorSum(5, d) == 14251;
    assert FactorSum(6, d) == 14275;
    assert FactorSum(7, d) == 14282;
    assert FactorSum(8, d) == 14284;
    if n >= 8 { FactorsStop(n, 8, d); } else { FactorSumGrows(n, 8, d); }
  }

  lemma {:induction false} FactorsStop(n: nat, k: nat, d: Bps)
    requires k <= n && k <= MAX_DISCOUNT_DEPTH && Decay(k, d) == 0
    ensures FactorSum(n, d) == FactorSum(k, d)
  {
    if k < n {
      FactorsStop(n - 1, k, d);
      DecayShrinks(k, if n - 1 < MAX_DISCOUNT_DEPTH then n - 1 else MAX_DISCOUNT_DEPTH, d);
    }
  }

  lemma {:induction false} FactorSumGrows(n: nat, k: nat, d: Bps)
    requires n <= k
    ensures FactorSum(n, d) <= FactorSum(k, d)
  {
    if n < k { FactorSumGrows(n, k - 1, d); }
  }

  /** With the shipped discounts, unassessed evidence of any size weighs at most 7.142 single claims. */
  lemma UnassessedCeiling(ev: seq<Evidence>, m: nat)
    requires forall e :: e in ev ==> Abs(e.weight) <= m
    ensures 1000 * Abs(UnassessedTotal(ev, DEFAULT_DISCOUNT_BPS, UNASSESSED_DISCOUNT_BPS)) <= 7142 * m
  {
    forall n: nat ensures FactorSum(n, DEFAULT_DISCOUNT_BPS) <= 14284 { DefaultFactorsSum(n); }
    forall n: nat | n <= MAX_DISCOUNT_DEPTH
      ensures FactorSum(n, UNASSESSED_DISCOUNT_BPS) <= 50000
    {
      GeometricSum(n, UNASSESSED_DISCOUNT_BPS);
    }
    UnassessedMagnitude(ev, DEFAULT_DISCOUNT_BPS, UNASSESSED_DISCOUNT_BPS, m, 14284, 50000);
  }

  /** If no group is assessed, the whole aggregate is under that ceiling, however many claims and groups. */
  lemma AggregateCeiling(ev: seq<Evidence>, m: nat)
    requires forall e :: e in ev ==> Abs(e.weight) <= m
    requires forall k :: k in Keys(ev) ==> !AllAssessed(ev, k)
    ensures 1000 * Abs(Aggregate(ev, DEFAULT_DISCOUNT_BPS, UNASSESSED_DISCOUNT_BPS)) <= 7142 * m
  {
    UnassessedCeiling(ev, m);
    NoAssessedPart(ev, Keys(ev), DEFAULT_DISCOUNT_BPS);
  }

  lemma {:induction false} NoAssessedPart(ev: seq<Evidence>, keys: seq<nat>, d: Bps)
    requires forall k :: k in keys ==> !AllAssessed(ev, k)
    ensures SumOf(keys, AssessedPart(ev, d)) == 0
  {
    if keys != [] {
      NoAssessedPart(ev, keys[..|keys| - 1], d);
      assert keys[|keys| - 1] in keys;
    }
  }

  // ---- the i64 accumulators ----

  const REALISTIC_EVIDENCE: nat := 400_000

  function One(): Evidence -> int {
    (e: Evidence) => 1
  }

  /** The total of one group, and each partial sum on the way, is within `2^31` per member. */
  lemma GroupWithinWidth(ev: seq<Evidence>, key: nat, d: Bps, n: nat)
    requires n <= |Members(ev, key)|
    ensures |RankSort(Members(ev, key))| == |Members(ev, key)| == SumOf(ev, Keyed(key, One()))
    ensures Abs(DiscountedSum(RankSort(Members(ev, key))[..n], d)) <= 0x8000_0000 * n
    ensures |Members(ev, key)| <= |ev|
  {
    var s, m := Members(ev, key), 0x8000_0000;
    FilterMapOrigin(ev, PickMember(key));
    FilterMapShorter(ev, PickMember(key));
    RankedMagnitude(s, m);
    var t := RankSort(s)[..n];
    DiscountedMagnitude(t, d, m);
    FactorSumAtMost(n, d);
    Times(FactorSum(n, d), 10000 * n, m);
    SumFilterMap(ev, PickMember(key), r => 1, Keyed(key, One()));
    SumOfOnes(s, r => 1);
  }

  lemma {:induction false} SumOfOnes<T>(s: seq<T>, f: T -> int)
    requires forall x :: f(x) == 1
    ensures SumOf(s, f) == |s|
  {
    if s != [] { SumOfOnes(s[..|s| - 1], f); }
  }

  lemma {:induction false} FactorSumAtMost(n: nat, d: Bps)
    ensures FactorSum(n, d) <= 10000 * n
  {
    if n > 0 { FactorSumAtMost(n - 1, d); }
  }

  lemma {:induction false} AssessedWithinWidth(ev: seq<Evidence>, keys: seq<nat>, d: Bps)
    ensures Abs(SumOf(keys, AssessedPart(ev, d))) <= 0x8000_0000 * SumOf(keys, GroupSum(ev, One()))
  {
    if keys != [] {
      var n := |keys| - 1;
      AssessedWithinWidth(ev, keys[..n], d);
      var s := RankSort(Members(ev, keys[n]));
      GroupWithinWidth(ev, keys[n], d, |Members(ev, keys[n])|);
      assert s[..|s|] == s;
    }
  }

  /** Every unassessed group total is within `2^31` per piece of evidence. */
  lemma UnassessedWithinWidth(ev: seq<Evidence>, d: Bps)
    ensures WithinMagnitude(UpToDepth(RankSort(Unassessed(ev, d))), 0x8000_0000 * |ev|)
  {
    var s := Unassessed(ev, d);
    FilterMapOrigin(Keys(ev), PickUnassessed(ev, d));
    forall r | r in s
      ensures Abs(r.weight) <= 0x8000_0000 * |ev|
    {
      var k :| k in Keys(ev) && PickUnassessed(ev, d)(k) == Some(r);
      GroupWithinWidth(ev, k, d, |Members(ev, k)|);
      assert RankSort(Members(ev, k))[..|Members(ev, k)|] == RankSort(Members(ev, k));
    }
    RankedMagnitude(s, 0x8000_0000 * |ev|);
  }

  /** The level-2 sum, after any number of groups, is within the depth cap times that. */
  lemma LevelTwoWithinWidth(ev: seq<Evidence>, d: Bps, u: Bps, j: nat)
    requires j <= |UpToDepth(RankSort(Unassessed(ev, d)))|
    ensures Abs(DiscountedSum(UpToDepth(RankSort(Unassessed(ev, d)))[..j], u)) <=
      0x8000_0000 * |ev| * MAX_DISCOUNT_DEPTH
  {
    var t, m := UpToDepth(RankSort(Unassessed(ev, d))), 0x8000_0000 * |ev|;
    UnassessedWithinWidth(ev, d);
    assert WithinMagnitude(t[..j], m);
    DiscountedMagnitude(t[..j], u, m);
    FactorSumAtMost(j, u);
    Times(FactorSum(j, u), 10000 * MAX_DISCOUNT_DEPTH, m);
  }

  /**
   * On up to 400 000 pieces of evidence no partial sum of either level, the running total of level 2 included, and
   * no product of a group total with a factor, leaves the `i64` range: the saturating additions never saturate.
   */
  lemma SaturationNeverFires(ev: seq<Evidence>, key: nat, d: Bps, u: Bps, n: nat, i: nat, j: nat)
    requires |ev| <= REALISTIC_EVIDENCE && n <= |Members(ev, key)| && i <= |Keys(ev)|
    requires j <= |UpToDepth(RankSort(Unassessed(ev, d)))|
    ensures n <= |RankSort(Members(ev, key))|
    ensures Abs(DiscountedSum(RankSort(Members(ev, key))[..n], d)) * 10000 <= I64_MAX
    ensures Abs(SumOf(Keys(ev)[..i], AssessedPart(ev, d))) <= I64_MAX / 2
    ensures Abs(AssessedTotal(ev, d) + DiscountedSum(UpToDepth(RankSort(Unassessed(ev, d)))[..j], u)) <= I64_MAX
  {
    GroupWithinWidth(ev, key, d, n);
    KeysWithinWidth(ev, d, i);
    RunningTotalWithinWidth(ev, d, u, j);
  }

  lemma RunningTotalWithinWidth(ev: seq<Evidence>, d: Bps, u: Bps, j: nat)
    requires j <= |UpToDepth(RankSort(Unassessed(ev, d)))|
    ensures Abs(AssessedTotal(ev, d) + DiscountedSum(UpToDepth(RankSort(Unassessed(ev, d)))[..j], u)) <=
      0x8000_0000 * |ev| * (MAX_DISCOUNT_DEPTH + 1)
  {
    KeysWithinWidth(ev, d, |Keys(ev)|);
    assert Keys(ev)[..|Keys(ev)|] == Keys(ev);
    LevelTwoWithinWidth(ev, d, u, j);
  }

  lemma KeysWithinWidth(ev: seq<Evidence>, d: Bps, i: nat)
    requires i <= |Keys(ev)|
    ensures Abs(SumOf(Keys(ev)[..i], AssessedPart(ev, d))) <= 0x8000_0000 * |ev|
  {
    var keys := Keys(ev);
    AssessedWithinWidth(ev, keys[..i], d);
    SomeGroups(ev, keys, i);
    GroupsPartition(ev, keys, One());
    SumOfOnes(ev, One());
  }

  lemma SomeGroups(ev: seq<Evidence>, keys: seq<nat>, i: nat)
    requires i <= |keys|
    ensures SumOf(keys[..i], GroupSum(ev, One())) <= SumOf(keys, GroupSum(ev, One()))
  {
    var a, b := keys[..i], keys[i..];
    assert keys == a + b;
    SumConcat(a, b, GroupSum(ev, One()));
    forall k ensures GroupSum(ev, One())(k) >= 0 { SumNonNegative(ev, Keyed(k, One())); }
    SumNonNegative(b, GroupSum(ev, One()));
  }
}
