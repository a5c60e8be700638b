/** Size of the aggregate on supporting evidence: monotone and never more than the sum. */
module LogOddsBounds {
  import opened Numeric
  import opened Bags
  import opened LogOddsAggregation
  import opened LogOddsLaws

  // ---- monotonicity although ranks permute ----

  /** `s` and `t` are equally long, non-negative, and `s` is pointwise no heavier. */
  ghost predicate Below(s: seq<Ranked>, t: seq<Ranked>) {
    |s| == |t| && forall i :: 0 <= i < |s| ==> 0 <= s[i].weight <= t[i].weight
  }

  lemma BelowCons(x: Ranked, s: seq<Ranked>, y: Ranked, t: seq<Ranked>)
    requires 0 <= x.weight <= y.weight && Below(s, t)
    ensures Below([x] + s, [y] + t)
  {
  }

  lemma {:induction false} InsertRankedMonotone(x: Ranked, s: seq<Ranked>, y: Ranked, t: seq<Ranked>)
    requires RankSorted(s) && RankSorted(t)
    requires 0 <= x.weight <= y.weight && Below(s, t)
    ensures Below(InsertRanked(x, s), InsertRanked(y, t))
    decreases |s|
  {
    if s != [] {
      var s', t' := s[1..], t[1..];
      assert s == [s[0]] + s' && t == [t[0]] + t';
      InsertSortedHead(s);
      InsertSortedHead(t);
      if Precedes(x, s[0]) && !Precedes(y, t[0]) {
        InsertRankedMonotone(s[0], s', y, t');
        BelowCons(x, s, t[0], InsertRanked(y, t'));
      } else if !Precedes(x, s[0]) && Precedes(y, t[0]) {
        InsertRankedMonotone(x, s', t[0], t');
        BelowCons(s[0], InsertRanked(x, s'), y, t);
      } else if !Precedes(x, s[0]) {
        InsertRankedMonotone(x, s', y, t');
        BelowCons(s[0], InsertRanked(x, s'), t[0], InsertRanked(y, t'));
      }
    }
  }

  lemma InsertSortedHead(s: seq<Ranked>)
    requires RankSorted(s) && s != []
    ensures InsertRanked(s[0], s[1..]) == s
  {
    assert s == [s[0]] + s[1..];
    if |s| > 1 {
      assert Precedes(s[0], s[1]);
    }
  }

  /** Raising weights raises every entry of the sorted sequence, whatever happens to the ranks. */
  lemma {:induction false} RankSortMonotone(s: seq<Ranked>, t: seq<Ranked>)
    requires Below(s, t)
    ensures Below(RankSort(s), RankSort(t))
  {
    if s != [] {
      RankSortMonotone(s[1..], t[1..]);
      RankSortSorted(s[1..]);
      RankSortSorted(t[1..]);
      InsertRankedMonotone(s[0], RankSort(s[1..]), t[0], RankSort(t[1..]));
    }
  }

  lemma {:induction false} DiscountedSumMonotone(s: seq<Ranked>, t: seq<Ranked>, d: Bps)
    requires Below(s, t)
    ensures 0 <= DiscountedSum(s, d) <= DiscountedSum(t, d)
  {
    if s != [] {
      var n := |s| - 1;
      DiscountedSumMonotone(s[..n], t[..n], d);
      ScaleMonotone(s[n].weight, t[n].weight, DiscountFactor(n, d));
    }
  }

  /** The same evidence, with weights that are non-negative and no larger. */
  ghost predicate Weaker(ev: seq<Evidence>, ev': seq<Evidence>) {
    |ev| == |ev'| && forall i :: 0 <= i < |ev| ==>
      ev[i].group == ev'[i].group && ev[i].id == ev'[i].id && 0 <= ev[i].weight <= ev'[i].weight
  }

  lemma {:induction false} WeakerMembers(ev: seq<Evidence>, ev': seq<Evidence>, key: nat)
    requires Weaker(ev, ev')
    ensures Below(Members(ev, key), Members(ev', key))
    ensures AllAssessed(ev, key) == AllAssessed(ev', key)
  {
    if ev != [] {
      var n := |ev| - 1;
      var a, z, a', z' := ev[..n], ev[n], ev'[..n], ev'[n];
      WeakerMembers(a, a', key);
      assert forall x :: x in ev <==> x in a || x == z;
      assert forall x :: x in ev' <==> x in a' || x == z';
    }
  }

  lemma {:induction false} WeakerKeys(ev: seq<Evidence>, ev': seq<Evidence>)
    requires Weaker(ev, ev')
    ensures Keys(ev) == Keys(ev')
  {
    if ev != [] { WeakerKeys(ev[..|ev| - 1], ev'[..|ev| - 1]); }
  }

  lemma WeakerTotals(ev: seq<Evidence>, ev': seq<Evidence>, key: nat, d: Bps)
    requires Weaker(ev, ev')
    ensures 0 <= GroupTotal(ev, key, d) <= GroupTotal(ev', key, d)
    ensures AllAssessed(ev, key) == AllAssessed(ev', key)
  {
    WeakerMembers(ev, ev', key);
    RankSortMonotone(Members(ev, key), Members(ev', key));
    DiscountedSumMonotone(RankSort(Members(ev, key)), RankSort(Members(ev', key)), d);
  }

  lemma {:induction false} WeakerUnassessed(ev: seq<Evidence>, ev': seq<Evidence>, keys: seq<nat>, d: Bps)
    requires Weaker(ev, ev')
    ensures Below(FilterMap(keys, PickUnassessed(ev, d)), FilterMap(keys, PickUnassessed(ev', d)))
  {
    if keys != [] {
      WeakerUnassessed(ev, ev', keys[..|keys| - 1], d);
      WeakerTotals(ev, ev', keys[|keys| - 1], d);
    }
  }

  /** On supporting evidence the aggregate is monotone in every weight. */
  lemma AggregateMonotone(ev: seq<Evidence>, ev': seq<Evidence>, d: Bps, u: Bps)
    requires Weaker(ev, ev')
    ensures 0 <= Aggregate(ev, d, u) <= Aggregate(ev', d, u)
  {
    WeakerKeys(ev, ev');
    forall k
      ensures 0 <= AssessedPart(ev, d)(k) <= AssessedPart(ev', d)(k)
    {
      WeakerTotals(ev, ev', k, d);
    }
    SumNonNegative(Keys(ev), AssessedPart(ev, d));
    SumBounded(Keys(ev), AssessedPart(ev, d), AssessedPart(ev', d));
    WeakerUnassessed(ev, ev', Keys(ev), d);
    var s, t := RankSort(Unassessed(ev, d)), RankSort(Unassessed(ev', d));
    RankSortMonotone(Unassessed(ev, d), Unassessed(ev', d));
    DiscountedSumMonotone(UpToDepth(s), UpToDepth(t), u);
  }

  // ---- no gain: at most the plain sum ----

  function WeightOf(): Ranked -> int {
    (r: Ranked) => r.weight
  }

  function EvidenceWeight(): Evidence -> int {
    (e: Evidence) => e.weight
  }

  ghost predicate Supporting(s: seq<Ranked>) {
    forall r :: r in s ==> r.weight >= 0
  }

  lemma {:induction false} DiscountedAtMostSum(s: seq<Ranked>, d: Bps)
    requires Supporting(s)
    ensures 0 <= DiscountedSum(s, d) <= SumOf(s, WeightOf())
  {
    if s != [] {
      var n := |s| - 1;
      DiscountedAtMostSum(s[..n], d);
      assert s[n] in s;
      ScaleShrinks(s[n].weight, DiscountFactor(n, d));
    }
  }

  lemma RankedTotalAtMostSum(s: seq<Ranked>, d: Bps)
    requires Supporting(s)
    ensures 0 <= DiscountedSum(RankSort(s), d) <= SumOf(s, WeightOf())
    ensures 0 <= DiscountedSum(UpToDepth(RankSort(s)), d) <= SumOf(s, WeightOf())
  {
    var t := RankSort(s);
    RankSortSorted(s);
    BagMembers(s, t);
    SumPermuted(s, t, WeightOf());
    DiscountedAtMostSum(t, d);
    if |t| > MAX_DISCOUNT_DEPTH {
      var a, b := t[..MAX_DISCOUNT_DEPTH], t[MAX_DISCOUNT_DEPTH..];
      assert t == a + b;
      SumConcat(a, b, WeightOf());
      SumNonNegative(b, WeightOf());
      DiscountedAtMostSum(a, d);
    }
  }

  function Keyed(key: nat, f: Evidence -> int): Evidence -> int {
    (e: Evidence) => if e.group.key == key then f(e) else 0
  }

  function GroupSum(ev: seq<Evidence>, f: Evidence -> int): nat -> int {
    (key: nat) => SumOf(ev, Keyed(key, f))
  }

  function AtKey(e: Evidence, f: Evidence -> int): nat -> int {
    (key: nat) => if e.group.key == key then f(e) else 0
  }

  function Nothing(): nat -> int {
    (key: nat) => 0
  }

  lemma {:induction false} AtKeyOnce(keys: seq<nat>, e: Evidence, f: Evidence -> int)
    requires StrictlyAscending(keys)
    ensures SumOf(keys, AtKey(e, f)) == if e.group.key in keys then f(e) else 0
  {
    if keys != [] {
      var a, z := keys[..|keys| - 1], keys[|keys| - 1];
      AtKeyOnce(a, e, f);
      assert forall k :: k in keys <==> k in a || k == z;
      assert z !in a;
    }
  }

  lemma {:induction false} SumNothing(keys: seq<nat>)
    ensures SumOf(keys, Nothing()) == 0
  {
    if keys != [] {
      SumNothing(keys[..|keys| - 1]);
    }
  }

  lemma {:induction false} SumAdds(keys: seq<nat>, f: nat -> int, g: nat -> int, h: nat -> int)
    requires forall k :: h(k) == f(k) + g(k)
    ensures SumOf(keys, h) == SumOf(keys, f) + SumOf(keys, g)
  {
    if keys != [] {
      SumAdds(keys[..|keys| - 1], f, g, h);
    }
  }

  /** Summing group by group is summing once. */
  lemma {:induction false} GroupsPartition(ev: seq<Evidence>, keys: seq<nat>, f: Evidence -> int)
    requires StrictlyAscending(keys)
    requires forall e :: e in ev ==> e.group.key in keys
    ensures SumOf(keys, GroupSum(ev, f)) == SumOf(ev, f)
  {
    if ev == [] {
      SumSame(keys, GroupSum(ev, f), Nothing());
      SumNothing(keys);
    } else {
      var a, z := ev[..|ev| - 1], ev[|ev| - 1];
      GroupsPartition(a, keys, f);
      assert z in ev;
      AtKeyOnce(keys, z, f);
      SumAdds(keys, GroupSum(a, f), AtKey(z, f), GroupSum(ev, f));
    }
  }

  lemma GroupAtMostSum(ev: seq<Evidence>, key: nat, d: Bps)
    requires forall e :: e in ev ==> e.weight >= 0
    ensures 0 <= GroupTotal(ev, key, d) <= GroupSum(ev, EvidenceWeight())(key)
  {
    var members := Members(ev, key);
    FilterMapOrigin(ev, PickMember(key));
    assert Supporting(members);
    RankedTotalAtMostSum(members, d);
    SumFilterMap(ev, PickMember(key), WeightOf(), Keyed(key, EvidenceWeight()));
  }

  function UnassessedPart(ev: seq<Evidence>, d: Bps): nat -> int {
    (key: nat) => if AllAssessed(ev, key) then 0 else GroupTotal(ev, key, d)
  }

  lemma UnassessedAtMostSum(ev: seq<Evidence>, d: Bps, u: Bps)
    requires forall e :: e in ev ==> e.weight >= 0
    ensures 0 <= UnassessedTotal(ev, d, u) <= SumOf(Keys(ev), UnassessedPart(ev, d))
  {
    var keys, s := Keys(ev), Unassessed(ev, d);
    FilterMapOrigin(keys, PickUnassessed(ev, d));
    forall r | r in s
      ensures r.weight >= 0
    {
      var k :| k in keys && PickUnassessed(ev, d)(k) == Some(r);
      GroupAtMostSum(ev, k, d);
    }
    RankedTotalAtMostSum(s, u);
    SumFilterMap(keys, PickUnassessed(ev, d), WeightOf(), UnassessedPart(ev, d));
  }

  /** Supporting evidence never aggregates to more than the plain sum of its weights. */
  lemma AggregateAtMostSum(ev: seq<Evidence>, d: Bps, u: Bps)
    requires forall e :: e in ev ==> e.weight >= 0
    ensures 0 <= Aggregate(ev, d, u) <= SumOf(ev, EvidenceWeight())
  {
    var keys := Keys(ev);
    forall k
      ensures 0 <= AssessedPart(ev, d)(k) && 0 <= UnassessedPart(ev, d)(k)
      ensures AssessedPart(ev, d)(k) + UnassessedPart(ev, d)(k) <= GroupSum(ev, EvidenceWeight())(k)
    {
      GroupAtMostSum(ev, k, d);
    }
    UnassessedAtMostSum(ev, d, u);
    SumNonNegative(keys, AssessedPart(ev, d));
    SumExchange(keys, AssessedPart(ev, d), UnassessedPart(ev, d), GroupSum(ev, EvidenceWeight()), Nothing());
    SumNothing(keys);
    GroupsPartition(ev, keys, EvidenceWeight());
  }
}
