/** The two-level aggregation does not depend on the order of the evidence, and why it needs the id tie-break. */
module LogOddsLaws {
  import opened Numeric
  import opened Bags
  import opened LogOddsAggregation

  // ---- the ranking sort ----

  predicate RankSorted(s: seq<Ranked>) {
    forall i, j :: 0 <= i < j < |s| ==> Precedes(s[i], s[j])
  }

  lemma {:induction false} InsertRankedSorted(x: Ranked, s: seq<Ranked>)
    requires RankSorted(s)
    ensures RankSorted(InsertRanked(x, s))
    ensures forall y :: y in InsertRanked(x, s) <==> y == x || y in s
  {
    if s != [] {
      assert s == [s[0]] + s[1..];
      assert forall y :: y in s ==> y == s[0] || Precedes(s[0], y);
      if !Precedes(x, s[0]) {
        InsertRankedSorted(x, s[1..]);
        var rest := InsertRanked(x, s[1..]);
        assert forall i :: 0 <= i < |rest| ==> rest[i] in rest;
      }
    }
  }

  lemma {:induction false} InsertRankedBag(x: Ranked, s: seq<Ranked>)
    ensures multiset(InsertRanked(x, s)) == multiset(s) + multiset{x}
    ensures |InsertRanked(x, s)| == |s| + 1
  {
    if s != [] {
      assert s == [s[0]] + s[1..];
      if !Precedes(x, s[0]) { InsertRankedBag(x, s[1..]); }
    }
  }

  lemma {:induction false} RankSortSorted(s: seq<Ranked>)
    ensures RankSorted(RankSort(s)) && multiset(RankSort(s)) == multiset(s) && |RankSort(s)| == |s|
  {
    if s != [] {
      assert s == [s[0]] + s[1..];
      RankSortSorted(s[1..]);
      InsertRankedSorted(s[0], RankSort(s[1..]));
      InsertRankedBag(s[0], RankSort(s[1..]));
    }
  }

  /** The comparator leaves no two different elements of `s` tied. */
  ghost predicate NoTies(s: seq<Ranked>) {
    forall a, b :: a in s && b in s && Precedes(a, b) && Precedes(b, a) ==> a == b
  }

  lemma SortedHead(s: seq<Ranked>, t: seq<Ranked>)
    requires RankSorted(s) && RankSorted(t) && NoTies(s) && multiset(s) == multiset(t)
    requires |s| > 0 && |t| > 0
    ensures s[0] == t[0]
  {
    BagMembers(s, t);
    assert s[0] in t && t[0] in s;
  }

  lemma {:induction false} RankSortedUnique(s: seq<Ranked>, t: seq<Ranked>)
    requires RankSorted(s) && RankSorted(t) && NoTies(s) && multiset(s) == multiset(t)
    ensures s == t
    decreases |s|
  {
    BagLength(s, t);
    if |s| > 0 {
      SortedHead(s, t);
      DropHeadBag(s);
      DropHeadBag(t);
      assert forall y :: y in s[1..] ==> y in s;
      RankSortedUnique(s[1..], t[1..]);
      assert s == [s[0]] + s[1..] && t == [t[0]] + t[1..];
    }
  }

  /** Sorting by `Precedes` forgets the order of the input unless two different elements tie. */
  lemma RankSortPermuted(s: seq<Ranked>, t: seq<Ranked>)
    requires multiset(s) == multiset(t) && NoTies(s)
    ensures RankSort(s) == RankSort(t)
  {
    RankSortSorted(s);
    RankSortSorted(t);
    BagMembers(s, RankSort(s));
    RankSortedUnique(RankSort(s), RankSort(t));
  }

  // ---- order independence of the aggregate ----

  /** No two members of one group tie in magnitude and id but differ in sign. */
  ghost predicate Untied(ev: seq<Evidence>) {
    forall e, f | e in ev && f in ev && e.group.key == f.group.key && e.id == f.id ::
      Abs(e.weight) == Abs(f.weight) ==> e.weight == f.weight
  }

  lemma MembersUntied(ev: seq<Evidence>, key: nat)
    requires Untied(ev)
    ensures NoTies(Members(ev, key))
  {
    var s := Members(ev, key);
    FilterMapOrigin(ev, PickMember(key));
    forall a, b | a in s && b in s && Precedes(a, b) && Precedes(b, a)
      ensures a == b
    {
      var e :| e in ev && PickMember(key)(e) == Some(a);
      var f :| f in ev && PickMember(key)(f) == Some(b);
    }
  }

  lemma {:induction false} LeastIdLeast(s: seq<Ranked>)
    requires s != []
    ensures exists x :: x in s && x.id == LeastId(s)
    ensures forall x :: x in s ==> LeastId(s) <= x.id
  {
    var a, z := s[..|s| - 1], s[|s| - 1];
    assert forall x :: x in s <==> x in a || x == z;
    if |s| > 1 {
      LeastIdLeast(a);
    }
  }

  lemma LeastIdPermuted(s: seq<Ranked>, t: seq<Ranked>)
    requires multiset(s) == multiset(t) && s != [] && t != []
    ensures LeastId(s) == LeastId(t)
  {
    BagMembers(s, t);
    LeastIdLeast(s);
    LeastIdLeast(t);
  }

  lemma KeysPermuted(ev: seq<Evidence>, ev': seq<Evidence>)
    requires multiset(ev) == multiset(ev')
    ensures Keys(ev) == Keys(ev')
    ensures forall k :: AllAssessed(ev, k) == AllAssessed(ev', k)
  {
    BagMembers(ev, ev');
    StrictUnique(Keys(ev), Keys(ev'));
  }

  lemma GroupPermuted(ev: seq<Evidence>, ev': seq<Evidence>, key: nat, d: Bps)
    requires multiset(ev) == multiset(ev') && Untied(ev)
    ensures GroupTotal(ev, key, d) == GroupTotal(ev', key, d)
    ensures Anchor(ev, key) == Anchor(ev', key)
  {
    FilterMapPermuted(ev, ev', PickMember(key));
    BagLength(Members(ev, key), Members(ev', key));
    MembersUntied(ev, key);
    RankSortPermuted(Members(ev, key), Members(ev', key));
    if Members(ev, key) != [] {
      LeastIdPermuted(Members(ev, key), Members(ev', key));
    }
  }

  /** Permuting the evidence leaves the aggregate unchanged: signed weights, any mix of groups. */
  lemma AggregateIgnoresOrder(ev: seq<Evidence>, ev': seq<Evidence>, d: Bps, u: Bps)
    requires multiset(ev) == multiset(ev') && Untied(ev)
    ensures Aggregate(ev, d, u) == Aggregate(ev', d, u)
  {
    KeysPermuted(ev, ev');
    forall k
      ensures AssessedPart(ev, d)(k) == AssessedPart(ev', d)(k)
      ensures PickUnassessed(ev, d)(k) == PickUnassessed(ev', d)(k)
    {
      GroupPermuted(ev, ev', k, d);
    }
    SumSame(Keys(ev), AssessedPart(ev, d), AssessedPart(ev', d));
    FilterMapSame(Keys(ev), PickUnassessed(ev, d), PickUnassessed(ev', d));
  }

  /** Ties differing in sign do make the order matter: two ids collide, and the first one seen ranks first. */
  lemma TiedEvidenceDependsOnOrder()
    ensures exists ev: seq<Evidence>, ev': seq<Evidence> ::
      multiset(ev) == multiset(ev') && !Untied(ev) &&
      Aggregate(ev, DEFAULT_DISCOUNT_BPS, UNASSESSED_DISCOUNT_BPS)
      != Aggregate(ev', DEFAULT_DISCOUNT_BPS, UNASSESSED_DISCOUNT_BPS)
  {
    var g := CorrelationGroup(1, true);
    var a, b := Evidence(1000, g, 5), Evidence(-1000, g, 5);
    OnePair(a, b);
    OnePair(b, a);
    assert multiset([a, b]) == multiset([b, a]);
    assert a in [a, b] && b in [a, b];
  }

  ghost predicate Pair(a: Evidence, b: Evidence) {
    && a.group == b.group && a.group.assessed && a.id == b.id
    && Abs(a.weight) == 1000 && Abs(b.weight) == 1000
  }

  lemma PairGrouped(a: Evidence, b: Evidence)
    requires Pair(a, b)
    ensures Keys([a, b]) == [a.group.key] && AllAssessed([a, b], a.group.key)
    ensures Members([a, b], a.group.key) == [Ranked(a.weight, a.id), Ranked(b.weight, b.id)]
  {
    var k := a.group.key;
    assert [] + [a] == [a] && [a] + [b] == [a, b];
    KeysSnoc([], a);
    KeysSnoc([a], b);
    FilterMapSingle(a, PickMember(k));
    FilterMapSingle(b, PickMember(k));
    FilterMapConcat([a], [b], PickMember(k));
  }

  lemma PairRanked(x: Ranked, y: Ranked)
    requires x.id == y.id && Abs(x.weight) == 1000 && Abs(y.weight) == 1000
    ensures DiscountedSum(RankSort([x, y]), 3000) == x.weight + Quot(y.weight * 3000, 10000)
  {
    assert [x, y][1..] == [y] && [y][1..] == [];
    assert RankSort([y]) == [y];
    assert RankSort([x, y]) == [x, y];
    assert [x, y][..1] == [x] && [x][..0] == [];
    assert Decay(0, 3000) == 10000;
    assert DiscountFactor(0, 3000) == 10000 && DiscountFactor(1, 3000) == 3000;
    assert DiscountedSum([x], 3000) == x.weight;
  }

  lemma OnePair(a: Evidence, b: Evidence)
    requires Pair(a, b)
    ensures Aggregate([a, b], 3000, 8000) == a.weight + Quot(b.weight * 3000, 10000)
  {
    var ev, k := [a, b], a.group.key;
    PairGrouped(a, b);
    PairRanked(Ranked(a.weight, a.id), Ranked(b.weight, b.id));
    SumSingle(k, AssessedPart(ev, 3000));
    FilterMapSingle(k, PickUnassessed(ev, 3000));
    assert RankSort([]) == [];
  }
}
