/** Sorting claims by id, as edge generation and reduction both do before anything else. */
module ClaimOrder {
  import opened Bags
  import opened LogOddsAggregation
  import opened Claims
  import opened Correlation

  predicate IdAscending(s: seq<Claim>) {
    forall i, j :: 0 <= i < j < |s| ==> s[i].id <= s[j].id
  }

  predicate IdStrict(s: seq<Claim>) {
    forall i, j :: 0 <= i < j < |s| ==> s[i].id < s[j].id
  }

  function InsertById(x: Claim, s: seq<Claim>): seq<Claim> {
    if s == [] || x.id <= s[0].id then [x] + s else [s[0]] + InsertById(x, s[1..])
  }

  /** The stable sort by id. */
  function SortById(s: seq<Claim>): seq<Claim> {
    if s == [] then [] else InsertById(s[0], SortById(s[1..]))
  }

  lemma {:induction false} InsertByIdSorted(x: Claim, s: seq<Claim>)
    requires IdAscending(s)
    ensures IdAscending(InsertById(x, s))
    ensures forall y :: y in InsertById(x, s) <==> y == x || y in s
  {
    if s != [] {
      assert s == [s[0]] + s[1..];
      assert forall y :: y in s ==> s[0].id <= y.id;
      if x.id > s[0].id {
        InsertByIdSorted(x, s[1..]);
        var rest := InsertById(x, s[1..]);
        assert forall i :: 0 <= i < |rest| ==> rest[i] in rest;
      }
    }
  }

  lemma {:induction false} InsertByIdBag(x: Claim, s: seq<Claim>)
    ensures multiset(InsertById(x, s)) == multiset(s) + multiset{x}
  {
    if s != [] {
      assert s == [s[0]] + s[1..];
      if x.id > s[0].id { InsertByIdBag(x, s[1..]); }
    }
  }

  lemma {:induction false} SortByIdSorted(s: seq<Claim>)
    ensures IdAscending(SortById(s)) && multiset(SortById(s)) == multiset(s)
  {
    if s != [] {
      assert s == [s[0]] + s[1..];
      SortByIdSorted(s[1..]);
      InsertByIdSorted(s[0], SortById(s[1..]));
      InsertByIdBag(s[0], SortById(s[1..]));
    }
  }

  lemma SameFirst(s: seq<Claim>, t: seq<Claim>)
    requires IdAscending(s) && IdAscending(t) && IdsIdentify(s) && multiset(s) == multiset(t)
    requires |s| > 0 && |t| > 0
    ensures s[0] == t[0]
  {
    BagMembers(s, t);
    assert s[0] in t && t[0] in s;
  }

  lemma {:induction false} IdAscendingUnique(s: seq<Claim>, t: seq<Claim>)
    requires IdAscending(s) && IdAscending(t) && IdsIdentify(s) && multiset(s) == multiset(t)
    ensures s == t
    decreases |s|
  {
    BagLength(s, t);
    if |s| > 0 {
      SameFirst(s, t);
      DropHeadBag(s);
      DropHeadBag(t);
      assert forall c :: c in s[1..] ==> c in s;
      IdAscendingUnique(s[1..], t[1..]);
      assert s == [s[0]] + s[1..] && t == [t[0]] + t[1..];
    }
  }

  /** Sorting by id forgets the order of the input if ids identify claims. */
  lemma SortByIdPermuted(s: seq<Claim>, t: seq<Claim>)
    requires multiset(s) == multiset(t) && IdsIdentify(s)
    ensures SortById(s) == SortById(t)
  {
    SortByIdSorted(s);
    SortByIdSorted(t);
    BagMembers(s, SortById(s));
    IdAscendingUnique(SortById(s), SortById(t));
  }

  // ---- removing repeated ids ----

  /** Keep the first of each run of equal ids. */
  function DedupById(s: seq<Claim>): seq<Claim> {
    if |s| <= 1 then s
    else
      var n := |s| - 1;
      if s[n - 1].id == s[n].id then DedupById(s[..n]) else DedupById(s[..n]) + [s[n]]
  }

  lemma PrefixIdentified(s: seq<Claim>, n: nat)
    requires n <= |s| && IdsIdentify(s)
    ensures IdsIdentify(s[..n])
  {
    assert forall c :: c in s[..n] ==> c in s;
  }

  lemma {:induction false} DedupByIdLast(s: seq<Claim>)
    requires s != []
    ensures DedupById(s) != [] && DedupById(s)[|DedupById(s)| - 1].id == s[|s| - 1].id
  {
    if |s| > 1 { DedupByIdLast(s[..|s| - 1]); }
  }

  lemma {:induction false} DedupByIdKeeps(s: seq<Claim>)
    requires IdsIdentify(s)
    ensures forall c :: c in DedupById(s) <==> c in s
  {
    if |s| > 1 {
      var n := |s| - 1;
      assert forall c :: c in s <==> c in s[..n] || c == s[n];
      assert s[n - 1] == s[..n][n - 1] && s[n - 1] in s[..n];
      PrefixIdentified(s, n);
      DedupByIdKeeps(s[..n]);
      assert s[n - 1].id == s[n].id ==> s[n - 1] == s[n];
    }
  }

  lemma {:induction false} DedupByIdAscends(s: seq<Claim>)
    requires IdAscending(s)
    ensures IdStrict(DedupById(s))
  {
    if |s| > 1 {
      var n := |s| - 1;
      DedupByIdAscends(s[..n]);
      DedupByIdLast(s[..n]);
      DedupStep(DedupById(s[..n]), s[n - 1].id, s[n]);
    }
  }

  lemma DedupStep(d: seq<Claim>, last: ClaimHash, z: Claim)
    requires IdStrict(d) && d != [] && d[|d| - 1].id == last <= z.id
    ensures IdStrict(if last == z.id then d else d + [z])
  {
    if last != z.id { AppendStrict(d, z); }
  }

  lemma AppendStrict(d: seq<Claim>, z: Claim)
    requires IdStrict(d) && d != [] && d[|d| - 1].id < z.id
    ensures IdStrict(d + [z])
  {
  }

  lemma {:induction false} IdStrictUnique(s: seq<Claim>, t: seq<Claim>)
    requires IdStrict(s) && IdStrict(t) && forall c :: c in s <==> c in t
    ensures s == t
    decreases |s|
  {
    assert |s| > 0 ==> |t| > 0 by { if |s| > 0 { assert s[0] in t; } }
    assert |t| > 0 ==> |s| > 0 by { if |t| > 0 { assert t[0] in s; } }
    if |s| > 0 {
      assert s[0] in t && t[0] in s;
      assert s == [s[0]] + s[1..] && t == [t[0]] + t[1..];
      assert s[0] !in s[1..] && t[0] !in t[1..];
      assert forall c :: c in s[1..] <==> c in s && c != s[0];
      assert forall c :: c in t[1..] <==> c in t && c != t[0];
      IdStrictUnique(s[1..], t[1..]);
    }
  }

  /** The sorted, deduplicated claims depend only on which claims occur. */
  lemma CanonicalClaims(s: seq<Claim>, t: seq<Claim>)
    requires IdsIdentify(s) && forall c :: c in s <==> c in t
    ensures DedupById(SortById(s)) == DedupById(SortById(t))
    ensures IdStrict(DedupById(SortById(s))) && forall c :: c in DedupById(SortById(s)) <==> c in s
  {
    SortByIdSorted(s);
    SortByIdSorted(t);
    BagMembers(s, SortById(s));
    BagMembers(t, SortById(t));
    DedupByIdKeeps(SortById(s));
    DedupByIdKeeps(SortById(t));
    DedupByIdAscends(SortById(s));
    DedupByIdAscends(SortById(t));
    IdStrictUnique(DedupById(SortById(s)), DedupById(SortById(t)));
  }
}
