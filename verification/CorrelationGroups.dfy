/** The loops of `correlation_groups`: consistency scan, pairwise unions, component minima. */
module CorrelationGrouping {
  import opened Bags
  import opened LogOddsAggregation
  import opened Claims
  import opened Correlation
  import opened UnionFind

  // ---- pass 0: content/embedding consistency ----

  ghost predicate Carrier(claims: seq<Claim>, content: nat, e: Embedding) {
    exists c :: c in claims && c.primary == content && c.embedding == Some(e)
  }

  ghost predicate Deviates(claims: seq<Claim>, content: nat, e: Embedding) {
    exists c :: c in claims && c.primary == content && c.embedding.Some? && c.embedding.value != e
  }

  /** What the scan of a prefix remembers: the first embedding per content, and the contents that disagreed. */
  ghost predicate Scanned(claims: seq<Claim>, seen: map<nat, Embedding>, inconsistent: set<nat>) {
    && (forall c :: c in claims && c.embedding.Some? ==> c.primary in seen)
    && (forall k :: k in seen ==> Carrier(claims, k, seen[k]))
    && (forall k :: k in inconsistent <==> k in seen && Deviates(claims, k, seen[k]))
  }

  lemma ScannedFindsConflicts(claims: seq<Claim>, seen: map<nat, Embedding>, inconsistent: set<nat>)
    requires Scanned(claims, seen, inconsistent)
    ensures forall k :: k in inconsistent <==> Conflict(claims, k)
  {
    forall k: nat
      ensures k in inconsistent <==> Conflict(claims, k)
    {
      if k in inconsistent {
        assert Carrier(claims, k, seen[k]) && Deviates(claims, k, seen[k]);
        var c :| c in claims && c.primary == k && c.embedding.Some? && c.embedding.value != seen[k];
        var b :| b in claims && b.primary == k && b.embedding == Some(seen[k]);
        assert b.embedding != c.embedding;
      }
      if Conflict(claims, k) {
        var a, b :| a in claims && b in claims && a.primary == k && b.primary == k
          && a.embedding.Some? && b.embedding.Some? && a.embedding != b.embedding;
        assert a.embedding.value != seen[k] || b.embedding.value != seen[k];
        assert Deviates(claims, k, seen[k]);
      }
    }
  }

  lemma MoreClaims(claims: seq<Claim>, c: Claim, k: nat, e: Embedding)
    ensures Carrier(claims + [c], k, e) <==> Carrier(claims, k, e) || (c.primary == k && c.embedding == Some(e))
    ensures Deviates(claims + [c], k, e) <==>
      Deviates(claims, k, e) || (c.primary == k && c.embedding.Some? && c.embedding.value != e)
  {
    assert forall x :: x in claims + [c] <==> x in claims || x == c;
  }

  /** The state of the scan after one more claim. */
  function ScanSeen(seen: map<nat, Embedding>, c: Claim): map<nat, Embedding> {
    if c.embedding.Some? && c.primary !in seen then seen[c.primary := c.embedding.value] else seen
  }

  function ScanInconsistent(seen: map<nat, Embedding>, inconsistent: set<nat>, c: Claim): set<nat> {
    if c.embedding.Some? && c.primary in seen && seen[c.primary] != c.embedding.value
    then inconsistent + {c.primary} else inconsistent
  }

  lemma ScanStep(claims: seq<Claim>, c: Claim, seen: map<nat, Embedding>, inconsistent: set<nat>)
    requires Scanned(claims, seen, inconsistent)
    ensures Scanned(claims + [c], ScanSeen(seen, c), ScanInconsistent(seen, inconsistent, c))
  {
    var next, seen', inconsistent' := claims + [c], ScanSeen(seen, c), ScanInconsistent(seen, inconsistent, c);
    assert forall x :: x in next <==> x in claims || x == c;
    forall k | k in seen'
      ensures Carrier(next, k, seen'[k]) && (k in inconsistent' <==> Deviates(next, k, seen'[k]))
    {
      MoreClaims(claims, c, k, seen'[k]);
      assert k !in seen ==> !Deviates(claims, k, seen'[k]);
    }
  }

  method FindInconsistent(claims: seq<Claim>) returns (inconsistent: set<nat>)
    ensures forall k :: k in inconsistent <==> Conflict(claims, k)
  {
    var seen: map<nat, Embedding> := map[];
    inconsistent := {};
    for i := 0 to |claims|
      invariant Scanned(claims[..i], seen, inconsistent)
    {
      var c := claims[i];
      ghost var seen', inconsistent' := ScanSeen(seen, c), ScanInconsistent(seen, inconsistent, c);
      ScanStep(claims[..i], c, seen, inconsistent);
      assert claims[..i + 1] == claims[..i] + [c];
      if c.embedding.Some? {
        if c.primary in seen {
          if seen[c.primary] != c.embedding.value {
            inconsistent := inconsistent + {c.primary};
          }
        } else {
          seen := seen[c.primary := c.embedding.value];
        }
      }
      assert seen == seen' && inconsistent == inconsistent';
    }
    assert claims[..|claims|] == claims;
    ScannedFindsConflicts(claims, seen, inconsistent);
  }

  method FindAssessable(claims: seq<Claim>) returns (assessable: seq<bool>)
    ensures |assessable| == |claims|
    ensures forall i :: 0 <= i < |claims| ==> assessable[i] == Assessable(claims, claims[i])
  {
    var inconsistent := FindInconsistent(claims);
    assessable := seq(|claims|, i requires 0 <= i < |claims| =>
      claims[i].embedding.Some? && claims[i].primary !in inconsistent);
  }

  // ---- the union loops ----

  /** Claim `x`, if assessable, is joined to the claim at its root. */
  ghost predicate RootJoined(claims: seq<Claim>, t: nat, root: seq<nat>, x: nat)
    requires |root| == |claims| && x < |claims|
  {
    Assessable(claims, claims[x]) ==> root[x] < |claims| && Joined(claims, t, claims[x], claims[root[x]])
  }

  ghost predicate RootsJoined(claims: seq<Claim>, t: nat, root: seq<nat>)
    requires |root| == |claims|
  {
    forall x :: 0 <= x < |claims| ==> RootJoined(claims, t, root, x)
  }

  ghost predicate NearPair(claims: seq<Claim>, t: nat, a: nat, b: nat)
    requires a < |claims| && b < |claims|
  {
    Near(claims, t, claims[a], claims[b])
  }

  /** Every near pair up to row `i` and column `j` has been united. */
  ghost predicate PairsUnited(claims: seq<Claim>, t: nat, root: seq<nat>, i: nat, j: nat)
    requires |root| == |claims|
  {
    forall a, b :: 0 <= a < b < |claims| && (a < i || (a == i && b < j)) && NearPair(claims, t, a, b)
      ==> root[a] == root[b]
  }

  /** The forest of a stage of the union loops. */
  ghost predicate Stage(claims: seq<Claim>, t: nat, parent: seq<nat>, root: seq<nat>, pot: seq<nat>, i: nat, j: nat) {
    && |parent| == |claims|
    && Forest(parent, root, pot)
    && RootsJoined(claims, t, root)
    && PairsUnited(claims, t, root, i, j)
  }

  lemma UnitedRootJoined(claims: seq<Claim>, t: nat, root: seq<nat>, i: nat, j: nat, x: nat)
    requires |root| == |claims| && i < |claims| && j < |claims| && x < |claims|
    requires RootJoined(claims, t, root, i) && RootJoined(claims, t, root, j) && RootJoined(claims, t, root, x)
    requires NearPair(claims, t, i, j) && root[i] < |claims| && root[j] < |claims| && root[x] == root[i]
    requires Assessable(claims, claims[x])
    ensures Joined(claims, t, claims[x], claims[root[j]])
  {
    var c, ci, cj := claims[x], claims[i], claims[j];
    JoinedSymmetric(claims, t, ci, claims[root[i]]);
    JoinedTransitive(claims, t, c, claims[root[i]], ci);
    JoinedNear(claims, t, ci, cj);
    JoinedTransitive(claims, t, c, ci, cj);
    JoinedTransitive(claims, t, c, cj, claims[root[j]]);
  }

  lemma UniteStep(claims: seq<Claim>, t: nat, parent: seq<nat>, root: seq<nat>, pot: seq<nat>, i: nat, j: nat)
    requires Stage(claims, t, parent, root, pot, i, j) && i < j < |claims| && NearPair(claims, t, i, j)
    requires root[i] != root[j] && root[i] < |claims| && root[j] < |claims|
    requires parent[root[i]] == root[i] && parent[root[j]] == root[j]
    ensures Stage(claims, t, parent[root[i] := root[j]], Rerooted(root, root[i], root[j]),
                  Raised(root, pot, root[i], root[j]), i, j + 1)
  {
    var ri, rj := root[i], root[j];
    var root' := Rerooted(root, ri, rj);
    LinkKeepsForest(parent, root, pot, ri, rj);
    forall x | 0 <= x < |claims|
      ensures RootJoined(claims, t, root', x)
    {
      assert RootJoined(claims, t, root, x) && RootJoined(claims, t, root, i) && RootJoined(claims, t, root, j);
      if root[x] == ri && Assessable(claims, claims[x]) {
        UnitedRootJoined(claims, t, root, i, j, x);
      }
    }
  }

  lemma StageStart(claims: seq<Claim>, t: nat, parent: seq<nat>, root: seq<nat>, pot: seq<nat>, i: nat)
    requires i < |claims| && Stage(claims, t, parent, root, pot, i, 0)
    ensures Stage(claims, t, parent, root, pot, i, i + 1)
  {
  }

  lemma StageEnd(claims: seq<Claim>, t: nat, parent: seq<nat>, root: seq<nat>, pot: seq<nat>, i: nat)
    requires i < |claims| && Stage(claims, t, parent, root, pot, i, |claims|)
    ensures Stage(claims, t, parent, root, pot, i + 1, 0)
  {
  }

  lemma StageNext(claims: seq<Claim>, t: nat, parent: seq<nat>, root: seq<nat>, pot: seq<nat>, i: nat, j: nat)
    requires i < j < |claims| && Stage(claims, t, parent, root, pot, i, j)
    requires NearPair(claims, t, i, j) ==> root[i] == root[j]
    ensures Stage(claims, t, parent, root, pot, i, j + 1)
  {
  }

  ghost function Identity(n: nat): seq<nat> {
    seq(n, (x: nat) => x)
  }

  lemma InitialStage(claims: seq<Claim>, t: nat)
    ensures Stage(claims, t, Identity(|claims|), Identity(|claims|), Identity(|claims|), 0, 0)
  {
    var id := Identity(|claims|);
    forall x: nat | x < |claims|
      ensures RootJoined(claims, t, id, x)
      ensures Hangs(id, id, id, x)
    {
      if Assessable(claims, claims[x]) { JoinedReflexive(claims, t, claims[x]); }
    }
  }

  method UniteNear(claims: seq<Claim>, t: nat, assessable: seq<bool>)
    returns (parent: array<nat>, ghost root: seq<nat>, ghost pot: seq<nat>)
    requires |assessable| == |claims|
    requires forall i :: 0 <= i < |claims| ==> assessable[i] == Assessable(claims, claims[i])
    ensures fresh(parent) && parent.Length == |claims|
    ensures Stage(claims, t, parent[..], root, pot, |claims|, 0)
  {
    var n := |claims|;
    parent := new nat[n](x => x);
    InitialStage(claims, t);
    root, pot := Identity(n), Identity(n);
    assert parent[..] == root;
    for i := 0 to n
      invariant Stage(claims, t, parent[..], root, pot, i, 0)
    {
      if assessable[i] {
        root, pot := UniteRow(claims, t, assessable, parent, root, pot, i);
      } else {
        SkipRow(claims, t, parent[..], root, pot, i);
      }
    }
  }

  lemma SkipRow(claims: seq<Claim>, t: nat, parent: seq<nat>, root: seq<nat>, pot: seq<nat>, i: nat)
    requires i < |claims| && Stage(claims, t, parent, root, pot, i, 0) && !Assessable(claims, claims[i])
    ensures Stage(claims, t, parent, root, pot, i + 1, 0)
  {
  }

  /** Compare claim `i` with every later one. */
  method UniteRow(claims: seq<Claim>, t: nat, assessable: seq<bool>, parent: array<nat>,
                  ghost root: seq<nat>, ghost pot: seq<nat>, i: nat)
    returns (ghost root': seq<nat>, ghost pot': seq<nat>)
    requires |assessable| == |claims| && i < |claims| && assessable[i]
    requires forall i :: 0 <= i < |claims| ==> assessable[i] == Assessable(claims, claims[i])
    requires Stage(claims, t, parent[..], root, pot, i, 0)
    modifies parent
    ensures Stage(claims, t, parent[..], root', pot', i + 1, 0)
  {
    root', pot' := root, pot;
    StageStart(claims, t, parent[..], root, pot, i);
    for j := i + 1 to |claims|
      invariant Stage(claims, t, parent[..], root', pot', i, j)
    {
      var near := assessable[j] && Hamming(claims[i].embedding.value, claims[j].embedding.value) <= t;
      assert near == NearPair(claims, t, i, j);
      if near {
        root', pot' := Unite(claims, t, parent, root', pot', i, j);
      } else {
        StageNext(claims, t, parent[..], root', pot', i, j);
      }
    }
    StageEnd(claims, t, parent[..], root', pot', i);
  }

  /** Unite the components of the near pair `i`, `j`. */
  method Unite(claims: seq<Claim>, t: nat, parent: array<nat>, ghost root: seq<nat>, ghost pot: seq<nat>, i: nat,
               j: nat)
    returns (ghost root': seq<nat>, ghost pot': seq<nat>)
    requires Stage(claims, t, parent[..], root, pot, i, j) && i < j < |claims| && NearPair(claims, t, i, j)
    modifies parent
    ensures Stage(claims, t, parent[..], root', pot', i, j + 1)
  {
    root', pot' := root, pot;
    var ri := Find(parent, i, root, pot);
    var rj := Find(parent, j, root, pot);
    assert Hangs(parent[..], root, pot, i) && Hangs(parent[..], root, pot, j);
    if ri != rj {
      UniteStep(claims, t, parent[..], root, pot, i, j);
      root', pot' := Rerooted(root, ri, rj), Raised(root, pot, ri, rj);
      ghost var linked := parent[..][ri := rj];
      parent[ri] := rj;
      assert parent[..] == linked;
    } else {
      StageNext(claims, t, parent[..], root, pot, i, j);
    }
  }

  // ---- the components are the roots ----

  lemma NearSameRoot(claims: seq<Claim>, t: nat, root: seq<nat>, a: nat, b: nat)
    requires |root| == |claims| && PairsUnited(claims, t, root, |claims|, 0)
    requires a < |claims| && b < |claims| && Near(claims, t, claims[a], claims[b])
    ensures root[a] == root[b]
  {
    if a > b { NearSymmetric(claims, t, claims[a], claims[b]); }
    assert NearPair(claims, t, if a > b then b else a, if a > b then a else b);
  }

  lemma {:induction false} ChainSameRoot(claims: seq<Claim>, t: nat, root: seq<nat>, p: seq<Claim>, a: nat, b: nat)
    requires |root| == |claims| && PairsUnited(claims, t, root, |claims|, 0)
    requires a < |claims| && b < |claims| && Chain(claims, t, p, claims[a], claims[b])
    ensures root[a] == root[b]
    decreases |p|
  {
    if |p| == 1 {
      HammingZero(claims[a].embedding.value);
      assert Near(claims, t, claims[a], claims[b]);
      NearSameRoot(claims, t, root, a, b);
    } else {
      assert Near(claims, t, p[0], p[1]);
      var c :| 0 <= c < |claims| && claims[c] == p[1];
      NearSameRoot(claims, t, root, a, c);
      forall i | 0 <= i < |p[1..]| - 1
        ensures Near(claims, t, p[1..][i], p[1..][i + 1])
      {
        assert Near(claims, t, p[i + 1], p[i + 2]);
      }
      ChainSameRoot(claims, t, root, p[1..], c, b);
    }
  }

  lemma RootsAreComponents(claims: seq<Claim>, t: nat, parent: seq<nat>, root: seq<nat>, pot: seq<nat>, a: nat, b: nat)
    requires Stage(claims, t, parent, root, pot, |claims|, 0) && a < |claims| && b < |claims|
    requires Assessable(claims, claims[a]) && Assessable(claims, claims[b])
    ensures root[a] == root[b] <==> Joined(claims, t, claims[a], claims[b])
  {
    assert RootJoined(claims, t, root, a) && RootJoined(claims, t, root, b);
    if root[a] == root[b] {
      JoinedSymmetric(claims, t, claims[b], claims[root[b]]);
      JoinedTransitive(claims, t, claims[a], claims[root[a]], claims[b]);
    }
    if Joined(claims, t, claims[a], claims[b]) {
      var p :| Chain(claims, t, p, claims[a], claims[b]);
      ChainSameRoot(claims, t, root, p, a, b);
    }
  }

  // ---- component minima ----

  ghost predicate Covered(claims: seq<Claim>, root: seq<nat>, minId: map<nat, ClaimHash>, x: nat)
    requires |root| == |claims| && x < |claims|
  {
    Assessable(claims, claims[x]) ==> root[x] in minId && minId[root[x]] <= claims[x].id
  }

  ghost predicate Attained(claims: seq<Claim>, root: seq<nat>, r: nat, m: ClaimHash)
    requires |root| == |claims|
  {
    exists x :: 0 <= x < |claims| && Assessable(claims, claims[x]) && root[x] == r && claims[x].id == m
  }

  /** `minId[r]` is the least id among the assessable claims with root `r`, of those before `n` at least. */
  ghost predicate Minima(claims: seq<Claim>, root: seq<nat>, minId: map<nat, ClaimHash>, n: nat)
    requires |root| == |claims| && n <= |claims|
  {
    && (forall x :: 0 <= x < n ==> Covered(claims, root, minId, x))
    && (forall r :: r in minId ==> Attained(claims, root, r, minId[r]))
  }

  /** The map after one more assessable claim with root `r`. */
  function Lowered(minId: map<nat, ClaimHash>, r: nat, id: ClaimHash): map<nat, ClaimHash> {
    if r in minId && minId[r] <= id then minId else minId[r := id]
  }

  lemma MinimaStep(claims: seq<Claim>, root: seq<nat>, minId: map<nat, ClaimHash>, n: nat)
    requires |root| == |claims| && n < |claims| && Minima(claims, root, minId, n)
    ensures Minima(claims, root,
              if Assessable(claims, claims[n]) then Lowered(minId, root[n], claims[n].id) else minId, n + 1)
  {
    if Assessable(claims, claims[n]) {
      var next := Lowered(minId, root[n], claims[n].id);
      forall x | 0 <= x < n + 1
        ensures Covered(claims, root, next, x)
      {
        if x < n { assert Covered(claims, root, minId, x); }
      }
      forall r | r in next
        ensures Attained(claims, root, r, next[r])
      {
        if r in minId && next[r] == minId[r] { assert Attained(claims, root, r, minId[r]); }
      }
    }
  }

  lemma MinimumIsAnchor(claims: seq<Claim>, t: nat, parent: seq<nat>, root: seq<nat>, pot: seq<nat>,
                        minId: map<nat, ClaimHash>, i: nat)
    requires Stage(claims, t, parent, root, pot, |claims|, 0) && Minima(claims, root, minId, |claims|)
    requires i < |claims| && Assessable(claims, claims[i])
    ensures root[i] in minId && IsAnchor(claims, t, claims[i], minId[root[i]])
  {
    assert Covered(claims, root, minId, i);
    var m := minId[root[i]];
    assert Attained(claims, root, root[i], m);
    var x :| 0 <= x < |claims| && Assessable(claims, claims[x]) && root[x] == root[i] && claims[x].id == m;
    RootsAreComponents(claims, t, parent, root, pot, i, x);
    assert claims[x] in claims;
    forall y | y in claims && Joined(claims, t, claims[i], y)
      ensures m <= y.id
    {
      JoinedInside(claims, t, claims[i], y);
      var k :| 0 <= k < |claims| && claims[k] == y;
      RootsAreComponents(claims, t, parent, root, pot, i, k);
      assert Covered(claims, root, minId, k);
    }
  }

  method ComponentMinima(claims: seq<Claim>, t: nat, assessable: seq<bool>, parent: array<nat>,
                         ghost root: seq<nat>, ghost pot: seq<nat>)
    returns (minId: map<nat, ClaimHash>)
    requires |assessable| == |claims|
    requires forall i :: 0 <= i < |claims| ==> assessable[i] == Assessable(claims, claims[i])
    requires Stage(claims, t, parent[..], root, pot, |claims|, 0)
    modifies parent
    ensures Stage(claims, t, parent[..], root, pot, |claims|, 0)
    ensures Minima(claims, root, minId, |claims|)
  {
    minId := map[];
    for i := 0 to |claims|
      invariant Stage(claims, t, parent[..], root, pot, |claims|, 0)
      invariant Minima(claims, root, minId, i)
    {
      MinimaStep(claims, root, minId, i);
      if assessable[i] {
        var r := Find(parent, i, root, pot);
        if r !in minId || claims[i].id < minId[r] {
          minId := minId[r := claims[i].id];
        }
      }
    }
  }

  lemma RightGroup(claims: seq<Claim>, t: nat, i: nat, g: CorrelationGroup)
    requires i < |claims| && IsGroup(claims, t, claims[i], g)
    ensures g == GroupOf(claims, t, claims[i])
  {
    GroupUnique(claims, t, claims[i], g, GroupOf(claims, t, claims[i]));
  }

  /** The group of claim `i`, read off the finished forest. */
  method ReadGroup(claims: seq<Claim>, t: nat, assessable: bool, parent: array<nat>, minId: map<nat, ClaimHash>, i: nat,
                   ghost root: seq<nat>, ghost pot: seq<nat>)
    returns (g: CorrelationGroup)
    requires i < |claims| && assessable == Assessable(claims, claims[i])
    requires Stage(claims, t, parent[..], root, pot, |claims|, 0) && Minima(claims, root, minId, |claims|)
    modifies parent
    ensures Stage(claims, t, parent[..], root, pot, |claims|, 0)
    ensures g == GroupOf(claims, t, claims[i])
  {
    if assessable {
      MinimumIsAnchor(claims, t, parent[..], root, pot, minId, i);
      var r := Find(parent, i, root, pot);
      g := CorrelationGroup(ClusterKey(minId[r]), true);
    } else {
      g := CorrelationGroup(FallbackKey(claims[i]), false);
    }
    RightGroup(claims, t, i, g);
  }

  /** The correlation group of every claim, in claim order. */
  method CorrelationGroups(claims: seq<Claim>, t: nat) returns (groups: seq<CorrelationGroup>)
    ensures groups == GroupsOf(claims, t)
  {
    var assessable := FindAssessable(claims);
    var parent, root, pot := UniteNear(claims, t, assessable);
    var minId := ComponentMinima(claims, t, assessable, parent, root, pot);
    groups := [];
    for i := 0 to |claims|
      invariant Stage(claims, t, parent[..], root, pot, |claims|, 0)
      invariant groups == GroupsOf(claims, t)[..i]
    {
      var g := ReadGroup(claims, t, assessable[i], parent, minId, i, root, pot);
      groups := groups + [g];
    }
  }
}
