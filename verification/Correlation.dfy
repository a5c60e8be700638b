/** Correlation groups: connected components of assessable claims under Hamming proximity. */
module Correlation {
  import opened LogOddsAggregation
  import opened Claims

  // ---- assessability ----

  /** Two claims assert the same content under different embeddings. */
  ghost predicate Conflict(claims: seq<Claim>, content: nat) {
    exists a, b :: a in claims && b in claims && a.primary == content && b.primary == content
      && a.embedding.Some? && b.embedding.Some? && a.embedding != b.embedding
  }

  ghost predicate Assessable(claims: seq<Claim>, c: Claim) {
    c.embedding.Some? && !Conflict(claims, c.primary)
  }

  // ---- chains of near claims ----

  ghost predicate Near(claims: seq<Claim>, t: nat, a: Claim, b: Claim) {
    && a in claims && b in claims && Assessable(claims, a) && Assessable(claims, b)
    && Hamming(a.embedding.value, b.embedding.value) <= t
  }

  ghost predicate Chain(claims: seq<Claim>, t: nat, p: seq<Claim>, a: Claim, b: Claim) {
    && p != [] && p[0] == a && p[|p| - 1] == b && a in claims && Assessable(claims, a)
    && forall i :: 0 <= i < |p| - 1 ==> Near(claims, t, p[i], p[i + 1])
  }

  /** A chain of assessable claims, each within the threshold of the next, joins `a` and `b`. */
  ghost predicate Joined(claims: seq<Claim>, t: nat, a: Claim, b: Claim) {
    exists p :: Chain(claims, t, p, a, b)
  }

  lemma NearSymmetric(claims: seq<Claim>, t: nat, a: Claim, b: Claim)
    requires Near(claims, t, a, b)
    ensures Near(claims, t, b, a)
  {
    HammingSymmetric(a.embedding.value, b.embedding.value);
  }

  lemma JoinedReflexive(claims: seq<Claim>, t: nat, a: Claim)
    requires a in claims && Assessable(claims, a)
    ensures Joined(claims, t, a, a)
  {
    assert Chain(claims, t, [a], a, a);
  }

  lemma JoinedNear(claims: seq<Claim>, t: nat, a: Claim, b: Claim)
    requires Near(claims, t, a, b)
    ensures Joined(claims, t, a, b)
  {
    assert Chain(claims, t, [a, b], a, b);
  }

  lemma JoinedTransitive(claims: seq<Claim>, t: nat, a: Claim, b: Claim, c: Claim)
    requires Joined(claims, t, a, b) && Joined(claims, t, b, c)
    ensures Joined(claims, t, a, c)
  {
    var p :| Chain(claims, t, p, a, b);
    var q :| Chain(claims, t, q, b, c);
    var r := p + q[1..];
    forall i | 0 <= i < |r| - 1
      ensures Near(claims, t, r[i], r[i + 1])
    {
      if i >= |p| - 1 {
        assert r[i] == q[i - (|p| - 1)] && r[i + 1] == q[i + 1 - (|p| - 1)];
      }
    }
    assert Chain(claims, t, r, a, c);
  }

  lemma {:induction false} ChainSymmetric(claims: seq<Claim>, t: nat, p: seq<Claim>, a: Claim, b: Claim)
    requires Chain(claims, t, p, a, b)
    ensures Joined(claims, t, b, a)
    decreases |p|
  {
    if |p| == 1 {
      JoinedReflexive(claims, t, a);
    } else {
      assert Near(claims, t, p[0], p[1]);
      assert Chain(claims, t, p[1..], p[1], b) by {
        forall i | 0 <= i < |p[1..]| - 1
          ensures Near(claims, t, p[1..][i], p[1..][i + 1])
        {
          assert Near(claims, t, p[i + 1], p[i + 2]);
        }
      }
      ChainSymmetric(claims, t, p[1..], p[1], b);
      NearSymmetric(claims, t, a, p[1]);
      JoinedNear(claims, t, p[1], a);
      JoinedTransitive(claims, t, b, p[1], a);
    }
  }

  lemma JoinedSymmetric(claims: seq<Claim>, t: nat, a: Claim, b: Claim)
    requires Joined(claims, t, a, b)
    ensures Joined(claims, t, b, a)
  {
    var p :| Chain(claims, t, p, a, b);
    ChainSymmetric(claims, t, p, a, b);
  }

  lemma JoinedInside(claims: seq<Claim>, t: nat, a: Claim, b: Claim)
    requires Joined(claims, t, a, b)
    ensures a in claims && b in claims && Assessable(claims, a) && Assessable(claims, b)
  {
    var p :| Chain(claims, t, p, a, b);
    if |p| > 1 {
      assert Near(claims, t, p[|p| - 2], p[|p| - 1]);
    }
  }

  // ---- anchors and groups ----

  /** `m` is the least claim id in the component of `c`. */
  ghost predicate IsAnchor(claims: seq<Claim>, t: nat, c: Claim, m: ClaimHash) {
    && (exists x :: x in claims && Joined(claims, t, c, x) && x.id == m)
    && (forall x :: x in claims && Joined(claims, t, c, x) ==> m <= x.id)
  }

  lemma {:induction false} AnchorExists(claims: seq<Claim>, t: nat, c: Claim, n: nat) returns (m: ClaimHash)
    requires n <= |claims|
    requires exists x :: x in claims[..n] && Joined(claims, t, c, x)
    ensures exists x :: x in claims[..n] && Joined(claims, t, c, x) && x.id == m
    ensures forall x :: x in claims[..n] && Joined(claims, t, c, x) ==> m <= x.id
  {
    var a, z := claims[..n - 1], claims[n - 1];
    assert claims[..n] == a + [z];
    if exists x :: x in a && Joined(claims, t, c, x) {
      m := AnchorExists(claims, t, c, n - 1);
      if Joined(claims, t, c, z) && z.id < m {
        m := z.id;
      }
    } else {
      m := z.id;
    }
  }

  ghost predicate IsGroup(claims: seq<Claim>, t: nat, c: Claim, g: CorrelationGroup) {
    if Assessable(claims, c) then exists m :: IsAnchor(claims, t, c, m) && g == CorrelationGroup(ClusterKey(m), true)
    else g == CorrelationGroup(FallbackKey(c), false)
  }

  lemma GroupExists(claims: seq<Claim>, t: nat, c: Claim)
    requires c in claims
    ensures exists g :: IsGroup(claims, t, c, g)
  {
    if Assessable(claims, c) {
      JoinedReflexive(claims, t, c);
      assert claims[..|claims|] == claims;
      var m := AnchorExists(claims, t, c, |claims|);
      assert IsAnchor(claims, t, c, m);
      assert IsGroup(claims, t, c, CorrelationGroup(ClusterKey(m), true));
    } else {
      assert IsGroup(claims, t, c, CorrelationGroup(FallbackKey(c), false));
    }
  }

  lemma GroupUnique(claims: seq<Claim>, t: nat, c: Claim, g: CorrelationGroup, h: CorrelationGroup)
    requires IsGroup(claims, t, c, g) && IsGroup(claims, t, c, h)
    ensures g == h
  {
    if Assessable(claims, c) {
      var m :| IsAnchor(claims, t, c, m) && g == CorrelationGroup(ClusterKey(m), true);
      var n :| IsAnchor(claims, t, c, n) && h == CorrelationGroup(ClusterKey(n), true);
    }
  }

  /** The group of claim `c` among `claims`. */
  ghost function GroupOf(claims: seq<Claim>, t: nat, c: Claim): (g: CorrelationGroup)
    requires c in claims
    ensures IsGroup(claims, t, c, g)
  {
    GroupExists(claims, t, c);
    var g :| IsGroup(claims, t, c, g);
    g
  }

  ghost function GroupsOf(claims: seq<Claim>, t: nat): seq<CorrelationGroup> {
    seq(|claims|, i requires 0 <= i < |claims| => GroupOf(claims, t, claims[i]))
  }

  /** Ids identify claims. */
  ghost predicate IdsIdentify(claims: seq<Claim>) {
    forall a, b :: a in claims && b in claims && a.id == b.id ==> a == b
  }

  lemma AnchorOf(claims: seq<Claim>, t: nat, c: Claim) returns (m: ClaimHash, x: Claim)
    requires c in claims && Assessable(claims, c)
    ensures IsAnchor(claims, t, c, m) && GroupOf(claims, t, c) == CorrelationGroup(ClusterKey(m), true)
    ensures x in claims && Joined(claims, t, c, x) && x.id == m
  {
    var g := GroupOf(claims, t, c);
    assert IsGroup(claims, t, c, g);
    m :| IsAnchor(claims, t, c, m) && g == CorrelationGroup(ClusterKey(m), true);
    x :| x in claims && Joined(claims, t, c, x) && x.id == m;
  }

  /** A claim that cannot be assessed falls back on its declared cell or its origin. */
  lemma FallbackOf(claims: seq<Claim>, t: nat, c: Claim)
    requires c in claims && !Assessable(claims, c)
    ensures GroupOf(claims, t, c) == CorrelationGroup(FallbackKey(c), false)
  {
    assert IsGroup(claims, t, c, GroupOf(claims, t, c));
  }

  /**
   * Two claims are in the same group exactly when both are assessable and a chain of near claims joins them, or
   * neither is and they declare the same cell, or none and come from the same origin.
   */
  lemma SameGroupIffJoined(claims: seq<Claim>, t: nat, a: Claim, b: Claim)
    requires IdsIdentify(claims) && a in claims && b in claims
    ensures GroupOf(claims, t, a).key == GroupOf(claims, t, b).key <==>
      if Assessable(claims, a) then Assessable(claims, b) && Joined(claims, t, a, b)
      else !Assessable(claims, b) && a.cell == b.cell && (a.cell.None? ==> a.origin == b.origin)
  {
    if Assessable(claims, a) && Assessable(claims, b) {
      SameClusterIffJoined(claims, t, a, b);
    } else if Assessable(claims, a) {
      var m, _ := AnchorOf(claims, t, a);
      FallbackOf(claims, t, b);
    } else if Assessable(claims, b) {
      var m, _ := AnchorOf(claims, t, b);
      FallbackOf(claims, t, a);
    } else {
      FallbackOf(claims, t, a);
      FallbackOf(claims, t, b);
    }
  }

  lemma SameClusterIffJoined(claims: seq<Claim>, t: nat, a: Claim, b: Claim)
    requires IdsIdentify(claims) && a in claims && b in claims
    requires Assessable(claims, a) && Assessable(claims, b)
    ensures GroupOf(claims, t, a).key == GroupOf(claims, t, b).key <==> Joined(claims, t, a, b)
  {
    var m, x := AnchorOf(claims, t, a);
    var n, y := AnchorOf(claims, t, b);
    if m == n {
      JoinedSymmetric(claims, t, b, y);
      JoinedTransitive(claims, t, a, x, b);
    }
    if Joined(claims, t, a, b) {
      JoinedTransitive(claims, t, a, b, y);
      JoinedSymmetric(claims, t, a, b);
      JoinedTransitive(claims, t, b, a, x);
    }
  }

  // ---- claim order ----

  lemma AssessablePermuted(claims: seq<Claim>, claims': seq<Claim>, c: Claim)
    requires forall x :: x in claims <==> x in claims'
    ensures Assessable(claims, c) == Assessable(claims', c)
  {
  }

  lemma JoinedPermuted(claims: seq<Claim>, claims': seq<Claim>, t: nat, a: Claim, b: Claim)
    requires forall x :: x in claims <==> x in claims'
    requires Joined(claims, t, a, b)
    ensures Joined(claims', t, a, b)
  {
    var p :| Chain(claims, t, p, a, b);
    forall i | 0 <= i < |p| - 1
      ensures Near(claims', t, p[i], p[i + 1])
    {
      assert Near(claims, t, p[i], p[i + 1]);
      AssessablePermuted(claims, claims', p[i]);
      AssessablePermuted(claims, claims', p[i + 1]);
    }
    AssessablePermuted(claims, claims', a);
    assert Chain(claims', t, p, a, b);
  }

  /** Permuting or repeating claims leaves the group of every claim, and whether it is assessed, unchanged. */
  lemma GroupIgnoresOrder(claims: seq<Claim>, claims': seq<Claim>, t: nat, c: Claim)
    requires forall x :: x in claims <==> x in claims'
    requires c in claims
    ensures GroupOf(claims, t, c) == GroupOf(claims', t, c)
  {
    AssessablePermuted(claims, claims', c);
    forall x
      ensures Joined(claims, t, c, x) == Joined(claims', t, c, x)
    {
      if Joined(claims, t, c, x) { JoinedPermuted(claims, claims', t, c, x); }
      if Joined(claims', t, c, x) { JoinedPermuted(claims', claims, t, c, x); }
    }
    var g := GroupOf(claims', t, c);
    if Assessable(claims, c) {
      var m, _ := AnchorOf(claims', t, c);
      assert IsAnchor(claims, t, c, m);
    }
    assert IsGroup(claims, t, c, g);
    GroupUnique(claims, t, c, GroupOf(claims, t, c), g);
  }
}
