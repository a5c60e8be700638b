/** Two replicas exchanging deltas: one pull completes a store, two pulls make the stores equal. */
module DeltaSync {
  import opened Dag
  import opened Traversal
  import opened CrdtEngine

  /** `m` holds the nodes of both stores and no others. */
  ghost predicate IsUnion(m: Nodes, a: Nodes, b: Nodes) {
    && (forall h :: h in m <==> h in a || h in b)
    && (forall h :: h in a ==> h in m && m[h] == a[h])
    && (forall h :: h in b ==> h in m && m[h] == b[h])
  }

  lemma {:induction false} ChainStays(m: Nodes, a: Nodes, c: seq<Hash>, i: nat)
    requires AncestorClosed(a) && forall h :: h in a ==> h in m && m[h] == a[h]
    requires Chain(m, c) && i < |c| && c[0] in a
    ensures c[i] in a
  {
    if i > 0 {
      ChainStays(m, a, c, i - 1);
      assert c[i - 1 + 1] in m[c[i - 1]].parents;
    }
  }

  lemma ChainIn(m: Nodes, a: Nodes, c: seq<Hash>)
    requires AncestorClosed(a) && forall h :: h in a ==> h in m && m[h] == a[h]
    requires Chain(m, c) && |c| > 0 && c[0] in a
    ensures Chain(a, c)
  {
    forall i | 0 <= i < |c|
      ensures c[i] in a
    {
      ChainStays(m, a, c, i);
    }
    forall i | 0 <= i < |c| - 1
      ensures c[i + 1] in a[c[i]].parents
    {
      assert c[i + 1] in m[c[i]].parents;
    }
  }

  /** A union of ancestor-closed stores is ancestor-closed and no deeper. */
  lemma UnionKeeps(m: Nodes, a: Nodes, b: Nodes, d: nat)
    requires IsUnion(m, a, b) && AncestorClosed(a) && AncestorClosed(b)
    ensures AncestorClosed(m)
    ensures DepthAtMost(a, d) && DepthAtMost(b, d) ==> DepthAtMost(m, d)
  {
    if DepthAtMost(a, d) && DepthAtMost(b, d) {
      forall c: seq<Hash> | Chain(m, c)
        ensures |c| <= d + 1
      {
        if |c| > 0 {
          if c[0] in a { ChainIn(m, a, c); } else { ChainIn(m, b, c); }
        }
      }
    }
  }

  /** Every node stays under its hash. */
  ghost predicate Keeps(a: Nodes, a': Nodes) {
    forall h :: h in a ==> h in a' && a'[h] == a[h]
  }

  /** Merging a delta that completes the store unites both stores exactly when they agree. */
  lemma DeltaUnitesIff(d: Digest, ours: Nodes, theirs: Nodes, deltas: seq<DagNode>)
    requires Addressed(d, ours) && forall n :: n in deltas ==> d.node(n) in ours && ours[d.node(n)] == n
    requires Agree(ours, theirs) ==> Completes(theirs, deltas, ours)
    ensures IsUnion(MergeAll(d, theirs, deltas), theirs, ours) <==> Agree(ours, theirs)
  {
    MergedNodes(d, theirs, deltas);
    var m := MergeAll(d, theirs, deltas);
    if Agree(ours, theirs) {
      forall h | h in ours
        ensures h in m && m[h] == ours[h]
      {
        if h !in theirs {
          assert ours[h] in deltas && d.node(ours[h]) == h;
          assert Brings(d, deltas, h);
        }
      }
    }
    if IsUnion(m, theirs, ours) {
      forall h | h in ours && h in theirs
        ensures ours[h] == theirs[h]
      {
        assert m[h] == ours[h];
      }
    }
  }

  /** A replica whose delta is complete: at its frontier, lacking no ancestor, no deeper than the history bound. */
  ghost predicate Whole(e: MerkleCrdtEngine)
    reads e, e.arena
    requires e.Valid()
  {
    e.AtFrontier() && AncestorClosed(e.Stored()) && DepthAtMost(e.Stored(), DAG_HISTORY_DEPTH)
  }

  /**
   * `dst` asks `src` for what its own heads do not cover and merges the answer. It then holds both stores exactly
   * when they agreed.
   */
  method PullDelta(src: MerkleCrdtEngine, dst: MerkleCrdtEngine)
    requires src != dst && src.arena != dst.arena && src.digest == dst.digest && src.Valid() && dst.Valid()
    modifies dst, dst.arena
    ensures src.Valid() && dst.Valid() && src.State() == old(src.State())
    ensures Keeps(old(dst.Stored()), dst.Stored())
    ensures old(Whole(src)) && old(Whole(dst)) ==>
      (IsUnion(dst.Stored(), old(dst.Stored()), old(src.Stored())) <==> Agree(old(src.Stored()), old(dst.Stored())))
    ensures old(Whole(src)) && old(Whole(dst)) && Agree(old(src.Stored()), old(dst.Stored())) ==>
      Whole(src) && Whole(dst)
  {
    ghost var ours, theirs := src.Stored(), dst.Stored();
    var remoteHeads := ListSet(dst.heads);
    var delta := src.GetVdiff(remoteHeads);
    if Whole(src) && Whole(dst) {
      assert Agree(ours, theirs) ==> Holds(ours, theirs, remoteHeads);
      DeltaUnitesIff(src.digest, ours, theirs, delta);
      if Agree(ours, theirs) {
        UnionKeeps(MergeAll(src.digest, theirs, delta), theirs, ours, DAG_HISTORY_DEPTH);
      }
    }
    MergedNodes(src.digest, theirs, delta);
    var added := dst.Merge(delta);
  }

  lemma UnionAgrees(m: Nodes, a: Nodes, b: Nodes)
    requires IsUnion(m, b, a)
    ensures Agree(m, a)
  {
  }

  lemma UnionAgain(m: Nodes, a: Nodes, b: Nodes, m': Nodes)
    requires IsUnion(m, b, a) && IsUnion(m', a, m)
    ensures m' == m && IsUnion(m', a, b)
  {
    assert m'.Keys == m.Keys;
  }

  lemma KeptAgree(a: Nodes, b: Nodes, m: Nodes)
    requires Keeps(a, m) && Keeps(b, m)
    ensures Agree(a, b)
  {
    forall h | h in a && h in b
      ensures a[h] == b[h]
    {
      assert m[h] == a[h];
    }
  }

  /**
   * After a pull in each direction both replicas are the same, with one root, exactly when they agreed; and then
   * they hold the union of what they held.
   */
  method Reconcile(a: MerkleCrdtEngine, b: MerkleCrdtEngine)
    requires a != b && a.arena != b.arena && a.digest == b.digest && a.Valid() && b.Valid()
    requires Whole(a) && Whole(b)
    modifies a, a.arena, b, b.arena
    ensures a.Valid() && b.Valid()
    ensures a.State() == b.State() <==> Agree(old(a.Stored()), old(b.Stored()))
    ensures a.State() == b.State() ==>
      IsUnion(a.Stored(), old(a.Stored()), old(b.Stored())) && RootOf(a.digest, a.heads) == RootOf(b.digest, b.heads)
  {
    ghost var x, y := a.Stored(), b.Stored();
    PullDelta(a, b);
    ghost var m := b.Stored();
    if Agree(x, y) { UnionAgrees(m, x, y); }
    PullDelta(b, a);
    if Agree(x, y) {
      UnionAgain(m, x, y, a.Stored());
    } else if a.Stored() == b.Stored() {
      KeptAgree(x, y, m);
      assert false;
    }
  }
}
