/** The state of one replica, and what an append or a merge makes of it. */
module ReplicaSteps {
  import opened Bags
  import opened Dag

  datatype Replica = Replica(nodes: Nodes, heads: set<Hash>)

  /** `s` lists each element of `m` once, in whatever order the hash set yields them. */
  ghost predicate Lists(s: seq<Hash>, m: set<Hash>) {
    Distinct(s) && forall h :: h in s <==> h in m
  }

  /** The node is stored and is the only head. */
  ghost function Appended(d: Digest, r: Replica, n: DagNode): Replica {
    Replica(MergeOne(d, r.nodes, n), {d.node(n)})
  }

  /** New nodes of the batch are stored; the heads are recomputed if there was one. */
  ghost function Merged(d: Digest, r: Replica, batch: seq<DagNode>): Replica {
    var nodes := MergeAll(d, r.nodes, batch);
    Replica(nodes, if |nodes| > |r.nodes| then Frontier(nodes) else r.heads)
  }

  /** A merge that adds no node changes nothing. */
  lemma {:induction false} SameSizeSame(d: Digest, nodes: Nodes, batch: seq<DagNode>)
    ensures |MergeAll(d, nodes, batch)| >= |nodes|
    ensures |MergeAll(d, nodes, batch)| == |nodes| ==> MergeAll(d, nodes, batch) == nodes
  {
    if batch != [] {
      var a, z := batch[..|batch| - 1], batch[|batch| - 1];
      SameSizeSame(d, nodes, a);
      var m := MergeAll(d, nodes, a);
      if d.node(z) !in m {
        assert m[d.node(z) := z].Keys == m.Keys + {d.node(z)};
        assert |m[d.node(z) := z]| == |m[d.node(z) := z].Keys| && |m| == |m.Keys|;
      }
    }
  }
}
