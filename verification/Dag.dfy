/** Content-addressed Merkle-DAG nodes, frontiers, parent chains and roots. */
module Dag {
  import opened Bags

  type Hash = nat

  type byte = b: nat | b < 256

  /** A string as its UTF-8 bytes. */
  type Text = seq<byte>

  /** A vector clock as its (origin, tick) entries in key order. */
  type Clock = seq<(Text, nat)>

  datatype AiEvidence = AiEvidence(prompt: Text, decision: Text, modelHash: Hash, timestamp: nat)

  datatype DagNode = DagNode(parents: seq<Hash>, signature: nat, dataHash: Hash, vclock: Clock,
                             evidence: Option<AiEvidence>)

  /** What is computed with BLAKE3: the content hash of a node, and the root over a sorted frontier. */
  datatype Digest = Digest(node: DagNode -> Hash, root: seq<Hash> -> Hash)

  type Nodes = map<Hash, DagNode>

  /** No two of these nodes share a hash. */
  ghost predicate Apart(d: Digest, s: seq<DagNode>) {
    forall a, b :: a in s && b in s && d.node(a) == d.node(b) ==> a == b
  }

  /** The stores have the same node under each hash they both hold. */
  ghost predicate Agree(a: Nodes, b: Nodes) {
    forall h :: h in a && h in b ==> a[h] == b[h]
  }

  /** The two frontiers are not mistaken for each other, nor for the empty one. */
  ghost predicate RootsApart(d: Digest, a: set<Hash>, b: set<Hash>) {
    && (a != {} && b != {} && d.root(Ascend(a)) == d.root(Ascend(b)) ==> Ascend(a) == Ascend(b))
    && (a != {} ==> d.root(Ascend(a)) != 0)
    && (b != {} ==> d.root(Ascend(b)) != 0)
  }

  /** Every node is stored under its own hash. */
  ghost predicate Addressed(d: Digest, nodes: Nodes) {
    forall h :: h in nodes ==> d.node(nodes[h]) == h
  }

  /** Some stored node lists `h` as a parent. */
  ghost predicate IsParent(nodes: Nodes, h: Hash) {
    exists c :: c in nodes && h in nodes[c].parents
  }

  /** The stored nodes that no stored node lists as a parent. */
  ghost function Frontier(nodes: Nodes): set<Hash> {
    set h | h in nodes && !IsParent(nodes, h)
  }

  /** The elements of a set in ascending order. */
  ghost function Ascend(s: set<Hash>): (r: seq<Hash>)
    ensures StrictlyAscending(r)
    ensures forall x :: x in r <==> x in s
  {
    if s == {} then [] else
    var x :| x in s;
    InsertKey(x, Ascend(s - {x}))
  }

  /** The Merkle root of a frontier: zero if empty, else the digest of its sorted hashes. */
  ghost function RootOf(d: Digest, heads: set<Hash>): Hash {
    if heads == {} then 0 else d.root(Ascend(heads))
  }

  lemma RootsDistinguish(d: Digest, a: set<Hash>, b: set<Hash>)
    requires RootsApart(d, a, b) && RootOf(d, a) == RootOf(d, b)
    ensures a == b
  {
    if a != {} && b != {} {
      assert forall x :: x in a <==> x in Ascend(a);
      assert forall x :: x in b <==> x in Ascend(b);
    }
  }

  // ---- append ----

  /** The node's hash is new and nobody's parent yet, or known and already the only head. */
  ghost predicate Tops(d: Digest, nodes: Nodes, n: DagNode) {
    if d.node(n) in nodes then Frontier(nodes) == {d.node(n)} else !IsParent(nodes[d.node(n) := n], d.node(n))
  }

  /** A node appended on top of the whole frontier is the only head exactly when its hash tops the store. */
  lemma AppendFrontierIff(d: Digest, nodes: Nodes, n: DagNode)
    requires forall p :: p in n.parents <==> p in Frontier(nodes)
    ensures Frontier(MergeOne(d, nodes, n)) == {d.node(n)} <==> Tops(d, nodes, n)
  {
    var h := d.node(n);
    var next := MergeOne(d, nodes, n);
    if h !in nodes && !IsParent(next, h) {
      forall x | x in next && x != h
        ensures IsParent(next, x)
      {
        if x in Frontier(nodes) {
          assert x in next[h].parents;
        } else {
          var c :| c in nodes && x in nodes[c].parents;
          assert next[c] == nodes[c];
        }
      }
      assert Frontier(next) == {h};
    }
  }

  // ---- merge ----

  ghost function MergeOne(d: Digest, nodes: Nodes, n: DagNode): Nodes {
    if d.node(n) in nodes then nodes else nodes[d.node(n) := n]
  }

  ghost function MergeAll(d: Digest, nodes: Nodes, batch: seq<DagNode>): Nodes {
    if batch == [] then nodes else MergeOne(d, MergeAll(d, nodes, batch[..|batch| - 1]), batch[|batch| - 1])
  }

  /** The batch holds a node with this hash. */
  ghost predicate Brings(d: Digest, batch: seq<DagNode>, h: Hash) {
    exists n :: n in batch && d.node(n) == h
  }

  /**
   * After a merge exactly the hashes of the old nodes and of the batch are stored; old nodes stay, and new ones are
   * nodes of the batch under their hashes.
   */
  lemma {:induction false} MergedNodes(d: Digest, nodes: Nodes, batch: seq<DagNode>)
    ensures Addressed(d, nodes) ==> Addressed(d, MergeAll(d, nodes, batch))
    ensures forall h :: h in nodes ==> h in MergeAll(d, nodes, batch) && MergeAll(d, nodes, batch)[h] == nodes[h]
    ensures forall h :: h in MergeAll(d, nodes, batch) <==> h in nodes || Brings(d, batch, h)
    ensures forall h :: h in MergeAll(d, nodes, batch) && h !in nodes ==>
      MergeAll(d, nodes, batch)[h] in batch && d.node(MergeAll(d, nodes, batch)[h]) == h
  {
    if batch != [] {
      var a, z := batch[..|batch| - 1], batch[|batch| - 1];
      MergedNodes(d, nodes, a);
      assert forall n :: n in batch <==> n in a || n == z;
      forall h
        ensures Brings(d, batch, h) <==> Brings(d, a, h) || h == d.node(z)
      {
      }
    }
  }

  lemma {:induction false} MergeConcat(d: Digest, nodes: Nodes, x: seq<DagNode>, y: seq<DagNode>)
    ensures MergeAll(d, nodes, x + y) == MergeAll(d, MergeAll(d, nodes, x), y)
  {
    if y == [] {
      assert x + y == x;
    } else {
      assert (x + y)[..|x + y| - 1] == x + y[..|y| - 1];
      MergeConcat(d, nodes, x, y[..|y| - 1]);
    }
  }

  /** The same nodes in another order or multiplicity. */
  ghost predicate SameMembers(x: seq<DagNode>, y: seq<DagNode>) {
    forall n :: n in x <==> n in y
  }

  /** Every delivery of the nodes of `s`, in any order and multiplicity, leads to the same store. */
  ghost predicate DeliveryFree(d: Digest, nodes: Nodes, s: seq<DagNode>) {
    forall x, y :: SameMembers(s, x) && SameMembers(s, y) ==> MergeAll(d, nodes, x) == MergeAll(d, nodes, y)
  }

  /** No two of these nodes compete for a hash that is not stored yet. */
  ghost predicate Uncontested(d: Digest, nodes: Nodes, s: seq<DagNode>) {
    forall a, b :: a in s && b in s && d.node(a) == d.node(b) && d.node(a) !in nodes ==> a == b
  }

  lemma MergeIgnoresDelivery(d: Digest, nodes: Nodes, x: seq<DagNode>, y: seq<DagNode>)
    requires Uncontested(d, nodes, x) && SameMembers(x, y)
    ensures MergeAll(d, nodes, x) == MergeAll(d, nodes, y)
  {
    MergedNodes(d, nodes, x);
    MergedNodes(d, nodes, y);
    var a, b := MergeAll(d, nodes, x), MergeAll(d, nodes, y);
    forall h
      ensures Brings(d, x, h) <==> Brings(d, y, h)
    {
    }
    assert a.Keys == b.Keys;
  }

  /** The first of two competing nodes to arrive is the one that stays. */
  lemma FirstArrivalStays(d: Digest, nodes: Nodes, n: DagNode, rest: seq<DagNode>)
    requires d.node(n) !in nodes
    ensures d.node(n) in MergeAll(d, nodes, [n] + rest) && MergeAll(d, nodes, [n] + rest)[d.node(n)] == n
  {
    MergeConcat(d, nodes, [n], rest);
    assert [n][..0] == [];
    assert MergeAll(d, nodes, [n]) == nodes[d.node(n) := n];
    MergedNodes(d, nodes[d.node(n) := n], rest);
  }

  /**
   * Only the delivered set counts, not order, batching or repetition, if and only if no two of its nodes compete
   * for one hash.
   */
  lemma DeliveryFreeIffUncontested(d: Digest, nodes: Nodes, s: seq<DagNode>)
    ensures DeliveryFree(d, nodes, s) <==> Uncontested(d, nodes, s)
  {
    if Uncontested(d, nodes, s) {
      forall x, y | SameMembers(s, x) && SameMembers(s, y)
        ensures MergeAll(d, nodes, x) == MergeAll(d, nodes, y)
      {
        MergeIgnoresDelivery(d, nodes, s, x);
        MergeIgnoresDelivery(d, nodes, s, y);
      }
    }
    if a, b :| a in s && b in s && d.node(a) == d.node(b) && d.node(a) !in nodes && a != b {
      FirstArrivalStays(d, nodes, a, s);
      FirstArrivalStays(d, nodes, b, s);
      assert SameMembers(s, [a] + s) && SameMembers(s, [b] + s);
    }
  }

  /** Stores of nodes that share no hash agree, and with the same hashes they are the same. */
  lemma ApartAgree(d: Digest, s: seq<DagNode>, a: Nodes, b: Nodes)
    requires Apart(d, s) && Addressed(d, a) && Addressed(d, b)
    requires (forall h :: h in a ==> a[h] in s) && (forall h :: h in b ==> b[h] in s)
    ensures Agree(a, b) && (a.Keys == b.Keys ==> a == b)
  {
    forall h | h in a && h in b
      ensures a[h] == b[h]
    {
      assert d.node(a[h]) == d.node(b[h]);
    }
  }

  // ---- parent chains ----

  /** `c` runs from child to parent through stored nodes. */
  ghost predicate Chain(nodes: Nodes, c: seq<Hash>) {
    && (forall i :: 0 <= i < |c| ==> c[i] in nodes)
    && (forall i :: 0 <= i < |c| - 1 ==> c[i + 1] in nodes[c[i]].parents)
  }

  /** A chain of `k` parent links starts at `h`. */
  ghost predicate Descends(nodes: Nodes, h: Hash, k: nat) {
    exists c: seq<Hash> :: |c| == k + 1 && c[0] == h && Chain(nodes, c)
  }

  /** No parent chain has more than `d` links; in particular there is no cycle. */
  ghost predicate DepthAtMost(nodes: Nodes, d: nat) {
    forall c: seq<Hash> :: Chain(nodes, c) ==> |c| <= d + 1
  }

  /** The longest chain below `h`, searched for up to `k` links. */
  ghost function HeightUpTo(nodes: Nodes, h: Hash, k: nat): nat {
    if k == 0 || Descends(nodes, h, k) then k else HeightUpTo(nodes, h, k - 1)
  }

  lemma {:induction false} HeightIs(nodes: Nodes, h: Hash, k: nat)
    requires h in nodes
    ensures HeightUpTo(nodes, h, k) <= k && Descends(nodes, h, HeightUpTo(nodes, h, k))
    ensures forall j :: HeightUpTo(nodes, h, k) < j <= k ==> !Descends(nodes, h, j)
  {
    if k == 0 {
      assert |[h]| == 1 && [h][0] == h && Chain(nodes, [h]);
    } else if !Descends(nodes, h, k) {
      HeightIs(nodes, h, k - 1);
    }
  }

  lemma DescendsFromChild(nodes: Nodes, h: Hash, p: Hash, k: nat)
    requires h in nodes && p in nodes[h].parents && Descends(nodes, p, k)
    ensures Descends(nodes, h, k + 1)
  {
    var c: seq<Hash> :| |c| == k + 1 && c[0] == p && Chain(nodes, c);
    var c' := [h] + c;
    forall i | 0 <= i < |c'| - 1
      ensures c'[i + 1] in nodes[c'[i]].parents
    {
      if i > 0 { assert c[i] in nodes[c[i - 1]].parents; }
    }
    assert |c'| == k + 2 && c'[0] == h && Chain(nodes, c');
  }

  /** With bounded depth, parents are strictly lower than their children. */
  lemma ParentsLower(nodes: Nodes, h: Hash, p: Hash, d: nat)
    requires DepthAtMost(nodes, d) && h in nodes && p in nodes && p in nodes[h].parents
    ensures HeightUpTo(nodes, p, d) < HeightUpTo(nodes, h, d)
  {
    HeightIs(nodes, p, d);
    HeightIs(nodes, h, d);
    var k := HeightUpTo(nodes, p, d);
    DescendsFromChild(nodes, h, p, k);
    var c: seq<Hash> :| |c| == k + 2 && c[0] == h && Chain(nodes, c);
    assert k + 1 <= d;
  }

  // ---- convergence ----

  /** Every parent of a stored node is stored. */
  ghost predicate AncestorClosed(nodes: Nodes) {
    forall h, p :: h in nodes && p in nodes[h].parents ==> p in nodes
  }

  lemma {:induction false} HeadsDetermine(a: Nodes, b: Nodes, d: nat, h: Hash)
    requires Agree(a, b) && Frontier(a) == Frontier(b) && AncestorClosed(b) && DepthAtMost(a, d) && h in a
    ensures h in b
    decreases d - HeightUpTo(a, h, d)
  {
    HeightIs(a, h, d);
    if h in Frontier(a) {
      assert h in Frontier(b);
    } else {
      var c :| c in a && h in a[c].parents;
      ParentsLower(a, c, h, d);
      HeightIs(a, c, d);
      HeadsDetermine(a, b, d, c);
      assert a[c] == b[c];
    }
  }

  /**
   * Ancestor-closed acyclic stores are the same if and only if they have the same root and agree on the nodes under
   * their common hashes.
   */
  lemma RootsConverge(g: Digest, a: Nodes, b: Nodes, d: nat)
    requires RootsApart(g, Frontier(a), Frontier(b))
    requires AncestorClosed(a) && AncestorClosed(b) && DepthAtMost(a, d) && DepthAtMost(b, d)
    ensures a == b <==> RootOf(g, Frontier(a)) == RootOf(g, Frontier(b)) && Agree(a, b)
  {
    if RootOf(g, Frontier(a)) == RootOf(g, Frontier(b)) && Agree(a, b) {
      RootsDistinguish(g, Frontier(a), Frontier(b));
      forall h
        ensures h in a <==> h in b
      {
        if h in a { HeadsDetermine(a, b, d, h); }
        if h in b { HeadsDetermine(b, a, d, h); }
      }
      assert a == b;
    }
  }
}
