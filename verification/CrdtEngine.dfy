/** The Merkle-CRDT engine and the actor steps on it: append, merge, recovery, collection, delta sync, root. */
module CrdtEngine {
  import opened Bags
  import opened Dag
  import opened DagArenas
  import opened Traversal
  import opened ReplicaSteps

  method ListSet(m: set<Hash>) returns (s: seq<Hash>)
    ensures Lists(s, m)
  {
    s := [];
    var rest := m;
    while rest != {}
      invariant Distinct(s) && (forall h :: h in s ==> h !in rest)
      invariant forall h :: h in m <==> h in s || h in rest
      decreases rest
    {
      var h :| h in rest;
      s, rest := s + [h], rest - {h};
    }
  }

  lemma SortedListing(s: seq<Hash>, m: set<Hash>)
    requires Lists(s, m)
    ensures SortAscending(s) == Ascend(m) && Lists(SortAscending(s), m)
  {
    var t := SortAscending(s);
    SortAscendingBag(s);
    BagMembers(s, t);
    DistinctBag(s);
    forall i, j | 0 <= i < j < |t|
      ensures t[i] < t[j]
    {
      OnceInBag(t, i, j);
    }
    StrictUnique(t, Ascend(m));
  }

  lemma {:induction false} DistinctBag(s: seq<Hash>)
    requires Distinct(s)
    ensures forall h :: multiset(s)[h] <= 1
  {
    if s != [] {
      var n := |s| - 1;
      assert s == s[..n] + [s[n]];
      assert s[n] !in s[..n];
      DistinctBag(s[..n]);
    }
  }

  lemma OnceInBag(t: seq<Hash>, i: nat, j: nat)
    requires i < j < |t| && multiset(t)[t[j]] <= 1
    ensures t[i] != t[j]
  {
    assert t == t[..j] + [t[j]] + t[j + 1..];
    assert multiset(t[..j])[t[j]] == 0;
    assert t[j] !in t[..j];
    assert t[..j][i] == t[i];
  }

  /** Queue every head at depth zero. */
  function HeadQueue(s: seq<Hash>): Queue {
    seq(|s|, i requires 0 <= i < |s| => (s[i], 0))
  }

  lemma HeadQueueIs(s: seq<Hash>, heads: set<Hash>)
    requires Lists(s, heads)
    ensures forall q :: q in HeadQueue(s) <==> q.1 == 0 && q.0 in heads
  {
    forall q
      ensures q in HeadQueue(s) <==> q.1 == 0 && q.0 in heads
    {
      if q.1 == 0 && q.0 in heads {
        var i :| 0 <= i < |s| && s[i] == q.0;
        assert HeadQueue(s)[i] == q;
      }
    }
  }

  lemma OnlyHead(heads: set<Hash>, parents: seq<Hash>, h: Hash)
    requires Lists(parents, heads)
    ensures (heads - set p | p in parents) + {h} == {h}
  {
  }

  lemma MergeAddressed(d: Digest, nodes: Nodes, n: DagNode)
    requires Addressed(d, nodes)
    ensures Addressed(d, MergeOne(d, nodes, n))
  {
  }

  lemma KeptHeads(heads: set<Hash>, keep: set<Hash>)
    requires heads <= keep
    ensures heads * keep == heads
  {
  }

  lemma SweepKeeps(d: Digest, nodes: Nodes, heads: set<Hash>, keep: set<Hash>)
    requires Addressed(d, nodes) && Marking(nodes, heads, {}, keep, [])
    ensures Addressed(d, Swept(nodes, keep)) && Collects(nodes, Swept(nodes, keep), heads)
    ensures heads <= keep
    ensures heads == Frontier(nodes) ==> heads == Frontier(Swept(nodes, keep))
  {
    SweepCollects(nodes, heads, keep);
    if heads == Frontier(nodes) { CollectKeepsFrontier(nodes, Swept(nodes, keep), heads); }
  }

  class MerkleCrdtEngine {
    const digest: Digest
    const arena: DagArena
    const gcThreshold: nat
    var heads: set<Hash>
    var headsSoa: seq<Hash>
    var mutationsSinceGc: nat
    var cachedRoot: Option<Hash>

    /** Nodes are stored under their hashes, the head list lists the heads, and a cached root is their root. */
    ghost predicate Valid()
      reads this, arena
    {
      && arena.Valid() && Addressed(digest, arena.Contents())
      && Lists(headsSoa, heads)
      && (cachedRoot.Some? ==> cachedRoot.value == RootOf(digest, heads))
    }

    ghost function Stored(): Nodes
      reads this, arena
      requires Valid()
    {
      arena.Contents()
    }

    ghost function State(): Replica
      reads this, arena
      requires Valid()
    {
      Replica(Stored(), heads)
    }

    /** The heads are the stored nodes that no stored node lists as a parent. */
    ghost predicate AtFrontier()
      reads this, arena
      requires Valid()
    {
      heads == Frontier(Stored())
    }

    constructor (digest: Digest, gcThreshold: nat)
      ensures Valid() && AtFrontier() && fresh(arena) && Stored() == map[]
      ensures this.digest == digest && this.gcThreshold == gcThreshold && mutationsSinceGc == 0
    {
      this.digest, this.gcThreshold := digest, gcThreshold;
      arena := new DagArena();
      heads, headsSoa, mutationsSinceGc, cachedRoot := {}, [], 0, None;
    }

    method InvalidateRoot()
      modifies `cachedRoot, `headsSoa
      ensures cachedRoot == None && Lists(headsSoa, heads)
    {
      cachedRoot := None;
      headsSoa := ListSet(heads);
    }

    /** The root of the current frontier, cached until the heads change. */
    method GetMerkleRoot() returns (root: Hash)
      requires Valid()
      modifies `cachedRoot, `headsSoa
      ensures Valid() && root == RootOf(digest, heads)
      ensures cachedRoot == Some(root)
    {
      if cachedRoot.Some? {
        return cachedRoot.value;
      }
      if headsSoa == [] {
        assert heads == {} by { assert forall h :: h in heads ==> h in headsSoa; }
        root := 0;
        cachedRoot := Some(root);
        return;
      }
      assert headsSoa[0] in headsSoa;
      SortedListing(headsSoa, heads);
      headsSoa := SortAscending(headsSoa);
      root := digest.root(headsSoa);
      cachedRoot := Some(root);
    }

    /** Mark what the frontier reaches within the bound. */
    method Mark() returns (keep: set<Hash>)
      requires Valid()
      ensures Marking(Stored(), heads, {}, keep, []) && Walking(Stored(), heads, {}, keep, [])
    {
      keep := {};
      var listed := ListSet(heads);
      var queue := HeadQueue(listed);
      HeadQueueIs(listed, heads);
      WalkStarts(Stored(), heads, {}, queue);
      while queue != []
        invariant Marking(Stored(), heads, {}, keep, queue) && Walking(Stored(), heads, {}, keep, queue)
        decreases Universe(Stored(), heads) - keep, |queue|
      {
        MarkStepKeeps(Stored(), heads, {}, keep, queue);
        WalkStepKeeps(Stored(), heads, {}, keep, queue);
        keep, queue := MarkEntry(keep, queue);
      }
    }

    /** Take the last queue entry: skip it if marked or too deep, else mark it and queue its parents. */
    method MarkEntry(keep: set<Hash>, queue: Queue) returns (keep': set<Hash>, queue': Queue)
      requires Valid() && |queue| > 0
      ensures (keep', queue') == WalkStep(Stored(), {}, keep, queue)
    {
      var (h, depth) := queue[|queue| - 1];
      keep', queue' := keep, queue[..|queue| - 1];
      if h in keep || depth > DAG_HISTORY_DEPTH {
        return;
      }
      keep' := keep + {h};
      var node := arena.GetByHash(h);
      if node.Some? {
        queue' := queue' + Enqueue(node.value.parents, depth + 1);
      } else {
        assert queue' + [] == queue';
      }
    }

    /**
     * Collect: heads and root stay, only stored nodes within the history bound of a head stay, and a frontier stays
     * the frontier of what is left. From a frontier, every node stays that no parent chain is too long for; if none
     * is too long, nothing is dropped.
     */
    method CompactHistory()
      requires Valid()
      modifies `heads, `cachedRoot, `headsSoa, arena
      ensures Valid() && heads == old(heads)
      ensures Collects(old(Stored()), Stored(), heads)
      ensures old(AtFrontier()) ==> AtFrontier() && KeepsDue(old(Stored()), Stored())
      ensures old(AtFrontier()) && DepthAtMost(old(Stored()), DAG_HISTORY_DEPTH) ==> Stored() == old(Stored())
    {
      ghost var nodes := Stored();
      var keep := Mark();
      SweepKeeps(digest, nodes, heads, keep);
      if heads == Frontier(nodes) {
        SweepKeepsDue(nodes, heads, keep);
        if DepthAtMost(nodes, DAG_HISTORY_DEPTH) { ShallowIsKept(nodes, Swept(nodes, keep), heads); }
      }
      Sweep(keep);
    }

    /** Drop the unmarked nodes, and unmarked heads if any node was dropped. */
    method Sweep(keep: set<Hash>)
      requires Valid() && Addressed(digest, Swept(Stored(), keep)) && heads <= keep
      modifies `heads, `cachedRoot, `headsSoa, arena
      ensures Valid() && heads == old(heads) && Stored() == Swept(old(Stored()), keep)
    {
      KeptHeads(heads, keep);
      var removed := arena.Retain(keep);
      if removed > 0 {
        heads := heads * keep;
        InvalidateRoot();
      }
    }

    /**
     * Append a node on top of all heads. It becomes the only head; at the mutation threshold the store is
     * collected. The heads stay the frontier if the new hash tops the store, and without a collection only then.
     */
    method AppendMutation(dataHash: Hash, signature: nat, vclock: Clock, evidence: Option<AiEvidence>)
      returns (hash: Hash, ghost node: DagNode)
      requires Valid()
      modifies this, arena
      ensures Valid() && hash == digest.node(node) && heads == Appended(digest, old(State()), node).heads
      ensures node == DagNode(node.parents, signature, dataHash, vclock, evidence) && Lists(node.parents, old(heads))
      ensures old(mutationsSinceGc) + 1 < gcThreshold ==>
        State() == Appended(digest, old(State()), node) && mutationsSinceGc == old(mutationsSinceGc) + 1
      ensures old(mutationsSinceGc) + 1 >= gcThreshold ==>
        Collects(Appended(digest, old(State()), node).nodes, Stored(), heads) && mutationsSinceGc == 0
      ensures old(mutationsSinceGc) + 1 >= gcThreshold && old(AtFrontier()) && Tops(digest, old(Stored()), node) ==>
        KeepsDue(Appended(digest, old(State()), node).nodes, Stored())
      ensures old(AtFrontier()) && Tops(digest, old(Stored()), node) ==> AtFrontier()
      ensures old(AtFrontier()) && old(mutationsSinceGc) + 1 < gcThreshold && AtFrontier() ==>
        Tops(digest, old(Stored()), node)
    {
      hash, node := Attach(dataHash, signature, vclock, evidence);
      mutationsSinceGc := mutationsSinceGc + 1;
      if mutationsSinceGc >= gcThreshold {
        CompactHistory();
        mutationsSinceGc := 0;
      }
    }

    /** The append itself, before any collection. */
    method Attach(dataHash: Hash, signature: nat, vclock: Clock, evidence: Option<AiEvidence>)
      returns (hash: Hash, ghost node: DagNode)
      requires Valid()
      modifies `heads, `cachedRoot, `headsSoa, arena
      ensures Valid() && hash == digest.node(node) && State() == Appended(digest, old(State()), node)
      ensures node == DagNode(node.parents, signature, dataHash, vclock, evidence) && Lists(node.parents, old(heads))
      ensures old(AtFrontier()) ==> (AtFrontier() <==> Tops(digest, old(Stored()), node))
    {
      ghost var nodes := Stored();
      var parents := ListSet(heads);
      var n := DagNode(parents, signature, dataHash, vclock, evidence);
      node := n;
      hash := digest.node(n);
      OnlyHead(heads, parents, hash);
      heads := (heads - set p | p in parents) + {hash};
      MergeAddressed(digest, nodes, n);
      var index, inserted := arena.Insert(hash, n);
      assert arena.Contents() == MergeOne(digest, nodes, n);
      InvalidateRoot();
      if old(heads) == Frontier(nodes) {
        AppendFrontierIff(digest, nodes, n);
      }
    }

    // ---- delta sync ----

    /**
     * The delta for a peer with the given heads: stored nodes only, each once, never one the peer named, and none
     * that is not reached from a head through sent nodes within the history bound. If local heads are the frontier,
     * every node that no parent chain is too long for is in the delta or in any parent-closed store
     * that holds the named heads and agrees with the local one; if no chain is too long, that is every node.
     */
    method GetVdiff(remoteHeads: seq<Hash>) returns (deltas: seq<DagNode>)
      requires Valid()
      ensures forall n :: n in deltas ==>
        digest.node(n) in Stored() && Stored()[digest.node(n)] == n && digest.node(n) !in remoteHeads
      ensures Distinct(deltas) && Reachable(digest, Stored(), heads, deltas)
      ensures AtFrontier() && DepthAtMost(Stored(), DAG_HISTORY_DEPTH) ==>
        forall theirs: Nodes :: Holds(Stored(), theirs, remoteHeads) ==> Completes(theirs, deltas, Stored())
      ensures AtFrontier() ==>
        forall theirs: Nodes :: Holds(Stored(), theirs, remoteHeads) ==> CompletesDue(theirs, deltas, Stored())
    {
      var remote := set h | h in remoteHeads;
      var listed := ListSet(heads);
      var queue := HeadQueue(listed);
      var visited: set<Hash> := {};
      deltas := [];
      HeadQueueIs(listed, heads);
      WalkStarts(Stored(), heads, remote, queue);
      while queue != []
        invariant Walking(Stored(), heads, remote, visited, queue)
        invariant Marking(Stored(), heads, remote, visited, queue)
        invariant Collected(digest, Stored(), visited, deltas)
        decreases Universe(Stored(), heads) - visited, |queue|
      {
        SendStepKeeps(digest, Stored(), heads, remote, visited, queue, deltas);
        MarkStepKeeps(Stored(), heads, remote, visited, queue);
        visited, queue, deltas := SendEntry(remote, visited, queue, deltas);
      }
      SentIsReachable(digest, Stored(), heads, remote, visited, deltas);
      if AtFrontier() {
        forall theirs: Nodes | Holds(Stored(), theirs, remoteHeads)
          ensures CompletesDue(theirs, deltas, Stored())
        {
          SentWhatIsDue(digest, Stored(), heads, remote, visited, theirs, deltas);
        }
      }
    }

    /** Take the last queue entry: skip it if seen, named or too deep, else visit it and queue its parents. */
    method SendEntry(remote: set<Hash>, visited: set<Hash>, queue: Queue, deltas: seq<DagNode>)
      returns (visited': set<Hash>, queue': Queue, deltas': seq<DagNode>)
      requires Valid() && |queue| > 0
      ensures (visited', queue', deltas') == SendStep(Stored(), remote, visited, queue, deltas)
    {
      var (h, depth) := queue[|queue| - 1];
      visited', queue', deltas' := visited, queue[..|queue| - 1], deltas;
      if h in visited || h in remote || depth > DAG_HISTORY_DEPTH {
        return;
      }
      visited' := visited + {h};
      assert h in visited';
      var node := arena.GetByHash(h);
      if node.Some? {
        queue' := queue' + Enqueue(node.value.parents, depth + 1);
        deltas' := deltas' + [node.value];
      } else {
        assert queue' + [] == queue';
      }
    }

    // ---- the actor's merge step ----

    /** Rebuild the heads from the whole arena: a node is a head if and only if no node lists it as a parent. */
    method RecomputeHeads()
      requires arena.Valid()
      modifies `heads
      ensures heads == Frontier(arena.Contents())
    {
      var hasChildren := CollectParents();
      heads := set h | h in arena.hashToIndex && h !in hasChildren;
    }

    method CollectParents() returns (parents: set<Hash>)
      requires arena.Valid()
      ensures forall h :: h in parents <==> IsParent(arena.Contents(), h)
    {
      parents := {};
      var rest := arena.hashToIndex.Keys;
      ghost var done := {};
      while rest != {}
        invariant done + rest == arena.Contents().Keys
        invariant forall h :: h in parents <==>
          exists c :: c in done && c in arena.Contents() && h in arena.Contents()[c].parents
        decreases rest
      {
        var c :| c in rest;
        parents := parents + set p | p in arena.slab[arena.hashToIndex[c]].parents;
        rest, done := rest - {c}, done + {c};
      }
    }

    /**
     * Merge a batch in the order given: exactly the new nodes are added, duplicates and known nodes are not, and
     * if anything was added the heads are the frontier of the result.
     */
    method Merge(batch: seq<DagNode>) returns (added: nat)
      requires Valid()
      modifies `heads, `cachedRoot, `headsSoa, arena
      ensures Valid()
      ensures State() == Merged(digest, old(State()), batch)
      ensures added == |Stored()| - |old(Stored())|
      ensures old(AtFrontier()) ==> AtFrontier()
    {
      added := InsertBatch(batch);
      if added > 0 {
        RecomputeHeads();
        InvalidateRoot();
      } else {
        SameSizeSame(digest, old(Stored()), batch);
      }
    }

    method InsertBatch(batch: seq<DagNode>) returns (added: nat)
      requires arena.Valid() && Addressed(digest, arena.Contents())
      modifies arena
      ensures arena.Valid() && Addressed(digest, arena.Contents())
      ensures arena.Contents() == MergeAll(digest, old(arena.Contents()), batch)
      ensures added == |arena.Contents()| - |old(arena.Contents())|
    {
      added := 0;
      ghost var nodes := arena.Contents();
      for i := 0 to |batch|
        invariant arena.Valid() && Addressed(digest, arena.Contents())
        invariant arena.Contents() == MergeAll(digest, nodes, batch[..i])
        invariant added == |arena.Contents()| - |nodes|
      {
        var node := batch[i];
        assert batch[..i + 1][..i] == batch[..i];
        var hash := digest.node(node);
        var known := arena.Contains(hash);
        if !known {
          var index, inserted := arena.Insert(hash, node);
          added := added + 1;
        }
      }
      assert batch[..|batch|] == batch;
    }
  }

  /** A store that holds the named heads and every ancestor, and under shared hashes the same nodes as `ours`. */
  ghost predicate Holds(ours: Nodes, theirs: Nodes, named: seq<Hash>) {
    Agree(ours, theirs) && AncestorClosed(theirs) && forall h :: h in named ==> h in theirs
  }

  /** Every node of `ours` is already in `theirs` or comes with the delta. */
  ghost predicate Completes(theirs: Nodes, deltas: seq<DagNode>, ours: Nodes) {
    forall h :: h in ours ==> h in theirs || ours[h] in deltas
  }

  /** So is every node that no chain is too long for. */
  ghost predicate CompletesDue(theirs: Nodes, deltas: seq<DagNode>, ours: Nodes) {
    && (forall h :: Due(ours, h) ==> h in theirs || ours[h] in deltas)
    && (DepthAtMost(ours, DAG_HISTORY_DEPTH) ==> Completes(theirs, deltas, ours))
  }

  /** Each delta node is within the history bound of a head through delta nodes alone. */
  ghost predicate Reachable(d: Digest, nodes: Nodes, heads: set<Hash>, deltas: seq<DagNode>) {
    var sent := set n | n in deltas :: d.node(n);
    forall h :: h in sent ==> Within(nodes, sent, heads, h, DAG_HISTORY_DEPTH)
  }

  lemma SentIsReachable(d: Digest, nodes: Nodes, heads: set<Hash>, remote: set<Hash>, visited: set<Hash>,
                        deltas: seq<DagNode>)
    requires Addressed(d, nodes) && Collected(d, nodes, visited, deltas) && Marking(nodes, heads, remote, visited, [])
    ensures Reachable(d, nodes, heads, deltas)
  {
    var sent := set n | n in deltas :: d.node(n);
    forall h | h in sent
      ensures Within(nodes, sent, heads, h, DAG_HISTORY_DEPTH)
    {
      WithinGrows(nodes, visited, sent, heads, h, DAG_HISTORY_DEPTH, DAG_HISTORY_DEPTH);
    }
  }

  lemma SentWhatIsDue(d: Digest, nodes: Nodes, heads: set<Hash>, remote: set<Hash>, visited: set<Hash>, theirs: Nodes,
                      deltas: seq<DagNode>)
    requires Collected(d, nodes, visited, deltas) && Agree(nodes, theirs) && AncestorClosed(theirs)
    requires forall r :: r in remote ==> r in theirs
    requires heads == Frontier(nodes) && Walking(nodes, heads, remote, visited, [])
    ensures CompletesDue(theirs, deltas, nodes)
  {
    forall h | Due(nodes, h)
      ensures h in theirs || nodes[h] in deltas
    {
      Covered(nodes, heads, remote, visited, theirs, h);
    }
    if DepthAtMost(nodes, DAG_HISTORY_DEPTH) {
      forall h | h in nodes
        ensures h in theirs || nodes[h] in deltas
      {
        DepthIsShort(nodes, h);
        assert Due(nodes, h);
      }
    }
  }

  /** What `get_vdiff` has collected: the stored nodes among the visited hashes. */
  ghost predicate Collected(d: Digest, nodes: Nodes, visited: set<Hash>, deltas: seq<DagNode>) {
    && Distinct(deltas)
    && (forall n :: n in deltas ==> d.node(n) in visited && d.node(n) in nodes && nodes[d.node(n)] == n)
    && (forall h :: h in visited && h in nodes ==> nodes[h] in deltas)
  }

  /** One step of the delta traversal on values. */
  ghost function SendStep(nodes: Nodes, remote: set<Hash>, visited: set<Hash>, queue: Queue, deltas: seq<DagNode>)
    : (set<Hash>, Queue, seq<DagNode>)
    requires |queue| > 0
  {
    var (visited', queue') := WalkStep(nodes, remote, visited, queue);
    var h := queue[|queue| - 1].0;
    (visited', queue', if visited' != visited && h in nodes then deltas + [nodes[h]] else deltas)
  }

  lemma SendStepKeeps(d: Digest, nodes: Nodes, heads: set<Hash>, remote: set<Hash>, visited: set<Hash>, queue: Queue,
                      deltas: seq<DagNode>)
    requires Addressed(d, nodes) && |queue| > 0
    requires Walking(nodes, heads, remote, visited, queue) && Collected(d, nodes, visited, deltas)
    ensures var (visited', queue', deltas') := SendStep(nodes, remote, visited, queue, deltas);
      && Walking(nodes, heads, remote, visited', queue') && Collected(d, nodes, visited', deltas')
      && Advances(Universe(nodes, heads), visited, queue, visited', queue')
  {
    WalkStepKeeps(nodes, heads, remote, visited, queue);
    var (h, depth) := queue[|queue| - 1];
    if !(h in visited || h in remote || depth > DAG_HISTORY_DEPTH) {
      assert h in visited + {h};
      CollectMore(d, nodes, visited, deltas, h);
    }
  }

  lemma CollectMore(d: Digest, nodes: Nodes, visited: set<Hash>, deltas: seq<DagNode>, h: Hash)
    requires Addressed(d, nodes) && Collected(d, nodes, visited, deltas) && h !in visited
    ensures Collected(d, nodes, visited + {h}, if h in nodes then deltas + [nodes[h]] else deltas)
  {
  }

  // ---- recovery ----

  /** Rebuild an engine from stored `(hash, node)` pairs: every stored node, heads at its frontier. */
  method Recover(digest: Digest, gcThreshold: nat, stored: seq<(Hash, DagNode)>) returns (engine: MerkleCrdtEngine)
    requires forall p :: p in stored ==> digest.node(p.1) == p.0
    ensures fresh(engine) && fresh(engine.arena) && engine.Valid() && engine.digest == digest && engine.AtFrontier()
    ensures Loaded(digest, stored, engine.Stored())
  {
    engine := new MerkleCrdtEngine(digest, gcThreshold);
    for i := 0 to |stored|
      invariant fresh(engine) && fresh(engine.arena) && engine.digest == digest
      invariant engine.arena.Valid() && Loaded(digest, stored[..i], engine.arena.Contents())
      invariant engine.heads == engine.arena.Contents().Keys
    {
      var (hash, node) := stored[i];
      assert stored[i] in stored;
      assert stored[..i + 1] == stored[..i] + [stored[i]];
      LoadOne(digest, stored[..i], engine.arena.Contents(), hash, node);
      var index, inserted := engine.arena.Insert(hash, node);
      engine.heads := engine.heads + {hash};
    }
    assert stored[..|stored|] == stored;
    var allParents := engine.CollectParents();
    engine.heads := set h | h in engine.heads && h !in allParents;
    engine.InvalidateRoot();
  }

  /** The store holds exactly the hashes of the loaded pairs, each with a node of that hash. */
  ghost predicate Loaded(d: Digest, stored: seq<(Hash, DagNode)>, nodes: Nodes) {
    Addressed(d, nodes) && forall h :: h in nodes <==> Named(stored, h)
  }

  ghost predicate Named(stored: seq<(Hash, DagNode)>, h: Hash) {
    exists p :: p in stored && p.0 == h
  }

  lemma LoadOne(d: Digest, stored: seq<(Hash, DagNode)>, nodes: Nodes, h: Hash, n: DagNode)
    requires Loaded(d, stored, nodes) && d.node(n) == h
    ensures Loaded(d, stored + [(h, n)], if h !in nodes then nodes[h := n] else nodes)
  {
    var more := stored + [(h, n)];
    assert forall p :: p in more <==> p in stored || p == (h, n);
    forall x
      ensures Named(more, x) <==> x == h || x in nodes
    {
      if x in nodes {
        assert Named(stored, x);
        var p :| p in stored && p.0 == x;
        assert p in more;
      }
      if x == h { assert (h, n) in more; }
      if Named(more, x) && x != h {
        var p :| p in more && p.0 == x;
        assert Named(stored, x);
      }
    }
  }
}
