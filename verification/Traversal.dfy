/** The two bounded traversals from the frontier: what is kept by a collection and what is sent as a delta. */
module Traversal {
  import opened Dag

  const DAG_HISTORY_DEPTH: nat := 100

  // ---- walking parents from the frontier ----

  /** `h` is a head, or at most `k` parent links below one through kept nodes. */
  ghost predicate Within(nodes: Nodes, keep: set<Hash>, heads: set<Hash>, h: Hash, k: nat)
    decreases k
  {
    h in heads || (k > 0 &&
      exists c :: c in keep && c in nodes && h in nodes[c].parents && Within(nodes, keep, heads, c, k - 1))
  }

  lemma {:induction false} WithinGrows(nodes: Nodes, keep: set<Hash>, keep': set<Hash>, heads: set<Hash>, h: Hash,
                                       k: nat, k': nat)
    requires Within(nodes, keep, heads, h, k) && (forall c :: c in keep && c in nodes ==> c in keep') && k <= k'
    ensures Within(nodes, keep', heads, h, k')
    decreases k
  {
    if h !in heads {
      var c :| c in keep && c in nodes && h in nodes[c].parents && Within(nodes, keep, heads, c, k - 1);
      WithinGrows(nodes, keep, keep', heads, c, k - 1, k' - 1);
    }
  }

  /** Every hash a traversal can meet: heads and parents of stored nodes. */
  ghost function Universe(nodes: Nodes, heads: set<Hash>): set<Hash> {
    heads + set c, p | c in nodes && p in nodes[c].parents :: p
  }

  lemma ParentsInUniverse(nodes: Nodes, heads: set<Hash>, c: Hash)
    requires c in nodes
    ensures forall p :: p in nodes[c].parents ==> p in Universe(nodes, heads)
  {
  }

  type Queue = seq<(Hash, nat)>

  /** The parents of a node, queued one level deeper. */
  function Enqueue(parents: seq<Hash>, depth: nat): Queue {
    seq(|parents|, i requires 0 <= i < |parents| => (parents[i], depth))
  }

  /** The queue after its last entry was taken and, if stored, expanded. */
  function Expanded(nodes: Nodes, queue: Queue): Queue
    requires |queue| > 0
  {
    var (h, k) := queue[|queue| - 1];
    queue[..|queue| - 1] + if h in nodes then Enqueue(nodes[h].parents, k + 1) else []
  }

  /** One step of a traversal: an entry less, or a hash of the universe more. */
  ghost predicate Advances(all: set<Hash>, seen: set<Hash>, queue: Queue, seen': set<Hash>, queue': Queue) {
    || (seen' == seen && |queue'| < |queue|)
    || (|queue| > 0 && queue[|queue| - 1].0 in all - seen && seen' == seen + {queue[|queue| - 1].0})
  }

  /** What either traversal maintains; that of `compact_history` has no stop points. */
  ghost predicate Marking(nodes: Nodes, heads: set<Hash>, stop: set<Hash>, keep: set<Hash>, queue: Queue) {
    && (forall q :: q in queue ==> q.0 in Universe(nodes, heads) && Within(nodes, keep, heads, q.0, q.1))
    && (forall h :: h in keep ==> h in Universe(nodes, heads) && Within(nodes, keep, heads, h, DAG_HISTORY_DEPTH))
    && (forall h :: h in heads ==> h in keep || h in stop || (h, 0) in queue)
  }

  lemma MarkSkip(nodes: Nodes, heads: set<Hash>, stop: set<Hash>, keep: set<Hash>, queue: Queue)
    requires |queue| > 0 && Marking(nodes, heads, stop, keep, queue)
    requires var (h, depth) := queue[|queue| - 1]; h in keep || h in stop || depth > DAG_HISTORY_DEPTH
    ensures Marking(nodes, heads, stop, keep, queue[..|queue| - 1])
  {
    var rest, q := queue[..|queue| - 1], queue[|queue| - 1];
    assert forall x :: x in queue <==> x in rest || x == q;
  }

  lemma MarkOne(nodes: Nodes, heads: set<Hash>, stop: set<Hash>, keep: set<Hash>, queue: Queue)
    requires |queue| > 0 && Marking(nodes, heads, stop, keep, queue)
    requires queue[|queue| - 1].1 <= DAG_HISTORY_DEPTH
    ensures Marking(nodes, heads, stop, keep + {queue[|queue| - 1].0}, Expanded(nodes, queue))
  {
    var rest, q := queue[..|queue| - 1], queue[|queue| - 1];
    var keep' := keep + {q.0};
    var next := rest + if q.0 in nodes then Enqueue(nodes[q.0].parents, q.1 + 1) else [];
    assert forall x :: x in queue <==> x in rest || x == q;
    WithinGrows(nodes, keep, keep', heads, q.0, q.1, q.1);
    WithinGrows(nodes, keep, keep', heads, q.0, q.1, DAG_HISTORY_DEPTH);
    if q.0 in nodes { ParentsInUniverse(nodes, heads, q.0); }
    forall x | x in next
      ensures x.0 in Universe(nodes, heads) && Within(nodes, keep', heads, x.0, x.1)
    {
      if x in rest { WithinGrows(nodes, keep, keep', heads, x.0, x.1, x.1); }
    }
    forall h | h in keep'
      ensures h in Universe(nodes, heads) && Within(nodes, keep', heads, h, DAG_HISTORY_DEPTH)
    {
      if h != q.0 { WithinGrows(nodes, keep, keep', heads, h, DAG_HISTORY_DEPTH, DAG_HISTORY_DEPTH); }
    }
  }

  /** The nodes that survive a sweep with `keep`. */
  ghost function Swept(nodes: Nodes, keep: set<Hash>): Nodes {
    nodes - (nodes.Keys - keep)
  }

  /** Retained nodes are reached within the retained nodes alone. */
  lemma {:induction false} WithinSwept(nodes: Nodes, keep: set<Hash>, heads: set<Hash>, h: Hash, k: nat)
    requires Within(nodes, keep, heads, h, k)
    ensures Within(Swept(nodes, keep), Swept(nodes, keep).Keys, heads, h, k)
    decreases k
  {
    if h !in heads {
      var c :| c in keep && c in nodes && h in nodes[c].parents && Within(nodes, keep, heads, c, k - 1);
      WithinSwept(nodes, keep, heads, c, k - 1);
      assert c in Swept(nodes, keep) && h in Swept(nodes, keep)[c].parents;
    }
  }

  /** What a collection may do: drop nodes, none of them a head, and keep only what a head still reaches. */
  ghost predicate Collects(nodes: Nodes, nodes': Nodes, heads: set<Hash>) {
    && nodes'.Keys <= nodes.Keys
    && (forall h :: h in nodes' ==> nodes'[h] == nodes[h])
    && (forall h :: h in heads && h in nodes ==> h in nodes')
    && (forall h :: h in nodes' ==> Within(nodes', nodes'.Keys, heads, h, DAG_HISTORY_DEPTH))
  }

  lemma SweepCollects(nodes: Nodes, heads: set<Hash>, keep: set<Hash>)
    requires Marking(nodes, heads, {}, keep, [])
    ensures heads <= keep && Collects(nodes, Swept(nodes, keep), heads)
  {
    forall h | h in Swept(nodes, keep)
      ensures Within(Swept(nodes, keep), Swept(nodes, keep).Keys, heads, h, DAG_HISTORY_DEPTH)
    {
      WithinSwept(nodes, keep, heads, h, DAG_HISTORY_DEPTH);
    }
  }

  /** Collecting from a store whose heads are its frontier leaves exactly the same frontier. */
  lemma CollectKeepsFrontier(nodes: Nodes, nodes': Nodes, heads: set<Hash>)
    requires heads == Frontier(nodes) && Collects(nodes, nodes', heads)
    ensures Frontier(nodes') == heads
  {
    forall h | IsParent(nodes', h)
      ensures IsParent(nodes, h)
    {
      var c :| c in nodes' && h in nodes'[c].parents;
      assert c in nodes && h in nodes[c].parents;
    }
    forall h | h in nodes' && h !in heads
      ensures IsParent(nodes', h)
    {
      assert Within(nodes', nodes'.Keys, heads, h, DAG_HISTORY_DEPTH);
    }
  }

  // ---- chains from above ----

  /** A chain of `k` parent links ends at `h`. */
  ghost predicate Ascends(nodes: Nodes, h: Hash, k: nat) {
    exists c: seq<Hash> :: |c| == k + 1 && c[k] == h && Chain(nodes, c)
  }

  /** No parent chain that ends at `h` has more links than the history bound. */
  ghost predicate ShortAbove(nodes: Nodes, h: Hash) {
    forall c: seq<Hash> :: c != [] && c[|c| - 1] == h && Chain(nodes, c) ==> |c| <= DAG_HISTORY_DEPTH + 1
  }

  lemma DepthIsShort(nodes: Nodes, h: Hash)
    requires DepthAtMost(nodes, DAG_HISTORY_DEPTH)
    ensures ShortAbove(nodes, h)
  {
  }

  lemma ChainExtends(nodes: Nodes, c: seq<Hash>, p: Hash)
    requires Chain(nodes, c) && c != [] && p in nodes && p in nodes[c[|c| - 1]].parents
    ensures Chain(nodes, c + [p])
  {
    var e := c + [p];
    forall i | 0 <= i < |e| - 1
      ensures e[i + 1] in nodes[e[i]].parents
    {
      if i < |c| - 1 { assert c[i + 1] in nodes[c[i]].parents; }
    }
  }

  lemma AscendsToParent(nodes: Nodes, h: Hash, k: nat, p: Hash)
    requires h in nodes && Ascends(nodes, h, k) && p in nodes && p in nodes[h].parents
    ensures Ascends(nodes, p, k + 1)
  {
    var c: seq<Hash> :| |c| == k + 1 && c[k] == h && Chain(nodes, c);
    ChainExtends(nodes, c, p);
    assert |c + [p]| == k + 2 && (c + [p])[k + 1] == p;
  }

  /** The longest chain that ends at `h`, searched for up to `k` links. */
  ghost function AboveUpTo(nodes: Nodes, h: Hash, k: nat): nat {
    if k == 0 || Ascends(nodes, h, k) then k else AboveUpTo(nodes, h, k - 1)
  }

  lemma {:induction false} AboveIs(nodes: Nodes, h: Hash, k: nat)
    requires h in nodes
    ensures AboveUpTo(nodes, h, k) <= k && Ascends(nodes, h, AboveUpTo(nodes, h, k))
    ensures forall j :: AboveUpTo(nodes, h, k) < j <= k ==> !Ascends(nodes, h, j)
  {
    if k == 0 {
      assert |[h]| == 1 && [h][0] == h && Chain(nodes, [h]);
    } else if !Ascends(nodes, h, k) {
      AboveIs(nodes, h, k - 1);
    }
  }

  /** With short chains above a parent, those above its child are shorter still. */
  lemma ChildrenShorter(nodes: Nodes, c: Hash, h: Hash)
    requires c in nodes && h in nodes && h in nodes[c].parents && ShortAbove(nodes, h)
    ensures ShortAbove(nodes, c)
    ensures AboveUpTo(nodes, c, DAG_HISTORY_DEPTH) < AboveUpTo(nodes, h, DAG_HISTORY_DEPTH)
  {
    forall e: seq<Hash> | e != [] && e[|e| - 1] == c && Chain(nodes, e)
      ensures |e| <= DAG_HISTORY_DEPTH
    {
      ChainExtends(nodes, e, h);
      assert (e + [h])[|e + [h]| - 1] == h;
    }
    AboveIs(nodes, c, DAG_HISTORY_DEPTH);
    AboveIs(nodes, h, DAG_HISTORY_DEPTH);
    var k := AboveUpTo(nodes, c, DAG_HISTORY_DEPTH);
    var e: seq<Hash> :| |e| == k + 1 && e[k] == c && Chain(nodes, e);
    AscendsToParent(nodes, c, k, h);
  }

  // ---- what the walk from the heads meets ----

  /** One step of a walk that does not go through `stop`: skip the last entry, or see it and queue its parents. */
  ghost function WalkStep(nodes: Nodes, stop: set<Hash>, seen: set<Hash>, queue: Queue): (set<Hash>, Queue)
    requires |queue| > 0
  {
    var (h, depth) := queue[|queue| - 1];
    if h in seen || h in stop || depth > DAG_HISTORY_DEPTH then (seen, queue[..|queue| - 1])
    else (seen + {h}, Expanded(nodes, queue))
  }

  /** A queued hash is known to the store's universe and, if stored, as deep as some chain that ends at it. */
  ghost predicate Entered(nodes: Nodes, heads: set<Hash>, q: (Hash, nat)) {
    q.0 in Universe(nodes, heads) && (q.0 in nodes ==> Ascends(nodes, q.0, q.1))
  }

  ghost predicate AllEntered(nodes: Nodes, heads: set<Hash>, queue: Queue) {
    forall q :: q in queue ==> Entered(nodes, heads, q)
  }

  ghost predicate Queued(queue: Queue, h: Hash) {
    exists q :: q in queue && q.0 == h
  }

  /** `h` was seen, is a stop point, or is still queued. */
  ghost predicate Reached(seen: set<Hash>, stop: set<Hash>, queue: Queue, h: Hash) {
    h in seen || h in stop || Queued(queue, h)
  }

  /** A stored hash that no chain is too long for. */
  ghost predicate Due(nodes: Nodes, h: Hash) {
    h in nodes && ShortAbove(nodes, h)
  }

  /** The parents of `c` that are due have been reached. */
  ghost predicate Followed(nodes: Nodes, seen: set<Hash>, stop: set<Hash>, queue: Queue, c: Hash)
    requires c in nodes
  {
    forall p :: p in nodes[c].parents && Due(nodes, p) ==> Reached(seen, stop, queue, p)
  }

  /** What the walk maintains for every store. */
  ghost predicate Walking(nodes: Nodes, heads: set<Hash>, stop: set<Hash>, seen: set<Hash>, queue: Queue) {
    && seen !! stop && seen <= Universe(nodes, heads)
    && AllEntered(nodes, heads, queue)
    && (forall h :: h in heads && Due(nodes, h) ==> Reached(seen, stop, queue, h))
    && (forall c :: c in seen && c in nodes ==> Followed(nodes, seen, stop, queue, c))
  }

  lemma WalkStarts(nodes: Nodes, heads: set<Hash>, stop: set<Hash>, queue: Queue)
    requires forall q :: q in queue <==> q.1 == 0 && q.0 in heads
    ensures Walking(nodes, heads, stop, {}, queue)
  {
    forall q | q in queue
      ensures Entered(nodes, heads, q)
    {
      if q.0 in nodes { assert |[q.0]| == 1 && [q.0][0] == q.0 && Chain(nodes, [q.0]); }
    }
    forall h | h in heads
      ensures Reached({}, stop, queue, h)
    {
      assert (h, 0) in queue;
    }
  }

  /** Taking the last entry off the queue, keeping or adding to what was seen. */
  lemma StillReached(stop: set<Hash>, seen: set<Hash>, seen': set<Hash>, queue: Queue, next: Queue, h: Hash)
    requires |queue| > 0 && seen <= seen' && Reached(seen, stop, queue, h)
    requires queue[|queue| - 1].0 in seen' || queue[|queue| - 1].0 in stop || queue[|queue| - 1].0 != h
    requires forall x :: x in queue[..|queue| - 1] ==> x in next
    ensures Reached(seen', stop, next, h)
  {
    var rest, q := queue[..|queue| - 1], queue[|queue| - 1];
    assert forall x :: x in queue <==> x in rest || x == q;
    if h !in seen' && h !in stop {
      var x :| x in queue && x.0 == h;
      assert x in next;
    }
  }

  lemma StillFollowed(nodes: Nodes, stop: set<Hash>, seen: set<Hash>, seen': set<Hash>, queue: Queue, next: Queue,
                      c: Hash)
    requires c in nodes && Followed(nodes, seen, stop, queue, c)
    requires |queue| > 0 && seen <= seen'
    requires queue[|queue| - 1].0 in seen' || queue[|queue| - 1].0 in stop || !Due(nodes, queue[|queue| - 1].0)
    requires forall x :: x in queue[..|queue| - 1] ==> x in next
    ensures Followed(nodes, seen', stop, next, c)
  {
    forall p | p in nodes[c].parents && Due(nodes, p)
      ensures Reached(seen', stop, next, p)
    {
      StillReached(stop, seen, seen', queue, next, p);
    }
  }

  /** An entry too deep for the bound is the end of a chain too long for it. */
  lemma TooDeepIsNotDue(nodes: Nodes, heads: set<Hash>, q: (Hash, nat))
    requires Entered(nodes, heads, q) && q.1 > DAG_HISTORY_DEPTH
    ensures !Due(nodes, q.0)
  {
    if q.0 in nodes {
      var c: seq<Hash> :| |c| == q.1 + 1 && c[q.1] == q.0 && Chain(nodes, c);
    }
  }

  lemma WalkSkips(nodes: Nodes, heads: set<Hash>, stop: set<Hash>, seen: set<Hash>, queue: Queue)
    requires |queue| > 0 && Walking(nodes, heads, stop, seen, queue)
    requires var (h, depth) := queue[|queue| - 1]; h in seen || h in stop || depth > DAG_HISTORY_DEPTH
    ensures Walking(nodes, heads, stop, seen, queue[..|queue| - 1])
  {
    var rest, q := queue[..|queue| - 1], queue[|queue| - 1];
    assert forall x :: x in rest ==> x in queue;
    assert Entered(nodes, heads, q);
    if q.1 > DAG_HISTORY_DEPTH { TooDeepIsNotDue(nodes, heads, q); }
    forall h | h in heads && Due(nodes, h)
      ensures Reached(seen, stop, rest, h)
    {
      StillReached(stop, seen, seen, queue, rest, h);
    }
    forall c | c in seen && c in nodes
      ensures Followed(nodes, seen, stop, rest, c)
    {
      StillFollowed(nodes, stop, seen, seen, queue, rest, c);
    }
  }

  lemma EnqueueEntered(nodes: Nodes, heads: set<Hash>, q: (Hash, nat))
    requires q.0 in nodes && Entered(nodes, heads, q)
    ensures AllEntered(nodes, heads, Enqueue(nodes[q.0].parents, q.1 + 1))
  {
    ParentsInUniverse(nodes, heads, q.0);
    forall x | x in Enqueue(nodes[q.0].parents, q.1 + 1)
      ensures Entered(nodes, heads, x)
    {
      if x.0 in nodes { AscendsToParent(nodes, q.0, q.1, x.0); }
    }
  }

  lemma EnqueueQueues(parents: seq<Hash>, depth: nat, rest: Queue, p: Hash)
    requires p in parents
    ensures Queued(rest + Enqueue(parents, depth), p)
  {
    var i :| 0 <= i < |parents| && parents[i] == p;
    assert Enqueue(parents, depth)[i] == (p, depth);
    assert (p, depth) in rest + Enqueue(parents, depth);
  }

  lemma ExpandedEntered(nodes: Nodes, heads: set<Hash>, queue: Queue)
    requires |queue| > 0 && AllEntered(nodes, heads, queue)
    ensures AllEntered(nodes, heads, Expanded(nodes, queue))
    ensures queue[|queue| - 1].0 in Universe(nodes, heads)
  {
    var rest, q := queue[..|queue| - 1], queue[|queue| - 1];
    assert Entered(nodes, heads, q);
    assert forall x :: x in rest ==> x in queue;
    if q.0 in nodes { EnqueueEntered(nodes, heads, q); }
  }

  lemma ExpandedFollows(nodes: Nodes, stop: set<Hash>, seen: set<Hash>, queue: Queue)
    requires |queue| > 0 && queue[|queue| - 1].0 in nodes
    ensures Followed(nodes, seen, stop, Expanded(nodes, queue), queue[|queue| - 1].0)
  {
    var (h, k) := queue[|queue| - 1];
    forall p | p in nodes[h].parents
      ensures Reached(seen, stop, Expanded(nodes, queue), p)
    {
      EnqueueQueues(nodes[h].parents, k + 1, queue[..|queue| - 1], p);
    }
  }

  lemma WalkSees(nodes: Nodes, heads: set<Hash>, stop: set<Hash>, seen: set<Hash>, queue: Queue)
    requires |queue| > 0 && Walking(nodes, heads, stop, seen, queue)
    requires queue[|queue| - 1].0 !in seen && queue[|queue| - 1].0 !in stop
    ensures queue[|queue| - 1].0 in Universe(nodes, heads)
    ensures Walking(nodes, heads, stop, seen + {queue[|queue| - 1].0}, Expanded(nodes, queue))
  {
    var h, next := queue[|queue| - 1].0, Expanded(nodes, queue);
    var seen' := seen + {h};
    assert forall x :: x in queue[..|queue| - 1] ==> x in next;
    ExpandedEntered(nodes, heads, queue);
    forall x | x in heads && Due(nodes, x)
      ensures Reached(seen', stop, next, x)
    {
      StillReached(stop, seen, seen', queue, next, x);
    }
    forall c | c in seen' && c in nodes
      ensures Followed(nodes, seen', stop, next, c)
    {
      if c == h {
        ExpandedFollows(nodes, stop, seen', queue);
      } else {
        StillFollowed(nodes, stop, seen, seen', queue, next, c);
      }
    }
  }

  lemma WalkStepKeeps(nodes: Nodes, heads: set<Hash>, stop: set<Hash>, seen: set<Hash>, queue: Queue)
    requires |queue| > 0 && Walking(nodes, heads, stop, seen, queue)
    ensures var (seen', queue') := WalkStep(nodes, stop, seen, queue);
      && Walking(nodes, heads, stop, seen', queue')
      && Advances(Universe(nodes, heads), seen, queue, seen', queue')
  {
    var (h, depth) := queue[|queue| - 1];
    if h in seen || h in stop || depth > DAG_HISTORY_DEPTH {
      WalkSkips(nodes, heads, stop, seen, queue);
    } else {
      WalkSees(nodes, heads, stop, seen, queue);
    }
  }

  lemma MarkStepKeeps(nodes: Nodes, heads: set<Hash>, stop: set<Hash>, keep: set<Hash>, queue: Queue)
    requires |queue| > 0 && Marking(nodes, heads, stop, keep, queue)
    ensures var (keep', queue') := WalkStep(nodes, stop, keep, queue); Marking(nodes, heads, stop, keep', queue')
  {
    var (h, depth) := queue[|queue| - 1];
    if h in keep || h in stop || depth > DAG_HISTORY_DEPTH {
      MarkSkip(nodes, heads, stop, keep, queue);
    } else {
      MarkOne(nodes, heads, stop, keep, queue);
    }
  }

  /**
   * With the walk done, every stored node that no chain is too long for was seen or is an ancestor-or-self of a stop
   * point held by a remote store that is closed under parents and agrees with this one, and then that store holds it.
   */
  lemma {:induction false} Covered(nodes: Nodes, heads: set<Hash>, stop: set<Hash>, seen: set<Hash>, theirs: Nodes,
                                   h: Hash)
    requires Agree(nodes, theirs) && AncestorClosed(theirs)
    requires forall r :: r in stop ==> r in theirs
    requires heads == Frontier(nodes) && Walking(nodes, heads, stop, seen, []) && Due(nodes, h)
    ensures h in seen || h in theirs
    decreases AboveUpTo(nodes, h, DAG_HISTORY_DEPTH)
  {
    if h in heads {
      assert Reached(seen, stop, [], h);
    } else {
      var c :| c in nodes && h in nodes[c].parents;
      ChildrenShorter(nodes, c, h);
      Covered(nodes, heads, stop, seen, theirs, c);
      if c in seen {
        assert Followed(nodes, seen, stop, [], c);
        assert Reached(seen, stop, [], h);
      } else {
        assert nodes[c] == theirs[c];
      }
    }
  }

  // ---- what a collection keeps ----

  /** Every node that no chain is too long for is kept. */
  ghost predicate KeepsDue(nodes: Nodes, nodes': Nodes) {
    forall h :: Due(nodes, h) ==> h in nodes'
  }

  /** Without stop points the walk from the frontier sees every node that is due, so a sweep keeps it. */
  lemma SweepKeepsDue(nodes: Nodes, heads: set<Hash>, keep: set<Hash>)
    requires heads == Frontier(nodes) && Walking(nodes, heads, {}, keep, [])
    ensures KeepsDue(nodes, Swept(nodes, keep))
  {
    forall h | Due(nodes, h)
      ensures h in keep
    {
      Covered(nodes, heads, {}, keep, map[], h);
    }
  }

  /** If no chain is longer than the bound, a collection drops nothing. */
  lemma ShallowIsKept(nodes: Nodes, nodes': Nodes, heads: set<Hash>)
    requires Collects(nodes, nodes', heads) && KeepsDue(nodes, nodes') && DepthAtMost(nodes, DAG_HISTORY_DEPTH)
    ensures nodes' == nodes
  {
    forall h | h in nodes
      ensures h in nodes'
    {
      DepthIsShort(nodes, h);
      assert Due(nodes, h);
    }
    assert nodes'.Keys == nodes.Keys;
  }

  /** The store is one chain from a single head; what the last node lists is not stored. */
  ghost predicate Linear(nodes: Nodes, c: seq<Hash>) {
    && c != [] && (forall i, j :: 0 <= i < j < |c| ==> c[i] != c[j])
    && (forall h :: h in nodes <==> h in c)
    && (forall i :: 0 <= i < |c| ==> ListsNext(nodes, c, i))
  }

  ghost predicate ListsNext(nodes: Nodes, c: seq<Hash>, i: nat)
    requires i < |c|
  {
    && c[i] in nodes
    && if i + 1 < |c| then nodes[c[i]].parents == [c[i + 1]] else forall p :: p in nodes[c[i]].parents ==> p !in nodes
  }

  lemma LinearParent(nodes: Nodes, c: seq<Hash>, i: nat, j: nat)
    requires Linear(nodes, c) && i < |c| && j < |c| && c[j] in nodes[c[i]].parents
    ensures j == i + 1
  {
    assert ListsNext(nodes, c, i);
    assert c[j] in nodes;
  }

  lemma {:induction false} LinearChains(nodes: Nodes, c: seq<Hash>, i: nat, e: seq<Hash>)
    requires Linear(nodes, c) && i < |c| && e != [] && e[|e| - 1] == c[i] && Chain(nodes, e)
    ensures |e| <= i + 1
    decreases |e|
  {
    if |e| > 1 {
      var n := |e| - 2;
      assert e[n] in nodes;
      var j :| 0 <= j < |c| && c[j] == e[n];
      assert e[n + 1] in nodes[e[n]].parents;
      LinearParent(nodes, c, j, i);
      LinearChains(nodes, c, j, e[..n + 1]);
    }
  }

  lemma {:induction false} LinearWithin(nodes: Nodes, keep: set<Hash>, c: seq<Hash>, i: nat, k: nat)
    requires Linear(nodes, c) && i < |c| && Within(nodes, keep, {c[0]}, c[i], k)
    ensures i <= k
    decreases k
  {
    if c[i] != c[0] {
      var x :| x in keep && x in nodes && c[i] in nodes[x].parents && Within(nodes, keep, {c[0]}, x, k - 1);
      var j :| 0 <= j < |c| && c[j] == x;
      LinearParent(nodes, c, j, i);
      LinearWithin(nodes, keep, c, j, k - 1);
    }
  }

  lemma {:induction false} WithinSub(nodes: Nodes, nodes': Nodes, heads: set<Hash>, h: Hash, k: nat)
    requires Within(nodes', nodes'.Keys, heads, h, k)
    requires forall x :: x in nodes' ==> x in nodes && nodes'[x] == nodes[x]
    ensures Within(nodes, nodes.Keys, heads, h, k)
    decreases k
  {
    if h !in heads {
      var x :| x in nodes' && h in nodes'[x].parents && Within(nodes', nodes'.Keys, heads, x, k - 1);
      WithinSub(nodes, nodes', heads, x, k - 1);
    }
  }

  /** From a single chain a collection keeps exactly the nodes within the history bound of the head. */
  lemma LinearKeepsNearest(nodes: Nodes, nodes': Nodes, c: seq<Hash>, i: nat)
    requires Linear(nodes, c) && Collects(nodes, nodes', {c[0]}) && KeepsDue(nodes, nodes') && i < |c|
    ensures c[i] in nodes' <==> i <= DAG_HISTORY_DEPTH
  {
    assert ListsNext(nodes, c, i);
    if i <= DAG_HISTORY_DEPTH {
      forall e: seq<Hash> | e != [] && e[|e| - 1] == c[i] && Chain(nodes, e)
        ensures |e| <= DAG_HISTORY_DEPTH + 1
      {
        LinearChains(nodes, c, i, e);
      }
      assert Due(nodes, c[i]);
    }
    if c[i] in nodes' {
      WithinSub(nodes, nodes', {c[0]}, c[i], DAG_HISTORY_DEPTH);
      LinearWithin(nodes, nodes.Keys, c, i, DAG_HISTORY_DEPTH);
    }
  }

  /** And its head is its only frontier. */
  lemma LinearFrontier(nodes: Nodes, c: seq<Hash>)
    requires Linear(nodes, c)
    ensures Frontier(nodes) == {c[0]}
  {
    forall h | h in nodes
      ensures IsParent(nodes, h) <==> h != c[0]
    {
      var i: nat :| i < |c| && c[i] == h;
      if i > 0 {
        assert ListsNext(nodes, c, i - 1);
        assert h in nodes[c[i - 1]].parents;
      }
      if IsParent(nodes, h) {
        var x :| x in nodes && h in nodes[x].parents;
        var j :| 0 <= j < |c| && c[j] == x;
        LinearParent(nodes, c, j, i);
      }
    }
    assert ListsNext(nodes, c, 0);
  }
}
