/** Any number of replicas over every run of appends, imports, deliveries, collections and restarts. */
module Replication {
  import opened Dag
  import opened Traversal
  import opened ReplicaSteps

  /**
   * `Append` adds a new node on top of the heads of one replica, `Import` merges a foreign node, made by no replica
   * and with whatever parents, `Deliver` merges a batch of nodes known somewhere, `Collect` drops history, `Restart`
   * rebuilds a replica from persisted nodes.
   */
  datatype Event =
    | Append(at: nat, node: DagNode)
    | Import(at: nat, node: DagNode)
    | Deliver(at: nat, batch: seq<DagNode>)
    | Collect(at: nat, kept: Nodes)
    | Restart(at: nat, loaded: Nodes)

  /** The nodes known so far, in the order they were appended or imported, and the replicas. */
  datatype World = World(log: seq<DagNode>, replicas: seq<Replica>)

  function Start(k: nat): World {
    World([], seq(k, _ => Replica(map[], {})))
  }

  ghost function Apply(d: Digest, w: World, e: Event): World
    requires e.at < |w.replicas|
  {
    var r := w.replicas[e.at];
    match e
    case Append(i, node) => World(w.log + [node], w.replicas[i := Appended(d, r, node)])
    case Import(i, node) => World(w.log + [node], w.replicas[i := Merged(d, r, [node])])
    case Deliver(i, batch) => World(w.log, w.replicas[i := Merged(d, r, batch)])
    case Collect(i, kept) => World(w.log, w.replicas[i := Replica(kept, r.heads)])
    case Restart(i, loaded) => World(w.log, w.replicas[i := Replica(loaded, Frontier(loaded))])
  }

  /** Appended and imported nodes are new, delivered or persisted ones are known; a collection follows its rule. */
  ghost predicate Enabled(d: Digest, w: World, e: Event) {
    && e.at < |w.replicas|
    && var r := w.replicas[e.at];
      match e
      case Append(_, node) => node !in w.log && Lists(node.parents, r.heads)
      case Import(_, node) => node !in w.log
      case Deliver(_, batch) => forall n :: n in batch ==> n in w.log
      case Collect(_, kept) => Collects(r.nodes, kept, r.heads)
      case Restart(_, loaded) => Addressed(d, loaded) && FromLog(w.log, loaded)
  }

  ghost predicate FromLog(log: seq<DagNode>, nodes: Nodes) {
    forall h :: h in nodes ==> nodes[h] in log
  }

  ghost predicate Possible(d: Digest, k: nat, es: seq<Event>) {
    es == [] || (Possible(d, k, es[..|es| - 1]) && Enabled(d, State(d, k, es[..|es| - 1]), es[|es| - 1]))
  }

  ghost function State(d: Digest, k: nat, es: seq<Event>): World {
    if es == [] then Start(k) else
    var w := State(d, k, es[..|es| - 1]);
    if es[|es| - 1].at < |w.replicas| then Apply(d, w, es[|es| - 1]) else w
  }

  // ---- what every run keeps ----

  /** `h` is the hash of one of the first `k` nodes. */
  ghost predicate Earlier(d: Digest, log: seq<DagNode>, h: Hash, k: nat)
    requires k <= |log|
  {
    exists j :: 0 <= j < k && d.node(log[j]) == h
  }

  ghost predicate ParentsEarlier(d: Digest, log: seq<DagNode>, j: nat)
    requires j < |log|
  {
    forall p :: p in log[j].parents ==> Earlier(d, log, p, j)
  }

  /** Nodes are created after their parents. */
  ghost predicate Causal(d: Digest, log: seq<DagNode>) {
    forall j :: 0 <= j < |log| ==> ParentsEarlier(d, log, j)
  }

  /** A replica holds known nodes under their hashes, and its heads are its frontier. */
  ghost predicate Sound(d: Digest, log: seq<DagNode>, r: Replica) {
    Addressed(d, r.nodes) && FromLog(log, r.nodes) && r.heads == Frontier(r.nodes)
  }

  ghost predicate SoundWorld(d: Digest, w: World) {
    forall r :: r in w.replicas ==> Sound(d, w.log, r)
  }

  /** No known node, nor the node itself, lists its hash as a parent. */
  ghost predicate Unreferenced(d: Digest, log: seq<DagNode>, n: DagNode) {
    forall c :: c in log + [n] ==> d.node(n) !in c.parents
  }

  lemma EarlierGrows(d: Digest, log: seq<DagNode>, n: DagNode, h: Hash, k: nat)
    requires k <= |log| && Earlier(d, log, h, k)
    ensures Earlier(d, log + [n], h, k)
  {
    var j :| 0 <= j < k && d.node(log[j]) == h;
    assert (log + [n])[j] == log[j];
  }

  lemma CausalGrows(d: Digest, log: seq<DagNode>, n: DagNode)
    requires Causal(d, log) && forall p :: p in n.parents ==> Earlier(d, log, p, |log|)
    ensures Causal(d, log + [n])
  {
    forall j | 0 <= j < |log| + 1
      ensures ParentsEarlier(d, log + [n], j)
    {
      forall p | p in (log + [n])[j].parents
        ensures Earlier(d, log + [n], p, j)
      {
        if j < |log| {
          assert ParentsEarlier(d, log, j) && Earlier(d, log, p, j);
        }
        EarlierGrows(d, log, n, p, j);
      }
    }
  }

  lemma StoredEarlier(d: Digest, log: seq<DagNode>, nodes: Nodes, h: Hash)
    requires Addressed(d, nodes) && FromLog(log, nodes) && h in nodes
    ensures Earlier(d, log, h, |log|)
  {
    var j :| 0 <= j < |log| && log[j] == nodes[h];
    assert d.node(log[j]) == h;
  }

  /** After the append of a node with a hash nobody has or lists, it is the only head. */
  lemma AppendSound(d: Digest, log: seq<DagNode>, r: Replica, n: DagNode)
    requires Apart(d, log + [n]) && Unreferenced(d, log, n)
    requires Sound(d, log, r) && n !in log && Lists(n.parents, r.heads)
    ensures Sound(d, log + [n], Appended(d, r, n))
  {
    var h, next := d.node(n), MergeOne(d, r.nodes, n);
    NewIsNotEarlier(d, log, n, |log|);
    if h in r.nodes {
      StoredEarlier(d, log, r.nodes, h);
      assert false;
    }
    forall c | c in next
      ensures h !in next[c].parents
    {
      assert next[c] in log + [n];
    }
    AppendFrontierIff(d, r.nodes, n);
  }

  lemma ImportSound(d: Digest, log: seq<DagNode>, r: Replica, n: DagNode)
    requires Sound(d, log, r)
    ensures Sound(d, log + [n], Merged(d, r, [n]))
  {
    MergedNodes(d, r.nodes, [n]);
    MergedFromLog(d, log + [n], r.nodes, [n]);
    SameSizeSame(d, r.nodes, [n]);
  }

  lemma NewIsNotEarlier(d: Digest, log: seq<DagNode>, n: DagNode, k: nat)
    requires Apart(d, log + [n]) && n !in log && k <= |log|
    ensures !Earlier(d, log, d.node(n), k)
  {
    forall j | 0 <= j < k
      ensures d.node(log[j]) != d.node(n)
    {
      assert log[j] in log + [n] && n in log + [n];
    }
  }

  lemma {:induction false} MergedFromLog(d: Digest, log: seq<DagNode>, nodes: Nodes, batch: seq<DagNode>)
    requires FromLog(log, nodes) && forall n :: n in batch ==> n in log
    ensures FromLog(log, MergeAll(d, nodes, batch))
  {
    if batch != [] {
      MergedFromLog(d, log, nodes, batch[..|batch| - 1]);
    }
  }

  lemma SoundLater(d: Digest, log: seq<DagNode>, n: DagNode, r: Replica)
    requires Sound(d, log, r)
    ensures Sound(d, log + [n], r)
  {
  }

  lemma CollectSound(d: Digest, log: seq<DagNode>, r: Replica, kept: Nodes)
    requires Sound(d, log, r) && Collects(r.nodes, kept, r.heads)
    ensures Sound(d, log, Replica(kept, r.heads))
  {
    CollectKeepsFrontier(r.nodes, kept, r.heads);
  }

  /** No two known nodes share a hash, and an appended node's hash is referenced by nobody. */
  ghost predicate CleanStep(d: Digest, w: World, e: Event) {
    && (e.Append? ==> Unreferenced(d, w.log, e.node))
    && (e.at < |w.replicas| ==> Apart(d, Apply(d, w, e).log))
  }

  lemma StepSound(d: Digest, w: World, e: Event)
    requires SoundWorld(d, w) && Enabled(d, w, e) && CleanStep(d, w, e)
    ensures SoundWorld(d, Apply(d, w, e))
  {
    var r, w' := w.replicas[e.at], Apply(d, w, e);
    assert Sound(d, w.log, r);
    match e {
      case Append(_, n) => AppendSound(d, w.log, r, n);
      case Import(_, n) => ImportSound(d, w.log, r, n);
      case Deliver(_, batch) =>
        MergedNodes(d, r.nodes, batch);
        MergedFromLog(d, w.log, r.nodes, batch);
        SameSizeSame(d, r.nodes, batch);
      case Collect(_, kept) => CollectSound(d, w.log, r, kept);
      case Restart(_, _) =>
    }
    forall x | x in w'.replicas
      ensures Sound(d, w'.log, x)
    {
      var i :| 0 <= i < |w'.replicas| && w'.replicas[i] == x;
      if i != e.at {
        assert x == w.replicas[i];
        if e.Append? || e.Import? { SoundLater(d, w.log, e.node, x); }
      }
    }
  }

  /** Appended nodes had hashes that no node known then listed as a parent. */
  ghost predicate FreshAppends(d: Digest, k: nat, es: seq<Event>) {
    es == [] || (
      && FreshAppends(d, k, es[..|es| - 1])
      && (es[|es| - 1].Append? ==> Unreferenced(d, State(d, k, es[..|es| - 1]).log, es[|es| - 1].node)))
  }

  /** The nodes of the run do not share hashes, and appended ones have fresh hashes. */
  ghost predicate Clean(d: Digest, k: nat, es: seq<Event>) {
    Apart(d, State(d, k, es).log) && FreshAppends(d, k, es)
  }

  lemma ApartBefore(d: Digest, k: nat, es: seq<Event>)
    requires es != [] && Apart(d, State(d, k, es).log)
    ensures Apart(d, State(d, k, es[..|es| - 1]).log)
  {
    var w := State(d, k, es[..|es| - 1]);
    assert forall n :: n in w.log ==> n in State(d, k, es).log;
  }

  /** In every clean run, foreign nodes included, every replica is at its frontier. */
  lemma {:induction false} RunsAreSound(d: Digest, k: nat, es: seq<Event>)
    requires Clean(d, k, es) && Possible(d, k, es)
    ensures SoundWorld(d, State(d, k, es)) && |State(d, k, es).replicas| == k
  {
    if es != [] {
      ApartBefore(d, k, es);
      RunsAreSound(d, k, es[..|es| - 1]);
      StepSound(d, State(d, k, es[..|es| - 1]), es[|es| - 1]);
    } else {
      assert Frontier(map[]) == {};
    }
  }

  // ---- runs without foreign nodes ----

  predicate Homegrown(es: seq<Event>) {
    forall e :: e in es ==> !e.Import?
  }

  lemma NewIsUnreferenced(d: Digest, log: seq<DagNode>, n: DagNode)
    requires Apart(d, log + [n]) && Causal(d, log) && n !in log
    requires forall p :: p in n.parents ==> Earlier(d, log, p, |log|)
    ensures Unreferenced(d, log, n)
  {
    NewIsNotEarlier(d, log, n, |log|);
    forall c | c in log
      ensures d.node(n) !in c.parents
    {
      var j :| 0 <= j < |log| && log[j] == c;
      assert ParentsEarlier(d, log, j);
      NewIsNotEarlier(d, log, n, j);
    }
  }

  lemma HomegrownAppend(d: Digest, log: seq<DagNode>, r: Replica, n: DagNode)
    requires Apart(d, log + [n]) && Causal(d, log) && Sound(d, log, r) && n !in log && Lists(n.parents, r.heads)
    ensures Unreferenced(d, log, n) && Causal(d, log + [n])
  {
    forall p | p in n.parents
      ensures Earlier(d, log, p, |log|)
    {
      assert p in r.nodes;
      StoredEarlier(d, log, r.nodes, p);
    }
    CausalGrows(d, log, n);
    NewIsUnreferenced(d, log, n);
  }

  /** Without foreign nodes a run is clean as soon as no nodes share hashes, and parents come before children. */
  lemma {:induction false} HomegrownIsClean(d: Digest, k: nat, es: seq<Event>)
    requires Possible(d, k, es) && Homegrown(es) && Apart(d, State(d, k, es).log)
    ensures Clean(d, k, es) && Causal(d, State(d, k, es).log)
  {
    if es != [] {
      var most, e := es[..|es| - 1], es[|es| - 1];
      assert forall x :: x in most ==> x in es;
      assert e in es;
      ApartBefore(d, k, es);
      HomegrownIsClean(d, k, most);
      RunsAreSound(d, k, most);
      var w := State(d, k, most);
      if e.Append? {
        assert Sound(d, w.log, w.replicas[e.at]);
        HomegrownAppend(d, w.log, w.replicas[e.at], e.node);
      }
    }
  }

  lemma {:induction false} ChainsAreShort(d: Digest, log: seq<DagNode>, nodes: Nodes, c: seq<Hash>, k: nat)
    requires Apart(d, log) && Causal(d, log) && Addressed(d, nodes) && FromLog(log, nodes)
    requires k <= |log| && |c| > 0 && Chain(nodes, c) && Earlier(d, log, c[0], k)
    ensures |c| <= k
    decreases k
  {
    var j :| 0 <= j < k && d.node(log[j]) == c[0];
    assert c[0] in nodes && d.node(nodes[c[0]]) == d.node(log[j]);
    if |c| > 1 {
      assert c[1] in nodes[c[0]].parents;
      assert ParentsEarlier(d, log, j) && Earlier(d, log, c[1], j);
      forall i | 0 <= i < |c| - 2
        ensures c[1..][i + 1] in nodes[c[1..][i]].parents
      {
        assert c[i + 2] in nodes[c[i + 1]].parents;
      }
      ChainsAreShort(d, log, nodes, c[1..], j);
    }
  }

  /** Then no replica ever holds a parent cycle: chains are no longer than the number of nodes created. */
  lemma ReplicasAcyclic(d: Digest, log: seq<DagNode>, nodes: Nodes)
    requires Apart(d, log) && Causal(d, log) && Addressed(d, nodes) && FromLog(log, nodes)
    ensures DepthAtMost(nodes, |log|)
  {
    forall c: seq<Hash> | Chain(nodes, c)
      ensures |c| <= |log| + 1
    {
      if |c| > 0 {
        StoredEarlier(d, log, nodes, c[0]);
        ChainsAreShort(d, log, nodes, c, |log|);
      }
    }
  }

  // ---- convergence ----

  /** Parent chains are bounded: there is no cycle. */
  ghost predicate Acyclic(nodes: Nodes) {
    exists n: nat :: DepthAtMost(nodes, n)
  }

  /** Both replicas are acyclic and lack no ancestor, and the digest tells their frontiers apart. */
  ghost predicate Comparable(d: Digest, a: Replica, b: Replica) {
    && AncestorClosed(a.nodes) && AncestorClosed(b.nodes) && Acyclic(a.nodes) && Acyclic(b.nodes)
    && RootsApart(d, a.heads, b.heads)
  }

  /**
   * Convergence over every clean run: replicas with the same hashes have the same nodes, heads and root, and among
   * acyclic replicas that lack no ancestor the same root means the same store. Without foreign nodes all replicas
   * are acyclic.
   */
  lemma Convergence(d: Digest, k: nat, es: seq<Event>, i: nat, j: nat)
    requires Clean(d, k, es) && Possible(d, k, es) && i < k && j < k
    ensures |State(d, k, es).replicas| == k
    ensures var a, b := State(d, k, es).replicas[i], State(d, k, es).replicas[j];
      && Agree(a.nodes, b.nodes)
      && (a.nodes.Keys == b.nodes.Keys ==> a == b && RootOf(d, a.heads) == RootOf(d, b.heads))
      && (Comparable(d, a, b) ==> (RootOf(d, a.heads) == RootOf(d, b.heads) <==> a == b))
      && (Homegrown(es) ==> Acyclic(a.nodes) && Acyclic(b.nodes))
  {
    RunsAreSound(d, k, es);
    var w := State(d, k, es);
    var a, b := w.replicas[i], w.replicas[j];
    assert Sound(d, w.log, a) && Sound(d, w.log, b);
    ApartAgree(d, w.log, a.nodes, b.nodes);
    if Homegrown(es) {
      HomegrownIsClean(d, k, es);
      ReplicasAcyclic(d, w.log, a.nodes);
      ReplicasAcyclic(d, w.log, b.nodes);
    }
    if Comparable(d, a, b) {
      var m: nat :| DepthAtMost(a.nodes, m);
      var n: nat :| DepthAtMost(b.nodes, n);
      RootsConverge(d, a.nodes, b.nodes, m + n);
    }
  }

  /** The nodes that the event appends at replica `i` or sends to it. */
  function Gained(e: Event, i: nat): set<DagNode> {
    if e.at != i then {} else
    match e
    case Append(_, node) => {node}
    case Import(_, node) => {node}
    case Deliver(_, batch) => set n | n in batch
    case Collect(_, _) => {}
    case Restart(_, _) => {}
  }

  function Received(es: seq<Event>, i: nat): set<DagNode> {
    if es == [] then {} else Received(es[..|es| - 1], i) + Gained(es[|es| - 1], i)
  }

  /** Replica `i` neither collected history nor restarted. */
  predicate Undisturbed(es: seq<Event>, i: nat) {
    forall e :: e in es && e.at == i ==> e.Append? || e.Import? || e.Deliver?
  }

  /** The store holds exactly the hashes of the given nodes. */
  ghost predicate HoldsExactly(d: Digest, nodes: Nodes, got: set<DagNode>) {
    forall h :: h in nodes <==> HasHash(d, got, h)
  }

  ghost predicate HasHash(d: Digest, got: set<DagNode>, h: Hash) {
    exists n :: n in got && d.node(n) == h
  }

  lemma HoldsMore(d: Digest, nodes: Nodes, got: set<DagNode>, batch: seq<DagNode>)
    requires HoldsExactly(d, nodes, got)
    ensures HoldsExactly(d, MergeAll(d, nodes, batch), got + set n | n in batch)
  {
    MergedNodes(d, nodes, batch);
    var got' := got + set n | n in batch;
    forall h
      ensures HasHash(d, got', h) <==> HasHash(d, got, h) || Brings(d, batch, h)
    {
      if HasHash(d, got, h) {
        var n :| n in got && d.node(n) == h;
        assert n in got';
      }
      if Brings(d, batch, h) {
        var n :| n in batch && d.node(n) == h;
        assert n in got';
      }
    }
  }

  lemma {:induction false} ReplicaCount(d: Digest, k: nat, es: seq<Event>)
    ensures |State(d, k, es).replicas| == k
  {
    if es != [] { ReplicaCount(d, k, es[..|es| - 1]); }
  }

  /**
   * Without collections and restarts a replica stores exactly the hashes it received, whatever the order and
   * batching, and whether or not nodes share hashes.
   */
  lemma {:induction false} StoreIsReceived(d: Digest, k: nat, es: seq<Event>, i: nat)
    requires Possible(d, k, es) && i < k && Undisturbed(es, i)
    ensures |State(d, k, es).replicas| == k
    ensures HoldsExactly(d, State(d, k, es).replicas[i].nodes, Received(es, i))
  {
    ReplicaCount(d, k, es);
    if es != [] {
      var most, e := es[..|es| - 1], es[|es| - 1];
      assert forall x :: x in most ==> x in es;
      StoreIsReceived(d, k, most, i);
      var w := State(d, k, most);
      if e.at == i {
        assert e in es;
        var batch := if e.Deliver? then e.batch else [e.node];
        HoldsMore(d, w.replicas[i].nodes, Received(most, i), batch);
        if !e.Deliver? {
          assert MergeAll(d, w.replicas[i].nodes, [e.node][..0]) == w.replicas[i].nodes;
          assert (set n | n in batch) == {e.node};
        }
      }
    }
  }

  /** In a clean run replicas that received the same nodes, in any order and batching, are the same with one root. */
  lemma SameDeliverySameRoot(d: Digest, k: nat, es: seq<Event>, i: nat, j: nat)
    requires Clean(d, k, es) && Possible(d, k, es) && i < k && j < k
    requires Undisturbed(es, i) && Undisturbed(es, j) && Received(es, i) == Received(es, j)
    ensures |State(d, k, es).replicas| == k
    ensures var a, b := State(d, k, es).replicas[i], State(d, k, es).replicas[j];
      a == b && RootOf(d, a.heads) == RootOf(d, b.heads)
  {
    StoreIsReceived(d, k, es, i);
    StoreIsReceived(d, k, es, j);
    Convergence(d, k, es, i, j);
    var a, b := State(d, k, es).replicas[i], State(d, k, es).replicas[j];
    assert forall h :: h in a.nodes <==> h in b.nodes;
  }

  // ---- runs that are not clean ----

  /** Two replicas each append a first node and send it to the other. */
  function Exchange(a: DagNode, b: DagNode): seq<Event> {
    [Append(0, a)] + [Append(1, b)] + [Deliver(0, [b])] + [Deliver(1, [a])]
  }

  lemma RunStep(d: Digest, k: nat, es: seq<Event>, e: Event)
    requires e.at < |State(d, k, es).replicas|
    ensures State(d, k, es + [e]) == Apply(d, State(d, k, es), e)
    ensures Possible(d, k, es + [e]) <==> Possible(d, k, es) && Enabled(d, State(d, k, es), e)
  {
    assert (es + [e])[..|es|] == es;
  }

  lemma MergeSingle(d: Digest, nodes: Nodes, n: DagNode)
    ensures MergeAll(d, nodes, [n]) == MergeOne(d, nodes, n)
  {
    assert [n][..0] == [];
  }

  /** The worlds after both appends, and after both deliveries. */
  ghost function Appended2(d: Digest, a: DagNode, b: DagNode): World {
    World([a, b], [Replica(map[d.node(a) := a], {d.node(a)}), Replica(map[d.node(b) := b], {d.node(b)})])
  }

  ghost function Exchanged(d: Digest, a: DagNode, b: DagNode): World {
    var rs := Appended2(d, a, b).replicas;
    World([a, b], [Merged(d, rs[0], [b]), Merged(d, rs[1], [a])])
  }

  lemma FirstAppendRuns(d: Digest, a: DagNode)
    requires a.parents == []
    ensures Possible(d, 2, [Append(0, a)])
    ensures State(d, 2, [Append(0, a)]) == World([a], [Replica(map[d.node(a) := a], {d.node(a)}), Replica(map[], {})])
  {
    var empty := Replica(map[], {});
    assert Start(2).replicas == [empty, empty];
    RunStep(d, 2, [], Append(0, a));
    assert [] + [Append(0, a)] == [Append(0, a)];
    assert Appended(d, empty, a) == Replica(map[d.node(a) := a], {d.node(a)});
  }

  lemma AppendsRun(d: Digest, a: DagNode, b: DagNode)
    requires a != b && a.parents == [] && b.parents == []
    ensures var es := [Append(0, a)] + [Append(1, b)];
      Possible(d, 2, es) && State(d, 2, es) == Appended2(d, a, b)
  {
    FirstAppendRuns(d, a);
    var x, y := Replica(map[d.node(a) := a], {d.node(a)}), Replica(map[d.node(b) := b], {d.node(b)});
    assert Appended(d, Replica(map[], {}), b) == y;
    RunStep(d, 2, [Append(0, a)], Append(1, b));
    assert [a] + [b] == [a, b] && [x, Replica(map[], {})][1 := y] == [x, y];
  }

  lemma ExchangeRuns(d: Digest, a: DagNode, b: DagNode)
    requires a != b && a.parents == [] && b.parents == []
    ensures Possible(d, 2, Exchange(a, b)) && State(d, 2, Exchange(a, b)) == Exchanged(d, a, b)
  {
    AppendsRun(d, a, b);
    var es, w := [Append(0, a)] + [Append(1, b)], Appended2(d, a, b);
    RunStep(d, 2, es, Deliver(0, [b]));
    var w' := World([a, b], [Merged(d, w.replicas[0], [b]), w.replicas[1]]);
    assert w.replicas[0 := w'.replicas[0]] == w'.replicas;
    assert Apply(d, w, Deliver(0, [b])) == w';
    RunStep(d, 2, es + [Deliver(0, [b])], Deliver(1, [a]));
    assert w'.replicas[1 := Merged(d, w.replicas[1], [a])] == Exchanged(d, a, b).replicas;
    assert Apply(d, w', Deliver(1, [a])) == Exchanged(d, a, b);
  }

  lemma ReceivedStep(es: seq<Event>, e: Event, i: nat)
    ensures Received(es + [e], i) == Received(es, i) + Gained(e, i)
  {
    assert (es + [e])[..|es|] == es;
  }

  lemma ExchangeReceives(a: DagNode, b: DagNode, i: nat)
    requires i < 2
    ensures Received(Exchange(a, b), i) == {a, b} && Undisturbed(Exchange(a, b), i)
  {
    var es := [Append(0, a)];
    assert [] + es == es;
    ReceivedStep([], Append(0, a), i);
    ReceivedStep(es, Append(1, b), i);
    ReceivedStep(es + [Append(1, b)], Deliver(0, [b]), i);
    ReceivedStep(es + [Append(1, b)] + [Deliver(0, [b])], Deliver(1, [a]), i);
  }

  /** The exchange as a run of which only what it leads to is known. */
  lemma SomeExchange(d: Digest, a: DagNode, b: DagNode) returns (es: seq<Event>)
    requires a != b && a.parents == [] && b.parents == []
    ensures Possible(d, 2, es) && State(d, 2, es) == Exchanged(d, a, b)
    ensures forall i :: 0 <= i < 2 ==> Received(es, i) == {a, b} && Undisturbed(es, i)
  {
    es := Exchange(a, b);
    ExchangeRuns(d, a, b);
    forall i | 0 <= i < 2
      ensures Received(es, i) == {a, b} && Undisturbed(es, i)
    {
      ExchangeReceives(a, b, i);
    }
  }

  /**
   * For every two first nodes there is a run after which two replicas have both received both. They end with the
   * same heads and root, but with the same store exactly if the nodes do not share a hash.
   */
  lemma ExchangeConvergesIff(d: Digest, a: DagNode, b: DagNode) returns (es: seq<Event>)
    requires a != b && a.parents == [] && b.parents == []
    ensures Possible(d, 2, es) && |State(d, 2, es).replicas| == 2
    ensures forall i :: 0 <= i < 2 ==> Received(es, i) == {a, b} && Undisturbed(es, i)
    ensures var rs := State(d, 2, es).replicas;
      && (rs[0].nodes == rs[1].nodes <==> d.node(a) != d.node(b))
      && rs[0].heads == rs[1].heads && RootOf(d, rs[0].heads) == RootOf(d, rs[1].heads)
  {
    es := SomeExchange(d, a, b);
    ExchangedStores(d, a, b);
  }

  lemma ExchangedStores(d: Digest, a: DagNode, b: DagNode)
    requires a != b && a.parents == [] && b.parents == []
    ensures var rs := Exchanged(d, a, b).replicas;
      && (rs[0].nodes == rs[1].nodes <==> d.node(a) != d.node(b)) && rs[0].heads == rs[1].heads
  {
    var x, y := map[d.node(a) := a], map[d.node(b) := b];
    MergeSingle(d, x, b);
    MergeSingle(d, y, a);
    if d.node(a) != d.node(b) {
      assert MergeOne(d, x, b) == MergeOne(d, y, a);
      assert |MergeOne(d, x, b)| == 2 && |x| == 1 && |y| == 1;
    } else {
      assert x[d.node(a)] == a && y[d.node(a)] == b;
    }
  }
}
