/** Edges of the knowledge graph, the support graph they span, and what cutting its cycles leaves. */
module SupportGraph {
  import opened Numeric
  import opened Bags
  import opened CycleCut

  datatype Relation = Supports | Contradicts | DerivedFrom | SharedSource

  datatype Edge = Edge(from: nat, to: nat, relation: Relation, strength: Bps)

  /** Edges that carry trust. */
  predicate Carries(e: Edge) {
    e.relation.Supports? || e.relation.DerivedFrom?
  }

  function PickTarget(u: nat): Edge -> Option<nat> {
    (e: Edge) => if Carries(e) && e.from == u then Some(e.to) else None
  }

  /** The targets of the carrying edges of `u`, ascending, one entry per edge. */
  function Targets(edges: seq<Edge>, u: nat): seq<nat> {
    SortAscending(FilterMap(edges, PickTarget(u)))
  }

  function Endpoints(edges: seq<Edge>): seq<nat> {
    if edges == [] then []
    else Endpoints(edges[..|edges| - 1]) + [edges[|edges| - 1].from, edges[|edges| - 1].to]
  }

  /** Remove consecutive repetitions. */
  function Dedup(s: seq<nat>): seq<nat> {
    if |s| <= 1 then s
    else if s[0] == s[1] then Dedup(s[1..])
    else [s[0]] + Dedup(s[1..])
  }

  /** All nodes mentioned by an edge, ascending. */
  function NodeOrder(edges: seq<Edge>): seq<nat> {
    Dedup(SortAscending(Endpoints(edges)))
  }

  ghost function SupportLists(edges: seq<Edge>): Successors {
    map u | u in NodeOrder(edges) :: Targets(edges, u)
  }

  lemma ConsStrict(x: nat, s: seq<nat>)
    requires StrictlyAscending(s) && forall y :: y in s ==> x < y
    ensures StrictlyAscending([x] + s)
  {
    assert forall i :: 0 <= i < |s| ==> s[i] in s;
  }

  /** The tail of an ascending sequence starting with a larger second element lies above the head. */
  lemma TailAbove(s: seq<nat>)
    requires |s| > 1 && Ascending(s)
    ensures Ascending(s[1..]) && forall y :: y in s[1..] ==> s[1] <= y
    ensures forall y :: y in s <==> y == s[0] || y in s[1..]
  {
    assert s == [s[0]] + s[1..];
  }

  lemma {:induction false} DedupAscending(s: seq<nat>)
    requires Ascending(s)
    ensures StrictlyAscending(Dedup(s))
    ensures forall x :: x in Dedup(s) <==> x in s
  {
    if |s| > 1 {
      TailAbove(s);
      DedupAscending(s[1..]);
      if s[0] != s[1] { ConsStrict(s[0], Dedup(s[1..])); }
    }
  }

  lemma {:induction false} EndpointsAre(edges: seq<Edge>)
    ensures forall x :: x in Endpoints(edges) <==> exists e :: e in edges && (x == e.from || x == e.to)
  {
    if edges != [] {
      var a, z := edges[..|edges| - 1], edges[|edges| - 1];
      EndpointsAre(a);
      assert forall e :: e in edges <==> e in a || e == z;
    }
  }

  lemma NodeOrderIs(edges: seq<Edge>)
    ensures StrictlyAscending(NodeOrder(edges))
    ensures forall x :: x in NodeOrder(edges) <==> exists e :: e in edges && (x == e.from || x == e.to)
  {
    var s := Endpoints(edges);
    EndpointsAre(edges);
    SortAscendingBag(s);
    BagMembers(s, SortAscending(s));
    DedupAscending(SortAscending(s));
  }

  /** Some edge of support or of derivation leads from `u` to `v`. */
  ghost predicate Supported(edges: seq<Edge>, u: nat, v: nat) {
    exists e :: e in edges && (e.relation == Supports || e.relation == DerivedFrom) && e.from == u && e.to == v
  }

  lemma PickedIff(edges: seq<Edge>, u: nat, v: nat)
    ensures v in FilterMap(edges, PickTarget(u)) <==> Supported(edges, u, v)
  {
    FilterMapOrigin(edges, PickTarget(u));
    if e :| e in edges && PickTarget(u)(e) == Some(v) {
      assert Supported(edges, u, v);
    }
    if Supported(edges, u, v) {
      var e :| e in edges && (e.relation == Supports || e.relation == DerivedFrom) && e.from == u && e.to == v;
      assert PickTarget(u)(e) == Some(v);
    }
  }

  lemma TargetsAre(edges: seq<Edge>, u: nat)
    ensures forall v :: v in Targets(edges, u) <==> Supported(edges, u, v)
  {
    var s := FilterMap(edges, PickTarget(u));
    SortAscendingBag(s);
    BagMembers(s, SortAscending(s));
    forall v: nat
      ensures v in Targets(edges, u) <==> Supported(edges, u, v)
    {
      PickedIff(edges, u, v);
    }
  }

  lemma SupportListsClosed(edges: seq<Edge>)
    ensures Closed(SupportLists(edges))
    ensures forall u :: u in NodeOrder(edges) <==> u in SupportLists(edges)
  {
    NodeOrderIs(edges);
    var adj := SupportLists(edges);
    forall u, v | u in adj && v in adj[u]
      ensures v in adj
    {
      TargetsAre(edges, u);
    }
  }

  /** The whole search over a graph. */
  ghost function SearchGraph(edges: seq<Edge>): Search {
    SupportListsClosed(edges);
    SearchFrom(SupportLists(edges), NodeOrder(edges), NothingSeen)
  }

  /** The (from, to) pairs of the carrying edges that are cut. */
  ghost function CutPairs(edges: seq<Edge>): set<(nat, nat)> {
    SearchGraph(edges).cut
  }

  /** The edge carries trust and is not cut. */
  predicate Flows(cut: set<(nat, nat)>, e: Edge) {
    Carries(e) && (e.from, e.to) !in cut
  }

  // ---- edge order ----

  lemma {:induction false} EndpointsPermuted(edges: seq<Edge>, edges': seq<Edge>)
    requires multiset(edges) == multiset(edges')
    ensures NodeOrder(edges) == NodeOrder(edges')
  {
    NodeOrderIs(edges);
    NodeOrderIs(edges');
    BagMembers(edges, edges');
    StrictUnique(NodeOrder(edges), NodeOrder(edges'));
  }

  /** The search, its cut and its reported cycles do not depend on the order in which edges were inserted. */
  lemma SearchIgnoresEdgeOrder(edges: seq<Edge>, edges': seq<Edge>)
    requires multiset(edges) == multiset(edges')
    ensures SearchGraph(edges) == SearchGraph(edges')
  {
    EndpointsPermuted(edges, edges');
    forall u
      ensures Targets(edges, u) == Targets(edges', u)
    {
      var s, s' := FilterMap(edges, PickTarget(u)), FilterMap(edges', PickTarget(u));
      FilterMapPermuted(edges, edges', PickTarget(u));
      SortAscendingBag(s);
      SortAscendingBag(s');
      AscendingUnique(SortAscending(s), SortAscending(s'));
    }
    assert SupportLists(edges) == SupportLists(edges');
  }

  // ---- what the cut means, on edges ----

  /** A closed walk along carrying edges. */
  ghost predicate SupportCycle(edges: seq<Edge>, c: seq<nat>) {
    && c != []
    && (forall i :: 0 <= i < |c| - 1 ==> Supported(edges, c[i], c[i + 1]))
    && Supported(edges, c[|c| - 1], c[0])
  }

  lemma StepIs(edges: seq<Edge>, u: nat, v: nat)
    ensures Supported(edges, u, v) <==> u in SupportLists(edges) && v in SupportLists(edges)[u]
  {
    SupportListsClosed(edges);
    NodeOrderIs(edges);
    TargetsAre(edges, u);
  }

  lemma SupportCycleIs(edges: seq<Edge>, c: seq<nat>)
    ensures SupportCycle(edges, c) <==> Cycle(SupportLists(edges), c)
  {
    var adj := SupportLists(edges);
    forall u, v
      ensures Supported(edges, u, v) <==> u in adj && v in adj[u]
    {
      StepIs(edges, u, v);
    }
    if SupportCycle(edges, c) {
      forall i | 0 <= i < |c|
        ensures c[i] in adj
        ensures i < |c| - 1 ==> c[i + 1] in adj[c[i]]
      {
        assert Supported(edges, c[i], if i == |c| - 1 then c[0] else c[i + 1]);
      }
      assert Supported(edges, c[|c| - 1], c[0]);
    }
    if Cycle(adj, c) {
      forall i | 0 <= i < |c| - 1
        ensures Supported(edges, c[i], c[i + 1])
      {
        assert c[i + 1] in adj[c[i]];
      }
    }
  }

  /**
   * `order` ranks the nodes so that every carrying edge that is not cut points to a node strictly earlier;
   * it holds every node that is on some edge.
   */
  ghost predicate Ranks(edges: seq<Edge>, cut: set<(nat, nat)>, order: seq<nat>) {
    && Distinct(order)
    && (forall e :: e in edges ==> e.from in order && e.to in order)
    && (forall e :: e in edges && Flows(cut, e) ==> IndexOf(order, e.to) < IndexOf(order, e.from))
  }

  /** The support cycle `c` is cut at its closing edge and nowhere else. */
  ghost predicate CutOnce(edges: seq<Edge>, cut: set<(nat, nat)>, c: seq<nat>) {
    SupportCycle(edges, c) && Closing(c) in cut && forall i :: 0 <= i < |c| - 1 ==> (c[i], c[i + 1]) !in cut
  }

  /**
   * Cutting is sound: what survives has a rank that strictly drops along every edge. It is lean: each cut edge
   * closes a support cycle that is cut nowhere else, so putting any single edge back brings a cycle back. And an
   * edge is cut somewhere, and a cycle is reported, only if there is one.
   */
  lemma CycleCutTheorem(edges: seq<Edge>)
    ensures Ranks(edges, CutPairs(edges), SearchGraph(edges).finished)
    ensures forall p :: p in CutPairs(edges) ==> exists c :: CutOnce(edges, CutPairs(edges), c) && Closing(c) == p
    ensures CutPairs(edges) != {} <==> SearchGraph(edges).cycles != []
    ensures CutPairs(edges) != {} <==> exists c :: SupportCycle(edges, c)
  {
    SurvivorsRanked(edges);
    var adj, st := SupportLists(edges), SearchGraph(edges);
    SupportListsClosed(edges);
    NodeOrderIs(edges);
    CutIsSoundAndExact(adj, NodeOrder(edges));
    forall c ensures SupportCycle(edges, c) <==> Cycle(adj, c) { SupportCycleIs(edges, c); }
    forall p | p in st.cut
      ensures exists c :: CutOnce(edges, st.cut, c) && Closing(c) == p
    {
      var c := CutIsLean(adj, NodeOrder(edges), p);
      assert CutOnce(edges, st.cut, c);
    }
    if c :| SupportCycle(edges, c) {
      assert Cycle(adj, c);
    }
    if c :| Cycle(adj, c) {
      assert SupportCycle(edges, c);
    }
  }

  /** No carrying edge leads out of `s`. */
  ghost predicate NoWayOut(edges: seq<Edge>, s: set<nat>) {
    forall u, v :: u in s && Supported(edges, u, v) ==> v in s
  }

  /** Each node of `p` is the least target of the one before it that is not among the earlier nodes. */
  ghost predicate LeastDescent(edges: seq<Edge>, p: seq<nat>) {
    && Distinct(p)
    && (forall i :: 0 <= i < |p| - 1 ==> Supported(edges, p[i], p[i + 1]))
    && (forall i, v :: 0 <= i < |p| - 1 && Supported(edges, p[i], v) && v < p[i + 1] ==> v in p[..i + 1])
  }

  lemma ListsAscend(edges: seq<Edge>, u: nat)
    requires u in SupportLists(edges)
    ensures Ascending(SupportLists(edges)[u])
  {
    SortAscendingBag(FilterMap(edges, PickTarget(u)));
  }

  lemma DescentIs(edges: seq<Edge>, p: seq<nat>)
    requires LeastDescent(edges, p) && p != [] && p[|p| - 1] in NodeOrder(edges)
    ensures Descent(SupportLists(edges), [], p)
  {
    var adj := SupportLists(edges);
    SupportListsClosed(edges);
    forall i | 0 <= i < |p|
      ensures p[i] in adj && Ascending(adj[p[i]])
    {
      if i < |p| - 1 { StepIs(edges, p[i], p[i + 1]); }
      ListsAscend(edges, p[i]);
    }
    forall i | 0 <= i < |p| - 1
      ensures p[i + 1] in adj[p[i]] && forall v :: v in adj[p[i]] && v < p[i + 1] ==> v in p[..i + 1]
    {
      StepIs(edges, p[i], p[i + 1]);
      TargetsAre(edges, p[i]);
    }
  }

  /**
   * Where a cycle is cut: if `p` descends to it by least targets from a node that no smaller node leads to, and the
   * cycle meets `p` only there, it is cut at the edge that leads back to that node.
   */
  lemma CutAtLeastDescent(edges: seq<Edge>, s: set<nat>, p: seq<nat>, c: seq<nat>)
    requires NoWayOut(edges, s) && p != [] && LeastDescent(edges, p)
    requires forall u :: u in NodeOrder(edges) && u < p[0] ==> u in s
    requires forall u :: u in p ==> u !in s
    requires SupportCycle(edges, c) && c[0] == p[|p| - 1] && forall u :: u in c ==> u !in p[..|p| - 1]
    ensures Closing(c) in CutPairs(edges)
  {
    var adj := SupportLists(edges);
    SupportListsClosed(edges);
    NodeOrderIs(edges);
    SupportCycleIs(edges, c);
    DescentIs(edges, p);
    assert Trapped(adj, s) by {
      forall u, v | u in s && u in adj && v in adj[u]
        ensures v in s
      {
        StepIs(edges, u, v);
      }
    }
    assert forall i :: 0 <= i < |c| ==> c[i] in c;
    CutBelowRoot(adj, NodeOrder(edges), s, p, c);
  }

  lemma SurvivorDrops(edges: seq<Edge>, cut: set<(nat, nat)>, order: seq<nat>, e: Edge)
    requires Topological(SupportLists(edges), cut, order) && e in edges && Flows(cut, e)
    ensures e.from in order && e.to in order && IndexOf(order, e.to) < IndexOf(order, e.from)
  {
    NodeOrderIs(edges);
    TargetsAre(edges, e.from);
    assert Supported(edges, e.from, e.to);
    StepDrops(SupportLists(edges), cut, order, e.from, e.to);
  }

  lemma SurvivorsRanked(edges: seq<Edge>)
    ensures Ranks(edges, CutPairs(edges), SearchGraph(edges).finished)
  {
    var cut, order := CutPairs(edges), SearchGraph(edges).finished;
    SupportListsClosed(edges);
    NodeOrderIs(edges);
    CutIsSoundAndExact(SupportLists(edges), NodeOrder(edges));
    assert Topological(SupportLists(edges), cut, order);
    forall e | e in edges && Flows(cut, e)
      ensures e.from in order && e.to in order && IndexOf(order, e.to) < IndexOf(order, e.from)
    {
      SurvivorDrops(edges, cut, order, e);
    }
  }

  /** The finish order lists every node once. */
  lemma FinishOrderSize(edges: seq<Edge>)
    ensures |SearchGraph(edges).finished| == |NodeOrder(edges)|
  {
    var order, nodes := SearchGraph(edges).finished, NodeOrder(edges);
    SupportListsClosed(edges);
    NodeOrderIs(edges);
    CutIsSoundAndExact(SupportLists(edges), nodes);
    DistinctSize(order, SupportLists(edges).Keys);
    DistinctSize(nodes, SupportLists(edges).Keys);
  }

  lemma {:induction false} DistinctSize(s: seq<nat>, m: set<nat>)
    requires Distinct(s) && forall x :: x in s <==> x in m
    ensures |s| == |m|
  {
    if s == [] {
      assert m == {};
    } else {
      var n := |s| - 1;
      assert forall x :: x in s <==> x in s[..n] || x == s[n];
      assert s[n] !in s[..n];
      DistinctSize(s[..n], m - {s[n]});
    }
  }

  lemma ReportedAreCycles(edges: seq<Edge>)
    ensures forall c :: c in SearchGraph(edges).cycles ==> SupportCycle(edges, c)
  {
    SupportListsClosed(edges);
    CutIsSoundAndExact(SupportLists(edges), NodeOrder(edges));
    forall c ensures SupportCycle(edges, c) <==> Cycle(SupportLists(edges), c) { SupportCycleIs(edges, c); }
  }

  // ---- the index and the traversal order of one node's edges ----

  /** The positions of the edges leaving `u`, in insertion order. */
  function OutIndices(edges: seq<Edge>, u: nat): (r: seq<nat>)
    ensures forall i :: i in r <==> 0 <= i < |edges| && edges[i].from == u
  {
    if edges == [] then []
    else
      var n: nat := |edges| - 1;
      if edges[n].from == u then OutIndices(edges[..n], u) + [n] else OutIndices(edges[..n], u)
  }

  predicate Positions(edges: seq<Edge>, idxs: seq<nat>) {
    forall k :: 0 <= k < |idxs| ==> idxs[k] < |edges|
  }

  predicate SortedByTarget(edges: seq<Edge>, idxs: seq<nat>) {
    && Positions(edges, idxs)
    && (forall i, j :: 0 <= i < j < |idxs| ==> edges[idxs[i]].to <= edges[idxs[j]].to)
  }

  function InsertByTarget(edges: seq<Edge>, x: nat, idxs: seq<nat>): (r: seq<nat>)
    requires x < |edges| && SortedByTarget(edges, idxs)
    ensures SortedByTarget(edges, r)
    ensures forall i :: i in r <==> i == x || i in idxs
  {
    if idxs == [] || edges[x].to <= edges[idxs[0]].to then [x] + idxs
    else
      assert idxs == [idxs[0]] + idxs[1..];
      var rest := InsertByTarget(edges, x, idxs[1..]);
      assert forall k :: 0 <= k < |rest| ==> rest[k] in rest;
      [idxs[0]] + rest
  }

  lemma {:induction false} InsertByTargetBag(edges: seq<Edge>, x: nat, idxs: seq<nat>)
    requires x < |edges| && SortedByTarget(edges, idxs)
    ensures multiset(InsertByTarget(edges, x, idxs)) == multiset(idxs) + multiset{x}
  {
    if idxs != [] {
      assert idxs == [idxs[0]] + idxs[1..];
      if edges[x].to > edges[idxs[0]].to { InsertByTargetBag(edges, x, idxs[1..]); }
    }
  }

  /** A sort of edge positions by target; nothing below depends on how it orders equal targets. */
  function SortByTarget(edges: seq<Edge>, idxs: seq<nat>): (r: seq<nat>)
    requires Positions(edges, idxs)
    ensures SortedByTarget(edges, r)
  {
    if idxs == [] then [] else InsertByTarget(edges, idxs[0], SortByTarget(edges, idxs[1..]))
  }

  lemma {:induction false} SortByTargetBag(edges: seq<Edge>, idxs: seq<nat>)
    requires Positions(edges, idxs)
    ensures multiset(SortByTarget(edges, idxs)) == multiset(idxs)
  {
    if idxs != [] {
      assert idxs == [idxs[0]] + idxs[1..];
      SortByTargetBag(edges, idxs[1..]);
      InsertByTargetBag(edges, idxs[0], SortByTarget(edges, idxs[1..]));
    }
  }

  function TargetAt(edges: seq<Edge>): nat -> Option<nat> {
    (i: nat) => if i < |edges| && Carries(edges[i]) then Some(edges[i].to) else None
  }

  lemma {:induction false} OutIndicesTargets(edges: seq<Edge>, u: nat)
    ensures FilterMap(OutIndices(edges, u), TargetAt(edges)) == FilterMap(edges, PickTarget(u))
  {
    if edges != [] {
      var n: nat := |edges| - 1;
      var a := edges[..n];
      OutIndicesTargets(a, u);
      FilterMapSame(OutIndices(a, u), TargetAt(edges), TargetAt(a));
      if edges[n].from == u {
        FilterMapConcat(OutIndices(a, u), [n], TargetAt(edges));
        FilterMapSingle(n, TargetAt(edges));
      }
    }
  }

  lemma {:induction false} SortedTargetsAscend(edges: seq<Edge>, idxs: seq<nat>)
    requires SortedByTarget(edges, idxs)
    ensures Ascending(FilterMap(idxs, TargetAt(edges)))
    ensures forall v :: v in FilterMap(idxs, TargetAt(edges)) ==> idxs != [] && v <= edges[idxs[|idxs| - 1]].to
  {
    if idxs != [] {
      var n := |idxs| - 1;
      SortedTargetsAscend(edges, idxs[..n]);
      var s := FilterMap(idxs[..n], TargetAt(edges));
      assert forall i :: 0 <= i < |s| ==> s[i] in s;
    }
  }

  /** Walking the sorted positions and skipping edges that carry nothing visits exactly `Targets`. */
  lemma TraversalOrder(edges: seq<Edge>, u: nat, sorted: seq<nat>)
    requires SortedByTarget(edges, sorted) && multiset(sorted) == multiset(OutIndices(edges, u))
    ensures FilterMap(sorted, TargetAt(edges)) == Targets(edges, u)
  {
    var f := TargetAt(edges);
    OutIndicesTargets(edges, u);
    FilterMapPermuted(sorted, OutIndices(edges, u), f);
    SortedTargetsAscend(edges, sorted);
    SortAscendingBag(FilterMap(edges, PickTarget(u)));
    AscendingUnique(FilterMap(sorted, f), Targets(edges, u));
  }
}
