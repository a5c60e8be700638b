/** The knowledge graph as an object: the edge list, its adjacency index, and the searches that walk it. */
module KnowledgeGraphs {
  import opened Bags
  import opened CycleCut
  import opened SupportGraph

  // ---- edge positions against cut pairs ----

  /** Off the open nodes, the marked positions are exactly the carrying edges whose pair is cut. */
  ghost predicate Agrees(edges: seq<Edge>, open: set<nat>, cyclic: set<nat>, cut: set<(nat, nat)>) {
    && (forall i :: i in cyclic ==> 0 <= i < |edges|)
    && (forall i :: 0 <= i < |edges| && edges[i].from !in open ==>
          (i in cyclic <==> Carries(edges[i]) && (edges[i].from, edges[i].to) in cut))
  }

  /** On the open nodes, two sets of marks are the same. */
  ghost predicate SameOn(edges: seq<Edge>, open: set<nat>, cyclic: set<nat>, before: set<nat>) {
    forall i :: 0 <= i < |edges| && edges[i].from in open ==> (i in cyclic <==> i in before)
  }

  /** On `node`'s own edges, marked are the carrying ones among `done` that point into `path`. */
  ghost predicate OwnMarks(edges: seq<Edge>, node: nat, path: seq<nat>, done: seq<nat>, cyclic: set<nat>) {
    forall i :: 0 <= i < |edges| && edges[i].from == node ==>
      (i in cyclic <==> i in done && Carries(edges[i]) && edges[i].to in path)
  }

  /** Cut pairs leave visited nodes. */
  ghost predicate CutVisited(st: Search) {
    forall p :: p in st.cut ==> p.0 in st.visited
  }

  /** The positions at `node`, sorted by target. */
  ghost predicate Traverses(edges: seq<Edge>, node: nat, sorted: seq<nat>) {
    && Positions(edges, sorted)
    && (forall i :: i in sorted <==> 0 <= i < |edges| && edges[i].from == node)
    && FilterMap(sorted, TargetAt(edges)) == Targets(edges, node)
  }

  /** The targets still to explore after the first `i` positions. */
  ghost function Remaining(edges: seq<Edge>, sorted: seq<nat>, i: nat): seq<nat>
    requires i <= |sorted|
  {
    FilterMap(sorted[i..], TargetAt(edges))
  }

  lemma RemainingStep(edges: seq<Edge>, node: nat, sorted: seq<nat>, i: nat)
    requires Traverses(edges, node, sorted) && i < |sorted|
    ensures var e := edges[sorted[i]];
            && e.from == node
            && (Carries(e) ==> Remaining(edges, sorted, i) != []
                               && Remaining(edges, sorted, i)[0] == e.to
                               && Remaining(edges, sorted, i)[1..] == Remaining(edges, sorted, i + 1))
            && (!Carries(e) ==> Remaining(edges, sorted, i) == Remaining(edges, sorted, i + 1))
  {
    assert sorted[i] in sorted;
    assert sorted[i..] == [sorted[i]] + sorted[i + 1..];
    FilterMapConcat([sorted[i]], sorted[i + 1..], TargetAt(edges));
    FilterMapSingle(sorted[i], TargetAt(edges));
  }

  lemma RemainingTargets(edges: seq<Edge>, node: nat, sorted: seq<nat>, i: nat)
    requires node in SupportLists(edges)
    requires Traverses(edges, node, sorted) && i <= |sorted|
    ensures forall t :: t in Remaining(edges, sorted, i) ==> t in SupportLists(edges)[node] && t in SupportLists(edges)
    ensures i == 0 ==> Remaining(edges, sorted, i) == SupportLists(edges)[node]
  {
    SupportListsClosed(edges);
    assert sorted == sorted[..i] + sorted[i..];
    FilterMapConcat(sorted[..i], sorted[i..], TargetAt(edges));
  }

  /** Entering a new node: none of its own edges is marked yet. */
  lemma EnterNode(edges: seq<Edge>, open: set<nat>, node: nat, path: seq<nat>, cyclic: set<nat>, st: Search)
    requires Agrees(edges, open, cyclic, st.cut) && CutVisited(st) && node !in st.visited && node !in open
    ensures Agrees(edges, open + {node}, cyclic, st.cut) && OwnMarks(edges, node, path, [], cyclic)
  {
  }

  /** Leaving a node: its own marks have become those of its cut pairs. */
  lemma LeaveNode(edges: seq<Edge>, open: set<nat>, node: nat, path: seq<nat>, sorted: seq<nat>,
                  cyclic: set<nat>, entered: Search, st: Search)
    requires node in SupportLists(edges) && Closed(SupportLists(edges)) && path != [] && path[|path| - 1] == node
    requires Traverses(edges, node, sorted) && OwnMarks(edges, node, path, sorted, cyclic)
    requires Agrees(edges, open + {node}, cyclic, st.cut)
    requires node in entered.visited && forall p :: p in entered.cut ==> p.0 != node
    requires st == Explore(SupportLists(edges), path, SupportLists(edges)[node], entered)
    ensures Agrees(edges, open, cyclic, st.cut)
  {
    ExploreCuts(SupportLists(edges), path, SupportLists(edges)[node], entered);
    forall i | 0 <= i < |edges| && edges[i].from == node
      ensures i in cyclic <==> Carries(edges[i]) && (node, edges[i].to) in st.cut
    {
      assert i in sorted;
      StepIs(edges, node, edges[i].to);
    }
  }

  /** The exploration from `st` with `i` positions done ends where the whole exploration ends. */
  ghost predicate OnTrack(edges: seq<Edge>, path: seq<nat>, sorted: seq<nat>, i: nat, st: Search, goal: Search)
    requires path != [] && i <= |sorted| && Closed(SupportLists(edges))
  {
    && (forall t :: t in Remaining(edges, sorted, i) ==> t in SupportLists(edges))
    && Explore(SupportLists(edges), path, Remaining(edges, sorted, i), st) == goal
  }

  lemma TrackStep(edges: seq<Edge>, node: nat, path: seq<nat>, sorted: seq<nat>, i: nat, st: Search, next: Search,
                  goal: Search)
    requires path != [] && i < |sorted| && Closed(SupportLists(edges)) && node in SupportLists(edges)
    requires Traverses(edges, node, sorted) && OnTrack(edges, path, sorted, i, st, goal)
    requires edges[sorted[i]].to in SupportLists(edges)
    requires next == if Carries(edges[sorted[i]]) then Explored(SupportLists(edges), path, edges[sorted[i]].to, st)
                     else st
    ensures OnTrack(edges, path, sorted, i + 1, next, goal)
  {
    RemainingStep(edges, node, sorted, i);
    RemainingTargets(edges, node, sorted, i + 1);
  }

  lemma MarkStep(edges: seq<Edge>, open: set<nat>, node: nat, path: seq<nat>, sorted: seq<nat>, i: nat,
                 cyclic: set<nat>, next: set<nat>)
    requires i < |sorted| && Traverses(edges, node, sorted) && node in open
    requires OwnMarks(edges, node, path, sorted[..i], cyclic)
    requires SameOn(edges, open, next,
               if Carries(edges[sorted[i]]) && edges[sorted[i]].to in path then cyclic + {sorted[i]} else cyclic)
    ensures OwnMarks(edges, node, path, sorted[..i + 1], next)
    ensures SameOn(edges, open - {node}, next, cyclic)
  {
    assert sorted[i] in sorted;
    assert sorted[..i + 1] == sorted[..i] + [sorted[i]];
  }

  class KnowledgeGraph {
    var edges: seq<Edge>
    var adjacency: map<nat, seq<nat>>

    /** The adjacency index lists exactly the positions of the edges that leave a node. */
    ghost predicate Valid()
      reads this
    {
      forall u :: IndicesOf(u) == OutIndices(edges, u)
    }

    function IndicesOf(u: nat): seq<nat>
      reads this
    {
      if u in adjacency then adjacency[u] else []
    }

    constructor ()
      ensures Valid() && edges == []
    {
      edges, adjacency := [], map[];
    }

    method AddEdge(edge: Edge)
      requires Valid()
      modifies this
      ensures Valid() && edges == old(edges) + [edge]
    {
      var idx: nat := |edges|;
      adjacency := adjacency[edge.from := IndicesOf(edge.from) + [idx]];
      edges := edges + [edge];
      assert edges[..idx] == old(edges);
    }

    method SortedNodes() returns (nodes: seq<nat>)
      ensures nodes == NodeOrder(edges)
    {
      nodes := [];
      for i := 0 to |edges|
        invariant nodes == Endpoints(edges[..i])
      {
        assert edges[..i + 1][..i] == edges[..i];
        nodes := nodes + [edges[i].from, edges[i].to];
      }
      assert edges[..|edges|] == edges;
      nodes := Dedup(SortAscending(nodes));
    }

    // ---- cyclic_edge_indices ----

    method SortedOut(node: nat) returns (sorted: seq<nat>)
      requires Valid()
      ensures Traverses(edges, node, sorted)
    {
      var indices := IndicesOf(node);
      assert forall k :: 0 <= k < |indices| ==> indices[k] in indices;
      sorted := SortByTarget(edges, indices);
      SortByTargetBag(edges, indices);
      BagMembers(sorted, indices);
      TraversalOrder(edges, node, sorted);
    }

    /** Visit a new node: `visited` and the marks follow the specified search. */
    method DfsMarkCyclic(node: nat, visited: set<nat>, onStack: set<nat>, cyclic: set<nat>,
                         ghost path: seq<nat>, ghost st: Search)
      returns (visited': set<nat>, cyclic': set<nat>)
      requires Valid() && Closed(SupportLists(edges))
      requires node in SupportLists(edges) && node !in visited && onStack <= visited
      requires visited == st.visited && (forall x :: x in onStack <==> x in path)
      requires Agrees(edges, onStack, cyclic, st.cut) && CutVisited(st)
      ensures visited' == Visit(SupportLists(edges), path, node, st).visited
      ensures Agrees(edges, onStack, cyclic', Visit(SupportLists(edges), path, node, st).cut)
      ensures SameOn(edges, onStack, cyclic', cyclic)
      ensures CutVisited(Visit(SupportLists(edges), path, node, st))
      decreases SupportLists(edges).Keys - visited, 0
    {
      ghost var entered := st.(visited := st.visited + {node});
      ghost var path' := path + [node];
      EnterNode(edges, onStack, node, path', cyclic, st);
      var sorted := SortedOut(node);
      ghost var st';
      visited', cyclic', st' :=
        FollowEdges(node, sorted, visited + {node}, onStack + {node}, cyclic, path', entered);
      LeaveNode(edges, onStack, node, path', sorted, cyclic', entered, st');
    }

    /** The loop of the visit: follow the edges of `node` at the sorted positions. */
    method FollowEdges(node: nat, sorted: seq<nat>, visited: set<nat>, onStack: set<nat>, cyclic: set<nat>,
                       ghost path: seq<nat>, ghost st: Search)
      returns (visited': set<nat>, cyclic': set<nat>, ghost st': Search)
      requires Valid() && Closed(SupportLists(edges))
      requires node in SupportLists(edges) && Traverses(edges, node, sorted)
      requires path != [] && path[|path| - 1] == node && node in onStack && onStack <= visited
      requires visited == st.visited && (forall x :: x in onStack <==> x in path)
      requires Agrees(edges, onStack, cyclic, st.cut) && CutVisited(st) && OwnMarks(edges, node, path, [], cyclic)
      ensures st' == Explore(SupportLists(edges), path, SupportLists(edges)[node], st) && visited' == st'.visited
      ensures Agrees(edges, onStack, cyclic', st'.cut) && CutVisited(st')
      ensures SameOn(edges, onStack - {node}, cyclic', cyclic)
      ensures OwnMarks(edges, node, path, sorted, cyclic')
      decreases SupportLists(edges).Keys - visited, 2
    {
      ghost var goal := Explore(SupportLists(edges), path, SupportLists(edges)[node], st);
      visited', cyclic', st' := visited, cyclic, st;
      RemainingTargets(edges, node, sorted, 0);
      SupportListsClosed(edges);
      NodeOrderIs(edges);
      for i := 0 to |sorted|
        invariant visited <= visited' == st'.visited
        invariant OnTrack(edges, path, sorted, i, st', goal)
        invariant Agrees(edges, onStack, cyclic', st'.cut) && CutVisited(st')
        invariant SameOn(edges, onStack - {node}, cyclic', cyclic)
        invariant OwnMarks(edges, node, path, sorted[..i], cyclic')
      {
        assert edges[sorted[i]] in edges;
        ghost var before, st0 := cyclic', st';
        if Carries(edges[sorted[i]]) {
          visited', cyclic', st' := FollowEdge(sorted[i], visited', onStack, cyclic', path, st');
        }
        MarkStep(edges, onStack, node, path, sorted, i, before, cyclic');
        TrackStep(edges, node, path, sorted, i, st0, st', goal);
      }
      assert sorted[..|sorted|] == sorted;
      assert Remaining(edges, sorted, |sorted|) == [];
    }

    /** One carrying edge: mark it if its target is open, visit its target if that is new. */
    method FollowEdge(idx: nat, visited: set<nat>, onStack: set<nat>, cyclic: set<nat>,
                      ghost path: seq<nat>, ghost st: Search)
      returns (visited': set<nat>, cyclic': set<nat>, ghost st': Search)
      requires Valid() && Closed(SupportLists(edges))
      requires idx < |edges| && Carries(edges[idx]) && edges[idx].to in SupportLists(edges)
      requires path != [] && path[|path| - 1] == edges[idx].from && edges[idx].from in onStack && onStack <= visited
      requires visited == st.visited && (forall x :: x in onStack <==> x in path)
      requires Agrees(edges, onStack, cyclic, st.cut) && CutVisited(st)
      ensures st' == Explored(SupportLists(edges), path, edges[idx].to, st) && visited' == st'.visited
      ensures Agrees(edges, onStack, cyclic', st'.cut) && CutVisited(st')
      ensures SameOn(edges, onStack, cyclic', if edges[idx].to in path then cyclic + {idx} else cyclic)
      decreases SupportLists(edges).Keys - visited, 1
    {
      var next := edges[idx].to;
      visited', cyclic', st' := visited, cyclic, Explored(SupportLists(edges), path, next, st);
      if next in onStack {
        cyclic' := cyclic + {idx};
      } else if next !in visited {
        visited', cyclic' := DfsMarkCyclic(next, visited, onStack, cyclic, path, st);
      }
    }

    /** The positions of the back edges: exactly the carrying edges whose pair is cut. */
    method CyclicEdgeIndices() returns (cyclic: set<nat>)
      requires Valid()
      ensures forall i :: i in cyclic <==>
                0 <= i < |edges| && Carries(edges[i]) && (edges[i].from, edges[i].to) in CutPairs(edges)
    {
      SupportListsClosed(edges);
      ghost var adj := SupportLists(edges);
      var nodes := SortedNodes();
      var visited: set<nat> := {};
      cyclic := {};
      ghost var st := NothingSeen;
      assert nodes[0..] == nodes;
      for i := 0 to |nodes|
        invariant visited == st.visited && CutVisited(st)
        invariant Agrees(edges, {}, cyclic, st.cut)
        invariant SearchFrom(adj, nodes[i..], st) == SearchGraph(edges)
      {
        assert nodes[i] in nodes;
        assert nodes[i..][1..] == nodes[i + 1..];
        if nodes[i] !in visited {
          ghost var next := Visit(adj, [], nodes[i], st);
          visited, cyclic := DfsMarkCyclic(nodes[i], visited, {}, cyclic, [], st);
          st := next;
        }
      }
    }

    // ---- detect_cycles ----

    method DfsCycles(node: nat, visited: set<nat>, onStack: set<nat>, path: seq<nat>, cycles: seq<seq<nat>>,
                     ghost st: Search)
      returns (visited': set<nat>, cycles': seq<seq<nat>>)
      requires Valid() && Closed(SupportLists(edges))
      requires node in SupportLists(edges) && node !in visited && onStack <= visited
      requires visited == st.visited && cycles == st.cycles && (forall x :: x in onStack <==> x in path)
      ensures visited' == Visit(SupportLists(edges), path, node, st).visited
      ensures cycles' == Visit(SupportLists(edges), path, node, st).cycles
      decreases SupportLists(edges).Keys - visited, 0
    {
      ghost var entered := st.(visited := st.visited + {node});
      var sorted := SortedOut(node);
      visited', cycles' :=
        ReportEdges(node, sorted, visited + {node}, onStack + {node}, path + [node], cycles, entered);
    }

    method ReportEdges(node: nat, sorted: seq<nat>, visited: set<nat>, onStack: set<nat>, path: seq<nat>,
                       cycles: seq<seq<nat>>, ghost st: Search)
      returns (visited': set<nat>, cycles': seq<seq<nat>>)
      requires Valid() && Closed(SupportLists(edges))
      requires node in SupportLists(edges) && Traverses(edges, node, sorted)
      requires path != [] && path[|path| - 1] == node && node in onStack && onStack <= visited
      requires visited == st.visited && cycles == st.cycles && (forall x :: x in onStack <==> x in path)
      ensures visited' == Explore(SupportLists(edges), path, SupportLists(edges)[node], st).visited
      ensures cycles' == Explore(SupportLists(edges), path, SupportLists(edges)[node], st).cycles
      decreases SupportLists(edges).Keys - visited, 2
    {
      ghost var goal := Explore(SupportLists(edges), path, SupportLists(edges)[node], st);
      visited', cycles' := visited, cycles;
      ghost var st' := st;
      RemainingTargets(edges, node, sorted, 0);
      SupportListsClosed(edges);
      NodeOrderIs(edges);
      for i := 0 to |sorted|
        invariant visited <= visited' == st'.visited && cycles' == st'.cycles
        invariant OnTrack(edges, path, sorted, i, st', goal)
      {
        assert edges[sorted[i]] in edges;
        ghost var st0 := st';
        if Carries(edges[sorted[i]]) {
          visited', cycles', st' := ReportEdge(edges[sorted[i]], visited', onStack, path, cycles', st');
        }
        TrackStep(edges, node, path, sorted, i, st0, st', goal);
      }
      assert Remaining(edges, sorted, |sorted|) == [];
    }

    method ReportEdge(edge: Edge, visited: set<nat>, onStack: set<nat>, path: seq<nat>, cycles: seq<seq<nat>>,
                      ghost st: Search)
      returns (visited': set<nat>, cycles': seq<seq<nat>>, ghost st': Search)
      requires Valid() && Closed(SupportLists(edges)) && edge.to in SupportLists(edges)
      requires path != [] && onStack <= visited
      requires visited == st.visited && cycles == st.cycles && (forall x :: x in onStack <==> x in path)
      ensures st' == Explored(SupportLists(edges), path, edge.to, st)
      ensures visited' == Explored(SupportLists(edges), path, edge.to, st).visited
      ensures cycles' == Explored(SupportLists(edges), path, edge.to, st).cycles
      decreases SupportLists(edges).Keys - visited, 1
    {
      visited', cycles', st' := visited, cycles, Explored(SupportLists(edges), path, edge.to, st);
      if edge.to in onStack {
        cycles' := cycles + [path[IndexOf(path, edge.to)..]];
      } else if edge.to !in visited {
        visited', cycles' := DfsCycles(edge.to, visited, onStack, path, cycles, st);
      }
    }

    /**
     * Every cycle found is a cycle of carrying edges, and some cycle is found exactly when the graph has one,
     * exactly when `CyclicEdgeIndices` marks an edge.
     */
    method DetectCycles() returns (cycles: seq<seq<nat>>)
      requires Valid()
      ensures cycles == SearchGraph(edges).cycles
      ensures forall c :: c in cycles ==> SupportCycle(edges, c)
      ensures cycles != [] <==> exists c :: SupportCycle(edges, c)
      ensures cycles != [] <==> CutPairs(edges) != {}
    {
      SupportListsClosed(edges);
      ghost var adj := SupportLists(edges);
      var nodes := SortedNodes();
      var visited: set<nat> := {};
      cycles := [];
      ghost var st := NothingSeen;
      assert nodes[0..] == nodes;
      for i := 0 to |nodes|
        invariant visited == st.visited && cycles == st.cycles
        invariant SearchFrom(adj, nodes[i..], st) == SearchGraph(edges)
      {
        assert nodes[i] in nodes;
        assert nodes[i..][1..] == nodes[i + 1..];
        if nodes[i] !in visited {
          ghost var next := Visit(adj, [], nodes[i], st);
          visited, cycles := DfsCycles(nodes[i], visited, {}, [], cycles, st);
          st := next;
        }
      }
      CycleCutTheorem(edges);
      ReportedAreCycles(edges);
    }
  }
}
