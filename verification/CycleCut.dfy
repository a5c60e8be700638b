/**
 * The depth-first search that decides which support edges are back edges, as a function of the
 * successor lists, and what its marks mean.
 */
module CycleCut {
  import opened Bags

  /** Successor lists: for every node the targets of its support edges, ascending, parallel edges included. */
  type Successors = map<nat, seq<nat>>

  ghost predicate Closed(adj: Successors) {
    forall u, v :: u in adj && v in adj[u] ==> v in adj
  }

  /** Nodes seen, pairs cut, cycles reported, and nodes in the order their visit ended. */
  datatype Search = Search(visited: set<nat>, cut: set<(nat, nat)>, cycles: seq<seq<nat>>, finished: seq<nat>)

  /** Visit `node`, which is new, below the nodes on `path`. */
  ghost function Visit(adj: Successors, path: seq<nat>, node: nat, st: Search): (r: Search)
    requires Closed(adj) && node in adj && node !in st.visited
    ensures st.visited + {node} <= r.visited
    decreases Unseen(adj, st), 0, 0
  {
    var entered := st.(visited := st.visited + {node});
    assert node in Unseen(adj, st) && node !in Unseen(adj, entered);
    var explored := Explore(adj, path + [node], adj[node], entered);
    explored.(finished := explored.finished + [node])
  }

  /** One successor `t` of the last node on `path`: a back edge, a new node, or a node already finished. */
  ghost function Explored(adj: Successors, path: seq<nat>, t: nat, st: Search): (r: Search)
    requires Closed(adj) && path != [] && t in adj
    ensures st.visited <= r.visited
    decreases Unseen(adj, st), 1, 0
  {
    if t in path then
      st.(cut := st.cut + {(path[|path| - 1], t)}, cycles := st.cycles + [path[IndexOf(path, t)..]])
    else if t !in st.visited then Visit(adj, path, t, st)
    else st
  }

  /** Follow the successors `ts` of the last node on `path`. */
  ghost function Explore(adj: Successors, path: seq<nat>, ts: seq<nat>, st: Search): (r: Search)
    requires Closed(adj) && path != [] && forall t :: t in ts ==> t in adj
    ensures st.visited <= r.visited
    decreases Unseen(adj, st), 1, |ts|
  {
    if ts == [] then st
    else
      var next := Explored(adj, path, ts[0], st);
      assert Unseen(adj, next) <= Unseen(adj, st);
      Explore(adj, path, ts[1..], next)
  }

  ghost function Unseen(adj: Successors, st: Search): set<nat> {
    adj.Keys - st.visited
  }

  /** Start a visit at each node of `starts` that is still new. */
  ghost function SearchFrom(adj: Successors, starts: seq<nat>, st: Search): Search
    requires Closed(adj) && forall s :: s in starts ==> s in adj
  {
    if starts == [] then st
    else SearchFrom(adj, starts[1..], if starts[0] in st.visited then st else Visit(adj, [], starts[0], st))
  }

  const NothingSeen := Search({}, {}, [], [])

  // ---- which pairs a visit can cut ----

  /** Pairs cut between `st` and `r` leave nodes first seen in between, or leave `own` towards `path`. */
  ghost predicate CutsOnly(st: Search, r: Search, path: seq<nat>, own: nat, ts: seq<nat>) {
    && st.cut <= r.cut
    && forall p :: p in r.cut && p !in st.cut ==>
         (p.0 in r.visited && p.0 !in st.visited) || (p.0 == own && p.1 in path && p.1 in ts)
  }

  lemma VisitCuts(adj: Successors, path: seq<nat>, node: nat, st: Search)
    requires Closed(adj) && node in adj && node !in st.visited
    ensures CutsOnly(st, Visit(adj, path, node, st), [], node, [])
    decreases Unseen(adj, st), 0, 0
  {
    var entered := st.(visited := st.visited + {node});
    assert node in Unseen(adj, st) && node !in Unseen(adj, entered);
    ExploreCuts(adj, path + [node], adj[node], entered);
  }

  lemma ExploreCuts(adj: Successors, path: seq<nat>, ts: seq<nat>, st: Search)
    requires Closed(adj) && path != [] && (forall t :: t in ts ==> t in adj)
    ensures CutsOnly(st, Explore(adj, path, ts, st), path, path[|path| - 1], ts)
    ensures forall t :: t in ts && t in path ==> (path[|path| - 1], t) in Explore(adj, path, ts, st).cut
    decreases Unseen(adj, st), 1, |ts|
  {
    if ts != [] {
      var t := ts[0];
      assert ts == [t] + ts[1..];
      var next := Explored(adj, path, t, st);
      if t !in path && t !in st.visited {
        VisitCuts(adj, path, t, st);
      }
      assert Unseen(adj, next) <= Unseen(adj, st);
      ExploreCuts(adj, path, ts[1..], next);
    }
  }

  // ---- walks and cycles ----

  ghost predicate Walk(adj: Successors, p: seq<nat>) {
    && (forall i :: 0 <= i < |p| ==> p[i] in adj)
    && (forall i :: 0 <= i < |p| - 1 ==> p[i + 1] in adj[p[i]])
  }

  ghost predicate Cycle(adj: Successors, c: seq<nat>) {
    c != [] && Walk(adj, c) && c[0] in adj[c[|c| - 1]]
  }

  /** The pair of the edge that closes the cycle `c`. */
  function Closing(c: seq<nat>): (nat, nat)
    requires c != []
  {
    (c[|c| - 1], c[0])
  }

  /** Every reported cycle is one, and the cut pairs are exactly the closing edges of the reported cycles. */
  ghost predicate Sound(adj: Successors, st: Search) {
    && (forall c :: c in st.cycles ==> Cycle(adj, c) && Closing(c) in st.cut)
    && (forall p :: p in st.cut ==> exists c :: c in st.cycles && c != [] && Closing(c) == p)
  }

  lemma VisitSound(adj: Successors, path: seq<nat>, node: nat, st: Search)
    requires Closed(adj) && node in adj && node !in st.visited
    requires Walk(adj, path + [node])
    requires Sound(adj, st)
    ensures Sound(adj, Visit(adj, path, node, st))
    decreases Unseen(adj, st), 0, 0
  {
    var entered := st.(visited := st.visited + {node});
    assert node in Unseen(adj, st) && node !in Unseen(adj, entered);
    ExploreSound(adj, path + [node], adj[node], entered);
  }

  lemma WalkOn(adj: Successors, path: seq<nat>, t: nat)
    requires path != [] && Walk(adj, path) && t in adj && t in adj[path[|path| - 1]]
    ensures Walk(adj, path + [t])
  {
    var p := path + [t];
    forall i | 0 <= i < |p| - 1
      ensures p[i + 1] in adj[p[i]]
    {
      if i < |path| - 1 { assert path[i + 1] in adj[path[i]]; }
    }
  }

  lemma ReportSound(adj: Successors, path: seq<nat>, t: nat, st: Search)
    requires path != [] && t in path && Walk(adj, path) && t in adj[path[|path| - 1]] && Sound(adj, st)
    ensures Sound(adj, st.(cut := st.cut + {(path[|path| - 1], t)}, cycles := st.cycles + [path[IndexOf(path, t)..]]))
  {
    var c := path[IndexOf(path, t)..];
    var next := st.(cut := st.cut + {(path[|path| - 1], t)}, cycles := st.cycles + [c]);
    assert Cycle(adj, c) && Closing(c) == (path[|path| - 1], t);
    assert c in next.cycles;
    forall p | p in next.cut
      ensures exists c' :: c' in next.cycles && c' != [] && Closing(c') == p
    {
      if p in st.cut {
        var c' :| c' in st.cycles && c' != [] && Closing(c') == p;
        assert c' in next.cycles;
      }
    }
  }

  lemma ExploreSound(adj: Successors, path: seq<nat>, ts: seq<nat>, st: Search)
    requires Closed(adj) && path != [] && Walk(adj, path) && Sound(adj, st)
    requires forall t :: t in ts ==> t in adj && t in adj[path[|path| - 1]]
    ensures Sound(adj, Explore(adj, path, ts, st))
    decreases Unseen(adj, st), 1, |ts|
  {
    if ts != [] {
      var t := ts[0];
      assert t in ts;
      var next := Explored(adj, path, t, st);
      if t in path {
        ReportSound(adj, path, t, st);
      } else if t !in st.visited {
        WalkOn(adj, path, t);
        VisitSound(adj, path, t, st);
      }
      assert Unseen(adj, next) <= Unseen(adj, st);
      assert Sound(adj, next);
      assert forall t' :: t' in ts[1..] ==> t' in ts;
      ExploreSound(adj, path, ts[1..], next);
    }
  }

  lemma {:induction false} SearchSound(adj: Successors, starts: seq<nat>, st: Search)
    requires Closed(adj) && (forall s :: s in starts ==> s in adj) && Sound(adj, st)
    ensures Sound(adj, SearchFrom(adj, starts, st))
  {
    if starts != [] {
      if starts[0] in st.visited {
        SearchSound(adj, starts[1..], st);
      } else {
        VisitSound(adj, [], starts[0], st);
        SearchSound(adj, starts[1..], Visit(adj, [], starts[0], st));
      }
    }
  }

  // ---- finish order ----

  /** Successor `v` of `u` is either cut off or already finished in `done`. */
  ghost predicate Handled(cut: set<(nat, nat)>, done: seq<nat>, u: nat, v: nat) {
    (u, v) in cut || v in done
  }

  /** The seen nodes are the finished ones and the open ones, and finished nodes point only backwards or are cut. */
  ghost predicate Ordered(adj: Successors, open: seq<nat>, st: Search) {
    && Distinct(st.finished)
    && (forall x :: x in st.visited <==> x in st.finished || x in open)
    && (forall x :: x in st.finished ==> x !in open)
    && (forall x :: x in st.finished ==> x in adj)
    && (forall i, v :: 0 <= i < |st.finished| && v in adj[st.finished[i]]
          ==> Handled(st.cut, st.finished[..i], st.finished[i], v))
  }

  lemma FinishNode(adj: Successors, open: seq<nat>, node: nat, st: Search)
    requires node in adj && node !in open && Ordered(adj, open + [node], st)
    requires forall t :: t in adj[node] ==> Handled(st.cut, st.finished, node, t)
    ensures Ordered(adj, open, st.(finished := st.finished + [node]))
  {
    var f := st.finished + [node];
    forall i, v | 0 <= i < |f| && v in adj[f[i]]
      ensures Handled(st.cut, f[..i], f[i], v)
    {
      assert f[..i] == st.finished[..i];
      if i == |st.finished| {
        assert f[..i] == st.finished;
      } else {
        assert Handled(st.cut, st.finished[..i], st.finished[i], v);
      }
    }
    assert forall x :: x in open + [node] <==> x in open || x == node;
  }

  /** Growing the cut and the finish order handles no less. */
  ghost predicate Grows(st: Search, next: Search) {
    st.cut <= next.cut && st.finished <= next.finished && st.visited <= next.visited
  }

  lemma VisitOrdered(adj: Successors, path: seq<nat>, node: nat, st: Search)
    requires Closed(adj) && node in adj && node !in st.visited
    requires Ordered(adj, path, st)
    ensures Ordered(adj, path, Visit(adj, path, node, st))
    ensures Grows(st, Visit(adj, path, node, st)) && node in Visit(adj, path, node, st).finished
    decreases Unseen(adj, st), 0, 0
  {
    var entered := st.(visited := st.visited + {node});
    assert node in Unseen(adj, st) && node !in Unseen(adj, entered);
    OpenNode(adj, path, node, st);
    ExploreOrdered(adj, path + [node], adj[node], entered);
    FinishNode(adj, path, node, Explore(adj, path + [node], adj[node], entered));
  }

  lemma OpenNode(adj: Successors, path: seq<nat>, node: nat, st: Search)
    requires node !in st.visited && Ordered(adj, path, st)
    ensures Ordered(adj, path + [node], st.(visited := st.visited + {node}))
  {
    assert forall x :: x in path + [node] <==> x in path || x == node;
  }

  lemma MoreCutOrdered(adj: Successors, open: seq<nat>, st: Search, next: Search)
    requires Ordered(adj, open, st)
    requires st.cut <= next.cut && st.finished == next.finished && st.visited == next.visited
    ensures Ordered(adj, open, next)
  {
    forall i, v | 0 <= i < |next.finished| && v in adj[next.finished[i]]
      ensures Handled(next.cut, next.finished[..i], next.finished[i], v)
    {
      assert Handled(st.cut, st.finished[..i], st.finished[i], v);
    }
  }

  lemma ExploreOrdered(adj: Successors, path: seq<nat>, ts: seq<nat>, st: Search)
    requires Closed(adj) && path != [] && (forall t :: t in ts ==> t in adj)
    requires Ordered(adj, path, st)
    ensures Ordered(adj, path, Explore(adj, path, ts, st))
    ensures Grows(st, Explore(adj, path, ts, st))
    ensures forall t :: t in ts ==>
      Handled(Explore(adj, path, ts, st).cut, Explore(adj, path, ts, st).finished, path[|path| - 1], t)
    decreases Unseen(adj, st), 1, |ts|
  {
    if ts != [] {
      var t, rest := ts[0], ts[1..];
      assert ts == [t] + rest;
      var next := Explored(adj, path, t, st);
      if t in path {
        MoreCutOrdered(adj, path, st, next);
      } else if t !in st.visited {
        VisitOrdered(adj, path, t, st);
      }
      assert Unseen(adj, next) <= Unseen(adj, st);
      ExploreOrdered(adj, path, rest, next);
      var r := Explore(adj, path, rest, next);
      assert Explore(adj, path, ts, st) == r;
      assert Handled(r.cut, r.finished, path[|path| - 1], t);
    }
  }

  lemma {:induction false} SearchOrdered(adj: Successors, starts: seq<nat>, st: Search)
    requires Closed(adj) && (forall s :: s in starts ==> s in adj) && Ordered(adj, [], st)
    ensures Ordered(adj, [], SearchFrom(adj, starts, st))
    ensures Grows(st, SearchFrom(adj, starts, st))
    ensures forall s :: s in starts ==> s in SearchFrom(adj, starts, st).finished
  {
    if starts != [] {
      assert starts == [starts[0]] + starts[1..];
      if starts[0] in st.visited {
        SearchOrdered(adj, starts[1..], st);
      } else {
        VisitOrdered(adj, [], starts[0], st);
        SearchOrdered(adj, starts[1..], Visit(adj, [], starts[0], st));
      }
    }
  }

  // ---- what is cut is no more than needed ----

  /** The step from `u` to `v` is kept, and stays so while the nodes on `path` are open. */
  ghost predicate StepKept(path: seq<nat>, st: Search, u: nat, v: nat) {
    && (u, v) !in st.cut && u in st.visited && v in st.visited
    && (forall k :: 0 <= k < |path| && path[k] == u ==> v !in path[..k + 1])
  }

  /** Every step of `c` but the closing one is kept. */
  ghost predicate StepsKept(path: seq<nat>, st: Search, c: seq<nat>) {
    forall i :: 0 <= i < |c| - 1 ==> StepKept(path, st, c[i], c[i + 1])
  }

  /** The path and all steps inside reported cycles are kept; only seen nodes are ends of cut pairs. */
  ghost predicate Lean(path: seq<nat>, st: Search) {
    && Distinct(path)
    && (forall x :: x in path ==> x in st.visited)
    && (forall p :: p in st.cut ==> p.0 in st.visited && p.1 in st.visited)
    && StepsKept(path, st, path)
    && (forall c :: c in st.cycles ==> StepsKept(path, st, c))
  }

  lemma OpenLean(path: seq<nat>, node: nat, st: Search)
    requires Lean(path, st) && node !in st.visited
    ensures Lean(path + [node], st.(visited := st.visited + {node}))
  {
    var path', st' := path + [node], st.(visited := st.visited + {node});
    forall u, v | StepKept(path, st, u, v)
      ensures StepKept(path', st', u, v)
    {
      forall k | 0 <= k < |path'| && path'[k] == u
        ensures v !in path'[..k + 1]
      {
        assert path'[..k + 1] == path[..k + 1];
      }
    }
    forall i | 0 <= i < |path'| - 1
      ensures StepKept(path', st', path'[i], path'[i + 1])
    {
      if i < |path| - 1 {
        assert StepKept(path, st, path[i], path[i + 1]);
      } else {
        assert path'[i] in path;
      }
    }
    forall c | c in st'.cycles
      ensures StepsKept(path', st', c)
    {
      assert StepsKept(path, st, c);
    }
  }

  lemma CloseLean(path: seq<nat>, node: nat, st: Search, finished: seq<nat>)
    requires Lean(path + [node], st)
    ensures Lean(path, st.(finished := finished))
  {
    var path', r := path + [node], st.(finished := finished);
    forall u, v | StepKept(path', st, u, v)
      ensures StepKept(path, r, u, v)
    {
      forall k | 0 <= k < |path| && path[k] == u
        ensures v !in path[..k + 1]
      {
        assert path'[k] == u && path'[..k + 1] == path[..k + 1];
      }
    }
    forall i | 0 <= i < |path| - 1
      ensures StepKept(path, r, path[i], path[i + 1])
    {
      assert path'[i] == path[i] && path'[i + 1] == path[i + 1];
      assert StepKept(path', st, path'[i], path'[i + 1]);
    }
    forall c | c in r.cycles
      ensures StepsKept(path, r, c)
    {
      assert StepsKept(path', st, c);
    }
    assert forall i :: 0 <= i < |path| ==> path[i] == path'[i];
  }

  lemma ReportLean(path: seq<nat>, t: nat, st: Search)
    requires path != [] && t in path && Lean(path, st)
    ensures Lean(path, st.(cut := st.cut + {(path[|path| - 1], t)}, cycles := st.cycles + [path[IndexOf(path, t)..]]))
  {
    var n, j := |path| - 1, IndexOf(path, t);
    var c := path[j..];
    var next := st.(cut := st.cut + {(path[n], t)}, cycles := st.cycles + [c]);
    forall u, v | StepKept(path, st, u, v)
      ensures StepKept(path, next, u, v)
    {
      if u == path[n] {
        assert path[..n + 1] == path;
      }
    }
    forall i | 0 <= i < |path| - 1
      ensures StepKept(path, next, path[i], path[i + 1])
    {
      assert StepKept(path, st, path[i], path[i + 1]);
    }
    forall d | d in next.cycles
      ensures StepsKept(path, next, d)
    {
      if d == c {
        forall i | 0 <= i < |c| - 1
          ensures StepKept(path, next, c[i], c[i + 1])
        {
          assert c[i] == path[j + i] && c[i + 1] == path[j + i + 1];
        }
      } else {
        assert StepsKept(path, st, d);
      }
    }
  }

  lemma VisitLean(adj: Successors, path: seq<nat>, node: nat, st: Search)
    requires Closed(adj) && node in adj && node !in st.visited && Lean(path, st)
    ensures Lean(path, Visit(adj, path, node, st))
    decreases Unseen(adj, st), 0, 0
  {
    var entered := st.(visited := st.visited + {node});
    assert node in Unseen(adj, st) && node !in Unseen(adj, entered);
    OpenLean(path, node, st);
    ExploreLean(adj, path + [node], adj[node], entered);
    var explored := Explore(adj, path + [node], adj[node], entered);
    CloseLean(path, node, explored, explored.finished + [node]);
  }

  lemma ExploreLean(adj: Successors, path: seq<nat>, ts: seq<nat>, st: Search)
    requires Closed(adj) && path != [] && (forall t :: t in ts ==> t in adj) && Lean(path, st)
    ensures Lean(path, Explore(adj, path, ts, st))
    decreases Unseen(adj, st), 1, |ts|
  {
    if ts != [] {
      var t := ts[0];
      assert t in ts;
      var next := Explored(adj, path, t, st);
      if t in path {
        ReportLean(path, t, st);
      } else if t !in st.visited {
        VisitLean(adj, path, t, st);
      }
      assert Unseen(adj, next) <= Unseen(adj, st);
      assert forall t' :: t' in ts[1..] ==> t' in ts;
      ExploreLean(adj, path, ts[1..], next);
    }
  }

  lemma {:induction false} SearchLean(adj: Successors, starts: seq<nat>, st: Search)
    requires Closed(adj) && (forall s :: s in starts ==> s in adj) && Lean([], st)
    ensures Lean([], SearchFrom(adj, starts, st))
  {
    if starts != [] {
      if starts[0] in st.visited {
        SearchLean(adj, starts[1..], st);
      } else {
        VisitLean(adj, [], starts[0], st);
        SearchLean(adj, starts[1..], Visit(adj, [], starts[0], st));
      }
    }
  }

  // ---- which cycle is cut where ----

  /** No successor leads out of `s`. */
  ghost predicate Trapped(adj: Successors, s: set<nat>) {
    forall u, v :: u in s && u in adj && v in adj[u] ==> v in s
  }

  lemma VisitTrapped(adj: Successors, path: seq<nat>, node: nat, st: Search, s: set<nat>)
    requires Closed(adj) && node in adj && node !in st.visited
    requires Trapped(adj, s) && st.visited <= s && node in s
    ensures Visit(adj, path, node, st).visited <= s
    decreases Unseen(adj, st), 0, 0
  {
    var entered := st.(visited := st.visited + {node});
    assert node in Unseen(adj, st) && node !in Unseen(adj, entered);
    ExploreTrapped(adj, path + [node], adj[node], entered, s);
  }

  lemma ExploreTrapped(adj: Successors, path: seq<nat>, ts: seq<nat>, st: Search, s: set<nat>)
    requires Closed(adj) && path != [] && (forall t :: t in ts ==> t in adj && t in s)
    requires Trapped(adj, s) && st.visited <= s
    ensures Explore(adj, path, ts, st).visited <= s
    decreases Unseen(adj, st), 1, |ts|
  {
    if ts != [] {
      var t := ts[0];
      assert t in ts;
      var next := Explored(adj, path, t, st);
      if t !in path && t !in st.visited {
        VisitTrapped(adj, path, t, st, s);
      }
      assert Unseen(adj, next) <= Unseen(adj, st);
      assert forall t' :: t' in ts[1..] ==> t' in ts;
      ExploreTrapped(adj, path, ts[1..], next, s);
    }
  }

  /** A visit that begins before any other node of a cycle was seen finishes them all, and cuts the edge back. */
  lemma VisitCutsFresh(adj: Successors, path: seq<nat>, node: nat, st: Search, c: seq<nat>)
    requires Closed(adj) && node in adj && Ordered(adj, path, st) && Lean(path, st)
    requires Cycle(adj, c) && c[0] == node && forall i :: 0 <= i < |c| ==> c[i] !in st.visited
    ensures Closing(c) in Visit(adj, path, node, st).cut
  {
    var entered := st.(visited := st.visited + {node});
    assert node in Unseen(adj, st) && node !in Unseen(adj, entered);
    var r := Visit(adj, path, node, st);
    VisitOrdered(adj, path, node, st);
    VisitLean(adj, path, node, st);
    var last := |r.finished| - 1;
    assert r.finished[last] == node;
    AllFinish(adj, path, r, c, |c| - 1);
    var i := IndexOf(r.finished, c[|c| - 1]);
    assert Handled(r.cut, r.finished[..i], r.finished[i], node);
    assert node !in r.finished[..i];
  }

  lemma {:induction false} AllFinish(adj: Successors, path: seq<nat>, r: Search, c: seq<nat>, k: nat)
    requires Ordered(adj, path, r) && Lean(path, r) && k < |c| && Walk(adj, c) && c[0] in r.finished
    requires forall i :: 0 <= i < |c| ==> c[i] !in path
    ensures c[k] in r.finished
  {
    if k > 0 {
      AllFinish(adj, path, r, c, k - 1);
      var i := IndexOf(r.finished, c[k - 1]);
      assert Handled(r.cut, r.finished[..i], r.finished[i], c[k]);
    }
  }

  /** Before the first successor that is not on the path, only back edges are followed. */
  lemma {:induction false} FirstDescent(adj: Successors, path: seq<nat>, ts: seq<nat>, st: Search, t: nat)
    returns (before: Search)
    requires Closed(adj) && path != [] && (forall v :: v in ts ==> v in adj) && Ascending(ts)
    requires Ordered(adj, path, st) && Lean(path, st)
    requires t in ts && t !in st.visited && forall v :: v in ts && v < t ==> v in path
    ensures Ordered(adj, path, before) && Lean(path, before) && before.visited == st.visited
    ensures Visit(adj, path, t, before).cut <= Explore(adj, path, ts, st).cut
  {
    var next := Explored(adj, path, ts[0], st);
    var rest := ts[1..];
    assert ts == [ts[0]] + rest;
    if ts[0] == t {
      before := st;
      VisitOrdered(adj, path, t, st);
      ExploreOrdered(adj, path, rest, next);
    } else {
      assert ts[0] < t by { var i :| 0 <= i < |ts| && ts[i] == t; }
      MoreCutOrdered(adj, path, st, next);
      ReportLean(path, ts[0], st);
      before := FirstDescent(adj, path, rest, next, t);
    }
  }

  /** Each node of `p` is the least successor of the one before that is not among those before it. */
  ghost predicate Descent(adj: Successors, above: seq<nat>, p: seq<nat>) {
    && (forall i :: 0 <= i < |p| ==> p[i] in adj && Ascending(adj[p[i]]))
    && (forall i :: 0 <= i < |p| - 1 ==> p[i + 1] in adj[p[i]])
    && (forall i, v :: 0 <= i < |p| - 1 && v in adj[p[i]] && v < p[i + 1] ==> v in above || v in p[..i + 1])
  }

  lemma DescentOn(adj: Successors, above: seq<nat>, p: seq<nat>)
    requires p != [] && Descent(adj, above, p)
    ensures Descent(adj, above + [p[0]], p[1..])
  {
    var rest := p[1..];
    forall i, v | 0 <= i < |rest| - 1 && v in adj[rest[i]] && v < rest[i + 1]
      ensures v in above + [p[0]] || v in rest[..i + 1]
    {
      assert rest[i] == p[i + 1] && rest[i + 1] == p[i + 2];
      assert p[..i + 2] == [p[0]] + rest[..i + 1];
    }
  }

  /** A cycle at the end of such a path that avoids its other nodes is cut at the edge that leads back there. */
  lemma {:induction false} DescentCuts(adj: Successors, path: seq<nat>, p: seq<nat>, st: Search, c: seq<nat>)
    requires Closed(adj) && p != [] && Distinct(p) && Descent(adj, path, p)
    requires Ordered(adj, path, st) && Lean(path, st) && forall i :: 0 <= i < |p| ==> p[i] !in st.visited
    requires Cycle(adj, c) && c[0] == p[|p| - 1]
    requires forall i :: 0 <= i < |c| ==> c[i] !in st.visited && c[i] !in p[..|p| - 1]
    ensures Closing(c) in Visit(adj, path, p[0], st).cut
    decreases |p|
  {
    if |p| == 1 {
      VisitCutsFresh(adj, path, p[0], st, c);
    } else {
      var entered := st.(visited := st.visited + {p[0]});
      assert p[0] in Unseen(adj, st) && p[0] !in Unseen(adj, entered);
      OpenNode(adj, path, p[0], st);
      OpenLean(path, p[0], st);
      var open, rest := path + [p[0]], p[1..];
      assert p[..1] == [p[0]];
      var before := FirstDescent(adj, open, adj[p[0]], entered, p[1]);
      DescentOn(adj, path, p);
      assert p[..|p| - 1] == [p[0]] + rest[..|rest| - 1];
      forall i | 0 <= i < |c|
        ensures c[i] !in before.visited && c[i] !in rest[..|rest| - 1]
      {
        assert c[i] != p[0];
      }
      DescentCuts(adj, open, rest, before, c);
    }
  }

  /** A start that cannot be reached from earlier ones is visited with nothing open. */
  lemma {:induction false} RootVisit(adj: Successors, starts: seq<nat>, st: Search, r: nat, s: set<nat>)
    returns (before: Search)
    requires Closed(adj) && (forall u :: u in starts ==> u in adj) && StrictlyAscending(starts)
    requires Ordered(adj, [], st) && Lean([], st) && Trapped(adj, s) && st.visited <= s
    requires r in starts && r !in s && forall u :: u in starts && u < r ==> u in s
    ensures Ordered(adj, [], before) && Lean([], before) && before.visited <= s
    ensures Visit(adj, [], r, before).cut <= SearchFrom(adj, starts, st).cut
  {
    var rest := starts[1..];
    assert starts == [starts[0]] + rest;
    if starts[0] == r {
      before := st;
      VisitOrdered(adj, [], r, st);
      SearchOrdered(adj, rest, Visit(adj, [], r, st));
    } else {
      assert starts[0] < r by { var i :| 0 <= i < |starts| && starts[i] == r; }
      if starts[0] in st.visited {
        before := RootVisit(adj, rest, st, r, s);
      } else {
        VisitOrdered(adj, [], starts[0], st);
        VisitLean(adj, [], starts[0], st);
        VisitTrapped(adj, [], starts[0], st, s);
        before := RootVisit(adj, rest, Visit(adj, [], starts[0], st), r, s);
      }
    }
  }

  /** Nothing on a cycle lies in a trap that one of its nodes is outside of. */
  lemma {:induction false} OutsideTrap(adj: Successors, s: set<nat>, c: seq<nat>, k: nat)
    requires Cycle(adj, c) && Trapped(adj, s) && c[0] !in s && k < |c|
    ensures c[k] !in s
    decreases |c| - k
  {
    if k == |c| - 1 {
      assert c[k] in adj;
    } else {
      OutsideTrap(adj, s, c, k + 1);
    }
  }

  // ---- the results ----

  /** `order` lists every node once, and every successor that is not cut stands before its source. */
  ghost predicate Topological(adj: Successors, cut: set<(nat, nat)>, order: seq<nat>) {
    && Distinct(order)
    && (forall u :: u in order <==> u in adj)
    && (forall i, v :: 0 <= i < |order| && v in adj[order[i]] ==> Handled(cut, order[..i], order[i], v))
  }

  /** A walk round in a circle through edges none of which is cut. */
  ghost predicate SurvivingCycle(adj: Successors, cut: set<(nat, nat)>, c: seq<nat>) {
    Cycle(adj, c) && Closing(c) !in cut && forall i :: 0 <= i < |c| - 1 ==> (c[i], c[i + 1]) !in cut
  }

  /** Along surviving edges the position in a topological order strictly drops. */
  lemma {:induction false} PositionsDrop(adj: Successors, cut: set<(nat, nat)>, order: seq<nat>, c: seq<nat>, k: nat)
    requires Topological(adj, cut, order) && k < |c| && Walk(adj, c)
    requires forall i :: 0 <= i < |c| - 1 ==> (c[i], c[i + 1]) !in cut
    ensures c[0] in order && c[k] in order && IndexOf(order, c[k]) + k <= IndexOf(order, c[0])
  {
    if k > 0 {
      PositionsDrop(adj, cut, order, c, k - 1);
      StepDrops(adj, cut, order, c[k - 1], c[k]);
    }
  }

  lemma StepDrops(adj: Successors, cut: set<(nat, nat)>, order: seq<nat>, u: nat, v: nat)
    requires Topological(adj, cut, order) && u in adj && v in adj[u] && (u, v) !in cut
    ensures u in order && v in order && IndexOf(order, v) < IndexOf(order, u)
  {
    var i := IndexOf(order, u);
    assert Handled(cut, order[..i], order[i], v);
    var j :| 0 <= j < i && order[..i][j] == v;
    assert order[j] == v && v in order;
    assert IndexOf(order, v) == j;
  }

  lemma NoSurvivingCycle(adj: Successors, cut: set<(nat, nat)>, order: seq<nat>, c: seq<nat>)
    requires Topological(adj, cut, order)
    ensures !SurvivingCycle(adj, cut, c)
  {
    if SurvivingCycle(adj, cut, c) {
      PositionsDrop(adj, cut, order, c, |c| - 1);
      StepDrops(adj, cut, order, c[|c| - 1], c[0]);
    }
  }

  /**
   * The search over all nodes: the finish order is topological for what survives the cut, every cut edge closes
   * a reported cycle, and something is cut exactly when a cycle is reported, exactly when the graph has one.
   */
  lemma CutIsSoundAndExact(adj: Successors, starts: seq<nat>)
    requires Closed(adj) && (forall u :: u in starts <==> u in adj)
    ensures var st := SearchFrom(adj, starts, NothingSeen);
            && Topological(adj, st.cut, st.finished)
            && Sound(adj, st)
            && (st.cut != {} <==> st.cycles != [])
            && (st.cut != {} <==> exists c :: Cycle(adj, c))
  {
    SearchSound(adj, starts, NothingSeen);
    SearchOrdered(adj, starts, NothingSeen);
    var st := SearchFrom(adj, starts, NothingSeen);
    if st.cycles != [] {
      assert st.cycles[0] in st.cycles;
      assert Cycle(adj, st.cycles[0]);
    }
    if st.cut != {} {
      var p :| p in st.cut;
      var c :| c in st.cycles && c != [] && Closing(c) == p;
    }
    if c :| Cycle(adj, c) {
      NoSurvivingCycle(adj, st.cut, st.finished, c);
    }
  }

  /** Each cut edge closes a cycle that is cut nowhere else. */
  lemma CutIsLean(adj: Successors, starts: seq<nat>, p: (nat, nat)) returns (c: seq<nat>)
    requires Closed(adj) && (forall u :: u in starts <==> u in adj) && p in SearchFrom(adj, starts, NothingSeen).cut
    ensures Cycle(adj, c) && Closing(c) == p
    ensures forall i :: 0 <= i < |c| - 1 ==> (c[i], c[i + 1]) !in SearchFrom(adj, starts, NothingSeen).cut
  {
    var st := SearchFrom(adj, starts, NothingSeen);
    SearchSound(adj, starts, NothingSeen);
    SearchLean(adj, starts, NothingSeen);
    c :| c in st.cycles && c != [] && Closing(c) == p;
    forall i | 0 <= i < |c| - 1
      ensures (c[i], c[i + 1]) !in st.cut
    {
      assert StepKept([], st, c[i], c[i + 1]);
    }
  }

  /** A cycle at the end of a descent by least successors from a root is cut where it leads back to that end. */
  lemma CutBelowRoot(adj: Successors, starts: seq<nat>, s: set<nat>, p: seq<nat>, c: seq<nat>)
    requires Closed(adj) && (forall u :: u in starts <==> u in adj) && StrictlyAscending(starts)
    requires Trapped(adj, s) && p != [] && Distinct(p) && Descent(adj, [], p)
    requires forall u :: u in starts && u < p[0] ==> u in s
    requires forall i :: 0 <= i < |p| ==> p[i] !in s
    requires Cycle(adj, c) && c[0] == p[|p| - 1] && forall i :: 0 <= i < |c| ==> c[i] !in p[..|p| - 1]
    ensures Closing(c) in SearchFrom(adj, starts, NothingSeen).cut
  {
    var before := RootVisit(adj, starts, NothingSeen, p[0], s);
    forall i | 0 <= i < |c|
      ensures c[i] !in before.visited
    {
      OutsideTrap(adj, s, c, i);
    }
    DescentCuts(adj, [], p, before, c);
  }
}
