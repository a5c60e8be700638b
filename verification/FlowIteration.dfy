/** Iterating an operator on trust maps that looks at each node only along incoming links. */
module FlowIteration {
  import opened TrustFlow

  type Operator = TrustMap -> TrustMap

  /** `x` lists the successive results of an operator. */
  ghost predicate Orbit(next: Operator, x: nat -> TrustMap) {
    forall j: nat :: x(j + 1) == next(x(j))
  }

  /** Trust maps compared node by node. */
  ghost predicate AtMost(t: TrustMap, t': TrustMap) {
    forall v :: Trust(t, v) <= Trust(t', v)
  }

  /** Trust maps that agree at every node; the two may differ in which neutral nodes they list. */
  ghost predicate Same(t: TrustMap, t': TrustMap) {
    forall v :: Trust(t, v) == Trust(t', v)
  }

  ghost predicate Monotone(next: Operator) {
    forall t, t' :: AtMost(t, t') ==> AtMost(next(t), next(t'))
  }

  ghost predicate SourcesAgree(links: set<(nat, nat)>, t: TrustMap, t': TrustMap, v: nat) {
    forall u :: (u, v) in links ==> Trust(t, u) == Trust(t', u)
  }

  /** The operator's value at a node depends only on the sources linked to it. */
  ghost predicate Local(links: set<(nat, nat)>, next: Operator) {
    forall t, t', v :: SourcesAgree(links, t, t', v) ==> Trust(next(t), v) == Trust(next(t'), v)
  }

  // ---- monotone orbits ----

  lemma {:induction false} Climbs(next: Operator, x: nat -> TrustMap, k: nat)
    requires Orbit(next, x) && Monotone(next) && AtMost(x(0), x(1))
    ensures AtMost(x(k), x(k + 1))
  {
    if k > 0 {
      Climbs(next, x, k - 1);
      assert x(k - 1 + 1) == next(x(k - 1)) && x(k + 1) == next(x(k));
      assert AtMost(next(x(k - 1)), next(x(k)));
    }
  }

  /** Operators that agree everywhere have the same orbits. */
  lemma {:induction false} SameOrbit(next: Operator, next': Operator, x: nat -> TrustMap, y: nat -> TrustMap, k: nat)
    requires Orbit(next, x) && Orbit(next', y) && x(0) == y(0) && forall t :: next(t) == next'(t)
    ensures x(k) == y(k)
  {
    if k > 0 {
      SameOrbit(next, next', x, y, k - 1);
      assert x(k - 1 + 1) == next(x(k - 1)) && y(k - 1 + 1) == next'(y(k - 1));
    }
  }

  // ---- paths ----

  ghost predicate Path(links: set<(nat, nat)>, p: seq<nat>) {
    p != [] && forall i :: 0 <= i < |p| - 1 ==> (p[i], p[i + 1]) in links
  }

  /** Some path of `k` links ends at `v`. */
  ghost predicate Deep(links: set<(nat, nat)>, k: nat, v: nat) {
    exists p: seq<nat> :: Path(links, p) && |p| == k + 1 && p[k] == v
  }

  lemma DeepStart(links: set<(nat, nat)>, v: nat)
    ensures Deep(links, 0, v)
  {
    assert Path(links, [v]) && |[v]| == 1 && [v][0] == v;
  }

  lemma DeepExtends(links: set<(nat, nat)>, k: nat, u: nat, v: nat)
    requires Deep(links, k, u) && (u, v) in links
    ensures Deep(links, k + 1, v)
  {
    var p: seq<nat> :| Path(links, p) && |p| == k + 1 && p[k] == u;
    var q := p + [v];
    assert Path(links, q) && |q| == k + 2 && q[k + 1] == v;
  }

  // ---- settling ----

  /** Nodes without incoming links start at the value the operator gives them. */
  ghost predicate Grounded(links: set<(nat, nat)>, next: Operator, t: TrustMap) {
    forall v: nat :: (forall u :: (u, v) !in links) ==> Trust(t, v) == Trust(next(t), v)
  }

  /** Two orbits agree at every node that no path of `k` links reaches, from round `k - 1` on. */
  lemma {:induction false} Settle(links: set<(nat, nat)>, next: Operator, x: nat -> TrustMap, y: nat -> TrustMap,
                                  k: nat, v: nat, i: nat, j: nat)
    requires Local(links, next) && Orbit(next, x) && Orbit(next, y)
    requires Grounded(links, next, x(0)) && Grounded(links, next, y(0))
    requires !Deep(links, k, v) && i + 1 >= k && j + 1 >= k
    ensures Trust(x(i), v) == Trust(y(j), v)
    decreases k
  {
    DeepStart(links, v);
    if k == 1 {
      forall u ensures (u, v) !in links {
        if (u, v) in links { DeepStart(links, u); DeepExtends(links, 0, u, v); }
      }
      Ground(links, next, x, y, v, i);
      Ground(links, next, y, x, v, j);
    } else {
      forall u | (u, v) in links
        ensures Trust(x(i - 1), u) == Trust(y(j - 1), u)
      {
        if Deep(links, k - 1, u) { DeepExtends(links, k - 1, u, v); }
        Settle(links, next, x, y, k - 1, u, i - 1, j - 1);
      }
      assert SourcesAgree(links, x(i - 1), y(j - 1), v);
      assert x(i - 1 + 1) == next(x(i - 1)) && y(j - 1 + 1) == next(y(j - 1));
    }
  }

  lemma Ground(links: set<(nat, nat)>, next: Operator, x: nat -> TrustMap, y: nat -> TrustMap, v: nat, i: nat)
    requires Local(links, next) && Orbit(next, x) && Grounded(links, next, x(0))
    requires forall u :: (u, v) !in links
    ensures Trust(x(i), v) == Trust(next(y(0)), v)
  {
    if i > 0 {
      assert x(i - 1 + 1) == next(x(i - 1));
      assert SourcesAgree(links, x(i - 1), y(0), v);
    } else {
      assert SourcesAgree(links, x(0), y(0), v);
    }
  }

  /** No path has more than `d` links. */
  ghost predicate DepthAtMost(links: set<(nat, nat)>, d: nat) {
    forall p: seq<nat> :: Path(links, p) ==> |p| <= d + 1
  }

  lemma NotDeeper(links: set<(nat, nat)>, d: nat, v: nat)
    requires DepthAtMost(links, d)
    ensures !Deep(links, d + 1, v)
  {
  }

  // ---- fixed points ----

  /** The operator cannot tell apart maps that agree at every node. */
  ghost predicate Extensional(next: Operator) {
    forall t, t' :: Same(t, t') ==> next(t) == next(t')
  }

  lemma {:induction false} FixedForever(next: Operator, x: nat -> TrustMap, n: nat, m: nat)
    requires Orbit(next, x) && Extensional(next) && n < m && Same(x(n), x(n + 1))
    ensures x(m) == x(n + 1)
    decreases m - n
  {
    if m > n + 1 {
      FixedForever(next, x, n, m - 1);
      assert x(m - 1 + 1) == next(x(m - 1)) && x(n + 1) == next(x(n));
    }
  }

  /**
   * With no path longer than `d`, every orbit is still from round `d` on, at the same map up to neutral entries,
   * and any map the operator leaves unchanged is that one.
   */
  lemma OrbitConverges(links: set<(nat, nat)>, next: Operator, x: nat -> TrustMap, d: nat, n: nat)
    requires Local(links, next) && Orbit(next, x) && Grounded(links, next, x(0)) && DepthAtMost(links, d) && n >= d
    ensures Same(x(n), x(d)) && Same(x(n), next(x(n)))
    ensures forall t :: Same(t, next(t)) ==> Same(t, x(n))
  {
    forall v, i: nat | i >= d
      ensures Trust(x(i), v) == Trust(x(d), v)
    {
      NotDeeper(links, d, v);
      Settle(links, next, x, x, d + 1, v, i, d);
    }
    assert x(n + 1) == next(x(n));
    forall t | Same(t, next(t))
      ensures Same(t, x(n))
    {
      FixedPointIsLimit(links, next, x, d, n, t);
    }
  }

  lemma FixedPointIsLimit(links: set<(nat, nat)>, next: Operator, x: nat -> TrustMap, d: nat, n: nat, t: TrustMap)
    requires Local(links, next) && Orbit(next, x) && Grounded(links, next, x(0)) && DepthAtMost(links, d) && n >= d
    requires Same(t, next(t))
    ensures Same(t, x(n))
  {
    forall v
      ensures Trust(t, v) == Trust(x(n), v)
    {
      NotDeeper(links, d, v);
      StaysPut(links, next, x, t, d + 1, v, n);
    }
  }

  lemma {:induction false} StaysPut(links: set<(nat, nat)>, next: Operator, x: nat -> TrustMap, t: TrustMap,
                                    k: nat, v: nat, i: nat)
    requires Local(links, next) && Orbit(next, x) && Grounded(links, next, x(0)) && Same(t, next(t))
    requires !Deep(links, k, v) && i + 1 >= k
    ensures Trust(t, v) == Trust(x(i), v)
    decreases k
  {
    DeepStart(links, v);
    if k == 1 {
      forall u ensures (u, v) !in links {
        if (u, v) in links { DeepStart(links, u); DeepExtends(links, 0, u, v); }
      }
      Ground(links, next, x, x, v, i);
      assert SourcesAgree(links, t, x(0), v);
    } else {
      forall u | (u, v) in links
        ensures Trust(t, u) == Trust(x(i - 1), u)
      {
        if Deep(links, k - 1, u) { DeepExtends(links, k - 1, u, v); }
        StaysPut(links, next, x, t, k - 1, u, i - 1);
      }
      assert SourcesAgree(links, t, x(i - 1), v);
      assert x(i - 1 + 1) == next(x(i - 1));
    }
  }
}
