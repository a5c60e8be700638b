/** Building a knowledge graph from claims and raw edges, with fingerprint fallback for claims already collected. */
module GraphBuilder {
  import opened Numeric
  import opened Bags
  import opened LogOddsAggregation
  import opened Claims
  import opened SupportGraph
  import opened KnowledgeGraphs

  type Fingerprint = (nat, nat)

  /** An edge as transmitted: both endpoints by claim hash and by semantic fingerprint. */
  datatype RawEdge = RawEdge(fromHash: ClaimHash, fromPrint: Fingerprint, toHash: ClaimHash, toPrint: Fingerprint,
                             relation: Relation, strength: Bps)

  function PrintOf(c: Claim): Fingerprint {
    (c.primary, c.secondary)
  }

  /** `i` is the position that resolves claim hash `h`: the last claim with that id. */
  ghost predicate ResolvesId(claims: seq<Claim>, h: ClaimHash, i: nat) {
    i < |claims| && claims[i].id == h && forall j :: i < j < |claims| ==> claims[j].id != h
  }

  /** `i` is the position that inherits fingerprint `p`: its last summary, or its first claim if it has none. */
  ghost predicate InheritsPrint(claims: seq<Claim>, p: Fingerprint, i: nat) {
    && i < |claims| && PrintOf(claims[i]) == p
    && (if claims[i].kind.Summary?
        then forall j :: i < j < |claims| && PrintOf(claims[j]) == p ==> !claims[j].kind.Summary?
        else forall j :: 0 <= j < |claims| && PrintOf(claims[j]) == p ==> !claims[j].kind.Summary? && i <= j)
  }

  ghost predicate HasId(claims: seq<Claim>, h: ClaimHash) {
    exists c :: c in claims && c.id == h
  }

  ghost predicate HasPrint(claims: seq<Claim>, p: Fingerprint) {
    exists c :: c in claims && PrintOf(c) == p
  }

  ghost predicate IdMapFor(claims: seq<Claim>, m: map<ClaimHash, nat>) {
    && (forall h :: h in m <==> HasId(claims, h))
    && (forall h :: h in m ==> ResolvesId(claims, h, m[h]))
  }

  ghost predicate PrintMapFor(claims: seq<Claim>, m: map<Fingerprint, nat>) {
    && (forall p :: p in m <==> HasPrint(claims, p))
    && (forall p :: p in m ==> InheritsPrint(claims, p, m[p]))
  }

  lemma IdMapStep(claims: seq<Claim>, c: Claim, m: map<ClaimHash, nat>)
    requires IdMapFor(claims, m)
    ensures IdMapFor(claims + [c], m[c.id := |claims|])
  {
    var next := claims + [c];
    assert forall x :: x in next <==> x in claims || x == c;
    forall h
      ensures HasId(next, h) <==> HasId(claims, h) || h == c.id
    {
    }
    forall h | h in m && h != c.id
      ensures ResolvesId(next, h, m[h])
    {
      assert ResolvesId(claims, h, m[h]);
    }
  }

  function NextPrintMap(m: map<Fingerprint, nat>, c: Claim, n: nat): map<Fingerprint, nat> {
    if c.kind.Summary? || PrintOf(c) !in m then m[PrintOf(c) := n] else m
  }

  lemma PrintMapStep(claims: seq<Claim>, c: Claim, m: map<Fingerprint, nat>)
    requires PrintMapFor(claims, m)
    ensures PrintMapFor(claims + [c], NextPrintMap(m, c, |claims|))
  {
    var next, n, m' := claims + [c], |claims|, NextPrintMap(m, c, |claims|);
    assert forall x :: x in next <==> x in claims || x == c;
    forall p
      ensures HasPrint(next, p) <==> HasPrint(claims, p) || p == PrintOf(c)
    {
    }
    forall p | p in m'
      ensures InheritsPrint(next, p, m'[p])
    {
      if p in m && m'[p] == m[p] {
        assert InheritsPrint(claims, p, m[p]);
      } else {
        assert p == PrintOf(c) && m'[p] == n;
        if !c.kind.Summary? {
          forall j | 0 <= j < n
            ensures PrintOf(next[j]) != p
          {
            assert claims[j] in claims;
            assert !HasPrint(claims, p);
          }
        }
      }
    }
  }

  /** Exact resolution first, fingerprint second. */
  function Resolve(ids: map<ClaimHash, nat>, prints: map<Fingerprint, nat>, h: ClaimHash, p: Fingerprint): Option<nat> {
    if h in ids then Some(ids[h]) else if p in prints then Some(prints[p]) else None
  }

  function ResolveEdge(ids: map<ClaimHash, nat>, prints: map<Fingerprint, nat>): RawEdge -> Option<Edge> {
    (raw: RawEdge) =>
      match (Resolve(ids, prints, raw.fromHash, raw.fromPrint), Resolve(ids, prints, raw.toHash, raw.toPrint))
      case (Some(from), Some(to)) => Some(Edge(from, to, raw.relation, raw.strength))
      case (_, _) => None
  }

  method IndexClaims(claims: seq<Claim>) returns (ids: map<ClaimHash, nat>, prints: map<Fingerprint, nat>)
    ensures IdMapFor(claims, ids) && PrintMapFor(claims, prints)
  {
    ids, prints := map[], map[];
    for i := 0 to |claims|
      invariant IdMapFor(claims[..i], ids) && PrintMapFor(claims[..i], prints)
    {
      var claim := claims[i];
      IdMapStep(claims[..i], claim, ids);
      PrintMapStep(claims[..i], claim, prints);
      assert claims[..i + 1] == claims[..i] + [claim];
      ids := ids[claim.id := i];
      prints := NextPrintMap(prints, claim, i);
    }
    assert claims[..|claims|] == claims;
  }

  /**
   * The edges of the graph are the raw edges whose endpoints both resolve, in order; the others are dropped.
   * A hash resolves to the last claim with that id, else its fingerprint to the summary that inherited it.
   */
  method BuildFromClaims(claims: seq<Claim>, rawEdges: seq<RawEdge>)
    returns (graph: KnowledgeGraph, ghost ids: map<ClaimHash, nat>, ghost prints: map<Fingerprint, nat>)
    ensures fresh(graph) && graph.Valid()
    ensures IdMapFor(claims, ids) && PrintMapFor(claims, prints)
    ensures graph.edges == FilterMap(rawEdges, ResolveEdge(ids, prints))
  {
    graph := new KnowledgeGraph();
    var idMap, printMap := IndexClaims(claims);
    ids, prints := idMap, printMap;
    for i := 0 to |rawEdges|
      invariant fresh(graph) && graph.Valid()
      invariant graph.edges == FilterMap(rawEdges[..i], ResolveEdge(ids, prints))
    {
      assert rawEdges[..i + 1][..i] == rawEdges[..i];
      var edge := ResolveEdge(idMap, printMap)(rawEdges[i]);
      if edge.Some? {
        graph.AddEdge(edge.value);
      }
    }
    assert rawEdges[..|rawEdges|] == rawEdges;
  }

  /** Both maps are determined by the claims. */
  lemma ResolutionUnique(claims: seq<Claim>, m: map<ClaimHash, nat>, m': map<ClaimHash, nat>,
                         p: map<Fingerprint, nat>, p': map<Fingerprint, nat>)
    requires IdMapFor(claims, m) && IdMapFor(claims, m') && PrintMapFor(claims, p) && PrintMapFor(claims, p')
    ensures m == m' && p == p'
  {
    assert m.Keys == m'.Keys;
    assert p.Keys == p'.Keys;
    forall h | h in m
      ensures m[h] == m'[h]
    {
      assert ResolvesId(claims, h, m[h]) && ResolvesId(claims, h, m'[h]);
    }
    forall f | f in p
      ensures p[f] == p'[f]
    {
      assert InheritsPrint(claims, f, p[f]) && InheritsPrint(claims, f, p'[f]);
    }
  }

  /** The claim an end of a raw edge stands for: the last one with that id, else the one that inherited its print. */
  ghost predicate StandsFor(claims: seq<Claim>, h: ClaimHash, p: Fingerprint, i: nat) {
    if HasId(claims, h) then ResolvesId(claims, h, i) else InheritsPrint(claims, p, i)
  }

  /**
   * A raw edge becomes a graph edge exactly if each of its ends stands for a claim; it joins these, and keeps its
   * relation and strength.
   */
  lemma ResolvesIff(claims: seq<Claim>, ids: map<ClaimHash, nat>, prints: map<Fingerprint, nat>, raw: RawEdge, e: Edge)
    requires IdMapFor(claims, ids) && PrintMapFor(claims, prints)
    ensures ResolveEdge(ids, prints)(raw) == Some(e) <==>
      StandsFor(claims, raw.fromHash, raw.fromPrint, e.from) && StandsFor(claims, raw.toHash, raw.toPrint, e.to)
      && e.relation == raw.relation && e.strength == raw.strength
  {
    EndResolves(claims, ids, prints, raw.fromHash, raw.fromPrint, e.from);
    EndResolves(claims, ids, prints, raw.toHash, raw.toPrint, e.to);
  }

  lemma EndResolves(claims: seq<Claim>, ids: map<ClaimHash, nat>, prints: map<Fingerprint, nat>, h: ClaimHash,
                    p: Fingerprint, i: nat)
    requires IdMapFor(claims, ids) && PrintMapFor(claims, prints)
    ensures Resolve(ids, prints, h, p) == Some(i) <==> StandsFor(claims, h, p, i)
  {
    if StandsFor(claims, h, p, i) {
      assert claims[i] in claims;
      if h in ids {
        assert ResolvesId(claims, h, ids[h]);
      } else {
        assert HasPrint(claims, p) && InheritsPrint(claims, p, prints[p]);
      }
    }
  }
}
