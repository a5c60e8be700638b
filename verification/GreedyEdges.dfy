/** Automatic edges are greedy: pair by pair in ascending order, an edge is made exactly while both ends have room. */
module GreedyEdges {
  import opened Bags
  import opened LogOddsAggregation
  import opened Claims
  import opened ClaimOrder
  import opened GraphBuilder
  import opened AutoEdges

  /** The edge comes in front of every edge from `x` to `y`, ordered by source and then by target. */
  predicate InFront(d: RawEdge, x: ClaimHash, y: ClaimHash) {
    d.fromHash < x || (d.fromHash == x && d.toHash < y)
  }

  ghost predicate InOrder(edges: seq<RawEdge>) {
    forall i, j :: 0 <= i < j < |edges| ==> InFront(edges[i], edges[j].fromHash, edges[j].toHash)
  }

  /** The number of edge ends at `id` on edges in front of those from `x` to `y`. */
  function DegreeInFront(edges: seq<RawEdge>, x: ClaimHash, y: ClaimHash, id: ClaimHash): int {
    SumOf(edges, (d: RawEdge) => if !InFront(d, x, y) then 0
                                 else (if d.fromHash == id then 1 else 0) + (if d.toHash == id then 1 else 0))
  }

  // ---- the edges before and after a pair ----

  /** Row `i` has got to position `j`: earlier edges leave earlier claims, or this one towards earlier positions. */
  ghost predicate HeadAt(s: seq<Claim>, edges: seq<RawEdge>, i: nat, j: nat)
    requires i < j <= |s|
  {
    forall d :: d in edges ==>
      d.fromHash < s[i].id || (d.fromHash == s[i].id && i + 1 < j && d.toHash <= s[j - 1].id)
  }

  lemma NextInOrder(edges: seq<RawEdge>, e: RawEdge)
    requires InOrder(edges) && forall d :: d in edges ==> InFront(d, e.fromHash, e.toHash)
    ensures InOrder(edges + [e])
  {
  }

  lemma {:induction false} HeadIs(config: Config, s: seq<Claim>, i: nat, j: nat)
    requires Embedded(s) && IdStrict(s) && i < j <= |s|
    ensures HeadAt(s, Before(config, s, i, j).edges, i, j) && InOrder(Before(config, s, i, j).edges)
    decreases i, j
  {
    if j > i + 1 {
      var g := Before(config, s, i, j - 1);
      HeadIs(config, s, i, j - 1);
      match EdgeFor(config, s[i], s[j - 1]) {
        case Some(e) => NextInOrder(g.edges, e);
        case None =>
      }
    } else if i > 0 {
      HeadIs(config, s, i - 1, |s|);
    }
  }

  lemma {:induction false} RowTail(config: Config, s: seq<Claim>, i: nat, j: nat, g: Generated)
    returns (t: seq<RawEdge>)
    requires Embedded(s) && IdStrict(s) && i < j <= |s|
    ensures Row(config, s, i, j, g).edges == g.edges + t
    ensures forall d :: d in t ==> d.fromHash == s[i].id && s[j - 1].id < d.toHash
    decreases |s| - j
  {
    if j == |s| {
      t := [];
    } else {
      var next := AddPair(config, s[i], s[j], g);
      t := RowTail(config, s, i, j + 1, next);
      if next != g { t := [next.edges[|g.edges|]] + t; }
    }
  }

  lemma {:induction false} RowsTail(config: Config, s: seq<Claim>, i: nat, g: Generated) returns (t: seq<RawEdge>)
    requires Embedded(s) && IdStrict(s) && 0 < i <= |s|
    ensures Rows(config, s, i, g).edges == g.edges + t
    ensures forall d :: d in t ==> s[i - 1].id < d.fromHash
    decreases |s| - i
  {
    if i == |s| {
      t := [];
    } else {
      var next := Row(config, s, i, i + 1, g);
      var row := RowTail(config, s, i, i + 1, g);
      var rows := RowsTail(config, s, i + 1, next);
      t := row + rows;
    }
  }

  /** All edges are those made before the pair at `i`, `j`, the edge of that pair if it is made, and later ones. */
  lemma AroundPair(config: Config, s: seq<Claim>, i: nat, j: nat) returns (t: seq<RawEdge>)
    requires Embedded(s) && IdStrict(s) && i < j < |s|
    ensures RowStart(config, s, |s|).edges == Before(config, s, i, j + 1).edges + t
    ensures forall d :: d in t ==> d.fromHash > s[i].id || (d.fromHash == s[i].id && d.toHash > s[j].id)
  {
    var row := RowTail(config, s, i, j + 1, Before(config, s, i, j + 1));
    RestOfRow(config, s, i, j + 1);
    var rows := RowsTail(config, s, i + 1, RowStart(config, s, i + 1));
    RestOfRows(config, s, i + 1);
    t := row + rows;
  }

  lemma DegreeOfHead(head: seq<RawEdge>, t: seq<RawEdge>, x: ClaimHash, y: ClaimHash, id: ClaimHash)
    requires forall d :: d in head ==> InFront(d, x, y)
    requires forall d :: d in t ==> !InFront(d, x, y)
    ensures DegreeInFront(head + t, x, y, id) == Degree(head, id)
  {
    var f := (d: RawEdge) => if !InFront(d, x, y) then 0
                             else (if d.fromHash == id then 1 else 0) + (if d.toHash == id then 1 else 0);
    SumConcat(head, t, f);
    SumSame(head, f, Ends(id));
    SumVanishes(t, f);
  }

  lemma GreedyAt(config: Config, s: seq<Claim>, i: nat, j: nat, e: RawEdge)
    requires Embedded(s) && IdStrict(s) && i < j < |s| && EdgeFor(config, s[i], s[j]) == Some(e)
    requires Counted(Before(config, s, i, j))
    ensures var edges := RowStart(config, s, |s|).edges;
      e in edges <==> DegreeInFront(edges, s[i].id, s[j].id, s[i].id) < config.maxK
                      && DegreeInFront(edges, s[i].id, s[j].id, s[j].id) < config.maxK
  {
    var g := Before(config, s, i, j);
    HeadIs(config, s, i, j);
    var t := AroundPair(config, s, i, j);
    var edges := RowStart(config, s, |s|).edges;
    var next := Before(config, s, i, j + 1);
    assert next == AddPair(config, s[i], s[j], g);
    var made := if next == g then [] else [e];
    assert edges == g.edges + (made + t);
    DegreeOfHead(g.edges, made + t, s[i].id, s[j].id, s[i].id);
    DegreeOfHead(g.edges, made + t, s[i].id, s[j].id, s[j].id);
    assert Degree(g.edges, s[i].id) == Count(g.counts, s[i].id) && Degree(g.edges, s[j].id) == Count(g.counts, s[j].id);
    assert e !in g.edges && e !in t;
  }

  lemma {:induction false} BeforeCounted(config: Config, s: seq<Claim>, i: nat, j: nat)
    requires Embedded(s) && i < j <= |s|
    ensures Counted(Before(config, s, i, j))
    decreases i, j
  {
    if j > i + 1 {
      BeforeCounted(config, s, i, j - 1);
      PairCounted(config, s[i], s[j - 1], Before(config, s, i, j - 1));
    } else if i > 0 {
      BeforeCounted(config, s, i - 1, |s|);
    }
  }

  /**
   * Among claims with distinct ids the edges are made in the order of their ends, and the edge that two claims call
   * for is made exactly if each of them has fewer than the cap on the edges in front of it.
   */
  lemma GreedyIff(config: Config, claims: seq<Claim>, a: Claim, b: Claim, e: RawEdge)
    requires DistinctIds(claims) && a in claims && b in claims && a.id < b.id
    requires a.embedding.Some? && b.embedding.Some? && EdgeFor(config, a, b) == Some(e)
    ensures InOrder(Generate(config, claims))
    ensures var edges := Generate(config, claims);
      e in edges <==> DegreeInFront(edges, a.id, b.id, a.id) < config.maxK
                      && DegreeInFront(edges, a.id, b.id, b.id) < config.maxK
  {
    var s := Participants(claims);
    ParticipantsAre(claims);
    ParticipantsStrict(claims);
    GenerateIs(config, claims);
    var i: nat :| i < |s| && s[i] == a;
    var j: nat :| j < |s| && s[j] == b;
    assert i < j;
    HeadIs(config, s, |s| - 1, |s|);
    BeforeCounted(config, s, i, j);
    GreedyAt(config, s, i, j, e);
  }
}
