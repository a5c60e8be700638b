/** Automatic edges from quantized embeddings: the greedy capped pair loop and what it guarantees. */
module AutoEdges {
  import opened Numeric
  import opened Bags
  import opened LogOddsAggregation
  import opened Claims
  import opened Correlation
  import opened ClaimOrder
  import opened SupportGraph
  import opened GraphBuilder

  datatype Config = Config(supportBits: nat, contradictBits: nat, maxK: nat)

  /** The edges generated so far and the edge count kept per claim id. */
  datatype Generated = Generated(edges: seq<RawEdge>, counts: map<ClaimHash, nat>)

  function RelationAt(config: Config, distance: nat): Option<Relation> {
    if distance <= config.supportBits then Some(Supports)
    else if distance >= config.contradictBits then Some(Contradicts)
    else None
  }

  /** Strength in [1000, 10000]: falling with distance for support, rising with it for contradiction. */
  function StrengthAt(config: Config, relation: Relation, distance: nat): (r: Bps)
  {
    match relation
    case Supports =>
      Clamp(Max(10000 - distance * 9000 / Max(config.supportBits, 1), 0), 1000, 10000)
    case Contradicts =>
      Clamp(1000 + Max(distance - config.contradictBits, 0) * 9000 / Max(256 - config.contradictBits, 1), 1000, 10000)
    case _ => 5000
  }

  /** The edge that the pair `a`, `b` calls for: none across versions or in the dead zone. */
  function EdgeFor(config: Config, a: Claim, b: Claim): Option<RawEdge>
    requires a.embedding.Some? && b.embedding.Some?
  {
    if a.version != b.version then None
    else
      var distance := Hamming(a.embedding.value, b.embedding.value);
      match RelationAt(config, distance)
      case None => None
      case Some(relation) =>
        Some(RawEdge(a.id, PrintOf(a), b.id, PrintOf(b), relation, StrengthAt(config, relation, distance)))
  }

  /** A pair calls for support up to one distance and for contradiction from another on, across no two versions. */
  lemma EdgeForIs(config: Config, a: Claim, b: Claim)
    requires a.embedding.Some? && b.embedding.Some?
    ensures var distance := Hamming(a.embedding.value, b.embedding.value);
      match EdgeFor(config, a, b)
      case None => a.version != b.version || config.supportBits < distance < config.contradictBits
      case Some(e) =>
        && a.version == b.version && e.fromHash == a.id && e.toHash == b.id && 1000 <= e.strength <= 10000
        && if distance <= config.supportBits then e.relation == Supports
           else e.relation == Contradicts && config.contradictBits <= distance
  {
  }

  lemma SlopeEnds(t: nat)
    requires t > 0
    ensures t * 9000 / t == 9000
  {
    DivBounds(t * 9000, t);
    QuotientOrder(t, 9000, t * 9000 / t, t * 9000, t * 9000);
    QuotientOrder(t, t * 9000 / t, 9000, t * 9000, t * 9000);
  }

  /** Support is strongest on equal embeddings, weakest at its threshold, and falls with distance. */
  lemma SupportStrength(config: Config, x: nat, y: nat)
    requires x <= y
    ensures StrengthAt(config, Supports, 0) == 10000
    ensures config.supportBits > 0 ==> StrengthAt(config, Supports, config.supportBits) == 1000
    ensures StrengthAt(config, Supports, y) <= StrengthAt(config, Supports, x)
  {
    var t := Max(config.supportBits, 1);
    SlopeEnds(t);
    DivMonotone(x * 9000, y * 9000, t);
    DivBounds(0, t);
  }

  /** Contradiction is weakest at its threshold, strongest on opposite embeddings, and grows with distance. */
  lemma ContradictionStrength(config: Config, x: nat, y: nat)
    requires config.contradictBits <= x <= y
    ensures StrengthAt(config, Contradicts, config.contradictBits) == 1000
    ensures config.contradictBits < 256 ==> StrengthAt(config, Contradicts, 256) == 10000
    ensures StrengthAt(config, Contradicts, x) <= StrengthAt(config, Contradicts, y)
  {
    var t := Max(256 - config.contradictBits, 1);
    SlopeEnds(t);
    DivMonotone((x - config.contradictBits) * 9000, (y - config.contradictBits) * 9000, t);
    DivBounds(0, t);
  }

  function Count(counts: map<ClaimHash, nat>, id: ClaimHash): nat {
    if id in counts then counts[id] else 0
  }

  function Bump(counts: map<ClaimHash, nat>, id: ClaimHash): map<ClaimHash, nat> {
    counts[id := Count(counts, id) + 1]
  }

  function AddPair(config: Config, a: Claim, b: Claim, g: Generated): Generated
    requires a.embedding.Some? && b.embedding.Some?
  {
    if Count(g.counts, a.id) >= config.maxK || Count(g.counts, b.id) >= config.maxK then g
    else
      match EdgeFor(config, a, b)
      case None => g
      case Some(e) => Generated(g.edges + [e], Bump(Bump(g.counts, a.id), b.id))
  }

  predicate Embedded(s: seq<Claim>) {
    forall i :: 0 <= i < |s| ==> s[i].embedding.Some?
  }

  /** Pair claim `i` with each claim from `j` on. */
  function Row(config: Config, s: seq<Claim>, i: nat, j: nat, g: Generated): Generated
    requires Embedded(s) && i < |s|
    decreases |s| - j
  {
    if j >= |s| then g else Row(config, s, i, j + 1, AddPair(config, s[i], s[j], g))
  }

  function Rows(config: Config, s: seq<Claim>, i: nat, g: Generated): Generated
    requires Embedded(s)
    decreases |s| - i
  {
    if i >= |s| then g else Rows(config, s, i + 1, Row(config, s, i, i + 1, g))
  }

  function PickEmbedded(): Claim -> Option<Claim> {
    (c: Claim) => if c.embedding.Some? then Some(c) else None
  }

  /** The participating claims in id order. */
  function Participants(claims: seq<Claim>): seq<Claim> {
    SortById(FilterMap(claims, PickEmbedded()))
  }

  lemma ParticipantsAre(claims: seq<Claim>)
    ensures Embedded(Participants(claims)) && IdAscending(Participants(claims))
    ensures forall c :: c in Participants(claims) <==> c in claims && c.embedding.Some?
  {
    var s := FilterMap(claims, PickEmbedded());
    FilterMapOrigin(claims, PickEmbedded());
    SortByIdSorted(s);
    BagMembers(s, SortById(s));
    assert forall c :: c in s <==> c in claims && c.embedding.Some? by {
      forall c
        ensures c in s <==> c in claims && c.embedding.Some?
      {
        if c in claims && c.embedding.Some? { assert PickEmbedded()(c) == Some(c); }
      }
    }
    assert forall i :: 0 <= i < |Participants(claims)| ==> Participants(claims)[i] in Participants(claims);
  }

  const NothingGenerated := Generated([], map[])

  /** The edges of an epoch's claim set. */
  function Generate(config: Config, claims: seq<Claim>): seq<RawEdge> {
    ParticipantsAre(claims);
    Rows(config, Participants(claims), 0, NothingGenerated).edges
  }

  lemma LonelyRows(config: Config, s: seq<Claim>)
    requires Embedded(s) && |s| < 2
    ensures Rows(config, s, 0, NothingGenerated) == NothingGenerated
  {
    if |s| == 1 {
      assert Row(config, s, 0, 1, NothingGenerated) == NothingGenerated;
      assert Rows(config, s, 1, NothingGenerated) == NothingGenerated;
    }
  }

  method GenerateEdges(config: Config, claims: seq<Claim>) returns (edges: seq<RawEdge>)
    ensures edges == Generate(config, claims)
  {
    ParticipantsAre(claims);
    var s := Participants(claims);
    if |s| < 2 {
      LonelyRows(config, s);
      return [];
    }
    edges := [];
    var counts: map<ClaimHash, nat> := map[];
    for i := 0 to |s|
      invariant Rows(config, s, i, Generated(edges, counts)) == Rows(config, s, 0, NothingGenerated)
    {
      edges, counts := GenerateRow(config, s, i, edges, counts);
    }
  }

  /** The inner loop: compare claim `i` with every later one. */
  method GenerateRow(config: Config, s: seq<Claim>, i: nat, edges: seq<RawEdge>, counts: map<ClaimHash, nat>)
    returns (edges': seq<RawEdge>, counts': map<ClaimHash, nat>)
    requires Embedded(s) && i < |s|
    ensures Generated(edges', counts') == Row(config, s, i, i + 1, Generated(edges, counts))
  {
    edges', counts' := edges, counts;
    for j := i + 1 to |s|
      invariant Row(config, s, i, j, Generated(edges', counts')) == Row(config, s, i, i + 1, Generated(edges, counts))
    {
      edges', counts' := GeneratePair(config, s[i], s[j], edges', counts');
    }
  }

  method GeneratePair(config: Config, a: Claim, b: Claim, edges: seq<RawEdge>, counts: map<ClaimHash, nat>)
    returns (edges': seq<RawEdge>, counts': map<ClaimHash, nat>)
    requires a.embedding.Some? && b.embedding.Some?
    ensures Generated(edges', counts') == AddPair(config, a, b, Generated(edges, counts))
  {
    edges', counts' := edges, counts;
    if a.version != b.version {
      return;
    }
    if Count(counts, a.id) >= config.maxK || Count(counts, b.id) >= config.maxK {
      return;
    }
    var distance := Hamming(a.embedding.value, b.embedding.value);
    var relation := RelationAt(config, distance);
    if relation.Some? {
      var strength := StrengthAt(config, relation.value, distance);
      edges' := edges + [RawEdge(a.id, PrintOf(a), b.id, PrintOf(b), relation.value, strength)];
      counts' := Bump(counts, a.id);
      counts' := Bump(counts', b.id);
    }
  }

  // ---- what every run keeps ----

  function Ends(id: ClaimHash): RawEdge -> int {
    (e: RawEdge) => (if e.fromHash == id then 1 else 0) + (if e.toHash == id then 1 else 0)
  }

  /** The number of edge ends at a claim. */
  function Degree(edges: seq<RawEdge>, id: ClaimHash): int {
    SumOf(edges, Ends(id))
  }

  /** Counts are degrees. */
  ghost predicate Counted(g: Generated) {
    forall id: ClaimHash :: Degree(g.edges, id) == Count(g.counts, id)
  }

  /** Edge `e` is the one that the pair at positions `i < j` calls for. */
  ghost predicate CalledBy(config: Config, s: seq<Claim>, i: nat, j: nat, e: RawEdge)
    requires Embedded(s)
  {
    i < j < |s| && EdgeFor(config, s[i], s[j]) == Some(e)
  }

  ghost predicate CalledFor(config: Config, s: seq<Claim>, e: RawEdge)
    requires Embedded(s)
  {
    exists i: nat, j: nat :: CalledBy(config, s, i, j, e)
  }

  ghost predicate AllCalledFor(config: Config, s: seq<Claim>, g: Generated)
    requires Embedded(s)
  {
    forall e :: e in g.edges ==> CalledFor(config, s, e)
  }

  /** The pair's edge is there, or one of its ends is at the cap. */
  ghost predicate Served(config: Config, a: Claim, b: Claim, g: Generated)
    requires a.embedding.Some? && b.embedding.Some?
  {
    match EdgeFor(config, a, b)
    case None => true
    case Some(e) => e in g.edges || Count(g.counts, a.id) >= config.maxK || Count(g.counts, b.id) >= config.maxK
  }

  /** Edges are only added and counts only raised. */
  ghost predicate Extends(g: Generated, r: Generated) {
    && (forall e :: e in g.edges ==> e in r.edges)
    && (forall id: ClaimHash :: Count(g.counts, id) <= Count(r.counts, id))
  }

  lemma PairExtends(config: Config, a: Claim, b: Claim, g: Generated)
    requires a.embedding.Some? && b.embedding.Some?
    ensures Extends(g, AddPair(config, a, b, g)) && Served(config, a, b, AddPair(config, a, b, g))
  {
  }

  lemma PairCounted(config: Config, a: Claim, b: Claim, g: Generated)
    requires a.embedding.Some? && b.embedding.Some? && Counted(g)
    ensures Counted(AddPair(config, a, b, g))
  {
    var r := AddPair(config, a, b, g);
    if r != g {
      forall id: ClaimHash
        ensures Degree(r.edges, id) == Count(r.counts, id)
      {
        assert Degree(g.edges, id) == Count(g.counts, id);
        assert r.edges[..|r.edges| - 1] == g.edges;
      }
    }
  }

  lemma PairCalledFor(config: Config, s: seq<Claim>, i: nat, j: nat, g: Generated)
    requires Embedded(s) && i < j < |s| && AllCalledFor(config, s, g)
    ensures AllCalledFor(config, s, AddPair(config, s[i], s[j], g))
  {
    forall e | e in AddPair(config, s[i], s[j], g).edges
      ensures CalledFor(config, s, e)
    {
      if e !in g.edges { assert CalledBy(config, s, i, j, e); }
    }
  }

  lemma StaysServed(config: Config, a: Claim, b: Claim, g: Generated, r: Generated)
    requires a.embedding.Some? && b.embedding.Some? && Served(config, a, b, g) && Extends(g, r)
    ensures Served(config, a, b, r)
  {
  }

  lemma ExtendsTransitive(g: Generated, h: Generated, r: Generated)
    requires Extends(g, h) && Extends(h, r)
    ensures Extends(g, r)
  {
    forall id: ClaimHash ensures Count(g.counts, id) <= Count(r.counts, id) {
      assert Count(g.counts, id) <= Count(h.counts, id) <= Count(r.counts, id);
    }
  }

  lemma {:induction false} RowExtends(config: Config, s: seq<Claim>, i: nat, j: nat, g: Generated)
    requires Embedded(s) && i < j && i < |s|
    ensures Extends(g, Row(config, s, i, j, g))
    decreases |s| - j
  {
    if j < |s| {
      var next := AddPair(config, s[i], s[j], g);
      PairExtends(config, s[i], s[j], g);
      RowExtends(config, s, i, j + 1, next);
      ExtendsTransitive(g, next, Row(config, s, i, j + 1, next));
    }
  }

  lemma {:induction false} RowsExtend(config: Config, s: seq<Claim>, i: nat, g: Generated)
    requires Embedded(s)
    ensures Extends(g, Rows(config, s, i, g))
    decreases |s| - i
  {
    if i < |s| {
      var next := Row(config, s, i, i + 1, g);
      RowExtends(config, s, i, i + 1, g);
      RowsExtend(config, s, i + 1, next);
      ExtendsTransitive(g, next, Rows(config, s, i + 1, next));
    }
  }

  lemma {:induction false} RowServes(config: Config, s: seq<Claim>, i: nat, j: nat, g: Generated, b: nat)
    requires Embedded(s) && i < j <= b < |s|
    ensures Served(config, s[i], s[b], Row(config, s, i, j, g))
    decreases |s| - j
  {
    var next := AddPair(config, s[i], s[j], g);
    if j == b {
      PairExtends(config, s[i], s[j], g);
      RowExtends(config, s, i, j + 1, next);
      StaysServed(config, s[i], s[j], next, Row(config, s, i, j + 1, next));
    } else {
      RowServes(config, s, i, j + 1, next, b);
    }
  }

  /** Every pair of participants is served by the end. */
  lemma {:induction false} RowsServe(config: Config, s: seq<Claim>, i: nat, g: Generated, a: nat, b: nat)
    requires Embedded(s) && i <= a < b < |s|
    ensures Served(config, s[a], s[b], Rows(config, s, i, g))
    decreases |s| - i
  {
    var next := Row(config, s, i, i + 1, g);
    if i == a {
      RowServes(config, s, i, i + 1, g, b);
      RowsExtend(config, s, i + 1, next);
      StaysServed(config, s[a], s[b], next, Rows(config, s, i + 1, next));
    } else {
      RowsServe(config, s, i + 1, next, a, b);
    }
  }

  lemma {:induction false} RowCalledFor(config: Config, s: seq<Claim>, i: nat, j: nat, g: Generated)
    requires Embedded(s) && i < j <= |s| && AllCalledFor(config, s, g)
    ensures AllCalledFor(config, s, Row(config, s, i, j, g))
    decreases |s| - j
  {
    if j < |s| {
      PairCalledFor(config, s, i, j, g);
      RowCalledFor(config, s, i, j + 1, AddPair(config, s[i], s[j], g));
    }
  }

  lemma {:induction false} RowsCalledFor(config: Config, s: seq<Claim>, i: nat, g: Generated)
    requires Embedded(s) && AllCalledFor(config, s, g)
    ensures AllCalledFor(config, s, Rows(config, s, i, g))
    decreases |s| - i
  {
    if i < |s| {
      RowCalledFor(config, s, i, i + 1, g);
      RowsCalledFor(config, s, i + 1, Row(config, s, i, i + 1, g));
    }
  }

  lemma {:induction false} RowCounted(config: Config, s: seq<Claim>, i: nat, j: nat, g: Generated)
    requires Embedded(s) && i < j <= |s| && Counted(g)
    ensures Counted(Row(config, s, i, j, g))
    decreases |s| - j
  {
    if j < |s| {
      PairCounted(config, s[i], s[j], g);
      RowCounted(config, s, i, j + 1, AddPair(config, s[i], s[j], g));
    }
  }

  lemma {:induction false} RowsCounted(config: Config, s: seq<Claim>, i: nat, g: Generated)
    requires Embedded(s) && Counted(g)
    ensures Counted(Rows(config, s, i, g))
    decreases |s| - i
  {
    if i < |s| {
      RowCounted(config, s, i, i + 1, g);
      RowsCounted(config, s, i + 1, Row(config, s, i, i + 1, g));
    }
  }

  // ---- the state in front of each pair ----

  /** The state in which row `i` starts. */
  function RowStart(config: Config, s: seq<Claim>, i: nat): Generated
    requires Embedded(s) && i <= |s|
    decreases i, 0
  {
    if i == 0 then NothingGenerated else Before(config, s, i - 1, |s|)
  }

  /** The state in which row `i` reaches position `j`. */
  function Before(config: Config, s: seq<Claim>, i: nat, j: nat): Generated
    requires Embedded(s) && i < j <= |s|
    decreases i, j
  {
    if j == i + 1 then RowStart(config, s, i) else AddPair(config, s[i], s[j - 1], Before(config, s, i, j - 1))
  }

  lemma RowNext(config: Config, s: seq<Claim>, i: nat, j: nat)
    requires Embedded(s) && i < j < |s|
    ensures Row(config, s, i, j, Before(config, s, i, j)) == Row(config, s, i, j + 1, Before(config, s, i, j + 1))
  {
    var g, next := Before(config, s, i, j), Before(config, s, i, j + 1);
    assert next == AddPair(config, s[i], s[j], g);
    assert Row(config, s, i, j, g) == Row(config, s, i, j + 1, AddPair(config, s[i], s[j], g));
  }

  lemma {:induction false} RestOfRow(config: Config, s: seq<Claim>, i: nat, j: nat)
    requires Embedded(s) && i < j <= |s|
    ensures Row(config, s, i, j, Before(config, s, i, j)) == Before(config, s, i, |s|)
    decreases |s| - j
  {
    if j < |s| {
      RowNext(config, s, i, j);
      RestOfRow(config, s, i, j + 1);
    }
  }

  lemma {:induction false} RestOfRows(config: Config, s: seq<Claim>, i: nat)
    requires Embedded(s) && i <= |s|
    ensures Rows(config, s, i, RowStart(config, s, i)) == RowStart(config, s, |s|)
    decreases |s| - i
  {
    if i < |s| {
      RestOfRow(config, s, i, i + 1);
      RestOfRows(config, s, i + 1);
    }
  }

  lemma GenerateIs(config: Config, claims: seq<Claim>)
    ensures Embedded(Participants(claims))
    ensures Generate(config, claims) == RowStart(config, Participants(claims), |Participants(claims)|).edges
    ensures Counted(RowStart(config, Participants(claims), |Participants(claims)|))
  {
    ParticipantsAre(claims);
    RestOfRows(config, Participants(claims), 0);
    RowsCounted(config, Participants(claims), 0, NothingGenerated);
  }

  lemma RowStartExtendsToEnd(config: Config, s: seq<Claim>, i: nat)
    requires Embedded(s) && i <= |s|
    ensures Extends(RowStart(config, s, i), RowStart(config, s, |s|))
  {
    RestOfRows(config, s, i);
    RowsExtend(config, s, i, RowStart(config, s, i));
  }

  lemma BeforeExtendsToEnd(config: Config, s: seq<Claim>, i: nat, j: nat)
    requires Embedded(s) && i < j <= |s|
    ensures Extends(Before(config, s, i, j), RowStart(config, s, |s|))
  {
    RestOfRow(config, s, i, j);
    RowExtends(config, s, i, j, Before(config, s, i, j));
    RowStartExtendsToEnd(config, s, i + 1);
    ExtendsTransitive(Before(config, s, i, j), RowStart(config, s, i + 1), RowStart(config, s, |s|));
  }

  lemma {:induction false} RowStartExtends(config: Config, s: seq<Claim>, i: nat, j: nat)
    requires Embedded(s) && i < j <= |s|
    ensures Extends(RowStart(config, s, i), Before(config, s, i, j))
    decreases j
  {
    if j > i + 1 {
      RowStartExtends(config, s, i, j - 1);
      PairExtends(config, s[i], s[j - 1], Before(config, s, i, j - 1));
      ExtendsTransitive(RowStart(config, s, i), Before(config, s, i, j - 1), Before(config, s, i, j));
    }
  }

  // ---- degrees ----

  /** Row `i` pairs two claims of this id at `j`, they call for an edge, and the id is one short of the cap. */
  ghost predicate OverAt(config: Config, s: seq<Claim>, i: nat, j: nat, id: ClaimHash)
    requires Embedded(s)
  {
    i < j < |s| && s[i].id == id == s[j].id && EdgeFor(config, s[i], s[j]).Some?
    && Count(Before(config, s, i, j).counts, id) + 1 == config.maxK
  }

  /** That happens in front of position `j` of row `i`. */
  ghost predicate OverBefore(config: Config, s: seq<Claim>, i: nat, j: nat, id: ClaimHash)
    requires Embedded(s)
  {
    exists i': nat, j': nat :: OverAt(config, s, i', j', id) && (i' < i || (i' == i && j' < j))
  }

  lemma PairOver(config: Config, a: Claim, b: Claim, g: Generated, id: ClaimHash)
    requires a.embedding.Some? && b.embedding.Some? && Count(g.counts, id) <= config.maxK + 1
    ensures Count(AddPair(config, a, b, g).counts, id) <= config.maxK + 1
    ensures Count(AddPair(config, a, b, g).counts, id) > config.maxK <==>
      Count(g.counts, id) > config.maxK ||
      (a.id == id == b.id && EdgeFor(config, a, b).Some? && Count(g.counts, id) + 1 == config.maxK)
  {
  }

  lemma OverNext(config: Config, s: seq<Claim>, i: nat, j: nat, id: ClaimHash)
    requires Embedded(s)
    ensures OverBefore(config, s, i, j + 1, id) <==> OverBefore(config, s, i, j, id) || OverAt(config, s, i, j, id)
  {
    if OverAt(config, s, i, j, id) { assert OverBefore(config, s, i, j + 1, id); }
  }

  lemma OverRow(config: Config, s: seq<Claim>, i: nat, id: ClaimHash)
    requires Embedded(s) && i > 0
    ensures OverBefore(config, s, i, i + 1, id) <==> OverBefore(config, s, i - 1, |s|, id)
  {
  }

  /** How often `id` was counted when row `i` reaches `j`, relative to the cap. */
  ghost predicate OverIff(config: Config, s: seq<Claim>, i: nat, j: nat, id: ClaimHash)
    requires Embedded(s) && i < j <= |s|
  {
    var count := Count(Before(config, s, i, j).counts, id);
    count <= config.maxK + 1 && (count > config.maxK <==> OverBefore(config, s, i, j, id))
  }

  lemma CountOverStep(config: Config, s: seq<Claim>, i: nat, j: nat, id: ClaimHash)
    requires Embedded(s) && i < j < |s| && OverIff(config, s, i, j, id)
    ensures OverIff(config, s, i, j + 1, id)
  {
    PairOver(config, s[i], s[j], Before(config, s, i, j), id);
    OverNext(config, s, i, j, id);
  }

  lemma {:induction false} CountOver(config: Config, s: seq<Claim>, i: nat, j: nat, id: ClaimHash)
    requires Embedded(s) && i < j <= |s|
    ensures OverIff(config, s, i, j, id)
    decreases i, j
  {
    if j > i + 1 {
      CountOver(config, s, i, j - 1, id);
      CountOverStep(config, s, i, j - 1, id);
    } else if i > 0 {
      CountOver(config, s, i - 1, |s|, id);
      CountOverRow(config, s, i, id);
    } else {
      assert !OverBefore(config, s, 0, 1, id);
    }
  }

  lemma CountOverRow(config: Config, s: seq<Claim>, i: nat, id: ClaimHash)
    requires Embedded(s) && 0 < i < |s| && OverIff(config, s, i - 1, |s|, id)
    ensures OverIff(config, s, i, i + 1, id)
  {
    OverRow(config, s, i, id);
  }

  /** No two positions of the claim array carry the same id. */
  ghost predicate DistinctIds(claims: seq<Claim>) {
    forall i, j :: 0 <= i < j < |claims| ==> claims[i].id != claims[j].id
  }

  lemma {:induction false} FilterKeepsDistinct(claims: seq<Claim>)
    requires DistinctIds(claims)
    ensures DistinctIds(FilterMap(claims, PickEmbedded()))
    ensures forall c :: c in FilterMap(claims, PickEmbedded()) ==> c in claims
  {
    if claims != [] {
      var a, z := claims[..|claims| - 1], claims[|claims| - 1];
      FilterKeepsDistinct(a);
      var s := FilterMap(a, PickEmbedded());
      assert forall i :: 0 <= i < |s| ==> s[i] in s;
    }
  }

  lemma {:induction false} SortDistinct(s: seq<Claim>)
    requires DistinctIds(s)
    ensures IdStrict(SortById(s))
  {
    if s != [] {
      var rest := SortById(s[1..]);
      SortDistinct(s[1..]);
      SortByIdSorted(s[1..]);
      BagMembers(s[1..], rest);
      InsertFresh(s[0], rest);
    }
  }

  lemma {:induction false} InsertFresh(x: Claim, s: seq<Claim>)
    requires IdStrict(s) && forall c :: c in s ==> c.id != x.id
    ensures IdStrict(InsertById(x, s))
    ensures forall y :: y in InsertById(x, s) <==> y == x || y in s
  {
    if s != [] {
      assert s == [s[0]] + s[1..];
      if x.id > s[0].id {
        InsertFresh(x, s[1..]);
        var rest := InsertById(x, s[1..]);
        assert forall i :: 0 <= i < |rest| ==> rest[i] in rest;
        assert forall c :: c in s[1..] ==> s[0].id < c.id;
      }
    }
  }

  lemma ParticipantsStrict(claims: seq<Claim>)
    requires DistinctIds(claims)
    ensures IdStrict(Participants(claims))
  {
    FilterKeepsDistinct(claims);
    SortDistinct(FilterMap(claims, PickEmbedded()));
  }

  /** Some pair of claims with this id takes it past the cap. */
  ghost predicate OverCap(config: Config, s: seq<Claim>, id: ClaimHash)
    requires Embedded(s)
  {
    exists i: nat, j: nat :: OverAt(config, s, i, j, id)
  }

  /**
   * No claim ends up with more than `maxK + 1` edge ends. The cap itself is passed exactly when a claim is paired
   * with a repetition of itself one short of it, which never happens if ids are distinct.
   */
  lemma DegreesCapped(config: Config, claims: seq<Claim>, id: ClaimHash)
    ensures Embedded(Participants(claims))
    ensures Degree(Generate(config, claims), id) <= config.maxK + 1
    ensures Degree(Generate(config, claims), id) > config.maxK <==> OverCap(config, Participants(claims), id)
    ensures DistinctIds(claims) ==> Degree(Generate(config, claims), id) <= config.maxK
  {
    GenerateIs(config, claims);
    CountOverAtEnd(config, Participants(claims), id);
    var r := RowStart(config, Participants(claims), |Participants(claims)|);
    assert Degree(r.edges, id) == Count(r.counts, id);
    if DistinctIds(claims) {
      ParticipantsStrict(claims);
      StrictStaysUnder(config, Participants(claims), id);
    }
  }

  lemma CountOverAtEnd(config: Config, s: seq<Claim>, id: ClaimHash)
    requires Embedded(s)
    ensures Count(RowStart(config, s, |s|).counts, id) <= config.maxK + 1
    ensures Count(RowStart(config, s, |s|).counts, id) > config.maxK <==> OverCap(config, s, id)
  {
    if s != [] {
      var n: nat := |s| - 1;
      CountOver(config, s, n, |s|, id);
      forall i: nat, j: nat | OverAt(config, s, i, j, id)
        ensures OverBefore(config, s, n, |s|, id)
      {
      }
    }
  }

  lemma StrictStaysUnder(config: Config, s: seq<Claim>, id: ClaimHash)
    requires Embedded(s) && IdStrict(s)
    ensures !OverCap(config, s, id)
  {
  }

  /** A pair of participants that calls for an edge goes without only if one of its claims ends at the cap. */
  lemma SkippedOnlyAtCap(config: Config, claims: seq<Claim>, i: nat, j: nat)
    requires i < j < |Participants(claims)|
    ensures Embedded(Participants(claims))
    ensures var s, edges := Participants(claims), Generate(config, claims);
            match EdgeFor(config, s[i], s[j])
            case None => true
            case Some(e) => e in edges || Degree(edges, s[i].id) >= config.maxK || Degree(edges, s[j].id) >= config.maxK
  {
    var s := Participants(claims);
    GenerateIs(config, claims);
    RestOfRows(config, s, 0);
    RowsServe(config, s, 0, NothingGenerated, i, j);
    var r := RowStart(config, s, |s|);
    assert Degree(r.edges, s[i].id) == Count(r.counts, s[i].id);
    assert Degree(r.edges, s[j].id) == Count(r.counts, s[j].id);
  }

  /** Every generated edge is called for by its pair, joins claims of the set, and never points down in id order. */
  lemma GeneratedAscend(config: Config, claims: seq<Claim>, e: RawEdge)
    requires e in Generate(config, claims)
    ensures Embedded(Participants(claims)) && CalledFor(config, Participants(claims), e)
    ensures HasId(claims, e.fromHash) && HasId(claims, e.toHash) && e.fromHash <= e.toHash
    ensures e.relation.Supports? || e.relation.Contradicts?
    ensures DistinctIds(claims) ==> e.fromHash < e.toHash
  {
    var s := Participants(claims);
    ParticipantsAre(claims);
    RowsCalledFor(config, s, 0, NothingGenerated);
    assert CalledFor(config, s, e);
    var i: nat, j: nat :| CalledBy(config, s, i, j, e);
    assert s[i] in claims && s[j] in claims;
    if DistinctIds(claims) { ParticipantsStrict(claims); }
  }

  /** The same claims in another order give the same edges in the same order. */
  lemma GenerateIgnoresOrder(config: Config, claims: seq<Claim>, claims': seq<Claim>)
    requires multiset(claims) == multiset(claims') && IdsIdentify(claims)
    ensures Generate(config, claims) == Generate(config, claims')
  {
    var s, s' := FilterMap(claims, PickEmbedded()), FilterMap(claims', PickEmbedded());
    FilterMapPermuted(claims, claims', PickEmbedded());
    ParticipantsAre(claims);
    FilterMapOrigin(claims, PickEmbedded());
    assert IdsIdentify(s);
    SortByIdPermuted(s, s');
  }

  // ---- the graph built from generated edges ----

  /** Walking round a support cycle, keys cannot only grow. */
  lemma {:induction false} KeysClimb(edges: seq<Edge>, key: nat -> nat, c: seq<nat>, k: nat)
    requires SupportCycle(edges, c) && k < |c|
    requires forall e :: e in edges && Carries(e) ==> key(e.from) <= key(e.to)
    ensures key(c[0]) <= key(c[k])
  {
    if k > 0 {
      KeysClimb(edges, key, c, k - 1);
      assert Supported(edges, c[k - 1], c[k - 1 + 1]);
    }
  }

  /** Hence some edge of the cycle leaves its key unchanged. */
  lemma CycleHasLevelEdge(edges: seq<Edge>, key: nat -> nat, c: seq<nat>)
    requires SupportCycle(edges, c)
    requires forall e :: e in edges && Carries(e) ==> key(e.from) <= key(e.to)
    ensures exists e :: e in edges && Carries(e) && key(e.from) == key(e.to)
  {
    KeysClimb(edges, key, c, |c| - 1);
    var e :| e in edges && Carries(e) && e.from == c[|c| - 1] && e.to == c[0];
  }

  lemma CutHasLevelEdge(edges: seq<Edge>, key: nat -> nat)
    requires CutPairs(edges) != {}
    requires forall e :: e in edges && Carries(e) ==> key(e.from) <= key(e.to)
    ensures exists e :: e in edges && Carries(e) && key(e.from) == key(e.to)
  {
    CycleCutTheorem(edges);
    var c :| SupportCycle(edges, c);
    CycleHasLevelEdge(edges, key, c);
  }

  function IdAt(claims: seq<Claim>): nat -> nat {
    (i: nat) => if i < |claims| then claims[i].id else 0
  }

  /** The graph edges of generated raw edges run along ascending ids, each from the last claims of its ids. */
  lemma BuiltEdgesAscend(config: Config, claims: seq<Claim>, ids: map<ClaimHash, nat>, prints: map<Fingerprint, nat>,
                         e: Edge)
    requires IdMapFor(claims, ids)
    requires e in FilterMap(Generate(config, claims), ResolveEdge(ids, prints))
    ensures exists raw :: raw in Generate(config, claims) && raw.relation == e.relation
              && ResolvesId(claims, raw.fromHash, e.from) && ResolvesId(claims, raw.toHash, e.to)
              && raw.fromHash <= raw.toHash
  {
    FilterMapOrigin(Generate(config, claims), ResolveEdge(ids, prints));
    var raw :| raw in Generate(config, claims) && ResolveEdge(ids, prints)(raw) == Some(e);
    GeneratedAscend(config, claims, raw);
  }

  /** The edges of the graph built from the generated edges. */
  function Built(config: Config, claims: seq<Claim>, ids: map<ClaimHash, nat>, prints: map<Fingerprint,
                 nat>): seq<Edge> {
    FilterMap(Generate(config, claims), ResolveEdge(ids, prints))
  }

  /** The built graph has a support cycle exactly when some generated support edge joins an id to itself. */
  lemma CycleIffSelfEdge(config: Config, claims: seq<Claim>, ids: map<ClaimHash, nat>, prints: map<Fingerprint, nat>)
    requires IdMapFor(claims, ids)
    ensures CutPairs(Built(config, claims, ids, prints)) == {} <==>
            forall raw :: raw in Generate(config, claims) && raw.relation.Supports? ==> raw.fromHash != raw.toHash
  {
    var raws := Generate(config, claims);
    CycleCutTheorem(Built(config, claims, ids, prints));
    if CutPairs(Built(config, claims, ids, prints)) != {} {
      LevelRawEdge(config, claims, ids, prints);
    }
    if raw :| raw in raws && raw.relation.Supports? && raw.fromHash == raw.toHash {
      RawLoop(config, claims, ids, prints, raw);
    }
  }

  lemma LevelRawEdge(config: Config, claims: seq<Claim>, ids: map<ClaimHash, nat>, prints: map<Fingerprint, nat>)
    requires IdMapFor(claims, ids)
    requires CutPairs(Built(config, claims, ids, prints)) != {}
    ensures exists raw :: raw in Generate(config, claims) && raw.relation.Supports? && raw.fromHash == raw.toHash
  {
    var edges := Built(config, claims, ids, prints);
    forall e | e in edges && Carries(e)
      ensures IdAt(claims)(e.from) <= IdAt(claims)(e.to)
    {
      BuiltEdgesAscend(config, claims, ids, prints, e);
    }
    CutHasLevelEdge(edges, IdAt(claims));
    var e :| e in edges && Carries(e) && IdAt(claims)(e.from) == IdAt(claims)(e.to);
    BuiltEdgesAscend(config, claims, ids, prints, e);
    var raw :| raw in Generate(config, claims) && raw.relation == e.relation
              && ResolvesId(claims, raw.fromHash, e.from) && ResolvesId(claims, raw.toHash, e.to);
    GeneratedAscend(config, claims, raw);
  }

  lemma RawLoop(config: Config, claims: seq<Claim>, ids: map<ClaimHash, nat>, prints: map<Fingerprint, nat>,
                raw: RawEdge)
    requires IdMapFor(claims, ids)
    requires raw in Generate(config, claims) && raw.relation.Supports? && raw.fromHash == raw.toHash
    ensures CutPairs(Built(config, claims, ids, prints)) != {}
  {
    var raws := Generate(config, claims);
    var edges := Built(config, claims, ids, prints);
    FilterMapOrigin(raws, ResolveEdge(ids, prints));
    GeneratedAscend(config, claims, raw);
    var i := ids[raw.fromHash];
    var e := Edge(i, i, raw.relation, raw.strength);
    assert ResolveEdge(ids, prints)(raw) == Some(e);
    assert e in edges && Supported(edges, i, i);
    assert SupportCycle(edges, [i]);
    CycleCutTheorem(edges);
  }

  // ---- which claim arrays give cycles ----

  /** The claim at `i` is repeated right behind, and row `i` starts with it below the cap. */
  predicate LoopsAt(config: Config, s: seq<Claim>, i: nat)
    requires Embedded(s)
  {
    i + 1 < |s| && s[i].id == s[i + 1].id && Count(RowStart(config, s, i).counts, s[i].id) < config.maxK
  }

  ghost predicate SelfEdge(e: RawEdge) {
    e.relation.Supports? && e.fromHash == e.toHash
  }

  ghost predicate Loopless(g: Generated) {
    forall e :: e in g.edges ==> !SelfEdge(e)
  }

  /** A claim supports its own repetition. */
  lemma RepetitionSupports(config: Config, c: Claim)
    requires c.embedding.Some?
    ensures EdgeFor(config, c, c).Some? && SelfEdge(EdgeFor(config, c, c).value)
  {
    HammingZero(c.embedding.value);
  }

  lemma {:induction false} LooplessBefore(config: Config, s: seq<Claim>, i: nat, j: nat)
    requires Embedded(s) && IdAscending(s) && i < j <= |s|
    requires forall i': nat :: !LoopsAt(config, s, i')
    ensures Loopless(Before(config, s, i, j))
    decreases i, j
  {
    if j > i + 1 {
      LooplessBefore(config, s, i, j - 1);
      if s[i].id == s[j - 1].id {
        assert s[i].id <= s[i + 1].id <= s[j - 1].id;
        assert !LoopsAt(config, s, i);
        RowStartExtends(config, s, i, j - 1);
        assert Count(Before(config, s, i, j - 1).counts, s[i].id) >= config.maxK;
      }
    } else if i > 0 {
      LooplessBefore(config, s, i - 1, |s|);
    }
  }

  lemma LoopAppears(config: Config, s: seq<Claim>, i: nat)
    requires Embedded(s) && LoopsAt(config, s, i) && s[i] == s[i + 1]
    ensures !Loopless(RowStart(config, s, |s|))
  {
    RepetitionSupports(config, s[i]);
    var e := EdgeFor(config, s[i], s[i + 1]).value;
    assert Before(config, s, i, i + 1) == RowStart(config, s, i);
    assert e in Before(config, s, i, i + 2).edges;
    BeforeExtendsToEnd(config, s, i, i + 2);
  }

  /**
   * The graph built from generated edges is cut nowhere exactly if no repeated claim is below the cap when its row
   * starts.
   */
  lemma BuiltGraphAcyclicIff(config: Config, claims: seq<Claim>, ids: map<ClaimHash, nat>, prints: map<Fingerprint,
                             nat>)
    requires IdMapFor(claims, ids) && IdsIdentify(claims)
    ensures Embedded(Participants(claims))
    ensures CutPairs(Built(config, claims, ids, prints)) == {} <==>
            forall i: nat :: !LoopsAt(config, Participants(claims), i)
  {
    var s := Participants(claims);
    ParticipantsAre(claims);
    GenerateIs(config, claims);
    CycleIffSelfEdge(config, claims, ids, prints);
    assert Loopless(RowStart(config, s, |s|)) <==> CutPairs(Built(config, claims, ids, prints)) == {};
    LooplessIff(config, s);
  }

  lemma LooplessIff(config: Config, s: seq<Claim>)
    requires Embedded(s) && IdAscending(s) && IdsIdentify(s)
    ensures Loopless(RowStart(config, s, |s|)) <==> forall i: nat :: !LoopsAt(config, s, i)
  {
    if forall i: nat :: !LoopsAt(config, s, i) {
      if s != [] { LooplessBefore(config, s, |s| - 1, |s|); }
    }
    if i: nat :| LoopsAt(config, s, i) {
      assert s[i] in s && s[i + 1] in s;
      LoopAppears(config, s, i);
    }
  }

  /** No embedded claim occurs twice. */
  ghost predicate Unrepeated(claims: seq<Claim>) {
    forall c :: c in claims && c.embedding.Some? ==> multiset(claims)[c] == 1
  }

  lemma {:induction false} ParticipantBag(claims: seq<Claim>, c: Claim)
    requires c.embedding.Some?
    ensures multiset(FilterMap(claims, PickEmbedded()))[c] == multiset(claims)[c]
  {
    if claims != [] {
      var a, z := claims[..|claims| - 1], claims[|claims| - 1];
      ParticipantBag(a, c);
      assert claims == a + [z];
    }
  }

  lemma {:induction false} TwiceInBag(s: seq<Claim>, c: Claim) returns (p: nat, q: nat)
    requires multiset(s)[c] >= 2
    ensures p < q < |s| && s[p] == s[q] == c
  {
    var n := |s| - 1;
    assert s == s[..n] + [s[n]];
    if s[n] == c {
      assert c in s[..n];
      p, q :| 0 <= p < n && s[..n][p] == c && q == n;
    } else {
      p, q := TwiceInBag(s[..n], c);
    }
  }

  /** Some id stands twice, next to each other. */
  ghost predicate Adjacent(s: seq<Claim>) {
    exists i :: 0 <= i < |s| - 1 && s[i].id == s[i + 1].id
  }

  lemma AdjacentTwice(s: seq<Claim>)
    requires IdsIdentify(s) && Adjacent(s)
    ensures exists c :: c in s && multiset(s)[c] >= 2
  {
    var i :| 0 <= i < |s| - 1 && s[i].id == s[i + 1].id;
    assert s[i] in s && s[i + 1] in s;
    assert s == s[..i] + [s[i]] + [s[i + 1]] + s[i + 2..];
    assert multiset(s)[s[i]] >= 2;
  }

  lemma TwiceAdjacent(s: seq<Claim>, c: Claim)
    requires IdAscending(s) && multiset(s)[c] >= 2
    ensures Adjacent(s)
  {
    var p, q := TwiceInBag(s, c);
    assert s[p].id <= s[p + 1].id <= s[q].id;
  }

  lemma ParticipantsBag(claims: seq<Claim>, c: Claim)
    requires c.embedding.Some?
    ensures multiset(Participants(claims))[c] == multiset(claims)[c]
  {
    SortByIdSorted(FilterMap(claims, PickEmbedded()));
    ParticipantBag(claims, c);
  }

  /** Participants repeat an id next to each other exactly if an embedded claim is repeated. */
  lemma RepeatedIff(claims: seq<Claim>)
    requires IdsIdentify(claims)
    ensures Unrepeated(claims) <==> !Adjacent(Participants(claims))
  {
    var s := Participants(claims);
    ParticipantsAre(claims);
    if Adjacent(s) {
      AdjacentTwice(s);
      var c :| c in s && multiset(s)[c] >= 2;
      ParticipantsBag(claims, c);
    }
    if c :| c in claims && c.embedding.Some? && multiset(claims)[c] != 1 {
      ParticipantsBag(claims, c);
      TwiceAdjacent(s, c);
    }
  }

  /** The number of pairs in front of position `j` of row `i`. */
  function Steps(n: nat, i: nat, j: nat): nat
    requires i < j <= n
    decreases i, j
  {
    if j > i + 1 then Steps(n, i, j - 1) + 1 else if i > 0 then Steps(n, i - 1, n) else 0
  }

  lemma {:induction false} CountWithinSteps(config: Config, s: seq<Claim>, i: nat, j: nat, id: ClaimHash)
    requires Embedded(s) && i < j <= |s|
    ensures Count(Before(config, s, i, j).counts, id) <= 2 * Steps(|s|, i, j)
    decreases i, j
  {
    if j > i + 1 {
      CountWithinSteps(config, s, i, j - 1, id);
    } else if i > 0 {
      CountWithinSteps(config, s, i - 1, |s|, id);
    }
  }

  /** Built graphs are acyclic under every cap if and only if no embedded claim occurs twice. */
  lemma AcyclicUnderEveryCapIff(config: Config, claims: seq<Claim>, ids: map<ClaimHash, nat>,
                                prints: map<Fingerprint, nat>)
    requires IdMapFor(claims, ids) && IdsIdentify(claims)
    ensures (forall k: nat :: CutPairs(Built(config.(maxK := k), claims, ids, prints)) == {}) <==> Unrepeated(claims)
  {
    var s := Participants(claims);
    RepeatedIff(claims);
    if Unrepeated(claims) {
      forall k: nat
        ensures CutPairs(Built(config.(maxK := k), claims, ids, prints)) == {}
      {
        BuiltGraphAcyclicIff(config.(maxK := k), claims, ids, prints);
      }
    } else {
      var i: nat :| i < |s| - 1 && s[i].id == s[i + 1].id;
      var k := 2 * Steps(|s|, i, i + 1) + 1;
      BuiltGraphAcyclicIff(config.(maxK := k), claims, ids, prints);
      CountWithinSteps(config.(maxK := k), s, i, i + 1, s[i].id);
      assert LoopsAt(config.(maxK := k), s, i);
    }
  }

  /** With distinct ids the built graph is acyclic: propagation cuts nothing of it. */
  lemma BuiltGraphLosesNothing(config: Config, claims: seq<Claim>, ids: map<ClaimHash, nat>, prints: map<Fingerprint,
                               nat>)
    requires DistinctIds(claims) && IdMapFor(claims, ids)
    ensures CutPairs(Built(config, claims, ids, prints)) == {}
  {
    forall raw | raw in Generate(config, claims)
      ensures raw.fromHash != raw.toHash
    {
      GeneratedAscend(config, claims, raw);
    }
    CycleIffSelfEdge(config, claims, ids, prints);
  }

  /** One claim passed in twice: a self-loop, and two edge ends even where the cap is one. */
  lemma DoubledClaim(config: Config, c: Claim, ids: map<ClaimHash, nat>, prints: map<Fingerprint, nat>)
    requires c.embedding.Some? && config.maxK > 0 && IdMapFor([c, c], ids)
    ensures CutPairs(Built(config, [c, c], ids, prints)) != {}
    ensures Degree(Generate(config, [c, c]), c.id) == 2
  {
    DoubledParticipants(c);
    var s := [c, c];
    GenerateIs(config, s);
    RepetitionSupports(config, c);
    var e := EdgeFor(config, c, c).value;
    assert Before(config, s, 0, 2) == AddPair(config, c, c, NothingGenerated);
    assert RowStart(config, s, 2) == Before(config, s, 1, 2) == RowStart(config, s, 1) == Before(config, s, 0, 2);
    assert RowStart(config, s, 2).counts[c.id] == 2;
    RawLoop(config, s, ids, prints, e);
  }

  lemma DoubledParticipants(c: Claim)
    requires c.embedding.Some?
    ensures Participants([c, c]) == [c, c]
  {
    var pick := PickEmbedded();
    assert [c, c][..1] == [c] && [c][..0] == [];
    assert FilterMap([c], pick) == [c];
    assert FilterMap([c, c], pick) == [c, c];
    assert [c, c][1..] == [c] && [c][1..] == [];
    assert SortById([c]) == [c];
  }
}
