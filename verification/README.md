# AIMP belief and replication model

A Dafny model of the deciding parts of the AIMP node, with proofs about every input, every run and any number of
replicas. It has three parts.

**Belief pipeline** (`aimp_node/src/epistemic.rs`, `aimp_node/src/semantic_topology.rs`). Claims carry milli-log-odds.
A knowledge graph of support and contradiction edges is cut open by a depth-first search, trust flows through what is
left by the fixed-point iteration `t' = t_0 + A t`, arriving support is grouped, ranked and geometrically discounted,
a capped contradiction pass follows, and claims are accepted, rejected or left uncertain.

- `Numeric`, `Bags`: integer arithmetic as the source does it (truncating `Quot`, arithmetic `ShiftRight`, clamping) and
  lemmas on sequences as multisets.
- `LogOddsAggregation` gives the aggregation as functions and as the loops that compute them; `LogOddsLaws`,
  `LogOddsBounds` and `DiscountCeiling` prove its order independence, monotonicity and ceilings, `AggregateExact` what it
  amounts to.
- `Claims`, `Correlation`, `UnionFind`, `CorrelationGrouping`: claims, the meaning of correlation groups, and the
  array-based union-find that computes them.
- `CycleCut`, `SupportGraph`, `KnowledgeGraphs`: the search that cuts support cycles as a function, what it guarantees,
  and the class whose methods run it over the adjacency index.
- `TrustFlow` defines both passes; `FlowIteration` (abstract orbits), `TrustFlowLaws`, `NoAmplification`, `EdgeOrder` and
  `ContradictionSafety` prove what they guarantee; `FlowExact`, `ContradictionExact` and `DecayLaws` how much trust an
  edge passes on, a contradiction takes and age leaves; `TrustPropagation` and `BeliefEngine` are the loops.
- `GraphBuilder`, `AutoEdges`, `ClaimOrder`, `EpochReduction`: building graphs, generating edges, and reducing epochs to
  summaries; `GreedyEdges` and `EpochLaws` say which edges are generated and what a summary holds.

**Merkle-CRDT** (`aimp_node/src/crdt/`). `Dag` has nodes, frontiers, merges, depth and roots; `DagArenas` the slab and
its hash index; `Traversal` the two bounded walks; `CrdtEngine` the engine class with append, merge, collection, delta
sync, recovery and the cached root. `ReplicaSteps` and `Replication` put any number of replicas under every sequence
of appends, imports, deliveries, collections and restarts; `NodeEncoding` has the bytes that are hashed and what
sharing them means; `DeltaSync` composes delta answers and merges, `FleetSync` runs them among any number of replicas.
`Voting` and `DenyList` are the two halves of the quorum tracker as functions of what was observed, `Quorum` the class
that keeps both in place.

**Merkle batches** (`aimp_node/examples/bench_batch_signing.rs`). `MerkleBatch` has roots, proofs, verification and the
batch accumulator.

Where the source updates state step by step, the model has a class or a loop whose contract equates the new state with a
function of the old one, and the main results are lemmas about those functions.

## Modelling decisions

- `i32` log-odds are a subset type and every cast and clamp of the source is written out. `i64` sums are unbounded;
  `SaturationNeverFires` shows that up to 400 000 pieces of evidence they never leave the `i64` range. Basis points
  (strengths, discounts, damping, reputations) are at most 10 000.
- BLAKE3 is a parameter from byte strings to 32-byte values, and `NodeEncoding` says which bytes it is given. Nothing
  assumes that it has no collisions at all: results that need to tell nodes or frontiers apart assume it of the nodes of
  the run or of the two stores at hand (`Apart`, `Agree`, `RootsApart`, `Separates`). Hashes, voters and claim ids are
  naturals, since elsewhere only equality and order of them are used; strings are their UTF-8 bytes.
- The three kinds of group key that the source domain-separates and hashes (cluster anchor, declared cell, origin) are
  codes of what is hashed, with disjoint ranges. The hashed strings have fixed lengths per domain, so they never coincide.
- Iteration over a hash set or hash map takes an arbitrary element at a time, so results hold for every iteration order.
- An embedding is four words of 64 booleans. A vector clock is its entries in key order.
- An edge that is cut is known to the functions by its endpoints; `CyclicEdgeIndices` relates that to edge positions.

## Where the code and its documentation differ

- The reducer trait asks for idempotency (`aimp_node/src/epistemic.rs:1722-1728`). A bucket with one claim is not
  reducible while the same claim twice is: `EpochReduction.RepetitionMatters` says for which claims. From two claims on,
  repetition only changes the count (`EpochReduction.ReduceSameMembers`).
- The depth cap is described as the rank from which the discount factor is effectively zero
  (`aimp_node/src/epistemic.rs:504-506`), and groups as geometrically bounded. Level 1 has no cut-off at that rank, so
  for slowly falling factors the sum of one group grows without bound: `DiscountCeiling.SomeGroupOverCeiling` at 8000
  basis points, with the exact condition in `DiscountCeiling.GroupCeilingIff` and `DiscountCeiling.GroupCeilingUpTo`.
- "No oscillation" holds exactly if no supported node starts above the range that updates are clamped to
  (`TrustFlowLaws.IteratesClimbIff`); `TrustFlowLaws.TrustMayFall` is an instance where it fails. The engine's own
  base trust always meets it (`BeliefEngine.EngineTrustBounded`).
- Epoch reduction is described as bucketing by grid, fingerprint and cell with one summary per bucket of two claims
  (`aimp_node/src/epistemic.rs:1964-1973`). Buckets do not separate fingerprints, so two contents in one bucket block
  it: `EpochReduction.SummaryIff`.
- The content hash is meant to identify a node, but `compute_hash` feeds its fields without lengths or separators
  (`aimp_node/src/crdt/merkle_dag.rs:32-55`). Nodes that differ in where a field ends share a hash under any hash
  function, the first to arrive stays, and replicas can show one root over different stores:
  `NodeEncoding.ReplicasMaySplit`. `NodeEncoding.DeliveryFreeIffNoSharedEncoding` is the exact condition.
- A claim array that repeats a claim can make the edge generator emit a self-loop and pass its cap by one:
  `AutoEdges.DoubledClaim`, with the exact conditions in `AutoEdges.BuiltGraphAcyclicIff`,
  `AutoEdges.AcyclicUnderEveryCapIff` and `AutoEdges.DegreesCapped`.
- Equivocation is described as two nodes from the same origin (`aimp_node/src/crdt/consensus.rs:53-57`), but the check
  looks only at clock entries, which other origins' nodes carry too. `DenyList.HonestOriginDenied` is an instance of an
  honest origin denied, `DenyList.DenialsFairIff` the exact condition.
- Equivocation detection returns at the first conflict and so can skip later clock entries for good:
  `DenyList.EarlyReturnLosesClash` is an instance, `DenyList.CompleteOnEveryRunIff` the exact condition on the nodes, and
  `DenyList.CompleteIffNothingLost` and `DenyList.ExactStep` those on one run and on one call.
- The batch-signing notes call a signed root equivalent to signing each mutation. The root binds a batch only together
  with its length: `MerkleBatch.RootBindsIff`. The verifier also accepts inner nodes: `MerkleBatch.AcceptedIff`.

## Model

| member | source | states |
|---|---|---|
| LogOddsAggregation.ComputeDiscountFactor | aimp_node/src/epistemic.rs:567-573 | the loop computes the integer decay of the rank, frozen from depth 30 on |
| LogOddsAggregation.CollectGroups | aimp_node/src/epistemic.rs:276-290 | the accumulating map holds, for every group key, exactly that group's members in order and whether all are assessed, and keys come out ascending |
| LogOddsAggregation.AggregateHierarchical | aimp_node/src/epistemic.rs:267-339 | the accumulator loops compute the two-level aggregate: assessed totals in full, unassessed totals ranked, discounted and cut at the depth cap, then clamped to the safe range |
| LogOddsLaws.AggregateIgnoresOrder | aimp_node/src/epistemic.rs:295-338 | any permutation of signed evidence with distinguishing ids has the same aggregate |
| LogOddsLaws.TiedEvidenceDependsOnOrder | aimp_node/src/epistemic.rs:295-303 | with two equally strong pieces of opposite sign under one id the result does depend on order, so the id tie-break is needed |
| LogOddsBounds.RankSortMonotone | aimp_node/src/epistemic.rs:295-298 | pointwise larger weights give pointwise larger sorted sequences although ranks permute |
| LogOddsBounds.AggregateMonotone | aimp_node/src/epistemic.rs:295-338 | on supporting evidence the aggregate is non-negative and monotone in every weight |
| LogOddsBounds.GroupsPartition | aimp_node/src/epistemic.rs:276-290 | sums over groups add up to the sum over all evidence: grouping loses and duplicates nothing |
| LogOddsBounds.AggregateAtMostSum | aimp_node/src/epistemic.rs:295-338 | supporting evidence never aggregates to more than the plain sum of its weights |
| DiscountCeiling.GeometricSum | aimp_node/src/epistemic.rs:567-573 | up to the depth cap, (10000 - d) times the sum of the factors is at most 10^8 |
| DiscountCeiling.GroupCeilingIff | aimp_node/src/epistemic.rs:295-309 | the ceiling 1/(1-d) of one group holds for groups of every size if and only if the factor has reached zero by the depth cap |
| DiscountCeiling.GroupCeilingUpTo | aimp_node/src/epistemic.rs:295-309 | that ceiling holds for groups of every size exactly for discounts up to 7564 basis points |
| DiscountCeiling.SomeGroupOverCeiling | aimp_node/src/epistemic.rs:295-309 | at 8000 basis points some group goes over it |
| DiscountCeiling.UnassessedCeiling | aimp_node/src/epistemic.rs:328-336 | with the shipped 3000 and 8000 bps, unassessed groups of any number and size weigh at most 7.142 times the strongest piece |
| DiscountCeiling.AggregateCeiling | aimp_node/tests/insider_asymmetry.rs:1498-1561 | if no group is assessed the whole aggregate stays under 7.142 times the strongest piece |
| DiscountCeiling.SaturationNeverFires | aimp_node/src/epistemic.rs:299-336 | for up to 400 000 pieces no partial sum of either level, no running total and no scaled group total leaves the `i64` range |
| AggregateExact.TwoInGroupAggregate | aimp_node/src/epistemic.rs:295-309 | of two correlated pieces the stronger counts in full and the weaker times the discount |
| AggregateExact.EqualGroupAggregate | aimp_node/src/epistemic.rs:295-309 | correlated pieces of weight 10 000 amount to the sum of the factors of all their ranks, beyond the depth cap too |
| AggregateExact.SolidAggregate | aimp_node/src/epistemic.rs:304-306 | assessed pieces of different groups amount to their plain sum, clamped |
| AggregateExact.TwoLooseAggregate | aimp_node/src/epistemic.rs:328-336 | of two unassessed pieces of different groups the stronger counts in full and the weaker times the unassessed discount |
| AggregateExact.EqualLooseAggregate | aimp_node/src/epistemic.rs:328-336 | any number of unassessed pieces of weight 10 000 of different groups amounts to the sum of the factors of the first 30 ranks |
| AggregateExact.MixedAggregate | aimp_node/src/epistemic.rs:328-338 | assessed and unassessed evidence of any size, without common groups, amounts to the sum of both aggregates as long as neither is clamped |
| AggregateExact.OneUnassessedDemotes | aimp_node/src/epistemic.rs:276-290 | whether a group counts as assessed depends only on whether some member is unassessed |
| AggregateExact.OppositeAggregate | aimp_node/src/epistemic.rs:295-338 | evidence of opposite weights aggregates to the opposite |
| Claims.HammingMetric | aimp_node/src/semantic_topology.rs:42-48 | the distance of embeddings is zero on equals, symmetric, at most 256 and obeys the triangle inequality |
| Claims.HammingCounts | aimp_node/src/semantic_topology.rs:42-48 | the distance is the number of the 256 bit positions at which two embeddings differ |
| Claims.DeclaredIs | aimp_node/src/epistemic.rs:157-159 | a declared confidence counts as declared within the declarable range, else as its nearest end |
| Claims.WeightedIs | aimp_node/src/epistemic.rs:475-479 | weighted evidence is its magnitude times the reputation in basis points, rounded toward zero, with its sign |
| UnionFind.Find | aimp_node/src/epistemic.rs:848-854 | path halving terminates, returns the root of the element and leaves every root as it was |
| UnionFind.LinkKeepsForest | aimp_node/src/epistemic.rs:886-891 | hanging one root below another merges exactly those two components and keeps the forest |
| CorrelationGrouping.FindInconsistent | aimp_node/src/epistemic.rs:822-839 | the scan reports exactly the fingerprints under which two claims carry different embeddings |
| CorrelationGrouping.CorrelationGroups | aimp_node/src/epistemic.rs:794-938 | the array algorithm gives every claim the group its component prescribes, under the least id of the component |
| Correlation.SameGroupIffJoined | aimp_node/src/epistemic.rs:843-937 | two claims share a group if and only if both are assessable and a chain of near assessable claims joins them, or neither is and they declare the same cell, or no cell and have the same origin |
| Correlation.GroupIgnoresOrder | aimp_node/tests/insider_asymmetry.rs:1676-1876 | permuting or repeating the claim array leaves every claim's group and assessment unchanged |
| CycleCut.CutIsSoundAndExact | aimp_node/src/epistemic.rs:1239-1292 | over any successor lists the finish order is topological for what is not cut, every report is a cycle, and something is cut exactly if a cycle exists |
| CycleCut.NoSurvivingCycle | aimp_node/src/epistemic.rs:1239-1292 | no cycle survives the cut |
| SupportGraph.CycleCutTheorem | aimp_node/src/epistemic.rs:1165-1292 | survivors strictly descend a ranking of the nodes, each cut edge closes a support cycle that is cut nowhere else, and cutting, reporting and the existence of a cycle coincide |
| SupportGraph.CutAtLeastDescent | aimp_node/src/epistemic.rs:1239-1292 | where a cycle is cut: at the edge back to the node at which a descent by least targets, from a node no smaller one leads to, meets it |
| SupportGraph.SearchIgnoresEdgeOrder | aimp_node/src/epistemic.rs:1239-1292 | edges inserted in any order give the same search, the same cut pairs and the same reported cycles |
| SupportGraph.TraversalOrder | aimp_node/src/epistemic.rs:1195-1292 | out-edges sorted by target visit exactly the support targets in ascending order, parallel edges included |
| KnowledgeGraphs.KnowledgeGraph.AddEdge | aimp_node/src/epistemic.rs:1104-1108 | the edge is appended and the adjacency index stays exact |
| KnowledgeGraphs.KnowledgeGraph.DfsMarkCyclic | aimp_node/src/epistemic.rs:1261-1292 | the recursive marking follows the search step by step and marks exactly its back edges |
| KnowledgeGraphs.KnowledgeGraph.CyclicEdgeIndices | aimp_node/src/epistemic.rs:1239-1259 | the marked positions are exactly the support edges whose endpoints are cut |
| KnowledgeGraphs.KnowledgeGraph.DfsCycles | aimp_node/src/epistemic.rs:1195-1235 | the recursive reporting follows the same search and collects its cycles |
| KnowledgeGraphs.KnowledgeGraph.DetectCycles | aimp_node/src/epistemic.rs:1165-1193 | every report is a support cycle, and reports, marks and the existence of a cycle coincide |
| TrustFlowLaws.StepMonotone | aimp_node/src/epistemic.rs:1464-1559 | one iteration is monotone in the whole trust map |
| TrustFlowLaws.IteratesClimbIff | aimp_node/tests/insider_asymmetry.rs:1563-1674 | trust never falls from one iteration to the next, at any node, if and only if no supported node starts above the safe range |
| TrustFlowLaws.TrustMayFall | aimp_node/src/epistemic.rs:1549-1559 | a supported node declared above the safe range falls in the first iteration |
| TrustFlowLaws.Converges | aimp_node/src/epistemic.rs:1459-1570 | with surviving paths of at most d links, d iterations reach the one solution of t = t_0 + A t and further ones change nothing |
| TrustFlowLaws.CutGraphIsShallow | aimp_node/src/epistemic.rs:1459-1463 | surviving paths of every cut graph are bounded by its number of nodes |
| TrustFlowLaws.ConvergesOnEveryGraph | aimp_node/src/epistemic.rs:1457-1570 | on every graph, as many iterations as nodes reach the unique solution |
| TrustFlowLaws.EarlyBreakIsExact | aimp_node/src/epistemic.rs:1561-1570 | stopping at the first unchanged iteration returns the very map the full loop would |
| NoAmplification.SharesAtMostWhole | aimp_node/src/epistemic.rs:1502-1520 | the flow shares of one source's surviving edges sum to at most 10 000 bps |
| NoAmplification.OutflowAtMostVoice | aimp_node/src/epistemic.rs:1485-1522 | a source passes on in total at most its own positive trust |
| NoAmplification.CutBound | aimp_node/src/epistemic.rs:1464-1559 | at every cut of the acyclic order the flow across it is at most the positive base trust behind it |
| NoAmplification.TrustIsNeverAmplified | v0.2.0/AIMP-l3-epistemic-layer.typ:430-434 | for every graph, node and iteration, trust is at most the sum of all positive base trusts: diamonds, parallel edges and cycles included |
| EdgeOrder.PropagationIgnoresEdgeOrder | aimp_node/src/epistemic.rs:1475-1665 | the same edges in any order give the same cut and the same trust map after both passes |
| ContradictionSafety.SweepBounds | aimp_node/src/epistemic.rs:1576-1665 | whatever the contradictions, no trust rises, and positive trust t keeps at least t - t * damping / 10000, hence stays non-negative |
| ContradictionSafety.VoicelessContradictionsAreFree | aimp_node/src/epistemic.rs:1580-1640 | any number of contradicting sources without positive trust takes nothing |
| FlowExact.ContributionIs | aimp_node/src/epistemic.rs:1485-1522 | an edge passes on the source's positive trust x times its share of the source's total strength S times the author's reputation, less than S(x + 20000) below on the scale of 10000 S; unknown authors pass on nothing |
| FlowExact.SoleSupporter | aimp_node/src/epistemic.rs:1475-1559 | a sole supporter of full reputation raises its target by its whole positive trust, up to the clamp |
| FlowExact.TwoSupporters | aimp_node/src/epistemic.rs:1475-1559 | two such supporters raise it by the stronger and the discounted weaker voice if correlated or unassessed, by both in full if assessed apart |
| ContradictionExact.RawPenaltyIs | aimp_node/src/epistemic.rs:1580-1600 | before any cap a contradiction weighs trust times strength times reputation, up to two roundings |
| ContradictionExact.ContradictionsTakeAtMost | aimp_node/src/epistemic.rs:1602-1640 | n contradicting edges take at most n t C/(P + C + 1) of a positive trust t with summed voices P for and C against |
| ContradictionExact.FullDampingIsTaken | aimp_node/src/epistemic.rs:1621-1665 | if C/(P + C + 1) reaches the damping and one contradictor covers it, exactly t * damping/10000 is taken |
| ContradictionExact.ShareIsTaken | aimp_node/src/epistemic.rs:1621-1665 | below the damping a contradictor that covers it takes at least t C/(P + C + 1), up to two roundings |
| ContradictionExact.LouderVoices | aimp_node/src/epistemic.rs:1599-1665 | louder supporters never lower the final trust and louder contradictors never raise it |
| DecayLaws.YoungKeeps | aimp_node/src/epistemic.rs:1433-1449 | a claim younger than one half-life keeps its base trust |
| DecayLaws.HalfLifeHalves | aimp_node/src/epistemic.rs:1433-1449 | one half-life later half of the trust is left, rounded down; from thirty half-lives on nothing changes |
| DecayLaws.OlderKeepsNoMore | aimp_node/src/epistemic.rs:1433-1449 | of two claims with the same positive trust the older keeps no more, and nothing below zero |
| TrustPropagation.DecayBase | aimp_node/src/epistemic.rs:1433-1449 | every base trust is shifted right by the half-lives of its claim's age, 30 at most; unknown claims keep theirs |
| TrustPropagation.GatherIncoming | aimp_node/src/epistemic.rs:1475-1545 | one pass over the edges gathers for each target exactly its surviving contributions, in edge order |
| TrustPropagation.SupportPass | aimp_node/src/epistemic.rs:1459-1570 | the loop with its early break computes the last iterate |
| TrustPropagation.ContradictionPass | aimp_node/src/epistemic.rs:1576-1665 | penalties read from the frozen map, then applied in any order, give the sweep |
| TrustPropagation.PropagateTrust | aimp_node/src/epistemic.rs:1420-1666 | the whole method computes both passes over the exact cut and the groups of the claim array |
| BeliefEngine.EngineTrustBounded | aimp_node/src/epistemic.rs:2278-2300 | in the engine's runs trust only climbs and never exceeds the declared maximum times the number of claims |
| BeliefEngine.JudgedAlone | aimp_node/src/epistemic.rs:2278-2300 | a claim no edge supports or contradicts is judged by its confidence within the declarable range times the reputation of its author, rounded toward zero |
| BeliefEngine.Classify | aimp_node/src/epistemic.rs:2301-2317 | each claim lands in exactly the class its trust and the thresholds dictate, in claim order |
| BeliefEngine.Compute | aimp_node/src/epistemic.rs:2273-2320 | classes follow the propagated trust, and no claim that pass 1 accepts is rejected if the rejection threshold is below what damping leaves of an accepted trust |
| BeliefEngine.KeepsAcceptedIff | aimp_node/src/epistemic.rs:1648-1665 | that condition on the thresholds holds if and only if no penalty of any size takes an accepted trust to rejection |
| BeliefEngine.DefaultEngineKeepsAccepted | aimp_node/src/epistemic.rs:2262-2270 | the default thresholds meet it for every damping |
| GraphBuilder.BuildFromClaims | aimp_node/src/epistemic.rs:1055-1102 | edges are the raw edges whose ends resolve, in order: a hash to the last claim with that id, else its fingerprint to the inheriting summary |
| GraphBuilder.ResolutionUnique | aimp_node/src/epistemic.rs:1055-1086 | the claims determine both resolution maps |
| GraphBuilder.ResolvesIff | aimp_node/src/epistemic.rs:1055-1102 | a raw edge becomes a graph edge exactly if each end stands for a claim, by id first and fingerprint second, and then joins these with its relation and strength |
| AutoEdges.GenerateEdges | aimp_node/src/semantic_topology.rs:117-202 | the nested loops compute the greedy capped edge list over embedded claims sorted by id |
| AutoEdges.EdgeForIs | aimp_node/src/semantic_topology.rs:137-162 | a pair calls for support up to one distance, for contradiction from another on, for nothing in between or across versions |
| AutoEdges.SupportStrength | aimp_node/src/semantic_topology.rs:166-172 | support falls with distance from 10 000 on equal embeddings to 1 000 at its threshold |
| AutoEdges.ContradictionStrength | aimp_node/src/semantic_topology.rs:173-182 | contradiction grows with distance from 1 000 at its threshold to 10 000 on opposite embeddings |
| GreedyEdges.GreedyIff | aimp_node/src/semantic_topology.rs:132-198 | among claims with distinct ids the edges come in the order of their ends, and a called-for edge is made exactly if both its claims have fewer than the cap on the edges in front of it |
| AutoEdges.DegreesCapped | aimp_node/src/semantic_topology.rs:146-198 | no claim gets more than one edge end over the cap; it gets that one exactly when it is paired with its own repetition one short of the cap, never with distinct ids |
| AutoEdges.SkippedOnlyAtCap | aimp_node/src/semantic_topology.rs:146-198 | whatever the claims, a pair that calls for an edge goes without only if one of its claims ends at the cap |
| AutoEdges.GeneratedAscend | aimp_node/src/semantic_topology.rs:117-202 | every generated edge is called for by its pair and runs upward in id order |
| AutoEdges.GenerateIgnoresOrder | aimp_node/src/semantic_topology.rs:117-135 | the claims in any order give the same edges in the same order |
| AutoEdges.BuiltGraphAcyclicIff | aimp_node/src/semantic_topology.rs:132-151 | the graph built from generated edges is cut nowhere if and only if no repeated claim is below the cap when its row starts |
| AutoEdges.AcyclicUnderEveryCapIff | aimp_node/src/semantic_topology.rs:132-151 | built graphs are cut nowhere under every cap if and only if no embedded claim occurs twice |
| AutoEdges.CycleIffSelfEdge | aimp_node/src/epistemic.rs:1055-1102 | whatever the ids, the built graph has a support cycle if and only if a generated support edge joins an id to itself |
| AutoEdges.DoubledClaim | aimp_node/src/semantic_topology.rs:132-198 | one embedded claim passed in twice gives a self-loop, and two edge ends even under a cap of one |
| AutoEdges.BuiltGraphLosesNothing | aimp_node/src/epistemic.rs:1239-1259 | with distinct ids propagation cuts none of the generated edges |
| EpochReduction.CollectEvidence | aimp_node/src/epistemic.rs:1847-1862 | the loop collects the evidence of the first claim of each source that counts, weighted, in id order |
| EpochReduction.ReduceWithReputation | aimp_node/src/epistemic.rs:1816-1959 | the reduction with reputations computes the bucket's summary or its absence, error exits included |
| EpochReduction.Reduce | aimp_node/src/epistemic.rs:2032-2174 | so does the plain reduction: every source as declared, a plain sum, and the data of the best summary |
| EpochReduction.SummaryIff | aimp_node/src/epistemic.rs:2024-2030 | a bucket yields a summary if and only if it has two claims, one fingerprint, a least id of a reducible kind, and some claim that counts |
| EpochLaws.OneVoicePerSource | aimp_node/src/epistemic.rs:1847-1862 | a summary counts exactly the sources with a claim whose author has reputation, one piece of evidence each |
| EpochLaws.EvidenceOfLeast | aimp_node/src/epistemic.rs:1847-1862 | the pieces of evidence carry id, weight and group of exactly the counting claims with the least id of their source |
| EpochLaws.SummaryBounds | aimp_node/src/epistemic.rs:1897-1908 | range and window are attained bounds of the evidence weights and of the ticks of all claims |
| EpochLaws.SummaryFields | aimp_node/src/epistemic.rs:1913-1957 | count, source, tick, fingerprint, cell, confidence and the empty fields of a summary |
| EpochLaws.SummaryDataIs | aimp_node/src/epistemic.rs:2044-2073 | data is that of the least claim; in the plain reduction of summaries that of the widest, most confident one with the greatest id |
| EpochLaws.SummaryAggregateIs | aimp_node/src/epistemic.rs:1868-1873 | with reputations the evidence is aggregated by its groups, without it is the clamped plain sum |
| EpochLaws.VarianceIs | aimp_node/src/epistemic.rs:1877-1894 | the variance of several pieces is the mean squared distance from the mean of the aggregate, rounded down, saturating |
| EpochLaws.UnanimousHasNoVariance | aimp_node/src/epistemic.rs:1877-1894 | equal weights whose sum is the aggregate have no variance |
| EpochReduction.ReduceEpochAligned | aimp_node/src/epistemic.rs:1983-2020 | the summaries of all buckets, in bucket order, with or without reputations |
| EpochLaws.BucketIff | aimp_node/src/epistemic.rs:1997-2006 | two claims share a bucket exactly if some window of the grid holds both ticks and their cells are equal |
| EpochLaws.SummariesAre | aimp_node/src/epistemic.rs:1983-2020 | the summaries are exactly those of the bucket-mates of some claim |
| EpochReduction.ReduceSameMembers | aimp_node/src/epistemic.rs:1826-1828 | from two claims on, order and repetition change nothing but the count |
| EpochReduction.RepetitionMatters | aimp_node/src/epistemic.rs:1722-1728 | repeating a single claim changes the outcome exactly if it is of a reducible kind and counts |
| EpochReduction.SummariesIgnoreOrder | aimp_node/src/epistemic.rs:1983-2020 | replicas with the same claims in any order compute the same summaries |
| DagArenas.DagArena.Insert | aimp_node/src/crdt/arena.rs:26-34 | a new node is stored and indexed, a known one keeps its slot; slab and index stay in bijection |
| DagArenas.DagArena.GetByIndex | aimp_node/src/crdt/arena.rs:42-44 | a slot is occupied exactly if some hash owns it, and then holds that hash's node |
| DagArenas.DagArena.Len | aimp_node/src/crdt/arena.rs:52-54 | the slab holds as many nodes as there are hashes |
| DagArenas.DagArena.Retain | aimp_node/src/crdt/arena.rs:71-88 | exactly the nodes outside the set go, slots of the others stay, and the count returned is theirs |
| Dag.AppendFrontierIff | aimp_node/src/crdt/merkle_dag.rs:102-145 | a node put on top of all heads is the frontier again if and only if its hash is new and nobody's parent, or known and already the only head; no assumption on the hash |
| Dag.MergedNodes | aimp_node/src/crdt/actor.rs:112-159 | a merge keeps every old node, stores exactly the old hashes and those of the batch, and new entries are nodes of the batch under their own hash |
| Dag.DeliveryFreeIffUncontested | aimp_node/src/crdt/actor.rs:112-159 | every delivery order of a set of nodes leads to the same store if and only if no two of them compete for a hash not stored yet |
| Dag.RootsConverge | formal/AimpCrdtConvergence.tla:105-110 | ancestor-closed acyclic stores are the same if and only if they have the same root and the same nodes under their common hashes |
| Traversal.SweepCollects | aimp_node/src/crdt/merkle_dag.rs:151-177 | after mark and sweep every head stays and every node kept is within the history bound of a head through kept nodes |
| Traversal.CollectKeepsFrontier | aimp_node/src/crdt/merkle_dag.rs:171-177 | heads that were the frontier are the frontier of the shrunken store |
| Traversal.SweepKeepsDue | aimp_node/src/crdt/merkle_dag.rs:151-177 | from a frontier, a collection keeps every node that no parent chain with more links than the bound ends at |
| Traversal.ShallowIsKept | aimp_node/src/crdt/merkle_dag.rs:151-177 | if no chain is longer than the bound, a collection changes nothing |
| Traversal.LinearKeepsNearest | aimp_node/src/crdt/merkle_dag.rs:151-177 | of a single chain exactly the nodes within the bound of the head stay |
| Traversal.LinearFrontier | aimp_node/src/crdt/merkle_dag.rs:151-177 | and its head is its frontier, so this is the store every collection of a linear history leaves |
| Traversal.Covered | aimp_node/src/crdt/merkle_dag.rs:184-213 | when the delta walk ends, each local node that no parent chain is too long for was visited or is held by every parent-closed store that has the named heads and agrees with this one |
| CrdtEngine.MerkleCrdtEngine.GetMerkleRoot | aimp_node/src/crdt/merkle_dag.rs:219-241 | cached or computed, the root is that of the current heads |
| CrdtEngine.MerkleCrdtEngine.CompactHistory | aimp_node/src/crdt/merkle_dag.rs:151-177 | heads and hence root stay, only nodes within the history bound of a head stay, and a frontier stays one; from a frontier every node stays that no chain is too long for, and nothing is dropped if none is |
| CrdtEngine.MerkleCrdtEngine.AppendMutation | aimp_node/src/crdt/merkle_dag.rs:102-145 | the new node lists all heads and replaces them; at the threshold the store is collected and keeps every node no chain is too long for; the heads stay the frontier exactly if the new hash tops the store |
| CrdtEngine.MerkleCrdtEngine.GetVdiff | aimp_node/src/crdt/merkle_dag.rs:184-213 | only stored nodes, each once, never a named head, each within the history bound of a head through sent nodes; and every node no chain is too long for is sent or held by any parent-closed store that holds the named heads and agrees on common hashes |
| CrdtEngine.MerkleCrdtEngine.RecomputeHeads | aimp_node/src/crdt/actor.rs:161-176 | the heads become the stored nodes that no stored node lists as a parent |
| CrdtEngine.MerkleCrdtEngine.Merge | aimp_node/src/crdt/actor.rs:112-183 | exactly the unknown nodes are added, their number is returned, and the heads are the frontier afterwards |
| CrdtEngine.Recover | aimp_node/src/crdt/actor.rs:53-69 | a restarted engine holds exactly the persisted nodes with heads at their frontier |
| ReplicaSteps.SameSizeSame | aimp_node/src/crdt/actor.rs:161-162 | a merge that adds nothing changes nothing, so skipping the head rebuild is right |
| Replication.StepSound | formal/AimpCrdtConvergence.tla:55-87 | every append of a fresh node, import of a foreign one, delivery, collection and restart keeps every replica's heads at its frontier while known nodes share no hash |
| Replication.RunsAreSound | formal/AimpCrdtConvergence.tla:99-110 | so in every clean run of any number of replicas, foreign nodes with whatever parents included |
| Replication.HomegrownIsClean | formal/AimpCrdtConvergence.tla:52-66 | without foreign nodes a run is clean as soon as no nodes share hashes, and parents are created before children |
| Replication.ReplicasAcyclic | formal/AimpCrdtConvergence.tla:52-66 | then no replica ever holds a parent cycle |
| Replication.Convergence | formal/AimpCrdtConvergence.tla:105-110 | in every clean run stores agree, the same hashes mean the same store, heads and root, and among acyclic replicas lacking no ancestor equal roots mean equal stores |
| Replication.StoreIsReceived | aimp_node/src/crdt/actor.rs:112-159 | without collection or restart a replica stores exactly the hashes it appended or was sent, in every run |
| Replication.SameDeliverySameRoot | formal/AimpCrdtConvergence.tla:8-9 | replicas that received the same nodes in whatever order and batches have the same store, heads and root, if the nodes of the run share no hash |
| Replication.ExchangeConvergesIff | aimp_node/src/crdt/actor.rs:112-183 | two replicas that exchange two first nodes show one root, and hold one store if and only if the nodes do not share a hash |
| NodeEncoding.ComputeHash | aimp_node/src/crdt/merkle_dag.rs:32-55 | feeding the hasher field by field hashes the plain concatenation of all fields |
| NodeEncoding.SplitsShareEncoding | aimp_node/src/crdt/merkle_dag.rs:48-50 | evidence whose prompt and decision are split at another place has the same encoding |
| NodeEncoding.SharedEncodingShiftsFields | aimp_node/src/crdt/merkle_dag.rs:32-55 | nodes share an encoding only if they are equal or differ in the lengths of parents, clock keys or prompt |
| NodeEncoding.DeliveryFreeIffNoSharedEncoding | aimp_node/src/crdt/actor.rs:112-159 | under a byte hash that tells the encodings apart, every delivery order leads to one store if and only if no two nodes share an encoding |
| NodeEncoding.DeliveryOrderMatters | aimp_node/src/crdt/actor.rs:112-159 | under any byte hash there are two nodes whose two delivery orders lead to different stores |
| NodeEncoding.ReplicasMaySplit | formal/AimpCrdtConvergence.tla:8-9 | under any byte hash there is a run after which two replicas received the same nodes, show one root and hold different stores |
| NodeEncoding.CodeConverges | formal/AimpCrdtConvergence.tla:105-110 | in every run whose nodes share no encoding, foreign ones included, under a byte hash without collisions among the strings hashed in it, replicas that received the same nodes are the same, and equal roots mean equal stores |
| DeltaSync.UnionKeeps | aimp_node/examples/bench_delta_sync.rs:135-170 | the union of parent-closed stores is parent-closed and no deeper |
| DeltaSync.PullDelta | aimp_node/examples/bench_delta_sync.rs:148-170 | after one delta exchange the asking replica holds the union of both stores if and only if they agreed on common hashes |
| DeltaSync.Reconcile | aimp_node/examples/bench_delta_sync.rs:148-170 | after one exchange each way both replicas are equal if and only if they agreed, and then hold the union with one root |
| FleetSync.TogetherUnites | aimp_node/examples/bench_delta_sync.rs:135-180 | stores that agree pairwise have a union, which holds all their nodes and no others |
| FleetSync.SyncRound | aimp_node/examples/bench_delta_sync.rs:135-180 | one round in which each of any number of replicas pulls from each other one leaves all the same if and only if their stores agreed, each holding the union of all |
| Voting.QuorumIsUnique | aimp_node/src/crdt/consensus.rs:112-144 | over every run and for every threshold each voter is under at most one decision per prompt, and a prompt is verified exactly if one and only one decision has a quorum of at least one voter |
| Voting.CountedWereCast | aimp_node/src/crdt/consensus.rs:112-144 | every voter counted for a decision cast an unbarred ballot for it |
| Voting.CountedIff | aimp_node/src/crdt/consensus.rs:112-144 | counted for a decision are exactly the voters whose first unbarred ballot on the prompt is for it and came before the prompt was verified |
| Voting.ManagersAgree | formal/AimpCrdtConvergence.tla:112-119 | two managers never verify different decisions if twice the threshold exceeds the voters plus the two-faced ones |
| Voting.ManagersMayDisagree | formal/AimpCrdtConvergence.tla:112-119 | for every threshold and number of voters below that bound there are two runs that verify different decisions |
| Voting.UnanimousVote | formal/AimpCrdtConvergence.tla:121-126 | distinct voters agreeing on a decision, in any order, are all counted until the threshold, and verify it exactly when they reach it |
| DenyList.CheckEffect | aimp_node/src/crdt/consensus.rs:60-90 | one call denies at most the first conflicting origin, with one proof, and records exactly the undenied entries before it |
| DenyList.DenialsAreProven | aimp_node/src/crdt/consensus.rs:60-90 | over every run, for clocks of any size, only origins with clashing entries are denied, each with one proof that names two clashing nodes |
| DenyList.DeniedIffContested | aimp_node/src/crdt/consensus.rs:60-90 | if no call of a run skipped an unsettled entry, exactly the origins with clashing entries are denied |
| DenyList.SingleEntryDenyListIgnoresOrder | aimp_node/src/crdt/consensus.rs:60-90 | for single-entry clocks an origin is denied if and only if two nodes clash on an entry of it, whatever the order of the nodes |
| DenyList.CompleteIffNothingLost | aimp_node/src/crdt/consensus.rs:66-84 | for every run: every entry seen is settled if and only if the deny list is complete and stays so after any one further single-entry node |
| DenyList.CompleteOnEveryRunIff | aimp_node/src/crdt/consensus.rs:60-90 | the deny list is complete on every run over given nodes, in any order, if and only if no node has clashing entries of two different origins |
| DenyList.ExactStep | aimp_node/src/crdt/consensus.rs:66-84 | a call keeps every entry settled if and only if it skips no unsettled one behind its first conflict |
| DenyList.EarlyReturnLosesClash | aimp_node/src/crdt/consensus.rs:82-84 | two nodes of one origin with two entries each, after which one of the clashing origins is not denied |
| DenyList.HonestOriginDenied | aimp_node/src/crdt/consensus.rs:53-90 | an origin that made one node is denied because a node of another origin carries its entry |
| DenyList.DenialsFairIff | aimp_node/src/crdt/consensus.rs:53-90 | no run over given nodes denies an origin that did not itself fork if and only if every clashing entry is carried only by nodes of its own origin |
| Quorum.QuorumManager.CheckEquivocation | aimp_node/src/crdt/consensus.rs:60-90 | the loop over the clock keeps the deny list a function of the nodes seen, and a returned proof is sound and new |
| Quorum.QuorumManager.IsDenied | aimp_node/src/crdt/consensus.rs:93-95 | denied origins have clashing entries, have forked if clashes are only among own nodes, and are all such origins if nothing was lost |
| Quorum.QuorumManager.Observe | aimp_node/src/crdt/consensus.rs:112-144 | the ballots stay a function of the observations, and true is returned exactly when this vote verifies the prompt |
| Quorum.QuorumManager.IsVerified | aimp_node/src/crdt/consensus.rs:147-150 | true exactly if some decision has a quorum, which is then the only one |
| MerkleBatch.ProofReachesRoot | aimp_node/examples/bench_batch_signing.rs:64-148 | for every batch and index the generated proof leads from the leaf to the root, promoted odd elements included |
| MerkleBatch.ProofIsSound | aimp_node/examples/bench_batch_signing.rs:134-148 | with an injective pair hash a proof with the turns of a position leads to the root only for that leaf and that very proof |
| MerkleBatch.AcceptedIff | aimp_node/examples/bench_batch_signing.rs:134-148 | the verifier accepts exactly the leaves, the inner nodes above them with the rest of the proof, and preimages below them with a longer one |
| MerkleBatch.ProofIsShort | aimp_node/examples/bench_batch_signing.rs:273-277 | a proof for at most 2^k leaves has at most k entries |
| MerkleBatch.RootBindsBatch | aimp_node/examples/bench_batch_signing.rs:8-13 | batches of one length have equal roots if and only if they are equal |
| MerkleBatch.RootIgnoresLength | aimp_node/examples/bench_batch_signing.rs:64-91 | batches of any two lengths can share a root, whatever the pair hash |
| MerkleBatch.RootBindsIff | aimp_node/examples/bench_batch_signing.rs:64-91 | the root determines the batch among batches of two given lengths if and only if the lengths are equal |
| MerkleBatch.ComputeBatchRoot | aimp_node/examples/bench_batch_signing.rs:64-91 | the level loop computes the root, zero for no leaves |
| MerkleBatch.ComputeProof | aimp_node/examples/bench_batch_signing.rs:95-131 | the level loop collects the siblings, and for a valid index they lead to the root |
| MerkleBatch.VerifyProof | aimp_node/examples/bench_batch_signing.rs:134-148 | accepts exactly if the leaf climbs to the root |
| MerkleBatch.BatchSigner.AddMutation | aimp_node/examples/bench_batch_signing.rs:42-51 | no mutation is lost or reordered, and a signature is returned exactly when the batch is full, over its root |
| MerkleBatch.BatchSigner.CloseBatch | aimp_node/examples/bench_batch_signing.rs:54-60 | the pending batch is closed as it is and its root signed |

## Left out

- Discounts, damping and strengths above 10 000 basis points, which `u16` fields admit.
- Saturation of `i64` sums beyond the 400 000 pieces of evidence covered by `SaturationNeverFires`.
- `aggregate`, `aggregate_correlated`, percentages, `ConfidenceInterval`, `Utility`, decision rules, `EpochManager`: simple members beside these.
- The resolvers, scorers, traversal queries on the graph and the reputation tracker.
- The wrappers `propagate_trust`, `propagate_trust_full` and `propagate_trust_advanced`, which only fix arguments.
- The cut under permuted claims: the search follows arena indices, so only edge order may change.
- Associativity of reduction over partial merges, which fresh evidence sources and clamping rule out.
- Traversal.Covered: promises nothing for nodes at which some parent chain of more than `DAG_HISTORY_DEPTH` links ends: what the code does with these depends on its iteration order, since a node first met on a long path hides its shorter ones.
- Persistence, channels, events, metrics, networking, serialisation, Ed25519 and the hash function itself; recovery starts from a given list of stored nodes.
- `restore_verified`, which marks prompts verified without votes, and the actor's calls from merge into the quorum manager.
- Quorum.QuorumManager.Observe: voters are opaque; that the actor passes a signature prefix as voter is not modelled.
- Storage reuse in the slab: a vacant slot is any unused number.
- Correlation.SameGroupIffJoined: group keys stand for the strings they are hashed from; collisions of the 64-bit truncated hashes are not modelled.
- CrdtEngine.MerkleCrdtEngine.GetVdiff: completeness is for nodes that no parent chain is too long for, as in `Traversal.Covered`.
- CrdtEngine.MerkleCrdtEngine.CompactHistory: so is what it is promised to keep.
- ContradictionExact.ContradictionsTakeAtMost: multiplies the share by the number of contradicting edges, as the cap is per edge.
- MerkleBatch.RootBindsIff: leaves out the empty batch, whose root is the constant zero, so it shares the root of the batch holding only zero.
- Performance, and the probability of hash collisions.
