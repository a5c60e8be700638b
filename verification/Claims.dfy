/** Claims, their embeddings and the wire fields that correlation looks at. */
module Claims {
  import opened Numeric
  import opened Bags
  import opened LogOddsAggregation

  const MAX_DECLARED: int := 13816
  const MIN_DECLARED: int := -13816
  const DEFAULT_SUPPORT_THRESHOLD: nat := 30

  /** A 64-bit word, bit by bit. */
  type Word = w: seq<bool> | |w| == 64 witness seq(64, _ => false)

  /** A 256-bit SimHash in four words. */
  datatype Embedding = Embedding(w0: Word, w1: Word, w2: Word, w3: Word)

  datatype ClaimKind =
    | Observation(data: seq<nat>)
    | Inference
    | Intent
    | Summary(sourceCount: nat, tickStart: nat, tickEnd: nat, data: seq<nat>, aggregated: LogOdds,
              uniqueSources: nat, variance: int, rangeMin: LogOdds, rangeMax: LogOdds)

  /** `primary` and `secondary` are the two halves of the semantic fingerprint. */
  datatype Claim = Claim(
    id: ClaimHash, primary: nat, secondary: nat, origin: nat, kind: ClaimKind, confidence: LogOdds,
    evidenceSource: nat, tick: nat, cell: Option<nat>, embedding: Option<Embedding>, version: nat)

  /** The number of ones in the exclusive-or of two words. */
  function CountDiffering(a: seq<bool>, b: seq<bool>): nat {
    if a == [] || b == [] then 0
    else (if a[0] != b[0] then 1 else 0) + CountDiffering(a[1..], b[1..])
  }

  function Hamming(a: Embedding, b: Embedding): nat {
    CountDiffering(a.w0, b.w0) + CountDiffering(a.w1, b.w1) + CountDiffering(a.w2, b.w2) + CountDiffering(a.w3, b.w3)
  }

  lemma {:induction false} DifferingSymmetric(a: seq<bool>, b: seq<bool>)
    ensures CountDiffering(a, b) == CountDiffering(b, a)
  {
    if a != [] && b != [] { DifferingSymmetric(a[1..], b[1..]); }
  }

  lemma {:induction false} DifferingTriangle(a: seq<bool>, b: seq<bool>, c: seq<bool>)
    requires |a| == |b| == |c|
    ensures CountDiffering(a, c) <= CountDiffering(a, b) + CountDiffering(b, c) && CountDiffering(a, c) <= |a|
    ensures CountDiffering(a, b) == 0 <==> a == b
  {
    if a != [] {
      DifferingTriangle(a[1..], b[1..], c[1..]);
      assert a == [a[0]] + a[1..] && b == [b[0]] + b[1..];
    }
  }

  lemma HammingSymmetric(a: Embedding, b: Embedding)
    ensures Hamming(a, b) == Hamming(b, a)
  {
    DifferingSymmetric(a.w0, b.w0);
    DifferingSymmetric(a.w1, b.w1);
    DifferingSymmetric(a.w2, b.w2);
    DifferingSymmetric(a.w3, b.w3);
  }

  /** The distance is a metric bounded by 256. */
  lemma HammingMetric(a: Embedding, b: Embedding, c: Embedding)
    ensures Hamming(a, b) == 0 <==> a == b
    ensures Hamming(a, b) == Hamming(b, a)
    ensures Hamming(a, c) <= Hamming(a, b) + Hamming(b, c)
    ensures Hamming(a, c) <= 256
  {
    HammingSymmetric(a, b);
    DifferingTriangle(a.w0, b.w0, c.w0);
    DifferingTriangle(a.w1, b.w1, c.w1);
    DifferingTriangle(a.w2, b.w2, c.w2);
    DifferingTriangle(a.w3, b.w3, c.w3);
  }

  lemma HammingZero(a: Embedding)
    ensures Hamming(a, a) == 0
  {
    HammingMetric(a, a, a);
  }

  /** All bits of an embedding. */
  function Bits(e: Embedding): (b: seq<bool>)
    ensures |b| == 256
  {
    e.w0 + e.w1 + e.w2 + e.w3
  }

  /** The positions at which two bit strings of one length differ. */
  function Differing(a: seq<bool>, b: seq<bool>): set<nat>
    requires |a| == |b|
  {
    set i: nat | i < |a| && a[i] != b[i]
  }

  lemma {:induction false} DifferingConcat(a: seq<bool>, b: seq<bool>, c: seq<bool>, d: seq<bool>)
    requires |a| == |b|
    ensures CountDiffering(a + c, b + d) == CountDiffering(a, b) + CountDiffering(c, d)
  {
    if a == [] {
      assert a + c == c && b + d == d;
    } else {
      assert (a + c)[1..] == a[1..] + c && (b + d)[1..] == b[1..] + d;
      DifferingConcat(a[1..], b[1..], c, d);
    }
  }

  lemma DifferingGrows(a: seq<bool>, b: seq<bool>)
    requires |a| == |b| > 0
    ensures var n := |a| - 1;
      |Differing(a, b)| == |Differing(a[..n], b[..n])| + if a[n] != b[n] then 1 else 0
  {
    var n := |a| - 1;
    assert Differing(a, b) == Differing(a[..n], b[..n]) + if a[n] != b[n] then {n} else {};
  }

  lemma {:induction false} CountIsSize(a: seq<bool>, b: seq<bool>)
    requires |a| == |b|
    ensures CountDiffering(a, b) == |Differing(a, b)|
  {
    if a != [] {
      var n := |a| - 1;
      CountIsSize(a[..n], b[..n]);
      DifferingConcat(a[..n], b[..n], [a[n]], [b[n]]);
      assert a == a[..n] + [a[n]] && b == b[..n] + [b[n]];
      DifferingGrows(a, b);
    }
  }

  /** The distance is the number of positions, out of 256, at which the embeddings differ. */
  lemma HammingCounts(a: Embedding, b: Embedding)
    ensures Hamming(a, b) == |Differing(Bits(a), Bits(b))|
  {
    DifferingConcat(a.w0, b.w0, a.w1, b.w1);
    DifferingConcat(a.w0 + a.w1, b.w0 + b.w1, a.w2, b.w2);
    DifferingConcat(a.w0 + a.w1 + a.w2, b.w0 + b.w1 + b.w2, a.w3, b.w3);
    CountIsSize(Bits(a), Bits(b));
  }

  /** A single source may not declare more certainty than the protocol's own percentage extremes. */
  function DeclaredConfidence(c: Claim): (r: LogOdds)
    ensures MIN_DECLARED <= r <= MAX_DECLARED
  {
    Clamp(c.confidence, MIN_DECLARED, MAX_DECLARED)
  }

  // The three group keys are BLAKE3 digests under three different domain prefixes; they are modelled as
  // injective codes with disjoint ranges, none of which is the key 0 of sources outside the claim array.

  function ClusterKey(anchor: ClaimHash): nat { 3 * anchor + 1 }

  function DeclaredKey(cell: nat): nat { 3 * cell + 2 }

  function OriginKey(origin: nat): nat { 3 * origin + 3 }

  /** The group of a claim whose correlation cannot be assessed: its declared cell, else its origin. */
  function FallbackKey(c: Claim): nat {
    match c.cell
    case Some(cell) => DeclaredKey(cell)
    case None => OriginKey(c.origin)
  }

  /** Evidence scaled by the reputation of its author. */
  function WeightEvidence(reputation: Bps, evidence: LogOdds): LogOdds {
    ScaleShrinks(evidence, reputation);
    Clamp(Quot(evidence * reputation, 10000), I32_MIN, I32_MAX)
  }

  /** A declared confidence counts as declared within the declarable range, else as the nearest end of it. */
  lemma DeclaredIs(c: Claim)
    ensures MIN_DECLARED <= c.confidence <= MAX_DECLARED ==> DeclaredConfidence(c) == c.confidence
    ensures c.confidence < MIN_DECLARED ==> DeclaredConfidence(c) == MIN_DECLARED
    ensures c.confidence > MAX_DECLARED ==> DeclaredConfidence(c) == MAX_DECLARED
  {
  }

  /** Weighted evidence is its magnitude times the reputation in basis points, rounded toward zero, with its sign. */
  lemma WeightedIs(reputation: Bps, evidence: LogOdds)
    ensures var w: int := WeightEvidence(reputation, evidence);
      && (evidence >= 0 ==> 0 <= evidence * reputation - 10000 * w < 10000)
      && (evidence < 0 ==> -10000 < evidence * reputation - 10000 * w <= 0)
  {
    ScaleShrinks(evidence, reputation);
    var m: nat := Abs(evidence);
    Times(0, reputation, m);
    DivBounds(m * reputation, 10000);
    if evidence < 0 { assert evidence * reputation == -(m * reputation); } else { assert m == evidence; }
  }
}
