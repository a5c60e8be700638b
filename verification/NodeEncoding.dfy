/**
 * The bytes that are hashed for a node and for a frontier, which nodes share them, and what that means for
 * replication.
 */
module NodeEncoding {
  import opened Bags
  import opened Dag
  import opened Replication

  // ---- fixed-width integers ----

  function Pow256(n: nat): nat
    ensures Pow256(n) > 0
  {
    if n == 0 then 1 else 256 * Pow256(n - 1)
  }

  /** The low `n` bytes, least significant first. */
  function Little(x: nat, n: nat): (r: seq<byte>)
    ensures |r| == n
  {
    if n == 0 then [] else [(x % 256) as byte] + Little(x / 256, n - 1)
  }

  /** The low `n` bytes, most significant first. */
  function Big(x: nat, n: nat): (r: seq<byte>)
    ensures |r| == n
  {
    if n == 0 then [] else Big(x / 256, n - 1) + [(x % 256) as byte]
  }

  lemma {:induction false} LittleInjective(x: nat, y: nat, n: nat)
    requires x < Pow256(n) && y < Pow256(n) && Little(x, n) == Little(y, n)
    ensures x == y
  {
    if n > 0 {
      assert Little(x, n)[0] == x % 256 && Little(y, n)[0] == y % 256;
      assert Little(x, n)[1..] == Little(x / 256, n - 1) && Little(y, n)[1..] == Little(y / 256, n - 1);
      LittleInjective(x / 256, y / 256, n - 1);
    }
  }

  lemma {:induction false} BigInjective(x: nat, y: nat, n: nat)
    requires x < Pow256(n) && y < Pow256(n) && Big(x, n) == Big(y, n)
    ensures x == y
  {
    if n > 0 {
      assert Big(x, n)[n - 1] == x % 256 && Big(y, n)[n - 1] == y % 256;
      assert Big(x, n)[..n - 1] == Big(x / 256, n - 1) && Big(y, n)[..n - 1] == Big(y / 256, n - 1);
      BigInjective(x / 256, y / 256, n - 1);
    }
  }

  // ---- what is hashed ----

  const HASH_BYTES: nat := 32
  const SIGNATURE_BYTES: nat := 64
  const TICK_BYTES: nat := 8

  /** A hash value of 32 bytes. */
  type Digested = h: nat | h < Pow256(HASH_BYTES)

  type Blake = seq<byte> -> Digested

  function Words(hs: seq<Hash>): (r: seq<byte>)
    ensures |r| == HASH_BYTES * |hs|
  {
    if hs == [] then [] else Words(hs[..|hs| - 1]) + Big(hs[|hs| - 1], HASH_BYTES)
  }

  function ClockBytes(c: Clock): seq<byte> {
    if c == [] then [] else ClockBytes(c[..|c| - 1]) + c[|c| - 1].0 + Little(c[|c| - 1].1, TICK_BYTES)
  }

  function EvidenceBytes(e: Option<AiEvidence>): seq<byte> {
    match e
    case None => []
    case Some(v) => v.prompt + v.decision + Big(v.modelHash, HASH_BYTES) + Little(v.timestamp, TICK_BYTES)
  }

  /** The part of the encoding before the evidence. */
  function Front(n: DagNode): seq<byte> {
    Words(n.parents) + Big(n.signature, SIGNATURE_BYTES) + Big(n.dataHash, HASH_BYTES) + ClockBytes(n.vclock)
  }

  /** All fields one after the other, without lengths or separators. */
  function Encode(n: DagNode): seq<byte> {
    Front(n) + EvidenceBytes(n.evidence)
  }

  /** The digest that the code computes from a byte hash. */
  function CodeDigest(blake: Blake): Digest {
    Digest((n: DagNode) => blake(Encode(n)), (hs: seq<Hash>) => blake(Words(hs)))
  }

  /** Feed the hasher field by field. */
  method ComputeHash(blake: Blake, n: DagNode) returns (hash: Hash)
    ensures hash == CodeDigest(blake).node(n)
  {
    var fed: seq<byte> := [];
    for i := 0 to |n.parents|
      invariant fed == Words(n.parents[..i])
    {
      assert n.parents[..i + 1][..i] == n.parents[..i];
      fed := fed + Big(n.parents[i], HASH_BYTES);
    }
    assert n.parents[..|n.parents|] == n.parents;
    fed := fed + Big(n.signature, SIGNATURE_BYTES);
    fed := fed + Big(n.dataHash, HASH_BYTES);
    ghost var front := fed;
    for i := 0 to |n.vclock|
      invariant fed == front + ClockBytes(n.vclock[..i])
    {
      assert n.vclock[..i + 1][..i] == n.vclock[..i];
      var (key, val) := n.vclock[i];
      fed := fed + key;
      fed := fed + Little(val, TICK_BYTES);
    }
    assert n.vclock[..|n.vclock|] == n.vclock;
    if n.evidence.Some? {
      var e := n.evidence.value;
      front := fed;
      fed := fed + e.prompt;
      fed := fed + e.decision;
      fed := fed + Big(e.modelHash, HASH_BYTES);
      fed := fed + Little(e.timestamp, TICK_BYTES);
      assert fed == front + EvidenceBytes(n.evidence);
    }
    assert fed == Encode(n);
    hash := blake(fed);
  }

  // ---- which nodes share an encoding ----

  /** Moving bytes between prompt and decision leaves the encoding as it is. */
  lemma SplitsShareEncoding(n: DagNode, p: Text, q: Text, r: Text, model: Hash, time: nat)
    ensures Encode(n.(evidence := Some(AiEvidence(p + q, r, model, time)))) ==
      Encode(n.(evidence := Some(AiEvidence(p, q + r, model, time))))
    ensures q != [] ==> AiEvidence(p + q, r, model, time) != AiEvidence(p, q + r, model, time)
  {
    assert (p + q) + r == p + (q + r);
    if q != [] { assert |p + q| != |p|; }
  }

  predicate IsHash(h: Hash) {
    h < Pow256(HASH_BYTES)
  }

  predicate AllHashes(s: seq<Hash>) {
    forall i {:trigger IsHash(s[i])} :: 0 <= i < |s| ==> IsHash(s[i])
  }

  /** Every field is within its width. */
  ghost predicate Fits(n: DagNode) {
    && AllHashes(n.parents)
    && n.signature < Pow256(SIGNATURE_BYTES) && n.dataHash < Pow256(HASH_BYTES)
    && (forall i :: 0 <= i < |n.vclock| ==> n.vclock[i].1 < Pow256(TICK_BYTES))
    && (n.evidence.Some? ==>
        n.evidence.value.modelHash < Pow256(HASH_BYTES) && n.evidence.value.timestamp < Pow256(TICK_BYTES))
  }

  ghost predicate SameKeyLengths(c: Clock, c': Clock) {
    |c| == |c'| && forall i :: 0 <= i < |c| ==> |c[i].0| == |c'[i].0|
  }

  /** The fields without a fixed width have pairwise equal lengths. */
  ghost predicate SameShape(a: DagNode, b: DagNode) {
    && |a.parents| == |b.parents| && SameKeyLengths(a.vclock, b.vclock)
    && (a.evidence.Some? <==> b.evidence.Some?)
    && (a.evidence.Some? ==> |a.evidence.value.prompt| == |b.evidence.value.prompt|)
  }

  lemma Unglue(a: seq<byte>, b: seq<byte>, a': seq<byte>, b': seq<byte>)
    requires a + b == a' + b' && |a| == |a'|
    ensures a == a' && b == b'
  {
    assert a == (a + b)[..|a|] && a' == (a' + b')[..|a|];
    assert b == (a + b)[|a|..] && b' == (a' + b')[|a|..];
  }

  lemma HashInjective(h: Hash, h': Hash)
    requires IsHash(h) && IsHash(h') && Big(h, HASH_BYTES) == Big(h', HASH_BYTES)
    ensures h == h'
  {
    BigInjective(h, h', HASH_BYTES);
  }

  lemma {:induction false} WordsInjective(s: seq<Hash>, t: seq<Hash>)
    requires Words(s) == Words(t) && AllHashes(s) && AllHashes(t)
    ensures s == t
  {
    assert HASH_BYTES * |s| == HASH_BYTES * |t|;
    if s != [] {
      var n := |s| - 1;
      Unglue(Words(s[..n]), Big(s[n], HASH_BYTES), Words(t[..n]), Big(t[n], HASH_BYTES));
      HashInjective(s[n], t[n]);
      WordsInjective(s[..n], t[..n]);
      assert s == s[..n] + [s[n]] && t == t[..n] + [t[n]];
    }
  }

  lemma {:induction false} ClockLength(c: Clock, c': Clock)
    requires SameKeyLengths(c, c')
    ensures |ClockBytes(c)| == |ClockBytes(c')|
  {
    if c != [] { ClockLength(c[..|c| - 1], c'[..|c| - 1]); }
  }

  lemma {:induction false} ClockInjective(c: Clock, c': Clock)
    requires SameKeyLengths(c, c') && ClockBytes(c) == ClockBytes(c')
    requires forall i :: 0 <= i < |c| ==> c[i].1 < Pow256(TICK_BYTES) && c'[i].1 < Pow256(TICK_BYTES)
    ensures c == c'
  {
    if c != [] {
      var n := |c| - 1;
      ClockLength(c[..n], c'[..n]);
      var a, a' := ClockBytes(c[..n]), ClockBytes(c'[..n]);
      Unglue(a + c[n].0, Little(c[n].1, TICK_BYTES), a' + c'[n].0, Little(c'[n].1, TICK_BYTES));
      Unglue(a, c[n].0, a', c'[n].0);
      LittleInjective(c[n].1, c'[n].1, TICK_BYTES);
      ClockInjective(c[..n], c'[..n]);
      assert c == c[..n] + [c[n]] && c' == c'[..n] + [c'[n]];
    }
  }

  lemma EvidenceInjective(e: AiEvidence, e': AiEvidence)
    requires EvidenceBytes(Some(e)) == EvidenceBytes(Some(e')) && |e.prompt| == |e'.prompt|
    requires e.modelHash < Pow256(HASH_BYTES) && e'.modelHash < Pow256(HASH_BYTES)
    requires e.timestamp < Pow256(TICK_BYTES) && e'.timestamp < Pow256(TICK_BYTES)
    ensures e == e'
  {
    var m, m' := Big(e.modelHash, HASH_BYTES), Big(e'.modelHash, HASH_BYTES);
    var t, t' := Little(e.timestamp, TICK_BYTES), Little(e'.timestamp, TICK_BYTES);
    Unglue(e.prompt + e.decision + m, t, e'.prompt + e'.decision + m', t');
    Unglue(e.prompt + e.decision, m, e'.prompt + e'.decision, m');
    Unglue(e.prompt, e.decision, e'.prompt, e'.decision);
    BigInjective(e.modelHash, e'.modelHash, HASH_BYTES);
    LittleInjective(e.timestamp, e'.timestamp, TICK_BYTES);
  }

  lemma FrontInjective(a: DagNode, b: DagNode)
    requires Fits(a) && Fits(b) && Front(a) == Front(b)
    requires |a.parents| == |b.parents| && SameKeyLengths(a.vclock, b.vclock)
    ensures a.parents == b.parents && a.signature == b.signature && a.dataHash == b.dataHash && a.vclock == b.vclock
  {
    var p, p' := Words(a.parents), Words(b.parents);
    var s, s' := Big(a.signature, SIGNATURE_BYTES), Big(b.signature, SIGNATURE_BYTES);
    var h, h' := Big(a.dataHash, HASH_BYTES), Big(b.dataHash, HASH_BYTES);
    Unglue(p + s + h, ClockBytes(a.vclock), p' + s' + h', ClockBytes(b.vclock));
    Unglue(p + s, h, p' + s', h');
    Unglue(p, s, p', s');
    WordsInjective(a.parents, b.parents);
    BigInjective(a.signature, b.signature, SIGNATURE_BYTES);
    BigInjective(a.dataHash, b.dataHash, HASH_BYTES);
    ClockInjective(a.vclock, b.vclock);
  }

  /** Different nodes can share an encoding only if some variable-length fields differ in length. */
  lemma SharedEncodingShiftsFields(a: DagNode, b: DagNode)
    requires Fits(a) && Fits(b) && Encode(a) == Encode(b) && SameShape(a, b)
    ensures a == b
  {
    ClockLength(a.vclock, b.vclock);
    Unglue(Front(a), EvidenceBytes(a.evidence), Front(b), EvidenceBytes(b.evidence));
    FrontInjective(a, b);
    if a.evidence.Some? { EvidenceInjective(a.evidence.value, b.evidence.value); }
  }

  // ---- when hashes tell nodes apart ----

  /** The byte hash tells the encodings of these nodes apart. */
  ghost predicate Separates(blake: Blake, s: seq<DagNode>) {
    forall a, b :: a in s && b in s && blake(Encode(a)) == blake(Encode(b)) ==> Encode(a) == Encode(b)
  }

  ghost predicate NoSharedEncoding(s: seq<DagNode>) {
    forall a, b :: a in s && b in s && Encode(a) == Encode(b) ==> a == b
  }

  /** With such a byte hash, nodes have different hashes if and only if they have different encodings. */
  lemma ApartIffNoSharedEncoding(blake: Blake, s: seq<DagNode>)
    requires Separates(blake, s)
    ensures Apart(CodeDigest(blake), s) <==> NoSharedEncoding(s)
  {
  }

  /** Every delivery order of the nodes leads to one store if and only if no two of them share an encoding. */
  lemma DeliveryFreeIffNoSharedEncoding(blake: Blake, s: seq<DagNode>)
    requires Separates(blake, s)
    ensures DeliveryFree(CodeDigest(blake), map[], s) <==> NoSharedEncoding(s)
  {
    var d := CodeDigest(blake);
    DeliveryFreeIffUncontested(d, map[], s);
    ApartIffNoSharedEncoding(blake, s);
  }

  /** Under any byte hash some two deliveries of the same two nodes lead to different stores. */
  lemma DeliveryOrderMatters(blake: Blake) returns (a: DagNode, b: DagNode)
    ensures MergeAll(CodeDigest(blake), map[], [a, b]) != MergeAll(CodeDigest(blake), map[], [b, a])
  {
    a, b := CollidingNodes(blake);
    var d := CodeDigest(blake);
    assert [a, b] == [a] + [b] && [b, a] == [b] + [a];
    FirstArrivalStays(d, map[], a, [b]);
    FirstArrivalStays(d, map[], b, [a]);
  }

  /** A first node whose only content is evidence with this prompt and decision. */
  function EvidenceOnly(prompt: Text, decision: Text): DagNode {
    DagNode([], 0, 0, [], Some(AiEvidence(prompt, decision, 0, 0)))
  }

  lemma EvidenceFits(prompt: Text, decision: Text)
    ensures Fits(EvidenceOnly(prompt, decision))
  {
  }

  /** Two first nodes, each within the widths of its fields, that differ only in where the prompt ends. */
  lemma CollidingNodes(blake: Blake) returns (a: DagNode, b: DagNode)
    ensures a != b && a.parents == [] && b.parents == [] && CodeDigest(blake).node(a) == CodeDigest(blake).node(b)
    ensures Fits(a) && Fits(b)
  {
    var p: Text, q: Text, r: Text := [97], [98], [99];
    a, b := EvidenceOnly(p + q, r), EvidenceOnly(p, q + r);
    EvidenceFits(p + q, r);
    EvidenceFits(p, q + r);
    SplitsShareEncoding(EvidenceOnly([], []), p, q, r, 0, 0);
  }

  /** Under any byte hash two replicas can receive the same nodes, show one root and hold different stores. */
  lemma ReplicasMaySplit(blake: Blake) returns (es: seq<Event>)
    ensures Possible(CodeDigest(blake), 2, es) && Undisturbed(es, 0) && Undisturbed(es, 1)
    ensures Received(es, 0) == Received(es, 1) && |State(CodeDigest(blake), 2, es).replicas| == 2
    ensures var d := CodeDigest(blake);
      var a, b := State(d, 2, es).replicas[0], State(d, 2, es).replicas[1];
      a.nodes != b.nodes && RootOf(d, a.heads) == RootOf(d, b.heads)
  {
    var x, y := CollidingNodes(blake);
    es := ExchangeConvergesIff(CodeDigest(blake), x, y);
  }

  // ---- runs of the code ----

  ghost predicate Within(heads: set<Hash>) {
    forall h {:trigger IsHash(h)} :: h in heads ==> IsHash(h)
  }

  /** The byte hash tells two frontiers apart, and gives none of them the root of the empty one. */
  ghost predicate SeparatesRoots(blake: Blake, a: set<Hash>, b: set<Hash>) {
    && (blake(Words(Ascend(a))) == blake(Words(Ascend(b))) ==> Words(Ascend(a)) == Words(Ascend(b)))
    && blake(Words(Ascend(a))) != 0 && blake(Words(Ascend(b))) != 0
  }

  lemma SeparatedRootsApart(blake: Blake, a: set<Hash>, b: set<Hash>)
    requires Within(a) && Within(b) && SeparatesRoots(blake, a, b)
    ensures RootsApart(CodeDigest(blake), a, b)
  {
    if a != {} && b != {} && blake(Words(Ascend(a))) == blake(Words(Ascend(b))) {
      assert forall i :: 0 <= i < |Ascend(a)| ==> Ascend(a)[i] in a;
      assert forall i :: 0 <= i < |Ascend(b)| ==> Ascend(b)[i] in b;
      WordsInjective(Ascend(a), Ascend(b));
    }
  }

  lemma HeadsWithin(blake: Blake, nodes: Nodes)
    requires Addressed(CodeDigest(blake), nodes)
    ensures Within(Frontier(nodes))
  {
    forall h | h in Frontier(nodes)
      ensures IsHash(h)
    {
      var x: Digested := blake(Encode(nodes[h]));
      assert CodeDigest(blake).node(nodes[h]) == h;
    }
  }

  /**
   * Convergence of the code: in every run whose nodes share no encoding, under a byte hash that does not confuse the
   * byte strings it is given in that run, replicas agree, those that received the same nodes are the same, and among
   * acyclic replicas that lack no ancestor equal roots and equal stores are the same thing. Foreign nodes may come
   * in, as long as none lists the hash of a node appended later.
   */
  lemma CodeConverges(blake: Blake, k: nat, es: seq<Event>, i: nat, j: nat)
    requires Possible(CodeDigest(blake), k, es) && i < k && j < k
    requires NoSharedEncoding(State(CodeDigest(blake), k, es).log)
    requires Separates(blake, State(CodeDigest(blake), k, es).log)
    requires Homegrown(es) || FreshAppends(CodeDigest(blake), k, es)
    ensures |State(CodeDigest(blake), k, es).replicas| == k
    ensures var a, b := State(CodeDigest(blake), k, es).replicas[i], State(CodeDigest(blake), k, es).replicas[j];
      && Agree(a.nodes, b.nodes)
      && (Undisturbed(es, i) && Undisturbed(es, j) && Received(es, i) == Received(es, j) ==> a == b)
      && (Homegrown(es) ==> Acyclic(a.nodes) && Acyclic(b.nodes))
      && (AncestorClosed(a.nodes) && AncestorClosed(b.nodes) && Acyclic(a.nodes) && Acyclic(b.nodes) &&
          SeparatesRoots(blake, a.heads, b.heads) ==>
          (RootOf(CodeDigest(blake), a.heads) == RootOf(CodeDigest(blake), b.heads) <==> a == b))
  {
    var d := CodeDigest(blake);
    var w := State(d, k, es);
    ApartIffNoSharedEncoding(blake, w.log);
    if Homegrown(es) { HomegrownIsClean(d, k, es); }
    assert Clean(d, k, es);
    RunsAreSound(d, k, es);
    var a, b := w.replicas[i], w.replicas[j];
    assert Sound(d, w.log, a) && Sound(d, w.log, b);
    HeadsWithin(blake, a.nodes);
    HeadsWithin(blake, b.nodes);
    if SeparatesRoots(blake, a.heads, b.heads) { SeparatedRootsApart(blake, a.heads, b.heads); }
    Convergence(d, k, es, i, j);
    if Undisturbed(es, i) && Undisturbed(es, j) && Received(es, i) == Received(es, j) {
      SameDeliverySameRoot(d, k, es, i, j);
    }
  }
}
