/** Merkle batch signing: root, inclusion proof and verification over levels whose odd element is promoted. */
module MerkleBatch {
  import opened Numeric
  import opened Bags

  type Hash = nat
  type Signature = nat

  /** The hash of two neighbours. */
  type PairHash = (Hash, Hash) -> Hash

  /** A sibling hash, and whether it stands on the right. */
  type Step = (Hash, bool)

  // ---- specification ----

  /** Hash neighbours pairwise; an odd last element moves up unchanged. */
  function NextLevel(pair: PairHash, level: seq<Hash>): (next: seq<Hash>)
    ensures |next| == (|level| + 1) / 2
  {
    seq((|level| + 1) / 2, i requires 0 <= i < (|level| + 1) / 2 =>
      if 2 * i + 1 < |level| then pair(level[2 * i], level[2 * i + 1]) else level[2 * i])
  }

  function Root(pair: PairHash, level: seq<Hash>): Hash
    decreases |level|
  {
    if level == [] then 0 else if |level| == 1 then level[0] else Root(pair, NextLevel(pair, level))
  }

  function Sibling(index: nat): nat {
    if index % 2 == 0 then index + 1 else index - 1
  }

  /** The step of one level: none if the element is promoted. */
  function LevelStep(level: seq<Hash>, index: nat): seq<Step> {
    if Sibling(index) < |level| then [(level[Sibling(index)], index % 2 == 0)] else []
  }

  function Proof(pair: PairHash, level: seq<Hash>, index: nat): seq<Step>
    decreases |level|
  {
    if |level| <= 1 then [] else LevelStep(level, index) + Proof(pair, NextLevel(pair, level), index / 2)
  }

  function Climb(pair: PairHash, current: Hash, step: Step): Hash {
    if step.1 then pair(current, step.0) else pair(step.0, current)
  }

  /** The hash that a leaf and a proof lead to. */
  function Climbed(pair: PairHash, leaf: Hash, proof: seq<Step>): Hash {
    if proof == [] then leaf else Climb(pair, Climbed(pair, leaf, proof[..|proof| - 1]), proof[|proof| - 1])
  }

  // ---- round trip ----

  lemma {:induction false} ClimbedFrom(pair: PairHash, leaf: Hash, a: seq<Step>, b: seq<Step>)
    ensures Climbed(pair, leaf, a + b) == Climbed(pair, Climbed(pair, leaf, a), b)
  {
    if b == [] {
      assert a + b == a;
    } else {
      var n := |b| - 1;
      assert (a + b)[..|a + b| - 1] == a + b[..n];
      ClimbedFrom(pair, leaf, a, b[..n]);
    }
  }

  /** One step leads to the element's place in the next level. */
  lemma StepClimbs(pair: PairHash, level: seq<Hash>, index: nat)
    requires index < |level|
    ensures index / 2 < |NextLevel(pair, level)|
    ensures Climbed(pair, level[index], LevelStep(level, index)) == NextLevel(pair, level)[index / 2]
  {
    if Sibling(index) < |level| {
      assert LevelStep(level, index)[..0] == [];
      assert Climbed(pair, level[index], []) == level[index];
    }
  }

  /** The proof of every index of every non-empty batch leads to the root. */
  lemma {:induction false} ProofReachesRoot(pair: PairHash, level: seq<Hash>, index: nat)
    requires index < |level|
    ensures Climbed(pair, level[index], Proof(pair, level, index)) == Root(pair, level)
    decreases |level|
  {
    if |level| > 1 {
      var next := NextLevel(pair, level);
      StepClimbs(pair, level, index);
      ProofReachesRoot(pair, next, index / 2);
      ClimbedFrom(pair, level[index], LevelStep(level, index), Proof(pair, next, index / 2));
    }
  }

  // ---- soundness ----

  ghost predicate Injective(pair: PairHash) {
    forall a, b, a', b' :: pair(a, b) == pair(a', b') ==> a == a' && b == b'
  }

  /** The proofs take the same turns. */
  predicate SameTurns(p: seq<Step>, q: seq<Step>) {
    |p| == |q| && forall i :: 0 <= i < |p| ==> p[i].1 == q[i].1
  }

  lemma {:induction false} ClimbedInjective(pair: PairHash, x: Hash, p: seq<Step>, y: Hash, q: seq<Step>)
    requires Injective(pair) && SameTurns(p, q) && Climbed(pair, x, p) == Climbed(pair, y, q)
    ensures x == y && p == q
  {
    if p != [] {
      var n := |p| - 1;
      assert p[n].1 == q[n].1;
      ClimbedInjective(pair, x, p[..n], y, q[..n]);
      assert p == p[..n] + [p[n]] && q == q[..n] + [q[n]];
    }
  }

  /**
   * A proof with the turns of position `index` leads to the root exactly for the leaf at that position with its own
   * proof; in particular no other leaf verifies under the proof of `index`.
   */
  lemma ProofIsSound(pair: PairHash, level: seq<Hash>, index: nat, leaf: Hash, proof: seq<Step>)
    requires Injective(pair) && index < |level| && SameTurns(proof, Proof(pair, level, index))
    ensures Climbed(pair, leaf, proof) == Root(pair, level) <==>
      leaf == level[index] && proof == Proof(pair, level, index)
  {
    ProofReachesRoot(pair, level, index);
    if Climbed(pair, leaf, proof) == Root(pair, level) {
      ClimbedInjective(pair, leaf, proof, level[index], Proof(pair, level, index));
    }
  }

  /** The proof is the honest one of the leaf without its first steps `below`, and `x` the node they lead to. */
  ghost predicate Inner(pair: PairHash, leaf: Hash, honest: seq<Step>, x: Hash, proof: seq<Step>, below: seq<Step>) {
    honest == below + proof && x == Climbed(pair, leaf, below)
  }

  /** The proof is the honest one of the leaf after steps `more` that lead from `x` to the leaf. */
  ghost predicate Beyond(pair: PairHash, leaf: Hash, honest: seq<Step>, x: Hash, proof: seq<Step>, more: seq<Step>) {
    proof == more + honest && Climbed(pair, x, more) == leaf
  }

  /** `x` is an inner node above the leaf, the leaf, or a preimage below it, with the proof that goes with it. */
  ghost predicate OnPath(pair: PairHash, leaf: Hash, honest: seq<Step>, x: Hash, proof: seq<Step>) {
    || (exists below :: Inner(pair, leaf, honest, x, proof, below))
    || (exists more :: Beyond(pair, leaf, honest, x, proof, more))
  }

  lemma OnPathClimbs(pair: PairHash, leaf: Hash, honest: seq<Step>, x: Hash, proof: seq<Step>)
    requires OnPath(pair, leaf, honest, x, proof)
    ensures Climbed(pair, x, proof) == Climbed(pair, leaf, honest)
  {
    if below :| Inner(pair, leaf, honest, x, proof, below) {
      ClimbedFrom(pair, leaf, below, proof);
    } else {
      var more :| Beyond(pair, leaf, honest, x, proof, more);
      ClimbedFrom(pair, x, more, honest);
    }
  }

  lemma Regroup(a: seq<Step>, b: seq<Step>, c: seq<Step>)
    ensures a + (b + c) == (a + b) + c && a + [] == a && [] + a == a
  {
  }

  /** What is on the path of a parent by an inner node is on the path of its child. */
  lemma InnerBelow(pair: PairHash, leaf: Hash, step: seq<Step>, rest: seq<Step>, x: Hash, proof: seq<Step>,
                   below: seq<Step>)
    requires Inner(pair, Climbed(pair, leaf, step), rest, x, proof, below)
    ensures OnPath(pair, leaf, step + rest, x, proof)
  {
    ClimbedFrom(pair, leaf, step, below);
    Regroup(step, below, proof);
    assert Inner(pair, leaf, step + rest, x, proof, step + below);
  }

  /** What goes on below a pair hash reaches one of its children before its last extra step. */
  lemma BeyondBelow(pair: PairHash, leaf: Hash, step: Step, rest: seq<Step>, x: Hash, proof: seq<Step>, more: seq<Step>)
    requires Beyond(pair, Climbed(pair, leaf, [step]), rest, x, proof, more)
    requires more != [] && more[|more| - 1] == step && Climbed(pair, x, more[..|more| - 1]) == leaf
    ensures OnPath(pair, leaf, [step] + rest, x, proof)
  {
    var last := |more| - 1;
    assert more == more[..last] + [step];
    Regroup(more[..last], [step], rest);
    assert Beyond(pair, leaf, [step] + rest, x, proof, more[..last]);
  }

  /** The pair is accepted on the path of leaf `i`. */
  ghost predicate AcceptedAt(pair: PairHash, level: seq<Hash>, x: Hash, proof: seq<Step>, i: nat)
    requires i < |level|
  {
    OnPath(pair, level[i], Proof(pair, level, i), x, proof)
  }

  /** The child of a pair hash that the last extra step comes from. */
  lemma ChildOf(pair: PairHash, level: seq<Hash>, x: Hash, more: seq<Step>, j: nat) returns (i: nat)
    requires Injective(pair) && 2 * j + 1 < |level| && more != []
    requires Climbed(pair, x, more) == pair(level[2 * j], level[2 * j + 1])
    ensures i / 2 == j && i < |level| && Climbed(pair, x, more[..|more| - 1]) == level[i]
    ensures LevelStep(level, i) == [more[|more| - 1]]
  {
    i := if more[|more| - 1].1 then 2 * j else 2 * j + 1;
  }

  /** One level further down: what is on the path of a node is on the path of one of its children. */
  lemma PathBelow(pair: PairHash, level: seq<Hash>, rest: seq<Step>, x: Hash, proof: seq<Step>, j: nat)
    returns (i: nat)
    requires Injective(pair) && |level| > 1 && j < |NextLevel(pair, level)|
    requires OnPath(pair, NextLevel(pair, level)[j], rest, x, proof)
    ensures i < |level| && i / 2 == j && OnPath(pair, level[i], LevelStep(level, i) + rest, x, proof)
  {
    var node := NextLevel(pair, level)[j];
    i := 2 * j;
    StepClimbs(pair, level, i);
    if below :| Inner(pair, node, rest, x, proof, below) {
      InnerBelow(pair, level[i], LevelStep(level, i), rest, x, proof, below);
    } else {
      var more :| Beyond(pair, node, rest, x, proof, more);
      if i + 1 == |level| {
        Regroup(rest, [], []);
      } else if more != [] {
        i := ChildOf(pair, level, x, more, j);
        StepClimbs(pair, level, i);
        BeyondBelow(pair, level[i], more[|more| - 1], rest, x, proof, more);
      } else {
        Regroup(proof, [], []);
        assert Inner(pair, node, rest, x, proof, []);
        assert false;
      }
    }
  }

  /**
   * All that the verifier accepts for a batch: the leaves, inner nodes of its tree, and preimages of leaves; for the
   * empty batch, what leads to its constant root.
   */
  lemma {:induction false} AcceptedIff(pair: PairHash, level: seq<Hash>, x: Hash, proof: seq<Step>)
    requires Injective(pair)
    ensures Climbed(pair, x, proof) == Root(pair, level) <==>
      (level == [] && Climbed(pair, x, proof) == 0) ||
      exists i: nat :: i < |level| && AcceptedAt(pair, level, x, proof, i)
    decreases |level|
  {
    forall i: nat | i < |level| && AcceptedAt(pair, level, x, proof, i)
      ensures Climbed(pair, x, proof) == Root(pair, level)
    {
      ProofReachesRoot(pair, level, i);
      OnPathClimbs(pair, level[i], Proof(pair, level, i), x, proof);
    }
    if level != [] && Climbed(pair, x, proof) == Root(pair, level) {
      var i := SomeAccepted(pair, level, x, proof);
    }
  }

  lemma {:induction false} SomeAccepted(pair: PairHash, level: seq<Hash>, x: Hash, proof: seq<Step>) returns (i: nat)
    requires Injective(pair) && level != [] && Climbed(pair, x, proof) == Root(pair, level)
    ensures i < |level| && AcceptedAt(pair, level, x, proof, i)
    decreases |level|
  {
    if |level| == 1 {
      i := 0;
      Regroup(proof, [], []);
      assert Beyond(pair, level[0], [], x, proof, proof);
    } else {
      var next := NextLevel(pair, level);
      var j := SomeAccepted(pair, next, x, proof);
      i := PathBelow(pair, level, Proof(pair, next, j), x, proof, j);
    }
  }

  lemma NextLevelInjective(pair: PairHash, a: seq<Hash>, b: seq<Hash>)
    requires Injective(pair) && |a| == |b| && NextLevel(pair, a) == NextLevel(pair, b)
    ensures a == b
  {
    var n, m := NextLevel(pair, a), NextLevel(pair, b);
    forall i | 0 <= i < |a|
      ensures a[i] == b[i]
    {
      assert n[i / 2] == m[i / 2];
      assert i == 2 * (i / 2) || i == 2 * (i / 2) + 1;
    }
  }

  /** Among batches of one length the root determines the batch. */
  lemma {:induction false} RootBindsBatch(pair: PairHash, a: seq<Hash>, b: seq<Hash>)
    requires Injective(pair) && |a| == |b|
    ensures Root(pair, a) == Root(pair, b) <==> a == b
    decreases |a|
  {
    if |a| > 1 {
      RootBindsBatch(pair, NextLevel(pair, a), NextLevel(pair, b));
      if Root(pair, a) == Root(pair, b) { NextLevelInjective(pair, a, b); }
    }
  }

  /** The root of a batch of `2^k` equal leaves. */
  function Tower(pair: PairHash, leaf: Hash, k: nat): Hash {
    if k == 0 then leaf else pair(Tower(pair, leaf, k - 1), Tower(pair, leaf, k - 1))
  }

  /** Every element is a tower of height `t` or more. */
  ghost predicate Towers(pair: PairHash, leaf: Hash, s: seq<Hash>, t: nat) {
    forall i :: 0 <= i < |s| ==> IsTower(pair, leaf, s[i], t)
  }

  ghost predicate IsTower(pair: PairHash, leaf: Hash, h: Hash, t: nat) {
    exists k: nat :: k >= t && h == Tower(pair, leaf, k)
  }

  /** A batch of `n` leaves whose next level is the given level of towers. */
  lemma SplitTowers(pair: PairHash, leaf: Hash, next: seq<Hash>, n: nat, t: nat) returns (s: seq<Hash>)
    requires |next| == (n + 1) / 2 && Towers(pair, leaf, next, t + 1)
    ensures |s| == n && Towers(pair, leaf, s, t) && NextLevel(pair, s) == next
  {
    s := [];
    while |s| < n
      invariant |s| <= n && (|s| % 2 == 0 || |s| == n) && Towers(pair, leaf, s, t)
      invariant NextLevel(pair, s) == next[..(|s| + 1) / 2]
    {
      var i := |s| / 2;
      assert IsTower(pair, leaf, next[i], t + 1);
      var k: nat :| k >= t + 1 && next[i] == Tower(pair, leaf, k);
      var more := if |s| + 1 < n then [Tower(pair, leaf, k - 1), Tower(pair, leaf, k - 1)] else [next[i]];
      assert IsTower(pair, leaf, Tower(pair, leaf, k - 1), t) && IsTower(pair, leaf, next[i], t);
      NextOfLonger(pair, s, more);
      assert next[..i + 1] == next[..i] + [next[i]];
      s := s + more;
    }
    assert next[..|next|] == next;
  }

  lemma NextOfLonger(pair: PairHash, s: seq<Hash>, more: seq<Hash>)
    requires |s| % 2 == 0 && 1 <= |more| <= 2
    ensures NextLevel(pair, s + more) == NextLevel(pair, s) + [if |more| == 2 then pair(more[0], more[1]) else more[0]]
  {
    var x, y := NextLevel(pair, s + more), NextLevel(pair, s);
    forall i | 0 <= i < |y|
      ensures x[i] == y[i]
    {
      assert 2 * i + 1 < |s|;
    }
  }

  /** Batches of every length up to `2^(h - t)` have the root `Tower(h)`. */
  lemma {:induction false} TowerBatch(pair: PairHash, leaf: Hash, n: nat, t: nat, h: nat) returns (s: seq<Hash>)
    requires 1 <= n && t <= h && n <= Pow2(h - t)
    ensures |s| == n && Towers(pair, leaf, s, t) && Root(pair, s) == Tower(pair, leaf, h)
    decreases n
  {
    if n == 1 {
      s := [Tower(pair, leaf, h)];
      assert IsTower(pair, leaf, s[0], t);
    } else {
      var next := TowerBatch(pair, leaf, (n + 1) / 2, t + 1, h);
      s := SplitTowers(pair, leaf, next, n, t);
    }
  }

  lemma {:induction false} Pow2Above(n: nat)
    ensures n <= Pow2(n)
  {
    if n > 0 { Pow2Above(n - 1); }
  }

  /** The roots of two lengths are never confused. */
  ghost predicate LengthsApart(pair: PairHash, m: nat, n: nat) {
    forall a, b :: |a| == m && |b| == n && Root(pair, a) == Root(pair, b) ==> a == b
  }

  /** Whatever the pair hash, two batches of any two different lengths can share a root. */
  lemma RootIgnoresLength(pair: PairHash, m: nat, n: nat) returns (a: seq<Hash>, b: seq<Hash>)
    requires 1 <= m && 1 <= n
    ensures |a| == m && |b| == n && Root(pair, a) == Root(pair, b)
  {
    var h := m + n;
    Pow2Above(h);
    a := TowerBatch(pair, 0, m, 0, h);
    b := TowerBatch(pair, 0, n, 0, h);
  }

  /** The root determines the batch among batches of two given lengths if and only if the lengths are equal. */
  lemma RootBindsIff(pair: PairHash, m: nat, n: nat)
    requires Injective(pair) && 1 <= m && 1 <= n
    ensures LengthsApart(pair, m, n) <==> m == n
  {
    if m == n {
      forall a, b | |a| == m && |b| == n && Root(pair, a) == Root(pair, b)
        ensures a == b
      {
        RootBindsBatch(pair, a, b);
      }
    } else {
      var a, b := RootIgnoresLength(pair, m, n);
      assert a != b;
    }
  }

  // ---- length ----

  /** How many levels are above one of `n` elements. */
  function Height(n: nat): nat {
    if n <= 1 then 0 else 1 + Height((n + 1) / 2)
  }

  lemma {:induction false} HeightWithin(n: nat, k: nat)
    requires n <= Pow2(k)
    ensures Height(n) <= k
  {
    if n > 1 { HeightWithin((n + 1) / 2, k - 1); }
  }

  lemma {:induction false} ProofWithinHeight(pair: PairHash, level: seq<Hash>, index: nat)
    ensures |Proof(pair, level, index)| <= Height(|level|)
    decreases |level|
  {
    if |level| > 1 { ProofWithinHeight(pair, NextLevel(pair, level), index / 2); }
  }

  /** A proof has at most ceil(log2 n) steps. */
  lemma ProofIsShort(pair: PairHash, level: seq<Hash>, index: nat, k: nat)
    requires |level| <= Pow2(k)
    ensures |Proof(pair, level, index)| <= k
  {
    ProofWithinHeight(pair, level, index);
    HeightWithin(|level|, k);
  }

  // ---- the loops ----

  lemma StepThenRest(pair: PairHash, proof: seq<Step>, level: seq<Hash>, index: nat)
    requires |level| > 1
    ensures proof + Proof(pair, level, index) ==
      (if Sibling(index) < |level| then proof + LevelStep(level, index) else proof) +
      Proof(pair, NextLevel(pair, level), index / 2)
  {
    var step, rest := LevelStep(level, index), Proof(pair, NextLevel(pair, level), index / 2);
    assert proof + (step + rest) == (proof + step) + rest;
    assert proof + [] == proof;
  }

  method PairUp(pair: PairHash, level: seq<Hash>) returns (next: seq<Hash>)
    ensures next == NextLevel(pair, level)
  {
    next := [];
    var at := 0;
    while at < |level|
      invariant at == 2 * |next| && |next| <= (|level| + 1) / 2
      invariant next == NextLevel(pair, level)[..|next|]
    {
      var i := |next|;
      if at + 1 < |level| {
        next := next + [pair(level[at], level[at + 1])];
      } else {
        next := next + [level[at]];
      }
      assert NextLevel(pair, level)[..i + 1] == NextLevel(pair, level)[..i] + [NextLevel(pair, level)[i]];
      at := at + 2;
    }
  }

  method ComputeBatchRoot(pair: PairHash, hashes: seq<Hash>) returns (root: Hash)
    ensures root == Root(pair, hashes)
  {
    if hashes == [] {
      return 0;
    }
    var level := hashes;
    while |level| > 1
      invariant |level| > 0 && Root(pair, level) == Root(pair, hashes)
      decreases |level|
    {
      level := PairUp(pair, level);
    }
    root := level[0];
  }

  /** The proof of a valid index leads from that leaf to the root. */
  method ComputeProof(pair: PairHash, hashes: seq<Hash>, index: nat) returns (proof: seq<Step>)
    ensures proof == Proof(pair, hashes, index)
    ensures index < |hashes| ==> Climbed(pair, hashes[index], proof) == Root(pair, hashes)
  {
    proof := [];
    if index < |hashes| { ProofReachesRoot(pair, hashes, index); }
    if |hashes| <= 1 {
      return;
    }
    var level, idx := hashes, index;
    while |level| > 1
      invariant proof + Proof(pair, level, idx) == Proof(pair, hashes, index)
      decreases |level|
    {
      StepThenRest(pair, proof, level, idx);
      var siblingIdx := if idx % 2 == 0 then idx + 1 else idx - 1;
      if siblingIdx < |level| {
        proof := proof + [(level[siblingIdx], idx % 2 == 0)];
      }
      level := PairUp(pair, level);
      idx := idx / 2;
    }
  }

  method VerifyProof(pair: PairHash, leaf: Hash, proof: seq<Step>, root: Hash) returns (valid: bool)
    ensures valid <==> Climbed(pair, leaf, proof) == root
  {
    var current := leaf;
    for i := 0 to |proof|
      invariant current == Climbed(pair, leaf, proof[..i])
    {
      assert proof[..i + 1][..i] == proof[..i];
      var (sibling, isRight) := proof[i];
      current := if isRight then pair(current, sibling) else pair(sibling, current);
    }
    assert proof[..|proof|] == proof;
    valid := current == root;
  }

  // ---- the accumulator ----

  function Flatten(batches: seq<seq<Hash>>): seq<Hash> {
    if batches == [] then [] else Flatten(batches[..|batches| - 1]) + batches[|batches| - 1]
  }

  class BatchSigner {
    const pair: PairHash
    const sign: Hash -> Signature
    const batchSize: nat
    var pendingHashes: seq<Hash>
    var batchesSigned: nat
    ghost var closed: seq<seq<Hash>>

    /** A batch is closed as soon as it is full; closed batches are counted. */
    ghost predicate Valid()
      reads this
    {
      (pendingHashes == [] || |pendingHashes| < batchSize) && batchesSigned == |closed|
    }

    /** Every mutation added so far, in order. */
    ghost function Added(): seq<Hash>
      reads this
    {
      Flatten(closed) + pendingHashes
    }

    constructor (pair: PairHash, sign: Hash -> Signature, batchSize: nat)
      ensures Valid() && Added() == [] && closed == []
      ensures this.pair == pair && this.sign == sign && this.batchSize == batchSize
    {
      this.pair, this.sign, this.batchSize := pair, sign, batchSize;
      pendingHashes, batchesSigned, closed := [], 0, [];
    }

    /** Nothing added is lost or reordered; a signature is given exactly when the batch is full, and signs its root. */
    method AddMutation(mutationHash: Hash) returns (signature: Option<Signature>)
      requires Valid()
      modifies this
      ensures Valid() && Added() == old(Added()) + [mutationHash]
      ensures signature.Some? <==> |old(pendingHashes)| + 1 >= batchSize
      ensures signature.Some? ==>
        && closed == old(closed) + [old(pendingHashes) + [mutationHash]] && pendingHashes == []
        && signature.value == sign(Root(pair, closed[|closed| - 1]))
      ensures signature.None? ==> closed == old(closed)
    {
      pendingHashes := pendingHashes + [mutationHash];
      assert Added() == old(Added()) + [mutationHash];
      if |pendingHashes| >= batchSize {
        var sig := CloseBatch();
        signature := Some(sig);
      } else {
        signature := None;
      }
    }

    method CloseBatch() returns (signature: Signature)
      requires batchesSigned == |closed|
      modifies this
      ensures Valid() && pendingHashes == [] && closed == old(closed) + [old(pendingHashes)]
      ensures Added() == old(Added())
      ensures signature == sign(Root(pair, old(pendingHashes)))
    {
      var root := ComputeBatchRoot(pair, pendingHashes);
      signature := sign(root);
      closed := closed + [pendingHashes];
      assert closed[..|closed| - 1] == old(closed);
      pendingHashes := [];
      batchesSigned := batchesSigned + 1;
    }
  }
}
