/** One round of delta exchange among any number of replicas makes all of them equal. */
module FleetSync {
  import opened Dag
  import opened ReplicaSteps
  import opened CrdtEngine
  import opened DeltaSync

  /** The last store's node where several have one, over all stores. */
  ghost function Together(stores: seq<Nodes>): Nodes {
    if stores == [] then map[] else Together(stores[..|stores| - 1]) + stores[|stores| - 1]
  }

  ghost predicate PairwiseAgree(stores: seq<Nodes>) {
    forall i, j :: 0 <= i < |stores| && 0 <= j < |stores| ==> Agree(stores[i], stores[j])
  }

  /** `m` holds the nodes of all stores and no others. */
  ghost predicate UnitesAll(m: Nodes, stores: seq<Nodes>) {
    && (forall i :: 0 <= i < |stores| ==> Keeps(stores[i], m))
    && (forall h :: h in m ==> HeldBySome(stores, h))
  }

  ghost predicate HeldBySome(stores: seq<Nodes>, h: Hash) {
    exists i :: 0 <= i < |stores| && h in stores[i]
  }

  lemma {:induction false} TogetherUnites(stores: seq<Nodes>)
    requires PairwiseAgree(stores)
    ensures UnitesAll(Together(stores), stores)
  {
    if stores != [] {
      var n := |stores| - 1;
      var most, m := stores[..n], Together(stores);
      TogetherUnites(most);
      forall i | 0 <= i < n
        ensures Keeps(stores[i], m)
      {
        assert Keeps(most[i], Together(most)) && Agree(stores[i], stores[n]);
      }
      forall h | h in m
        ensures HeldBySome(stores, h)
      {
        if h !in stores[n] {
          var i :| 0 <= i < n && h in most[i];
          assert h in stores[i];
        }
      }
    }
  }

  /** The replicas are separate objects with one digest. */
  ghost predicate Fleet(engines: seq<MerkleCrdtEngine>) {
    forall i, j :: 0 <= i < j < |engines| ==>
      engines[i] != engines[j] && engines[i].arena != engines[j].arena && engines[i].digest == engines[j].digest
  }

  /** All stores before `i`, and its own one, are in the store of the replica, and nothing beyond `all` is. */
  ghost predicate Holding(store: Nodes, before: seq<Nodes>, all: Nodes, i: nat, own: nat)
    requires i <= |before| && own < |before|
  {
    && Keeps(store, all) && Keeps(before[own], store)
    && forall m :: 0 <= m < i ==> Keeps(before[m], store)
  }

  /** A replica in the round: it keeps what it had, and if the stores agreed it has taken over those before `i`. */
  ghost predicate InRound(e: MerkleCrdtEngine, before: seq<Nodes>, i: nat, own: nat)
    requires i <= |before| && own < |before|
    reads e, e.arena
  {
    && e.Valid() && Keeps(before[own], e.Stored())
    && (PairwiseAgree(before) ==> Whole(e) && Holding(e.Stored(), before, Together(before), i, own))
  }

  lemma OwnInRound(e: MerkleCrdtEngine, before: seq<Nodes>, i: nat)
    requires i < |before| && InRound(e, before, i, i)
    ensures InRound(e, before, i + 1, i)
  {
  }

  lemma PulledHolds(m: Nodes, theirs: Nodes, ours: Nodes, before: seq<Nodes>, all: Nodes, i: nat, own: nat)
    requires i < |before| && own < |before| && IsUnion(m, theirs, ours)
    requires Holding(theirs, before, all, i, own) && Holding(ours, before, all, i + 1, i)
    ensures Holding(m, before, all, i + 1, own)
  {
    forall k | 0 <= k < i + 1
      ensures Keeps(before[k], m)
    {
      assert Keeps(before[k], ours);
    }
  }

  lemma KeepsTrans(a: Nodes, b: Nodes, c: Nodes)
    requires Keeps(a, b) && Keeps(b, c)
    ensures Keeps(a, c)
  {
  }

  /** Replica `j` pulls from replica `i`, which has taken over all stores up to its own. */
  method PullFrom(src: MerkleCrdtEngine, dst: MerkleCrdtEngine, ghost before: seq<Nodes>, ghost i: nat, ghost j: nat)
    requires src != dst && src.arena != dst.arena && src.digest == dst.digest
    requires i < |before| && j < |before| && InRound(src, before, i + 1, i) && InRound(dst, before, i, j)
    modifies dst, dst.arena
    ensures InRound(src, before, i + 1, i) && InRound(dst, before, i + 1, j)
  {
    ghost var ours, theirs, all := src.Stored(), dst.Stored(), Together(before);
    if PairwiseAgree(before) { KeptAgree(ours, theirs, all); }
    PullDelta(src, dst);
    KeepsTrans(before[j], theirs, dst.Stored());
    if PairwiseAgree(before) { PulledHolds(dst.Stored(), theirs, ours, before, all, i, j); }
  }

  /** Up to how many stores replica `k` has taken over when row `i` reaches replica `j`. */
  function Stage(i: nat, j: nat, k: nat): nat {
    if k < j || k == i then i + 1 else i
  }

  ghost predicate RowReached(engines: seq<MerkleCrdtEngine>, before: seq<Nodes>, i: nat, j: nat)
    requires i < |engines| == |before|
    reads engines, set e | e in engines :: e.arena
  {
    forall k :: 0 <= k < |engines| ==> InRound(engines[k], before, Stage(i, j, k), k)
  }

  /** Everyone pulls from replica `i`. */
  method PullAllFrom(engines: seq<MerkleCrdtEngine>, i: nat, ghost before: seq<Nodes>)
    requires Fleet(engines) && i < |engines| == |before|
    requires forall j :: 0 <= j < |engines| ==> InRound(engines[j], before, i, j)
    modifies engines, set e | e in engines :: e.arena
    ensures forall j :: 0 <= j < |engines| ==> InRound(engines[j], before, i + 1, j)
  {
    OwnInRound(engines[i], before, i);
    for j := 0 to |engines|
      invariant RowReached(engines, before, i, j)
    {
      PullNext(engines, i, j, before);
    }
  }

  method PullNext(engines: seq<MerkleCrdtEngine>, i: nat, j: nat, ghost before: seq<Nodes>)
    requires Fleet(engines) && i < |engines| == |before| && j < |engines| && RowReached(engines, before, i, j)
    modifies engines, set e | e in engines :: e.arena
    ensures RowReached(engines, before, i, j + 1)
  {
    if j != i {
      Separate(engines, i, j);
      assert InRound(engines[i], before, Stage(i, j, i), i) && InRound(engines[j], before, Stage(i, j, j), j);
      label pull:
      PullFrom(engines[i], engines[j], before, i, j);
      forall k | 0 <= k < |engines|
        ensures InRound(engines[k], before, Stage(i, j + 1, k), k)
      {
        if k != j {
          Separate(engines, k, j);
          assert old@pull(InRound(engines[k], before, Stage(i, j, k), k));
        }
      }
    }
  }

  lemma Separate(engines: seq<MerkleCrdtEngine>, i: nat, j: nat)
    requires Fleet(engines) && i < |engines| && j < |engines| && i != j
    ensures engines[i] != engines[j] && engines[i].arena != engines[j].arena && engines[i].digest == engines[j].digest
  {
  }

  lemma SomeHoldsIt(all: Nodes, before: seq<Nodes>, h: Hash) returns (i: nat)
    requires UnitesAll(all, before) && h in all
    ensures i < |before| && h in before[i]
  {
    assert HeldBySome(before, h);
    i :| 0 <= i < |before| && h in before[i];
  }

  lemma HoldsKey(store: Nodes, before: seq<Nodes>, all: Nodes, own: nat, h: Hash)
    requires own < |before| && UnitesAll(all, before) && Holding(store, before, all, |before|, own) && h in all
    ensures h in store
  {
    var i := SomeHoldsIt(all, before, h);
    assert Keeps(before[i], store);
  }

  lemma SameKeys(a: Nodes, b: Nodes)
    requires Keeps(a, b) && b.Keys <= a.Keys
    ensures a == b
  {
  }

  lemma AllHeldIsAll(store: Nodes, before: seq<Nodes>, own: nat)
    requires own < |before| && PairwiseAgree(before) && Holding(store, before, Together(before), |before|, own)
    ensures store == Together(before)
  {
    var all := Together(before);
    TogetherUnites(before);
    forall h | h in all
      ensures h in store
    {
      HoldsKey(store, before, all, own, h);
    }
    SameKeys(store, all);
  }

  /**
   * One round in which every replica pulls from every other one leaves all replicas the same, with one root, exactly
   * when their stores agreed, and then each holds the union of all stores.
   */
  method SyncRound(engines: seq<MerkleCrdtEngine>, ghost before: seq<Nodes>)
    requires Fleet(engines) && |before| == |engines|
    requires forall i :: 0 <= i < |engines| ==>
      engines[i].Valid() && Whole(engines[i]) && engines[i].Stored() == before[i]
    modifies engines, set e | e in engines :: e.arena
    ensures forall i :: 0 <= i < |engines| ==> engines[i].Valid()
    ensures PairwiseAgree(before) <==>
      forall i, j :: 0 <= i < |engines| && 0 <= j < |engines| ==> engines[i].State() == engines[j].State()
    ensures PairwiseAgree(before) ==>
      forall i :: 0 <= i < |engines| ==> UnitesAll(engines[i].Stored(), before) && engines[i].AtFrontier()
  {
    if PairwiseAgree(before) { TogetherUnites(before); }
    for i := 0 to |engines|
      invariant forall j :: 0 <= j < |engines| ==> InRound(engines[j], before, i, j)
    {
      PullAllFrom(engines, i, before);
    }
    if PairwiseAgree(before) {
      forall j | 0 <= j < |engines|
        ensures engines[j].Stored() == Together(before) && engines[j].AtFrontier()
      {
        assert InRound(engines[j], before, |engines|, j);
        AllHeldIsAll(engines[j].Stored(), before, j);
      }
    }
    if forall i, j :: 0 <= i < |engines| && 0 <= j < |engines| ==> engines[i].State() == engines[j].State() {
      forall i, j | 0 <= i < |engines| && 0 <= j < |engines|
        ensures Agree(before[i], before[j])
      {
        assert InRound(engines[i], before, |engines|, i) && InRound(engines[j], before, |engines|, j);
        assert engines[i].State() == engines[j].State();
        KeptAgree(before[i], before[j], engines[i].Stored());
      }
    }
  }
}
