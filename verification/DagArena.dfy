/** The arena of DAG nodes: a slab of nodes and a hash index that always name each other. */
module DagArenas {
  import opened Bags
  import opened Dag

  type Slab = map<nat, DagNode>
  type Index = map<Hash, nat>

  /** Slot `i` belongs to some hash. */
  ghost predicate Owned(index: Index, i: nat) {
    exists h :: h in index && index[h] == i
  }

  /** Every hash has its own occupied slot, every occupied slot its hash. */
  ghost predicate Bijection(slab: Slab, index: Index) {
    && (forall h :: h in index ==> index[h] in slab)
    && (forall h, h' :: h in index && h' in index && index[h] == index[h'] ==> h == h')
    && (forall i :: i in slab ==> Owned(index, i))
  }

  /** The stored nodes by hash. */
  ghost function Stored(slab: Slab, index: Index): Nodes
    requires Bijection(slab, index)
  {
    map h | h in index :: slab[index[h]]
  }

  lemma InsertKeeps(slab: Slab, index: Index, h: Hash, i: nat, n: DagNode)
    requires Bijection(slab, index) && h !in index && i !in slab
    ensures Bijection(slab[i := n], index[h := i])
    ensures Stored(slab[i := n], index[h := i]) == Stored(slab, index)[h := n]
  {
    var index' := index[h := i];
    forall j | j in slab[i := n]
      ensures Owned(index', j)
    {
      if j == i {
        assert index'[h] == j;
      } else {
        assert Owned(index, j);
        var k :| k in index && index[k] == j;
        assert k in index' && index'[k] == j;
      }
    }
  }

  lemma RemoveKeeps(slab: Slab, index: Index, h: Hash)
    requires Bijection(slab, index) && h in index
    ensures Bijection(slab - {index[h]}, index - {h})
    ensures Stored(slab - {index[h]}, index - {h}) == Stored(slab, index) - {h}
  {
    var index' := index - {h};
    forall j | j in slab - {index[h]}
      ensures Owned(index', j)
    {
      assert Owned(index, j);
      var k :| k in index && index[k] == j;
      assert k in index' && index'[k] == j;
    }
  }

  lemma RemovedSize<T>(m: map<nat, T>, k: nat)
    requires k in m
    ensures |m - {k}| == |m| - 1
  {
    assert (m - {k}).Keys == m.Keys - {k};
    assert |m - {k}| == |(m - {k}).Keys| && |m| == |m.Keys|;
  }

  lemma EmptySlab(slab: Slab, index: Index)
    requires Bijection(slab, index) && index == map[]
    ensures slab == map[]
  {
    assert forall i {:trigger Owned(index, i)} :: i in slab ==> Owned(index, i);
    assert forall i :: !Owned(index, i);
  }

  /** The slab holds as many nodes as the index names. */
  lemma {:induction false} SameSize(slab: Slab, index: Index)
    requires Bijection(slab, index)
    ensures |slab| == |index|
    decreases |index|
  {
    if index == map[] {
      EmptySlab(slab, index);
    } else {
      var h :| h in index;
      RemoveKeeps(slab, index, h);
      RemovedSize(slab, index[h]);
      RemovedSize(index, h);
      SameSize(slab - {index[h]}, index - {h});
    }
  }

  lemma StoredSize(slab: Slab, index: Index)
    requires Bijection(slab, index)
    ensures |Stored(slab, index)| == |index|
  {
    assert Stored(slab, index).Keys == index.Keys;
    assert |Stored(slab, index)| == |index.Keys| && |index| == |index.Keys|;
  }

  lemma RemainingSize<T>(m: map<nat, T>, s: set<nat>)
    requires s <= m.Keys
    ensures |m - s| == |m| - |s|
  {
    assert (m - s).Keys == m.Keys - s;
    assert |m - s| == |(m - s).Keys| && |m| == |m.Keys|;
  }

  lemma MinusMore<T>(m: map<nat, T>, done: set<nat>, x: nat)
    ensures m - done - {x} == m - (done + {x})
  {
  }

  lemma PartMoves(all: set<nat>, done: set<nat>, x: nat)
    requires done <= all && x in all - done
    ensures all - done - {x} == all - (done + {x})
  {
  }

  class DagArena {
    var slab: Slab
    var hashToIndex: Index

    ghost predicate Valid()
      reads this
    {
      Bijection(slab, hashToIndex)
    }

    ghost function Contents(): Nodes
      reads this
      requires Valid()
    {
      Stored(slab, hashToIndex)
    }

    constructor ()
      ensures Valid() && Contents() == map[]
    {
      slab, hashToIndex := map[], map[];
    }

    /** The slab hands out some vacant slot. */
    method VacantSlot() returns (index: nat)
      ensures index !in slab
    {
      index := 0;
      ghost var rest := slab.Keys;
      while index in slab
        invariant forall i :: i in rest <==> i in slab && index <= i
        decreases rest
      {
        rest := rest - {index};
        index := index + 1;
      }
    }

    /** Store a node unless its hash is known; either way return its slot, and move nothing else. */
    method Insert(hash: Hash, node: DagNode) returns (index: nat, inserted: bool)
      requires Valid()
      modifies this
      ensures Valid() && inserted == (hash !in old(Contents()))
      ensures Contents() == if inserted then old(Contents())[hash := node] else old(Contents())
      ensures hashToIndex == old(hashToIndex)[hash := index]
    {
      if hash in hashToIndex {
        index, inserted := hashToIndex[hash], false;
        assert hashToIndex[hash := index] == hashToIndex;
        return;
      }
      index := VacantSlot();
      inserted := true;
      InsertKeeps(slab, hashToIndex, hash, index, node);
      slab := slab[index := node];
      hashToIndex := hashToIndex[hash := index];
    }

    method GetByHash(hash: Hash) returns (node: Option<DagNode>)
      requires Valid()
      ensures node == if hash in Contents() then Some(Contents()[hash]) else None
    {
      node := if hash in hashToIndex then Some(slab[hashToIndex[hash]]) else None;
    }

    /** A slot is occupied exactly if some hash owns it, and then holds that hash's node. */
    method GetByIndex(index: nat) returns (node: Option<DagNode>)
      requires Valid()
      ensures node.Some? <==> Owned(hashToIndex, index)
      ensures forall h :: h in hashToIndex && hashToIndex[h] == index ==> node == Some(Contents()[h])
    {
      node := if index in slab then Some(slab[index]) else None;
    }

    method Contains(hash: Hash) returns (found: bool)
      requires Valid()
      ensures found == (hash in Contents())
    {
      found := hash in hashToIndex;
    }

    method Len() returns (n: nat)
      requires Valid()
      ensures n == |Contents()|
    {
      SameSize(slab, hashToIndex);
      StoredSize(slab, hashToIndex);
      n := |slab|;
    }

    /** Drop every node whose hash is not in `keep`; report how many were dropped. */
    method Retain(keep: set<Hash>) returns (removed: nat)
      requires Valid()
      modifies this
      ensures Valid()
      ensures Contents() == old(Contents()) - (old(Contents()).Keys - keep)
      ensures hashToIndex == old(hashToIndex) - (old(Contents()).Keys - keep)
      ensures removed == |old(Contents())| - |Contents()|
    {
      var toRemove := set h | h in hashToIndex && h !in keep;
      assert toRemove == Contents().Keys - keep;
      RemainingSize(Contents(), toRemove);
      removed := |toRemove|;
      RemoveAll(toRemove);
    }

    method RemoveAll(toRemove: set<Hash>)
      requires Valid() && toRemove <= Contents().Keys
      modifies this
      ensures Valid()
      ensures Contents() == old(Contents()) - toRemove && hashToIndex == old(hashToIndex) - toRemove
    {
      var remaining := toRemove;
      ghost var done := {};
      ghost var nodes, index := Contents(), hashToIndex;
      while remaining != {}
        invariant Valid() && done <= toRemove && remaining == toRemove - done
        invariant Contents() == nodes - done && hashToIndex == index - done
        decreases remaining
      {
        var hash :| hash in remaining;
        RemoveOne(hash);
        MinusMore(nodes, done, hash);
        MinusMore(index, done, hash);
        PartMoves(toRemove, done, hash);
        remaining, done := remaining - {hash}, done + {hash};
      }
      assert done == toRemove;
    }

    method RemoveOne(hash: Hash)
      requires Valid() && hash in hashToIndex
      modifies this
      ensures Valid() && hashToIndex == old(hashToIndex) - {hash}
      ensures Contents() == old(Contents()) - {hash}
    {
      RemoveKeeps(slab, hashToIndex, hash);
      var index := hashToIndex[hash];
      hashToIndex := hashToIndex - {hash};
      slab := slab - {index};
    }

    method Clear()
      requires Valid()
      modifies this
      ensures Valid() && Contents() == map[]
    {
      slab, hashToIndex := map[], map[];
    }
  }
}
