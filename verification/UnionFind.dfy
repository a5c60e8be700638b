/** Union-find with path halving on an array of parents, as nested in `correlation_groups`. */
module UnionFind {

  /** Element `x` is a root, or its parent is closer to the same root: the potential `pot` strictly drops. */
  ghost predicate Hangs(parent: seq<nat>, root: seq<nat>, pot: seq<nat>, x: nat)
    requires |root| == |parent| == |pot| && x < |parent|
  {
    && parent[x] < |parent| && root[x] < |parent|
    && parent[root[x]] == root[x]
    && root[parent[x]] == root[x]
    && (if parent[x] == x then root[x] == x else pot[parent[x]] < pot[x])
  }

  /** `parent` is a forest and `root` gives the root of every element. */
  ghost predicate Forest(parent: seq<nat>, root: seq<nat>, pot: seq<nat>) {
    && |root| == |parent| == |pot|
    && forall x :: 0 <= x < |parent| ==> Hangs(parent, root, pot, x)
  }

  lemma HalvingKeepsForest(parent: seq<nat>, root: seq<nat>, pot: seq<nat>, x: nat)
    requires Forest(parent, root, pot) && x < |parent| && parent[x] != x && parent[x] < |parent|
    ensures Forest(parent[x := parent[parent[x]]], root, pot)
  {
    var p := parent[x];
    assert Hangs(parent, root, pot, x) && Hangs(parent, root, pot, p);
    var next := parent[x := parent[p]];
    forall y | 0 <= y < |parent|
      ensures Hangs(next, root, pot, y)
    {
      assert Hangs(parent, root, pot, y);
    }
  }

  /** Follow parents to the root, halving the path on the way. Roots and potentials are untouched. */
  method Find(parent: array<nat>, x: nat, ghost root: seq<nat>, ghost pot: seq<nat>) returns (r: nat)
    requires Forest(parent[..], root, pot) && x < parent.Length
    modifies parent
    ensures Forest(parent[..], root, pot)
    ensures r == root[x] && r < parent.Length && parent[r] == r
  {
    r := x;
    assert Hangs(parent[..], root, pot, x);
    while parent[r] != r
      invariant Forest(parent[..], root, pot) && r < parent.Length
      invariant root[r] == root[x]
      decreases pot[r]
    {
      assert Hangs(parent[..], root, pot, r);
      assert Hangs(parent[..], root, pot, parent[r]);
      HalvingKeepsForest(parent[..], root, pot, r);
      ghost var halved := parent[..][r := parent[parent[r]]];
      ghost var p := parent[r];
      assert p < parent.Length && pot[p] < pot[r] && (parent[p] == p || pot[parent[p]] < pot[p]);
      parent[r] := parent[parent[r]];
      assert parent[..] == halved;
      r := parent[r];
    }
    assert Hangs(parent[..], root, pot, r);
  }

  /** The roots after hanging the root `ri` below the root `rj`. */
  ghost function Rerooted(root: seq<nat>, ri: nat, rj: nat): seq<nat> {
    seq(|root|, x requires 0 <= x < |root| => if root[x] == ri then rj else root[x])
  }

  ghost function Raised(root: seq<nat>, pot: seq<nat>, ri: nat, rj: nat): seq<nat>
    requires |root| == |pot| && rj < |pot|
  {
    seq(|pot|, x requires 0 <= x < |pot| => if root[x] == ri then pot[x] + pot[rj] + 1 else pot[x])
  }

  lemma LinkKeepsForest(parent: seq<nat>, root: seq<nat>, pot: seq<nat>, ri: nat, rj: nat)
    requires Forest(parent, root, pot) && ri < |parent| && rj < |parent| && ri != rj
    requires parent[ri] == ri && parent[rj] == rj
    ensures Forest(parent[ri := rj], Rerooted(root, ri, rj), Raised(root, pot, ri, rj))
  {
    var next, root', pot' := parent[ri := rj], Rerooted(root, ri, rj), Raised(root, pot, ri, rj);
    assert Hangs(parent, root, pot, ri) && Hangs(parent, root, pot, rj);
    forall y | 0 <= y < |parent|
      ensures Hangs(next, root', pot', y)
    {
      assert Hangs(parent, root, pot, y);
    }
  }
}
