/** Votes on prompts: what every sequence of observations keeps, and when two managers can disagree. */
module Voting {
  import opened Bags
  import opened Dag

  type Voter = nat

  /** For each prompt hash and decision hash the voters; and the prompts that reached quorum. */
  datatype Tally = Tally(decisions: map<Hash, map<Hash, set<Voter>>>, verified: set<Hash>)

  /** One observation; `barred` if the voter was on the deny list at that moment. */
  datatype Ballot = Ballot(voter: Voter, prompt: Hash, decision: Hash, barred: bool)

  const EmptyTally := Tally(map[], {})

  function Entry(t: Tally, p: Hash): map<Hash, set<Voter>> {
    if p in t.decisions then t.decisions[p] else map[]
  }

  function Voters(t: Tally, p: Hash, d: Hash): set<Voter> {
    if d in Entry(t, p) then Entry(t, p)[d] else {}
  }

  predicate HasVoted(t: Tally, p: Hash, v: Voter) {
    exists d :: d in Entry(t, p) && v in Entry(t, p)[d]
  }

  /** Verified prompts, barred voters and repeated voters are ignored; any other vote is added and may verify. */
  function Counted(threshold: nat, t: Tally, b: Ballot): Tally {
    if b.prompt in t.verified || b.barred then t
    else if HasVoted(t, b.prompt, b.voter) then t
    else
      var voters := Voters(t, b.prompt, b.decision) + {b.voter};
      Tally(t.decisions[b.prompt := Entry(t, b.prompt)[b.decision := voters]],
            if |voters| >= threshold then t.verified + {b.prompt} else t.verified)
  }

  function After(threshold: nat, bs: seq<Ballot>): Tally {
    if bs == [] then EmptyTally else Counted(threshold, After(threshold, bs[..|bs| - 1]), bs[|bs| - 1])
  }

  lemma OneMoreBallot(threshold: nat, bs: seq<Ballot>, b: Ballot)
    ensures After(threshold, bs + [b]) == Counted(threshold, After(threshold, bs), b)
  {
    assert (bs + [b])[..|bs|] == bs;
  }

  /** Decision `d` has voters on prompt `p`, and at least as many as the threshold. */
  ghost predicate Quorate(threshold: nat, t: Tally, p: Hash, d: Hash) {
    Voters(t, p, d) != {} && |Voters(t, p, d)| >= threshold
  }

  // ---- one manager ----

  ghost predicate OneVoteEach(t: Tally) {
    forall p, d, d', v :: v in Voters(t, p, d) && v in Voters(t, p, d') ==> d == d'
  }

  /** A prompt is verified exactly if one and only one decision holds a quorum. */
  ghost predicate VerifiedIffQuorum(threshold: nat, t: Tally) {
    && (forall p :: p in t.verified ==> exists d :: Quorate(threshold, t, p, d))
    && (forall p, d :: Quorate(threshold, t, p, d) ==> p in t.verified)
    && (forall p, d, d' :: Quorate(threshold, t, p, d) && Quorate(threshold, t, p, d') ==> d == d')
  }

  /** Only the voters of the ballot's prompt and decision change, and only by this voter. */
  lemma CountedVoters(threshold: nat, t: Tally, b: Ballot, p: Hash, d: Hash)
    ensures Voters(Counted(threshold, t, b), p, d) ==
      if (p, d) == (b.prompt, b.decision) && p !in t.verified && !b.barred && !HasVoted(t, p, b.voter)
      then Voters(t, p, d) + {b.voter} else Voters(t, p, d)
  {
  }

  lemma VotedIff(t: Tally, p: Hash, v: Voter)
    ensures HasVoted(t, p, v) <==> exists d :: v in Voters(t, p, d)
  {
    if d :| v in Voters(t, p, d) {
      assert d in Entry(t, p) && v in Entry(t, p)[d];
    }
    if HasVoted(t, p, v) {
      var d :| d in Entry(t, p) && v in Entry(t, p)[d];
      assert v in Voters(t, p, d);
    }
  }

  lemma CountKeepsOneVote(threshold: nat, t: Tally, b: Ballot)
    requires OneVoteEach(t)
    ensures OneVoteEach(Counted(threshold, t, b))
  {
    var t' := Counted(threshold, t, b);
    forall p, d, d', v | v in Voters(t', p, d) && v in Voters(t', p, d')
      ensures d == d'
    {
      CountedVoters(threshold, t, b, p, d);
      CountedVoters(threshold, t, b, p, d');
      VotedIff(t, p, b.voter);
    }
  }

  lemma CountKeepsQuorum(threshold: nat, t: Tally, b: Ballot)
    requires VerifiedIffQuorum(threshold, t)
    ensures VerifiedIffQuorum(threshold, Counted(threshold, t, b))
  {
    var t' := Counted(threshold, t, b);
    if b.prompt !in t.verified && !b.barred && !HasVoted(t, b.prompt, b.voter) {
      VoteCounts(threshold, t, b);
      forall p: Hash, d: Hash
        ensures (p, d) != (b.prompt, b.decision) ==> (Quorate(threshold, t', p, d) <==> Quorate(threshold, t, p, d))
      {
        CountedVoters(threshold, t, b, p, d);
      }
      assert forall d :: !Quorate(threshold, t, b.prompt, d);
      forall p | p in t'.verified
        ensures exists d :: Quorate(threshold, t', p, d)
      {
        if p == b.prompt {
          assert Quorate(threshold, t', p, b.decision);
        } else {
          var d :| Quorate(threshold, t, p, d);
          assert Quorate(threshold, t', p, d);
        }
      }
    }
  }

  /** Over every run: one vote per voter and prompt, and verified means a unique quorum. */
  lemma {:induction false} QuorumIsUnique(threshold: nat, bs: seq<Ballot>)
    ensures OneVoteEach(After(threshold, bs)) && VerifiedIffQuorum(threshold, After(threshold, bs))
  {
    if bs != [] {
      var t := After(threshold, bs[..|bs| - 1]);
      QuorumIsUnique(threshold, bs[..|bs| - 1]);
      CountKeepsOneVote(threshold, t, bs[|bs| - 1]);
      CountKeepsQuorum(threshold, t, bs[|bs| - 1]);
    } else {
      assert forall p, d :: Voters(EmptyTally, p, d) == {};
    }
  }

  /** The ballot was cast. */
  ghost predicate Cast(bs: seq<Ballot>, v: Voter, p: Hash, d: Hash) {
    exists b :: b in bs && b.voter == v && b.prompt == p && b.decision == d && !b.barred
  }

  /** Voters counted for a decision cast a ballot for it. */
  lemma {:induction false} CountedWereCast(threshold: nat, bs: seq<Ballot>, p: Hash, d: Hash, v: Voter)
    requires v in Voters(After(threshold, bs), p, d)
    ensures Cast(bs, v, p, d)
  {
    if bs != [] {
      var most, b := bs[..|bs| - 1], bs[|bs| - 1];
      CountedVoters(threshold, After(threshold, most), b, p, d);
      if v in Voters(After(threshold, most), p, d) {
        CountedWereCast(threshold, most, p, d, v);
        var c :| c in most && c.voter == v && c.prompt == p && c.decision == d && !c.barred;
        assert c in bs;
      } else {
        assert b in bs;
      }
    }
  }

  /** Voter `v` cast a ballot on prompt `p` that was not barred. */
  ghost predicate Spoke(bs: seq<Ballot>, v: Voter, p: Hash) {
    exists b :: b in bs && b.voter == v && b.prompt == p && !b.barred
  }

  /** Before a prompt is verified, the counted voters are exactly those who spoke. */
  lemma {:induction false} VotedIffSpoke(threshold: nat, bs: seq<Ballot>, p: Hash, v: Voter)
    requires p !in After(threshold, bs).verified
    ensures HasVoted(After(threshold, bs), p, v) <==> Spoke(bs, v, p)
  {
    if bs != [] {
      var most, b := bs[..|bs| - 1], bs[|bs| - 1];
      var t := After(threshold, most);
      VotedIffSpoke(threshold, most, p, v);
      assert forall c :: c in bs <==> c in most || c == b;
      VotedIff(t, p, v);
      VotedIff(After(threshold, bs), p, v);
      forall d
        ensures v in Voters(After(threshold, bs), p, d)
          <==> (v in Voters(t, p, d) || (b == Ballot(v, p, d, false) && !HasVoted(t, p, v)))
      {
        CountedVoters(threshold, t, b, p, d);
      }
      if b.voter == v && b.prompt == p && !b.barred && !HasVoted(t, p, v) {
        assert v in Voters(After(threshold, bs), p, b.decision);
      }
    }
  }

  /** The ballot at `i` is the voter's first on the prompt that is not barred, and the prompt is still open there. */
  ghost predicate CountsAt(threshold: nat, bs: seq<Ballot>, i: nat, p: Hash, d: Hash, v: Voter) {
    i < |bs| && bs[i] == Ballot(v, p, d, false) && !Spoke(bs[..i], v, p) && p !in After(threshold, bs[..i]).verified
  }

  /** Counted for a decision are those whose first ballot on the prompt that is not barred is for it, and in time. */
  lemma {:induction false} CountedIff(threshold: nat, bs: seq<Ballot>, p: Hash, d: Hash, v: Voter)
    ensures v in Voters(After(threshold, bs), p, d) <==> exists i :: CountsAt(threshold, bs, i, p, d, v)
  {
    if bs != [] {
      var n: nat := |bs| - 1;
      var most, t := bs[..n], After(threshold, bs[..n]);
      CountedIff(threshold, most, p, d, v);
      CountedVoters(threshold, t, bs[n], p, d);
      if p !in t.verified { VotedIffSpoke(threshold, most, p, v); }
      forall i: nat | i < n
        ensures CountsAt(threshold, bs, i, p, d, v) <==> CountsAt(threshold, most, i, p, d, v)
      {
        assert most[..i] == bs[..i];
      }
      if v in Voters(After(threshold, bs), p, d) {
        if v in Voters(t, p, d) {
          var i :| CountsAt(threshold, most, i, p, d, v);
          assert CountsAt(threshold, bs, i, p, d, v);
        } else {
          assert CountsAt(threshold, bs, n, p, d, v);
        }
      }
      if i: nat :| CountsAt(threshold, bs, i, p, d, v) {
        assert i < n ==> CountsAt(threshold, most, i, p, d, v);
      }
    }
  }

  // ---- two managers ----

  /** The voter cast ballots for two decisions on the prompt, at either manager. */
  ghost predicate TwoFaced(xs: seq<Ballot>, ys: seq<Ballot>, p: Hash, v: Voter) {
    exists d, d' :: d != d' && (Cast(xs, v, p, d) || Cast(ys, v, p, d)) && (Cast(xs, v, p, d') || Cast(ys, v, p, d'))
  }

  /** All ballots on `p` at either manager come from `electorate`, and only `faulty` voters are two-faced. */
  ghost predicate Election(electorate: set<Voter>, faulty: set<Voter>, xs: seq<Ballot>, ys: seq<Ballot>, p: Hash) {
    && (forall v, d :: Cast(xs, v, p, d) || Cast(ys, v, p, d) ==> v in electorate)
    && (forall v :: TwoFaced(xs, ys, p, v) ==> v in faulty)
  }

  lemma SizesAdd<T>(a: set<T>, b: set<T>, all: set<T>, common: set<T>)
    requires a <= all && b <= all && a * b <= common
    ensures |a| + |b| <= |all| + |common|
  {
    SubsetSize(a + b, all);
    SubsetSize(a * b, common);
    assert |a + b| + |a * b| == |a| + |b|;
  }

  lemma {:induction false} SubsetSize<T>(a: set<T>, b: set<T>)
    requires a <= b
    ensures |a| <= |b|
  {
    if a != {} {
      var x :| x in a;
      SubsetSize(a - {x}, b - {x});
    }
  }

  /**
   * With more than half of (voters + two-faced voters) as threshold, two managers never verify different decisions,
   * whatever each saw, in whatever order, and whomever each barred.
   */
  lemma ManagersAgree(threshold: nat, electorate: set<Voter>, faulty: set<Voter>, xs: seq<Ballot>, ys: seq<Ballot>,
                      p: Hash, d: Hash, d': Hash)
    requires 2 * threshold > |electorate| + |faulty|
    requires Election(electorate, faulty, xs, ys, p)
    requires Quorate(threshold, After(threshold, xs), p, d) && Quorate(threshold, After(threshold, ys), p, d')
    ensures d == d'
  {
    var a, b := Voters(After(threshold, xs), p, d), Voters(After(threshold, ys), p, d');
    if d != d' {
      forall v | v in a
        ensures v in electorate && Cast(xs, v, p, d)
      {
        CountedWereCast(threshold, xs, p, d, v);
      }
      forall v | v in b
        ensures v in electorate && Cast(ys, v, p, d')
      {
        CountedWereCast(threshold, ys, p, d', v);
      }
      forall v | v in a * b
        ensures v in faulty
      {
        assert TwoFaced(xs, ys, p, v);
      }
      SizesAdd(a, b, electorate, faulty);
    }
  }

  // ---- the bound is exact ----

  /** These voters vote for `d` on `p`, in order. */
  function Block(vs: seq<Voter>, p: Hash, d: Hash): seq<Ballot> {
    seq(|vs|, i requires 0 <= i < |vs| => Ballot(vs[i], p, d, false))
  }

  function SetOf(vs: seq<Voter>): set<Voter> {
    set v | v in vs
  }

  lemma SetSnoc(vs: seq<Voter>)
    requires vs != []
    ensures SetOf(vs) == SetOf(vs[..|vs| - 1]) + {vs[|vs| - 1]}
  {
    assert vs == vs[..|vs| - 1] + [vs[|vs| - 1]];
  }

  lemma {:induction false} SetSize(vs: seq<Voter>)
    requires Distinct(vs)
    ensures |SetOf(vs)| == |vs|
  {
    if vs != [] {
      SetSize(vs[..|vs| - 1]);
      SetSnoc(vs);
    }
  }

  lemma NotYetVoted(threshold: nat, bs: seq<Ballot>, p: Hash, v: Voter)
    requires forall b :: b in bs ==> b.voter != v
    ensures !HasVoted(After(threshold, bs), p, v)
  {
    VotedIff(After(threshold, bs), p, v);
    forall d
      ensures v !in Voters(After(threshold, bs), p, d)
    {
      if v in Voters(After(threshold, bs), p, d) { CountedWereCast(threshold, bs, p, d, v); }
    }
  }

  lemma VoteCounts(threshold: nat, t: Tally, b: Ballot)
    requires b.prompt !in t.verified && !b.barred && !HasVoted(t, b.prompt, b.voter)
    ensures var voters := Voters(t, b.prompt, b.decision) + {b.voter};
      && Voters(Counted(threshold, t, b), b.prompt, b.decision) == voters
      && (b.prompt in Counted(threshold, t, b).verified <==> |voters| >= threshold)
  {
  }

  lemma BlockEnds(vs: seq<Voter>, p: Hash, d: Hash)
    requires vs != [] && Distinct(vs)
    ensures Block(vs, p, d)[..|vs| - 1] == Block(vs[..|vs| - 1], p, d) && Distinct(vs[..|vs| - 1])
    ensures forall b :: b in Block(vs[..|vs| - 1], p, d) ==> b.voter != vs[|vs| - 1]
  {
  }

  /** The votes that are still counted: up to the threshold, and one if it is zero. */
  function Counting(threshold: nat, vs: seq<Voter>): seq<Voter> {
    vs[..if |vs| <= threshold then |vs| else if threshold == 0 then 1 else threshold]
  }

  /** Exactly the counting voters are counted, and the prompt is verified if they reach the threshold. */
  ghost predicate Unanimous(threshold: nat, t: Tally, vs: seq<Voter>, p: Hash, d: Hash) {
    && Voters(t, p, d) == SetOf(Counting(threshold, vs))
    && (p in t.verified <==> vs != [] && |vs| >= threshold)
  }

  lemma CountingNext(threshold: nat, vs: seq<Voter>)
    requires vs != []
    ensures var n := |vs| - 1;
      if n == 0 || n < threshold then Counting(threshold, vs[..n]) == vs[..n] && Counting(threshold, vs) == vs
      else Counting(threshold, vs) == Counting(threshold, vs[..n])
  {
  }

  lemma OneMoreVote(threshold: nat, t: Tally, vs: seq<Voter>, p: Hash, d: Hash)
    requires vs != [] && Distinct(vs) && Unanimous(threshold, t, vs[..|vs| - 1], p, d)
    requires !HasVoted(t, p, vs[|vs| - 1])
    ensures Unanimous(threshold, Counted(threshold, t, Ballot(vs[|vs| - 1], p, d, false)), vs, p, d)
  {
    CountingNext(threshold, vs);
    if p !in t.verified {
      VoteCounts(threshold, t, Ballot(vs[|vs| - 1], p, d, false));
      SetSnoc(vs);
      SetSize(vs);
    }
  }

  /**
   * Unanimous votes of distinct voters, in any order, are all counted until the threshold, and reaching it is what
   * verifies.
   */
  lemma {:induction false} UnanimousVote(threshold: nat, vs: seq<Voter>, p: Hash, d: Hash)
    requires Distinct(vs)
    ensures Voters(After(threshold, Block(vs, p, d)), p, d) == SetOf(Counting(threshold, vs))
    ensures p in After(threshold, Block(vs, p, d)).verified <==> vs != [] && |vs| >= threshold
  {
    if vs != [] {
      var n := |vs| - 1;
      BlockEnds(vs, p, d);
      UnanimousVote(threshold, vs[..n], p, d);
      NotYetVoted(threshold, Block(vs[..n], p, d), p, vs[n]);
      OneMoreVote(threshold, After(threshold, Block(vs[..n], p, d)), vs, p, d);
    }
  }

  lemma BlockQuorate(threshold: nat, vs: seq<Voter>, p: Hash, d: Hash)
    requires Distinct(vs) && |vs| == threshold >= 1
    ensures Quorate(threshold, After(threshold, Block(vs, p, d)), p, d)
  {
    UnanimousVote(threshold, vs, p, d);
    assert Counting(threshold, vs) == vs;
    SetSize(vs);
  }

  lemma BlockCasts(vs: seq<Voter>, p: Hash, d: Hash, v: Voter, q: Hash, x: Hash)
    requires Cast(Block(vs, p, d), v, q, x)
    ensures v in vs && q == p && x == d
  {
  }

  function Range(lo: nat, hi: nat): seq<Voter>
    requires lo <= hi
  {
    seq(hi - lo, i requires 0 <= i < hi - lo => lo + i)
  }

  /**
   * With a threshold of at most half of (voters + two-faced voters), two managers can verify two different
   * decisions: `n` voters suffice, at most `f` of them two-faced.
   */
  lemma ManagersMayDisagree(threshold: nat, n: nat, f: nat, p: Hash, d: Hash, d': Hash)
    returns (electorate: set<Voter>, faulty: set<Voter>, xs: seq<Ballot>, ys: seq<Ballot>)
    requires 1 <= threshold <= n && 2 * threshold <= n + f && d != d'
    ensures Election(electorate, faulty, xs, ys, p) && |faulty| <= f && |electorate| == n
    ensures Quorate(threshold, After(threshold, xs), p, d) && Quorate(threshold, After(threshold, ys), p, d')
  {
    var lo := n - threshold;
    faulty := Overlap(lo, threshold);
    electorate, xs, ys := Electorate(threshold, n, p, d, d', faulty);
    RangeQuorate(threshold, 0, p, d);
    RangeQuorate(threshold, lo, p, d');
  }

  lemma Overlap(lo: nat, hi: nat) returns (s: set<Voter>)
    ensures |s| <= if lo <= hi then hi - lo else 0
    ensures forall v :: lo <= v < hi ==> v in s
  {
    if lo <= hi {
      s := SetOf(Range(lo, hi));
      RangeMembers(lo, hi);
    } else {
      s := {};
    }
  }

  lemma Electorate(threshold: nat, n: nat, p: Hash, d: Hash, d': Hash, faulty: set<Voter>)
    returns (electorate: set<Voter>, xs: seq<Ballot>, ys: seq<Ballot>)
    requires threshold <= n && forall v :: n - threshold <= v < threshold ==> v in faulty
    ensures xs == Block(Range(0, threshold), p, d) && ys == Block(Range(n - threshold, n), p, d')
    ensures Election(electorate, faulty, xs, ys, p) && |electorate| == n
  {
    electorate := SetOf(Range(0, n));
    xs, ys := Block(Range(0, threshold), p, d), Block(Range(n - threshold, n), p, d');
    RangeMembers(0, n);
    BlocksElect(threshold, n, p, d, d', faulty);
  }

  lemma RangeQuorate(threshold: nat, lo: nat, p: Hash, d: Hash)
    requires threshold >= 1
    ensures Quorate(threshold, After(threshold, Block(Range(lo, lo + threshold), p, d)), p, d)
  {
    RangeMembers(lo, lo + threshold);
    BlockQuorate(threshold, Range(lo, lo + threshold), p, d);
  }

  lemma InRange(lo: nat, hi: nat, v: Voter)
    requires lo <= hi
    ensures v in Range(lo, hi) <==> lo <= v < hi
  {
    if lo <= v < hi { assert Range(lo, hi)[v - lo] == v; }
  }

  lemma RangeMembers(lo: nat, hi: nat)
    requires lo <= hi
    ensures Distinct(Range(lo, hi)) && |SetOf(Range(lo, hi))| == hi - lo
    ensures forall v :: lo <= v < hi ==> v in SetOf(Range(lo, hi))
  {
    forall v | lo <= v < hi ensures v in SetOf(Range(lo, hi)) { InRange(lo, hi, v); }
    SetSize(Range(lo, hi));
  }

  lemma BlocksElect(threshold: nat, n: nat, p: Hash, d: Hash, d': Hash, faulty: set<Voter>)
    requires threshold <= n
    requires forall v :: n - threshold <= v < threshold ==> v in faulty
    ensures Election(SetOf(Range(0, n)), faulty, Block(Range(0, threshold), p, d),
                     Block(Range(n - threshold, n), p, d'), p)
  {
    var xs, ys := Block(Range(0, threshold), p, d), Block(Range(n - threshold, n), p, d');
    forall v: Voter, x: Hash | Cast(xs, v, p, x)
      ensures v < threshold && x == d && v in Range(0, n)
    {
      BlockCasts(Range(0, threshold), p, d, v, p, x);
      InRange(0, n, v);
    }
    forall v: Voter, x: Hash | Cast(ys, v, p, x)
      ensures n - threshold <= v < n && x == d' && v in Range(0, n)
    {
      BlockCasts(Range(n - threshold, n), p, d', v, p, x);
      InRange(0, n, v);
    }
  }
}
