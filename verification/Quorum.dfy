/** The quorum manager: votes on prompts and the deny list, updated in place. */
module Quorum {
  import opened Bags
  import opened Dag
  import Voting
  import DenyList

  class QuorumManager {
    const threshold: nat
    const hash: Text -> Hash
    const hex: Voting.Voter -> Text
    var decisions: map<Hash, map<Hash, set<Voting.Voter>>>
    var verified: set<Hash>
    var denied: set<Text>
    var equivocationProofs: seq<DenyList.Proof>
    var observedTicks: map<(Text, nat), (Hash, Hash)>
    ghost var ballots: seq<Voting.Ballot>
    ghost var sightings: seq<DenyList.Sighting>

    ghost function Tally(): Voting.Tally
      reads this
    {
      Voting.Tally(decisions, verified)
    }

    ghost function Watch(): DenyList.Watch
      reads this
    {
      DenyList.Watch(denied, equivocationProofs, observedTicks)
    }

    /** The state is what the observations and checks made so far lead to, whatever their interleaving. */
    ghost predicate Valid()
      reads this
    {
      Tally() == Voting.After(threshold, ballots) && Watch() == DenyList.After(sightings)
    }

    constructor (threshold: nat, hash: Text -> Hash, hex: Voting.Voter -> Text)
      ensures Valid() && ballots == [] && sightings == []
      ensures this.threshold == threshold && this.hash == hash && this.hex == hex
    {
      this.threshold, this.hash, this.hex := threshold, hash, hex;
      decisions, verified, denied, equivocationProofs, observedTicks := map[], {}, {}, [], map[];
      ballots, sightings := [], [];
    }

    /**
     * Check a node's clock entries in order: record new ones, and at the first one recorded with other data deny
     * the origin, keep the proof and return it.
     */
    method CheckEquivocation(node: DagNode, nodeHash: Hash, ghost author: Text) returns (proof: Option<DenyList.Proof>)
      requires Valid()
      modifies `denied, `equivocationProofs, `observedTicks, `sightings
      ensures Valid() && sightings == old(sightings) + [DenyList.Sighting(author, node.vclock, node.dataHash, nodeHash)]
      ensures proof.None? ==> denied == old(denied) && equivocationProofs == old(equivocationProofs)
      ensures proof.Some? ==>
        && proof.value.origin !in old(denied) && denied == old(denied) + {proof.value.origin}
        && equivocationProofs == old(equivocationProofs) + [proof.value] && DenyList.Proven(sightings, proof.value)
    {
      proof := Scan(node, nodeHash);
      sightings := sightings + [DenyList.Sighting(author, node.vclock, node.dataHash, nodeHash)];
      DenyList.RunSplits(old(sightings), DenyList.Sighting(author, node.vclock, node.dataHash, nodeHash));
      DenyList.ProofsAreProven(sightings);
      assert proof.Some? ==> proof.value in equivocationProofs;
    }

    method Scan(node: DagNode, nodeHash: Hash) returns (proof: Option<DenyList.Proof>)
      modifies `denied, `equivocationProofs, `observedTicks
      ensures Watch() == DenyList.Checked(old(Watch()), node.vclock, node.dataHash, nodeHash)
      ensures proof.None? ==> denied == old(denied) && equivocationProofs == old(equivocationProofs)
      ensures proof.Some? ==>
        && proof.value.origin !in old(denied) && denied == old(denied) + {proof.value.origin}
        && equivocationProofs == old(equivocationProofs) + [proof.value]
    {
      for i := 0 to |node.vclock|
        invariant denied == old(denied) && equivocationProofs == old(equivocationProofs)
        invariant DenyList.Checked(old(Watch()), node.vclock, node.dataHash, nodeHash) ==
                  DenyList.Checked(Watch(), node.vclock[i..], node.dataHash, nodeHash)
      {
        var (origin, tick) := node.vclock[i];
        assert node.vclock[i..][0] == node.vclock[i] && node.vclock[i..][1..] == node.vclock[i + 1..];
        if origin in denied {
          continue;
        }
        var key := (origin, tick);
        if key in observedTicks {
          var (prevDataHash, prevNodeHash) := observedTicks[key];
          if prevDataHash != node.dataHash {
            var found := DenyList.Proof(origin, tick, prevNodeHash, nodeHash);
            denied := denied + {origin};
            equivocationProofs := equivocationProofs + [found];
            return Some(found);
          }
        } else {
          observedTicks := observedTicks[key := (node.dataHash, nodeHash)];
        }
      }
      proof := None;
    }

    /**
     * Denied origins are contested, and have forked if clashes are only on own entries; if nothing was lost they are
     * all the contested ones.
     */
    method IsDenied(origin: Text) returns (d: bool)
      requires Valid()
      ensures d ==> DenyList.Contested(sightings, origin)
      ensures d && DenyList.OwnClashes(sightings) ==> DenyList.Forked(sightings, origin)
      ensures DenyList.Exact(sightings, DenyList.After(sightings)) ==> (d <==> DenyList.Contested(sightings, origin))
    {
      DenyList.DenialsAreProven(sightings);
      if DenyList.OwnClashes(sightings) { DenyList.FairIfOwn(sightings); }
      if DenyList.Exact(sightings, DenyList.After(sightings)) { DenyList.ExactIsComplete(sightings); }
      d := origin in denied;
    }

    /** The voter is under some decision on the prompt. */
    method AlreadyVoted(prompt: Hash, origin: Voting.Voter) returns (voted: bool)
      ensures voted == Voting.HasVoted(Tally(), prompt, origin)
    {
      if prompt !in decisions {
        return false;
      }
      var rest := decisions[prompt].Keys;
      while rest != {}
        invariant rest <= decisions[prompt].Keys
        invariant forall d :: d in decisions[prompt] && origin in decisions[prompt][d] ==> d in rest
        decreases rest
      {
        var d :| d in rest;
        if origin in decisions[prompt][d] {
          assert d in Voting.Entry(Tally(), prompt);
          return true;
        }
        rest := rest - {d};
      }
      voted := false;
    }

    /**
     * Record a vote, unless the prompt is verified, the voter denied, or it voted on the prompt before. True exactly
     * when this vote completes the one quorum the prompt ever gets.
     */
    method Observe(origin: Voting.Voter, evidence: AiEvidence) returns (reached: bool)
      requires Valid()
      modifies `decisions, `verified, `ballots
      ensures Valid()
      ensures ballots == old(ballots) +
        [Voting.Ballot(origin, hash(evidence.prompt), hash(evidence.decision), hex(origin) in denied)]
      ensures reached <==> hash(evidence.prompt) in verified - old(verified)
      ensures verified == old(verified) + if reached then {hash(evidence.prompt)} else {}
    {
      ghost var ballot := Voting.Ballot(origin, hash(evidence.prompt), hash(evidence.decision), hex(origin) in denied);
      ghost var cast := ballots;
      Voting.OneMoreBallot(threshold, cast, ballot);
      reached := Vote(origin, hash(evidence.prompt), hash(evidence.decision));
      assert Tally() == Voting.After(threshold, cast + [ballot]);
      ballots := cast + [ballot];
    }

    method Vote(origin: Voting.Voter, promptHash: Hash, decisionHash: Hash) returns (reached: bool)
      modifies `decisions, `verified
      ensures Tally() ==
        Voting.Counted(threshold, old(Tally()), Voting.Ballot(origin, promptHash, decisionHash, hex(origin) in denied))
      ensures reached <==> promptHash in verified - old(verified)
      ensures verified == old(verified) + if reached then {promptHash} else {}
    {
      if promptHash in verified || hex(origin) in denied {
        return false;
      }
      var voted := AlreadyVoted(promptHash, origin);
      if voted {
        return false;
      }
      var promptEntry: map<Hash, set<Voting.Voter>> := if promptHash in decisions then decisions[promptHash] else map[];
      var voters := (if decisionHash in promptEntry then promptEntry[decisionHash] else {}) + {origin};
      decisions := decisions[promptHash := promptEntry[decisionHash := voters]];
      reached := |voters| >= threshold;
      if reached { verified := verified + {promptHash}; }
    }

    /** Verified exactly if one and only one decision has a quorum. */
    method IsVerified(prompt: Text) returns (v: bool)
      requires Valid()
      ensures v <==> exists d :: Voting.Quorate(threshold, Tally(), hash(prompt), d)
      ensures forall d, d' ::
        Voting.Quorate(threshold, Tally(), hash(prompt), d) && Voting.Quorate(threshold, Tally(), hash(prompt), d')
        ==> d == d'
    {
      Voting.QuorumIsUnique(threshold, ballots);
      v := hash(prompt) in verified;
    }

    method GetSupportCount(prompt: Text, decision: Text) returns (n: nat)
      ensures n == |Voting.Voters(Tally(), hash(prompt), hash(decision))|
    {
      var p, d := hash(prompt), hash(decision);
      n := if p in decisions && d in decisions[p] then |decisions[p][d]| else 0;
    }
  }
}
