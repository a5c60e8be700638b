/** What ageing does to base trust: nothing within a half-life, then half per half-life, and never more when older. */
module DecayLaws {
  import opened Numeric
  import opened Claims
  import opened TrustFlow

  function Age(currentTick: nat, claim: Claim): nat {
    if currentTick > claim.tick then currentTick - claim.tick else 0
  }

  /** A claim younger than a half-life keeps its base trust. */
  lemma YoungKeeps(claims: seq<Claim>, currentTick: nat, halfLife: nat, v: nat, x: LogOdds)
    requires v < |claims| && Age(currentTick, claims[v]) < halfLife
    ensures Decayed(claims, currentTick, halfLife, v, x) == x
  {
    if currentTick > 0 {
      DivBounds(Age(currentTick, claims[v]), halfLife);
      DivMonotone(0, Age(currentTick, claims[v]), halfLife);
      if Age(currentTick, claims[v]) / halfLife >= 1 { Times(1, Age(currentTick, claims[v]) / halfLife, halfLife); }
      assert DecaySteps(currentTick, claims[v].tick, halfLife) == 0;
    }
  }

  lemma FloorHalf(x: int, p: nat)
    requires p > 0
    ensures 2 * (x / (2 * p)) <= x / p <= 2 * (x / (2 * p)) + 1
  {
    var q, h := x / p, x / (2 * p);
    DivBounds(x, p);
    DivBounds(x, 2 * p);
    assert (2 * p) * h == p * (2 * h);
    assert (2 * p) * h + 2 * p == p * (2 * h + 1) + p;
    QuotientOrder(p, 2 * h, q, p * (2 * h), x);
    QuotientOrder(p, q, 2 * h + 1, p * q, x);
  }

  /** One shift more is one halving more, rounded down. */
  lemma ShiftHalves(x: int, n: nat)
    ensures 2 * ShiftRight(x, n + 1) <= ShiftRight(x, n) <= 2 * ShiftRight(x, n + 1) + 1
  {
    assert Pow2(n + 1) == 2 * Pow2(n);
    FloorHalf(x, Pow2(n));
  }

  lemma NextStep(age: nat, halfLife: nat)
    requires halfLife > 0
    ensures (age + halfLife) / halfLife == age / halfLife + 1
  {
    var q := age / halfLife;
    DivBounds(age, halfLife);
    DivBounds(age + halfLife, halfLife);
    assert halfLife * (q + 1) == halfLife * q + halfLife;
    QuotientOrder(halfLife, q + 1, (age + halfLife) / halfLife, halfLife * (q + 1), age + halfLife);
    var next := (age + halfLife) / halfLife;
    QuotientOrder(halfLife, next, q + 1, halfLife * next, age + halfLife);
  }

  /** One half-life later half of the trust is left, rounded down; from thirty half-lives on nothing changes. */
  lemma HalfLifeHalves(claims: seq<Claim>, currentTick: nat, halfLife: nat, v: nat, x: LogOdds)
    requires v < |claims| && halfLife > 0 && currentTick > 0 && currentTick >= claims[v].tick
    ensures var now: int := Decayed(claims, currentTick, halfLife, v, x);
      var later: int := Decayed(claims, currentTick + halfLife, halfLife, v, x);
      if Age(currentTick, claims[v]) / halfLife < 30 then 2 * later <= now <= 2 * later + 1 else later == now
  {
    var age := Age(currentTick, claims[v]);
    assert Age(currentTick + halfLife, claims[v]) == age + halfLife;
    NextStep(age, halfLife);
    DivMonotone(0, age, halfLife);
    ShiftHalves(x, DecaySteps(currentTick, claims[v].tick, halfLife));
  }

  lemma {:induction false} ShiftAntitone(x: int, m: nat, n: nat)
    requires x >= 0 && m <= n
    ensures 0 <= ShiftRight(x, n) <= ShiftRight(x, m)
  {
    ShiftRightShrinks(x, n);
    if m < n {
      ShiftRightShrinks(x, n - 1);
      ShiftHalves(x, n - 1);
      ShiftAntitone(x, m, n - 1);
    }
  }

  /** Of two claims with the same positive trust the older keeps no more. */
  lemma OlderKeepsNoMore(claims: seq<Claim>, currentTick: nat, halfLife: nat, v: nat, u: nat, x: LogOdds)
    requires v < |claims| && u < |claims| && claims[u].tick <= claims[v].tick && x >= 0
    ensures 0 <= Decayed(claims, currentTick, halfLife, u, x) <= Decayed(claims, currentTick, halfLife, v, x)
  {
    if halfLife > 0 && currentTick > 0 {
      DivMonotone(Age(currentTick, claims[v]), Age(currentTick, claims[u]), halfLife);
      ShiftAntitone(x, DecaySteps(currentTick, claims[v].tick, halfLife),
                    DecaySteps(currentTick, claims[u].tick, halfLife));
    }
  }
}
