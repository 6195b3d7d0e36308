/** The six credibility tiers that every score colouring in the islands follows: half-open
    bands below 800, [800,1200), [1200,1600), [1600,2000), [2000,2400) and from 2400 up.
    Scores are compared only against these constants, so they are modelled as integers. */
module Credibility {
  datatype Tier = Untrusted | Questionable | Neutral | Reputable | Exemplary | Revered

  /** The boundaries between consecutive tiers, ascending. */
  const Thresholds: seq<int> := [800, 1200, 1600, 2000, 2400]

  /** Position of a tier from the lowest (0) to the highest (5). */
  function Rank(t: Tier): (r: nat)
    ensures r <= 5
  {
    match t
    case Untrusted => 0
    case Questionable => 1
    case Neutral => 2
    case Reputable => 3
    case Exemplary => 4
    case Revered => 5
  }

  /** The score band of rank `r`: at or above the boundary below it, strictly below the one above it. */
  predicate InBand(score: int, r: nat)
    requires r <= 5
  {
    (r == 0 || Thresholds[r - 1] <= score) && (r == 5 || score < Thresholds[r])
  }

  /** The if-chain the islands share: the first threshold the score is below decides. */
  function TierOf(score: int): (t: Tier)
    ensures InBand(score, Rank(t))
  {
    if score < 800 then Untrusted
    else if score < 1200 then Questionable
    else if score < 1600 then Neutral
    else if score < 2000 then Reputable
    else if score < 2400 then Exemplary
    else Revered
  }

  /** A score lies in exactly one band. */
  lemma BandsAreDisjoint(score: int, r1: nat, r2: nat)
    requires r1 <= 5 && r2 <= 5
    requires InBand(score, r1) && InBand(score, r2)
    ensures r1 == r2
  {
  }

  /** The band characterisation determines the tier: `t` is the score's tier iff the score is in `t`'s band. */
  lemma TierIsTheBand(score: int, t: Tier)
    ensures InBand(score, Rank(t)) <==> t == TierOf(score)
  {
    if InBand(score, Rank(t)) {
      BandsAreDisjoint(score, Rank(t), Rank(TierOf(score)));
    }
  }

  /** A higher score never lands in a lower tier. */
  lemma TierMonotone(s1: int, s2: int)
    requires s1 <= s2
    ensures Rank(TierOf(s1)) <= Rank(TierOf(s2))
  {
  }
}
