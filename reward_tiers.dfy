/** The coin packages (`src/frontend/src/config/rewardTiers.ts`): what each INR amount buys. */
module RewardTiers {
  import opened Wrappers

  datatype RewardTier = RewardTier(inr: int, coins: int)

  const Tiers: seq<RewardTier> := [
    RewardTier(10, 15),
    RewardTier(50, 85),
    RewardTier(100, 99),
    RewardTier(150, 240),
    RewardTier(500, 870),
    RewardTier(1000, 1985)
  ]

  /** Both columns strictly increase and every value is positive. */
  predicate WellOrdered(tiers: seq<RewardTier>) {
    && (forall i :: 0 <= i < |tiers| ==> tiers[i].inr > 0 && tiers[i].coins > 0)
    && (forall i, j :: 0 <= i < j < |tiers| ==> tiers[i].inr < tiers[j].inr && tiers[i].coins < tiers[j].coins)
  }

  lemma TiersWellOrdered()
    ensures WellOrdered(Tiers)
  {
  }

  /** The tier table as a search from the front. */
  function Lookup(tiers: seq<RewardTier>, inr: int): (r: Option<int>)
    ensures r.Some? <==> exists i :: 0 <= i < |tiers| && tiers[i].inr == inr
    ensures r.Some? ==> RewardTier(inr, r.value) in tiers
    decreases |tiers|
  {
    if tiers == [] then None
    else if tiers[0].inr == inr then Some(tiers[0].coins)
    else Lookup(tiers[1..], inr)
  }

  /** The coins credited for an INR amount; only listed amounts have a tier. */
  function CoinsFor(inr: int): (r: Option<int>)
    ensures r.Some? <==> exists i :: 0 <= i < |Tiers| && Tiers[i].inr == inr
    ensures r.Some? ==> RewardTier(inr, r.value) in Tiers
  {
    Lookup(Tiers, inr)
  }

  /** Since INR values are distinct, the lookup finds exactly the listed pairs. */
  lemma CoinsForIsTable(inr: int, coins: int)
    ensures CoinsFor(inr) == Some(coins) <==> RewardTier(inr, coins) in Tiers
  {
    TiersWellOrdered();
    if RewardTier(inr, coins) in Tiers {
      var r := CoinsFor(inr);
      assert RewardTier(inr, r.value) in Tiers;
    }
  }

  lemma ListedTierExamples()
    ensures CoinsFor(10) == Some(15) && CoinsFor(100) == Some(99) && CoinsFor(1000) == Some(1985)
  {
    CoinsForIsTable(10, 15);
    CoinsForIsTable(100, 99);
    CoinsForIsTable(1000, 1985);
  }

  /** An amount that is not listed, such as 200, has no tier. */
  lemma UnlistedAmountHasNoTier(inr: int)
    requires inr !in {10, 50, 100, 150, 500, 1000}
    ensures CoinsFor(inr) == None
  {
    forall i | 0 <= i < |Tiers|
      ensures Tiers[i].inr != inr
    {
      assert i == 0 || i == 1 || i == 2 || i == 3 || i == 4 || i == 5;
    }
  }

  lemma TwoHundredHasNoTier()
    ensures CoinsFor(200) == None
  {
    UnlistedAmountHasNoTier(200);
  }

  /** Every tier's coins are `rate` times its INR amount. */
  predicate FixedRate(rate: real) {
    forall i :: 0 <= i < |Tiers| ==> Tiers[i].coins as real == rate * Tiers[i].inr as real
  }

  /** Coins are not a fixed multiple of INR: 100 buys 99 coins but 150 buys 240. */
  lemma NotProportional()
    ensures Tiers[2].coins * Tiers[3].inr != Tiers[3].coins * Tiers[2].inr
    ensures forall rate :: !FixedRate(rate)
  {
  }
}
