/**
 * PumpSwap fee selection, src/adapters/pumpswap/fees.ts: market cap, tier lookup and the per-pool
 * creator-fee rules.  The schedule is looked up again after every swap.
 */
module FeeSchedule {
  import opened Arith
  import opened Outcomes
  import opened PumpMath

  const PUMP_AMM_TOTAL_TOKEN_SUPPLY: nat := 1_000_000_000_000_000

  datatype FeeTier = FeeTier(marketCapThreshold: nat, fees: FeeBps)
  datatype QuoteKind = SolLike | Stable | Exotic

  /** The parts of pool, global config and fee config that decide the schedule. */
  datatype Config = Config(
    isPumpPool: bool, isMayhemMode: bool, baseMintSupply: nat, quoteKind: QuoteKind,
    flatFees: FeeBps, feeTiers: seq<FeeTier>, stableFeeTiers: seq<FeeTier>, exoticFlatFees: FeeBps,
    creatorFeeConfigurable: bool, poolCreatorFeeBps: nat, hasCoinCreator: bool)

  function PoolMarketCap(effQ: nat, base: nat, config: Config): Option<nat> {
    if base == 0 then None
    else Some(FloorDiv(effQ * (if config.isMayhemMode then PUMP_AMM_TOTAL_TOKEN_SUPPLY else config.baseMintSupply),
        base))
  }

  /** The scan from the highest tier down; None when no threshold is reached. */
  function HighestReached(tiers: seq<FeeTier>, marketCap: nat, upTo: nat): (r: Option<nat>)
    requires upTo <= |tiers|
    ensures r.Some? ==> r.value < upTo && tiers[r.value].marketCapThreshold <= marketCap
    ensures r.Some? ==> forall j :: r.value < j < upTo ==> marketCap < tiers[j].marketCapThreshold
    ensures r.None? ==> forall j :: 0 <= j < upTo ==> marketCap < tiers[j].marketCapThreshold
  {
    if upTo == 0 then None
    else if marketCap >= tiers[upTo - 1].marketCapThreshold then Some(upTo - 1)
    else HighestReached(tiers, marketCap, upTo - 1)
  }

  /** The index the source's early test and backward scan select. */
  function TierIndex(tiers: seq<FeeTier>, marketCap: nat): (i: nat)
    requires |tiers| > 0
    ensures i < |tiers|
    ensures marketCap < tiers[0].marketCapThreshold ==> i == 0
    ensures marketCap >= tiers[0].marketCapThreshold ==>
              tiers[i].marketCapThreshold <= marketCap && forall j :: i < j < |tiers| ==>
                  marketCap < tiers[j].marketCapThreshold
  {
    if marketCap < tiers[0].marketCapThreshold then 0
    else HighestReached(tiers, marketCap, |tiers|).value
  }

  /** calculateFeeTier, with its loop. */
  method CalculateFeeTier(tiers: seq<FeeTier>, marketCap: nat) returns (tierIndex: nat)
    requires |tiers| > 0
    ensures tierIndex == TierIndex(tiers, marketCap)
  {
    tierIndex := 0;
    if marketCap < tiers[0].marketCapThreshold {
      return;
    }
    var i := |tiers|;
    while i > 0
      invariant 0 <= i <= |tiers|
      invariant forall j :: i <= j < |tiers| ==> marketCap < tiers[j].marketCapThreshold
    {
      i := i - 1;
      if marketCap >= tiers[i].marketCapThreshold {
        return i;
      }
    }
  }

  predicate IsZeroFees(f: FeeBps) { f.lp == 0 && f.protocol == 0 && f.creator == 0 }

  /** None where the source throws on an empty tier list. */
  function TierFees(tiers: seq<FeeTier>, marketCap: nat): Option<FeeBps> {
    if |tiers| == 0 then None else Some(tiers[TierIndex(tiers, marketCap)].fees)
  }

  function FeesForQuoteMint(config: Config, marketCap: nat): Option<FeeBps> {
    if !config.isPumpPool then Some(config.flatFees)
    else
      match config.quoteKind
      case SolLike => TierFees(config.feeTiers, marketCap)
      case Stable => TierFees(if |config.stableFeeTiers| > 0 then config.stableFeeTiers else config.feeTiers, marketCap)
      case Exotic => Some(if IsZeroFees(config.exoticFlatFees) then config.flatFees else config.exoticFlatFees)
  }

  /** selectFeeSchedule: None for an empty pool or an empty tier list. */
  function SelectFeeSchedule(config: Config, base: nat, effQ: nat): Option<FeeBps> {
    match PoolMarketCap(effQ, base, config)
    case None => None
    case Some(marketCap) =>
      match FeesForQuoteMint(config, marketCap)
      case None => None
      case Some(fees) =>
        var overridden :=
            if config.creatorFeeConfigurable && config.poolCreatorFeeBps > 0 then fees.(creator :=
                config.poolCreatorFeeBps) else fees;
        Some(if config.hasCoinCreator then overridden else overridden.(creator := 0))
  }

  /** Every tier list the configuration may consult has an entry. */
  predicate Configured(config: Config) { |config.feeTiers| > 0 }

  /** A configured pool that is not empty always has a schedule. */
  lemma ScheduleExists(config: Config, base: nat, effQ: nat)
    requires Configured(config)
    ensures SelectFeeSchedule(config, base, effQ).Some? <==> base > 0
  {
    hide FloorDiv;
  }

  /** A dearer pool never falls to a lower tier when the thresholds are listed in order. */
  lemma TierFollowsMarketCap(tiers: seq<FeeTier>, a: nat, b: nat)
    requires |tiers| > 0 && a <= b
    requires forall i, j :: 0 <= i < j < |tiers| ==> tiers[i].marketCapThreshold <= tiers[j].marketCapThreshold
    ensures TierIndex(tiers, a) <= TierIndex(tiers, b)
  {
  }
}
