/**
 * What a PumpSwap trade is, in the pool's own fields and without the functions that compute it: the fee
 * schedule in force at the current market cap, the inversion of a buy's budget, the product bracket,
 * the fees and the vault moves (src/adapters/pumpswap/fees.ts, math.ts, adapter.ts).
 */
module PumpTerms {
  import opened Arith
  import opened Outcomes
  import opened PumpMath
  import opened PumpPool
  import opened PumpFees
  import TF = TransferFee
  import FS = FeeSchedule

  // ----- the schedule in force -----

  /** The tier reached by a market cap of `weight / base`: the last whose threshold it meets, or the first. */
  predicate TierReached(tiers: seq<FS.FeeTier>, weight: nat, base: nat, i: nat) {
    && i < |tiers|
    && (if weight < tiers[0].marketCapThreshold * base then i == 0
        else tiers[i].marketCapThreshold * base <= weight
             && forall j :: i < j < |tiers| ==> weight < tiers[j].marketCapThreshold * base)
  }

  ghost predicate FeesOfTier(tiers: seq<FS.FeeTier>, weight: nat, base: nat, fees: FeeBps) {
    exists i: nat :: TierReached(tiers, weight, base, i) && tiers[i].fees == fees
  }

  /** The supply that capitalises the pool: fixed for mayhem pools, the mint's otherwise. */
  function Supply(config: FS.Config): nat {
    if config.isMayhemMode then 1_000_000_000_000_000 else config.baseMintSupply
  }

  /** The fees the configuration lists for a pool with these reserves. */
  ghost predicate Listed(config: FS.Config, base: nat, effQ: nat, fees: FeeBps) {
    if !config.isPumpPool then fees == config.flatFees
    else
      match config.quoteKind
      case SolLike => FeesOfTier(config.feeTiers, effQ * Supply(config), base, fees)
      case Stable =>
        FeesOfTier(if config.stableFeeTiers == [] then config.feeTiers else config.stableFeeTiers,
            effQ * Supply(config), base, fees)
      case Exotic =>
        var unset := config.exoticFlatFees.lp == 0 && config.exoticFlatFees.protocol == 0
            && config.exoticFlatFees.creator == 0;
        fees == if unset then config.flatFees else config.exoticFlatFees
  }

  /** What is charged: the listed LP and protocol rates, and a creator rate the pool may override or do without. */
  ghost predicate ChargedFor(config: FS.Config, base: nat, effQ: nat, fees: FeeBps) {
    exists listed: FeeBps :: Listed(config, base, effQ, listed)
      && fees.lp == listed.lp && fees.protocol == listed.protocol
      && fees.creator == (if !config.hasCoinCreator then 0
                          else if config.creatorFeeConfigurable && config.poolCreatorFeeBps > 0 then config.poolCreatorFeeBps
                          else listed.creator)
  }

  lemma ReachedByCap(tiers: seq<FS.FeeTier>, weight: nat, base: nat)
    requires |tiers| > 0 && base > 0
    ensures TierReached(tiers, weight, base, FS.TierIndex(tiers, FloorDiv(weight, base)))
  {
    hide FloorDiv, FS.TierIndex;
    forall j | 0 <= j < |tiers|
      ensures FloorDiv(weight, base) >= tiers[j].marketCapThreshold <==> weight >= tiers[j].marketCapThreshold * base
    {
      FloorAdjoint(weight, base, tiers[j].marketCapThreshold);
    }
  }

  lemma ListedByConfig(config: FS.Config, base: nat, effQ: nat)
    requires FS.Configured(config) && base > 0
    ensures var listed := FS.FeesForQuoteMint(config, FloorDiv(effQ * Supply(config), base));
            listed.Some? && Listed(config, base, effQ, listed.value)
  {
    hide FloorDiv, FS.TierIndex, TierReached;
    ReachedByCap(config.feeTiers, effQ * Supply(config), base);
    if |config.stableFeeTiers| > 0 { ReachedByCap(config.stableFeeTiers, effQ * Supply(config), base); }
  }

  /** A well-formed pool charges the schedule its reserves, supply and configuration call for. */
  lemma ScheduleMeetsTerms(p: Pool)
    requires WellFormed(p)
    ensures Schedule(p).Some? && ChargedFor(p.config, p.base, p.quote + p.virtualQuote, Schedule(p).value)
  {
    hide FloorDiv, FS.FeesForQuoteMint, Listed;
    ListedByConfig(p.config, p.base, EffQ(p));
    var listed := FS.FeesForQuoteMint(p.config, FloorDiv(EffQ(p) * Supply(p.config), p.base)).value;
    assert Listed(p.config, p.base, p.quote + p.virtualQuote, listed);
  }

  lemma ListedOnce(config: FS.Config, base: nat, effQ: nat, fees: FeeBps, other: FeeBps)
    requires Listed(config, base, effQ, fees) && Listed(config, base, effQ, other)
    ensures fees == other
  {
    if config.isPumpPool && !config.quoteKind.Exotic? {
      var weight := effQ * Supply(config);
      var tiers := if config.quoteKind.Stable? && config.stableFeeTiers != [] then config.stableFeeTiers
          else config.feeTiers;
      var i: nat :| TierReached(tiers, weight, base, i) && tiers[i].fees == fees;
      var j: nat :| TierReached(tiers, weight, base, j) && tiers[j].fees == other;
      assert i == j;
    }
  }

  /** The terms leave one schedule. */
  lemma ScheduleDetermined(config: FS.Config, base: nat, effQ: nat, fees: FeeBps, other: FeeBps)
    requires ChargedFor(config, base, effQ, fees) && ChargedFor(config, base, effQ, other)
    ensures fees == other
  {
    hide Listed;
    var a: FeeBps :| Listed(config, base, effQ, a) && fees.lp == a.lp && fees.protocol == a.protocol
      && fees.creator == (if !config.hasCoinCreator then 0
                          else if config.creatorFeeConfigurable && config.poolCreatorFeeBps > 0 then config.poolCreatorFeeBps
                          else a.creator);
    var b: FeeBps :| Listed(config, base, effQ, b) && other.lp == b.lp && other.protocol == b.protocol
      && other.creator == (if !config.hasCoinCreator then 0
                           else if config.creatorFeeConfigurable && config.poolCreatorFeeBps > 0 then config.poolCreatorFeeBps
                           else b.creator);
    ListedOnce(config, base, effQ, a, b);
  }

  // ----- transfer fees -----

  /** The larger of what the two scheduled tiers withhold. */
  ghost predicate WorstFee(p: Pool, amount: nat, fee: nat) {
    match p.transferTiers
    case None => fee == 0
    case Some(tiers) =>
      exists a: nat, b: nat ::
        && TF.CappedCeiling(a, amount, tiers.older.bps, tiers.older.maxFee)
             && TF.CappedCeiling(b, amount, tiers.newer.bps, tiers.newer.maxFee)
        && (fee == a || fee == b) && a <= fee && b <= fee
  }

  lemma WorstFeeCharged(p: Pool, amount: nat)
    ensures WorstFee(p, amount, TransferFeeWorstCase(p, amount))
  {
    hide TF.TransferFeeOn, TF.CappedCeiling, TF.FeeOf;
    if p.transferTiers.Some? {
      var older, newer := p.transferTiers.value.older, p.transferTiers.value.newer;
      TF.ShortFeeExact(older, amount);
      TF.ShortFeeExact(newer, amount);
      TF.FeeOfCapped(older, amount);
      TF.FeeOfCapped(newer, amount);
      assert TF.CappedCeiling(TF.FeeOf(older, amount), amount, older.bps, older.maxFee)
          && TF.CappedCeiling(TF.FeeOf(newer, amount), amount, newer.bps, newer.maxFee);
    }
  }

  // ----- buys -----

  /**
   * The inversion of a budget: `e` is the largest quote that fits with its combined rate, `f` its three
   * fees, and `effective` what is left of it once the fees' excess over the budget is taken back.
   */
  predicate Inverts(fees: FeeBps, budget: nat, e: nat, f: Fees, effective: int) {
    var rate := 10_000 + fees.lp + fees.protocol + fees.creator;
    && e * rate <= budget * 10_000 < (e + 1) * rate
    && FeesCover(f, e, fees)
    && effective == (if e + f.lp + f.protocol + f.creator > budget then budget - f.lp - f.protocol - f.creator else e)
  }

  lemma InversionOf(fees: FeeBps, budget: nat)
    ensures Inverts(fees, budget, UncorrectedQuote(fees, budget), FeesOn(UncorrectedQuote(fees, budget), fees),
              EffectiveQuote(fees, budget))
  {
    hide FloorDiv, FeesOn, FeesCover;
    var e, rate := UncorrectedQuote(fees, budget), BPS + fees.Total();
    FloorBounds(budget * BPS, rate);
    Distribute(rate, e, 1);
    EachFeeCovers(e, fees);
  }

  lemma CoverOnce(f: nat, g: nat, base: nat, bps: nat)
    requires Covers(f, base, bps) && Covers(g, base, bps)
    ensures f == g
  {
  }

  /** Every budget inverts in one way only. */
  lemma InvertsOnce(fees: FeeBps, budget: nat, e: nat, f: Fees, effective: int)
    requires Inverts(fees, budget, e, f, effective)
    ensures e == UncorrectedQuote(fees, budget) && f == FeesOn(e, fees) && effective == EffectiveQuote(fees, budget)
  {
    hide FloorDiv, FeeCeil, Covers;
    var rate := BPS + fees.Total();
    Distribute(rate, e, 1);
    QuotientUnique(budget * BPS, rate, e);
    EachFeeCovers(e, fees);
    var g := FeesOn(e, fees);
    CoverOnce(f.lp, g.lp, e, fees.lp);
    CoverOnce(f.protocol, g.protocol, e, fees.protocol);
    CoverOnce(f.creator, g.creator, e, fees.creator);
  }

  /** `out` is the most base that leaves for `input` without lowering the product. */
  predicate BuyBracket(out: nat, input: nat, base: nat, effQ: nat) {
    out * (effQ + input) <= base * input < (out + 1) * (effQ + input)
  }

  lemma BuyBracketOf(base: nat, effQ: nat, input: nat)
    requires effQ + input > 0
    ensures BuyBracket(BaseOutFor(base, effQ, input), input, base, effQ)
  {
    hide FloorDiv;
    FloorBounds(base * input, effQ + input);
    Distribute(effQ + input, BaseOutFor(base, effQ, input), 1);
  }

  lemma BuysAnything(base: nat, effQ: nat, input: nat)
    requires effQ + input > 0
    ensures BaseOutFor(base, effQ, input) > 0 <==> effQ + input <= base * input
  {
    hide FloorDiv;
    FloorAdjoint(base * input, effQ + input, 1);
  }

  /**
   * A buy is accepted exactly when buying is enabled and not blocked, and the inverted quote less one
   * lamport buys something.
   */
  lemma BuyAcceptedIff(p: Pool, fees: FeeBps, budget: int, e: nat, f: Fees, effective: int)
    requires WellFormed(p) && Schedule(p) == Some(fees) && (budget >= 0 ==> Inverts(fees, budget, e, f, effective))
    ensures var q := QuoteExactIn(p, true, budget);
            q.Some? && (!q.value.rejected <==>
              && !p.buyDisabled && !p.blocked && budget > 0
              && effective >= 2 && p.quote + p.virtualQuote + (effective - 1) <= p.base * (effective - 1))
  {
    hide Schedule, EffectiveQuote, UncorrectedQuote, FeesOn, BaseOutFor, TransferFeeWorstCase, Inverts;
    NeverEmpty(p, fees, budget);
    if budget > 0 {
      InvertsOnce(fees, budget, e, f, effective);
      if effective >= 2 { BuysAnything(p.base, EffQ(p), effective - 1); }
    }
  }

  /** What an accepted buy debits, pays out and leaves in the vaults. */
  lemma BuyMeetsTerms(p: Pool, fees: FeeBps, budget: int, e: nat, f: Fees, effective: int)
    requires WellFormed(p) && Schedule(p) == Some(fees) && 0 <= budget && Inverts(fees, budget, e, f, effective)
    requires !QuoteBuy(p, fees, budget).rejected
    ensures var q := QuoteBuy(p, fees, budget); var out := q.vaultOutDelta;
            && effective >= 2 && 0 < out < p.base && BuyBracket(out, effective - 1, p.base, p.quote + p.virtualQuote)
            && q.amountIn == effective + f.lp + f.protocol + f.creator
            && 0 <= q.amountOutToUser <= out && WorstFee(p, out, out - q.amountOutToUser)
            && ApplySwap(p, q) == Applied(p.(base := p.base - out, quote := p.quote + effective + f.lp))
  {
    hide Schedule, EffectiveQuote, UncorrectedQuote, FeesOn, BaseOutFor, TransferFeeWorstCase, Inverts, BuyBracket,
        WorstFee, FeeFreeBase, BuyQuoteInput;
    InvertsOnce(fees, budget, e, f, effective);
    AcceptedBuy(MathState(p), fees, budget);
    BuyMoves(p, fees, budget);
    BuyBracketOf(p.base, EffQ(p), effective - 1);
    WorstFeeCharged(p, QuoteBuy(p, fees, budget).vaultOutDelta);
  }

  /** An exact-base buy asks for the fees on its quote on top, and refuses only what the pool does not hold. */
  lemma BuyBaseTerms(s: PoolMathState, fees: FeeBps, baseOut: int)
    requires s.virtualQuoteReserves >= 0 && s.baseReserve > 0 && s.quoteReserve + s.virtualQuoteReserves > 0
    ensures var r := BuyBaseInput(s, fees, baseOut);
            && (r.Ok? <==> 0 < baseOut < s.baseReserve)
            && (r.Ok? ==>
                  && r.value.baseOut == baseOut && FeesCover(r.value.fees, r.value.quoteAmountIn, fees)
                  && r.value.userQuoteIn == r.value.quoteAmountIn + r.value.fees.lp + r.value.fees.protocol + r.value.fees.creator)
  {
    hide CeilDiv, FeesOn, FeesCover;
    var r := BuyBaseInput(s, fees, baseOut);
    if r.Ok? { EachFeeCovers(r.value.quoteAmountIn, fees); }
  }

  // ----- sells -----

  /** `out` is the most quote that leaves for `input` without lowering the product, and `f` its three fees. */
  predicate Priced(out: nat, f: Fees, input: nat, base: nat, effQ: nat, fees: FeeBps) {
    out * (base + input) <= effQ * input < (out + 1) * (base + input) && FeesCover(f, out, fees)
  }

  lemma PriceOf(base: nat, effQ: nat, input: nat, fees: FeeBps)
    requires base + input > 0
    ensures Priced(QuoteOutFor(base, effQ, input), FeesOn(QuoteOutFor(base, effQ, input), fees), input, base, effQ,
              fees)
  {
    hide FloorDiv, FeesOn, FeesCover;
    FloorBounds(effQ * input, base + input);
    Distribute(base + input, QuoteOutFor(base, effQ, input), 1);
    EachFeeCovers(QuoteOutFor(base, effQ, input), fees);
  }

  lemma PricedOnce(out: nat, f: Fees, input: nat, base: nat, effQ: nat, fees: FeeBps)
    requires base + input > 0 && Priced(out, f, input, base, effQ, fees)
    ensures out == QuoteOutFor(base, effQ, input) && f == FeesOn(out, fees)
  {
    hide FloorDiv, FeeCeil, Covers;
    Distribute(base + input, out, 1);
    QuotientUnique(effQ * input, base + input, out);
    EachFeeCovers(out, fees);
    var g := FeesOn(out, fees);
    CoverOnce(f.lp, g.lp, out, fees.lp);
    CoverOnce(f.protocol, g.protocol, out, fees.protocol);
    CoverOnce(f.creator, g.creator, out, fees.creator);
  }

  /**
   * A sell is accepted exactly when selling is enabled and not blocked, the raw quote vault covers what
   * leaves it, and something is left of the proceeds.
   */
  lemma SellAcceptedIff(p: Pool, fees: FeeBps, amountIn: int, out: nat, f: Fees)
    requires WellFormed(p) && Schedule(p) == Some(fees)
    requires amountIn > 0 ==> Priced(out, f, amountIn, p.base, p.quote + p.virtualQuote, fees)
    ensures var q := QuoteExactIn(p, false, amountIn);
            q.Some? && (!q.value.rejected <==>
              && !p.sellDisabled && !p.blocked && amountIn > 0
              && out - f.lp <= p.quote && f.lp + f.protocol + f.creator < out)
  {
    hide Schedule, FeesOn, QuoteOutFor, TransferFeeWorstCase, Priced;
    NeverEmpty(p, fees, amountIn);
    if amountIn > 0 { PricedOnce(out, f, amountIn, p.base, EffQ(p), fees); }
  }

  /** What an accepted sell pays out and leaves in the vaults. */
  lemma SellMeetsTerms(p: Pool, fees: FeeBps, amountIn: int, out: nat, f: Fees)
    requires WellFormed(p) && Schedule(p) == Some(fees) && amountIn > 0
              && Priced(out, f, amountIn, p.base, p.quote + p.virtualQuote, fees)
    requires !QuoteSell(p, fees, amountIn).rejected
    ensures var q := QuoteSell(p, fees, amountIn);
            && q.amountIn == amountIn && q.amountOutToUser == out - f.lp - f.protocol - f.creator
            && 0 <= q.vaultInDelta <= amountIn && WorstFee(p, amountIn, amountIn - q.vaultInDelta)
            && ApplySwap(p, q) == Applied(p.(base := p.base + q.vaultInDelta, quote := p.quote - (out - f.lp)))
  {
    hide Schedule, FeesOn, QuoteOutFor, TransferFeeWorstCase, Priced, WorstFee, FeeFreeBase;
    PricedOnce(out, f, amountIn, p.base, EffQ(p), fees);
    SellMoves(p, fees, amountIn);
    WorstFeeCharged(p, amountIn);
  }

  // ----- refusals -----

  /** The reserves a quote starts from: no negative virtual reserve, and neither side empty. */
  predicate ReservesRefuse(s: PoolMathState, reason: Reject) {
    if s.virtualQuoteReserves < 0 then reason == NegativeVirtualQuoteReserves
    else s.quoteReserve + s.virtualQuoteReserves <= 0 || s.baseReserve <= 0 ==> reason == EmptyPool
  }

  predicate ReservesFine(s: PoolMathState) {
    s.virtualQuoteReserves >= 0 && s.baseReserve > 0 && s.quoteReserve + s.virtualQuoteReserves > 0
  }

  /** A buy's refusals in order, for reserves of any sign. */
  lemma BuyRefusals(s: PoolMathState, fees: FeeBps, budget: int, e: nat, f: Fees, effective: int)
    requires budget >= 0 ==> Inverts(fees, budget, e, f, effective)
    ensures var r := BuyQuoteInput(s, fees, budget); var effQ := s.quoteReserve + s.virtualQuoteReserves;
            if !ReservesFine(s) then r.Refused? && ReservesRefuse(s, r.reason)
            else if budget <= 0 then r == Refused(ZeroAmount)
            else if effective < 2 then r == Refused(AmountTooSmall)
            else if s.baseReserve * (effective - 1) < effQ + (effective - 1) then r == Refused(ZeroOut)
            else r.Ok?
  {
    hide EffectiveQuote, UncorrectedQuote, FeesOn, BaseOutFor, Inverts;
    if ReservesFine(s) && budget > 0 {
      InvertsOnce(fees, budget, e, f, effective);
      if effective >= 2 { BuysAnything(s.baseReserve, s.quoteReserve + s.virtualQuoteReserves, effective - 1); }
    }
  }

  /** A sell's refusals in order. */
  lemma SellRefusals(s: PoolMathState, fees: FeeBps, amountIn: int, out: nat, f: Fees)
    requires ReservesFine(s) && amountIn > 0 ==>
              Priced(out, f, amountIn, s.baseReserve, s.quoteReserve + s.virtualQuoteReserves, fees)
    ensures var r := SellBaseInput(s, fees, amountIn);
            if !ReservesFine(s) then r.Refused? && ReservesRefuse(s, r.reason)
            else if amountIn <= 0 then r == Refused(ZeroAmount)
            else if out - f.lp > s.quoteReserve then r == Refused(BoostRealReserveCap)
            else if f.lp + f.protocol + f.creator >= out then r == Refused(ZeroOut)
            else r.Ok?
  {
    hide FeesOn, QuoteOutFor, Priced;
    if ReservesFine(s) && amountIn > 0 {
      PricedOnce(out, f, amountIn, s.baseReserve, s.quoteReserve + s.virtualQuoteReserves, fees);
    }
  }
}
