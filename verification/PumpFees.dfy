/**
 * Who gets what out of a PumpSwap trade: every lamport between the user and the vault is one of the
 * three fees, each the least lamport amount covering its rate (src/adapters/pumpswap/adapter.ts).
 */
module PumpFees {
  import opened PumpMath
  import opened PumpPool

  /** `fee` is the least amount covering `bps` basis points of `base`. */
  predicate Covers(fee: nat, base: nat, bps: nat) {
    base * bps <= fee * BPS < base * bps + BPS
  }

  predicate FeesCover(f: Fees, base: nat, fees: FeeBps) {
    Covers(f.lp, base, fees.lp) && Covers(f.protocol, base, fees.protocol) && Covers(f.creator, base, fees.creator)
  }

  lemma EachFeeCovers(base: nat, fees: FeeBps)
    ensures FeesCover(FeesOn(base, fees), base, fees)
  {
    hide FeeCeil;
    FeeCeilExact(base, fees.lp);
    FeeCeilExact(base, fees.protocol);
    FeeCeilExact(base, fees.creator);
  }

  /**
   * A buy: the LP fee stays in the quote vault, the other two leave; the user receives the base less its
   * transfer fee.
   */
  lemma BuyItemises(p: Pool, fees: FeeBps, budget: int)
    requires !QuoteBuy(p, fees, budget).rejected
    ensures var q := QuoteBuy(p, fees, budget); var r := BuyQuoteInput(MathState(p), fees, budget);
            && r.Ok? && FeesCover(r.value.fees, UncorrectedQuote(fees, budget), fees)
            && q.amountIn == q.vaultInDelta + r.value.fees.protocol + r.value.fees.creator
            && q.vaultInDelta == EffectiveQuote(fees, budget) + r.value.fees.lp
            && q.amountIn <= budget
            && q.vaultOutDelta == q.amountOutToUser + TransferFeeWorstCase(p, q.vaultOutDelta)
  {
    hide EffectiveQuote, UncorrectedQuote, FeesOn, BaseOutFor, TransferFeeWorstCase, FeesCover;
    AcceptedBuy(MathState(p), fees, budget);
    EachFeeCovers(UncorrectedQuote(fees, budget), fees);
    CorrectionAtMostTwo(fees, budget);
  }

  /**
   * A sell: the curve prices the gross base, the vault receives it less its transfer fee, and fees come
   * out of the quote.
   */
  lemma SellItemises(p: Pool, fees: FeeBps, amountIn: int)
    requires !QuoteSell(p, fees, amountIn).rejected
    ensures var q := QuoteSell(p, fees, amountIn); var r := SellBaseInput(MathState(p), fees, amountIn);
            && r.Ok? && FeesCover(r.value.fees, r.value.quoteAmountOut, fees)
            && q.vaultOutDelta == q.amountOutToUser + r.value.fees.protocol + r.value.fees.creator
            && q.vaultOutDelta + r.value.fees.lp == r.value.quoteAmountOut == QuoteOutFor(p.base, EffQ(p), amountIn)
            && 0 < amountIn == q.vaultInDelta + TransferFeeWorstCase(p, amountIn)
  {
    hide FeesOn, QuoteOutFor, TransferFeeWorstCase, FeesCover;
    EachFeeCovers(SellBaseInput(MathState(p), fees, amountIn).value.quoteAmountOut, fees);
  }
}
