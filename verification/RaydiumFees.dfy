/**
 * Who gets what out of a Raydium swap: every fee is the stated share of its base, rounded the stated
 * way, and accrues to the stated counter of the stated token (src/adapters/raydium_cpmm/math.ts).
 */
module RaydiumFees {
  import opened Arith
  import opened Outcomes
  import opened TransferFee
  import opened RaydiumMath
  import opened RaydiumExact
  import opened RaydiumSwap
  import Fee = ProportionalFee
  import RP = RaydiumPool

  /** `fee` is the largest share of at most `rate / den` of `base`. */
  predicate FloorShare(fee: nat, base: nat, rate: nat, den: nat) {
    fee * den <= base * rate < (fee + 1) * den
  }

  /** `fee` is the least share of at least `rate / den` of `base`. */
  predicate CeilShare(fee: nat, base: nat, rate: nat, den: nat) {
    base * rate <= fee * den < base * rate + den
  }

  /** The rounding and the recipient of every fee of a curve result. */
  predicate FeeShares(c: CurveResult, r: FeeRates, onInput: bool) {
    && FloorShare(c.protocolFee, c.tradeFee, r.protocol, DEN)
    && FloorShare(c.fundFee, c.tradeFee, r.fund, DEN)
    && (if onInput then
          && CeilShare(c.tradeFee + c.creatorFee, c.inputAmount, r.trade + r.creator, DEN)
          && FloorShare(c.creatorFee, c.tradeFee + c.creatorFee, r.creator, r.trade + r.creator)
        else
          && CeilShare(c.tradeFee, c.inputAmount, r.trade, DEN)
          && CeilShare(c.creatorFee, c.outputSwapped, r.creator, DEN))
  }

  lemma FloorDivShare(amount: nat, num: nat, den: nat)
    requires FeeFloorDiv(amount, num, den).Value?
    ensures FloorShare(FeeFloorDiv(amount, num, den).value, amount, num, den)
  {
    hide FloorDiv;
    FloorBounds(amount * num, den);
    Distribute(den, FloorDiv(amount * num, den), 1);
  }

  lemma CeilDivShare(amount: nat, num: nat, den: nat)
    requires FeeCeilDiv(amount, num, den).Value?
    ensures CeilShare(FeeCeilDiv(amount, num, den).value, amount, num, den)
  {
    hide FloorDiv;
    CeilBounds(amount * num, den);
  }

  lemma InputSideShares(input: nat, r: FeeRates, onInput: bool)
    requires InputSideFees(input, r, onInput).Value?
    ensures var f := InputSideFees(input, r, onInput).value;
            if onInput then CeilShare(f.tradeFee + f.creatorFee, input, r.trade + r.creator, DEN)
                            && FloorShare(f.creatorFee, f.tradeFee + f.creatorFee, r.creator, r.trade + r.creator)
            else CeilShare(f.tradeFee, input, r.trade, DEN)
  {
    hide FeeCeilDiv, FeeFloorDiv, CeilShare, FloorShare;
    if onInput {
      var totalFee := TradingFee(input, r.trade + r.creator).value;
      CeilDivShare(input, r.trade + r.creator, DEN);
      FloorDivShare(totalFee, r.creator, r.trade + r.creator);
    } else {
      CeilDivShare(input, r.trade, DEN);
    }
  }

  /** Exact-in: no rate validity is needed, only that the curve returned a result. */
  lemma ExactInShares(input: nat, x: nat, y: nat, r: FeeRates, onInput: bool)
    requires CurveSwapBaseInput(input, x, y, r, onInput).Value?
    ensures FeeShares(CurveSwapBaseInput(input, x, y, r, onInput).value, r, onInput)
  {
    hide FeeCeilDiv, FeeFloorDiv, CeilShare, FloorShare, InputSideFees, SwapBaseInputWithoutFees;
    InputSideShares(input, r, onInput);
    var c := CurveSwapBaseInput(input, x, y, r, onInput).value;
    FloorDivShare(c.tradeFee, r.protocol, DEN);
    FloorDivShare(c.tradeFee, r.fund, DEN);
    if !onInput { CeilDivShare(c.outputSwapped, r.creator, DEN); }
  }

  lemma LeastGrossShare(net: nat, rate: nat)
    requires rate < DEN
    ensures var gross := Fee.LeastGross(net, rate, DEN); gross >= net && CeilShare(gross - net, gross, rate, DEN)
  {
    hide Fee.LeastGross, FloorDiv;
    var gross := Fee.LeastGross(net, rate, DEN);
    Fee.NetOfLeastGross(net, rate, DEN);
    CeilBounds(gross * rate, DEN);
  }

  /** Exact-out charges the same shares of the amounts it works back to. */
  lemma ExactOutShares(output: nat, x: nat, y: nat, r: FeeRates, onInput: bool)
    requires CurveSwapBaseOutput(output, x, y, r, onInput).Value?
    ensures FeeShares(CurveSwapBaseOutput(output, x, y, r, onInput).value, r, onInput)
  {
    hide FeeFloorDiv, CeilShare, FloorShare, SwapBaseOutputWithoutFees, CalculatePreFee, Fee.LeastGross;
    var c := CurveSwapBaseOutput(output, x, y, r, onInput).value;
    FloorDivShare(c.tradeFee, r.protocol, DEN);
    FloorDivShare(c.tradeFee, r.fund, DEN);
    LeastGrossShare(c.inputLessFees, if onInput then r.trade + r.creator else r.trade);
    if onInput {
      FloorDivShare(c.tradeFee + c.creatorFee, r.creator, r.trade + r.creator);
    } else {
      LeastGrossShare(output, r.creator);
    }
  }

  // ----- the counters of a pool -----

  function CountersIn(s: PoolState, direction: Direction): FeeCounters {
    if direction == ZeroForOne then s.fees0 else s.fees1
  }
  function CountersOut(s: PoolState, direction: Direction): FeeCounters {
    if direction == ZeroForOne then s.fees1 else s.fees0
  }

  /**
   * An accepted quote, applied: protocol and fund fees accrue on the input token, the creator fee on
   * the token it was taken from, nothing else moves, and the vaults move by the quoted deltas.
   */
  lemma AcceptedQuoteAccrues(p: RP.Pool, direction: Direction, amountIn: int, epoch: nat)
    requires RP.WellFormed(p) && !RP.QuoteExactIn(p, direction, amountIn, epoch).rejected
    ensures var q := RP.QuoteExactIn(p, direction, amountIn, epoch);
            var applied := RP.ApplySwap(p, q, epoch);
            && applied.Applied? && q.fees.Some?
            && var f := q.fees.value; var p' := applied.pool;
            var onInput := IsCreatorFeeOnInput(p.state.creatorFeeOn, direction) == Some(true);
            && (var before := CountersIn(p.state, direction);
                CountersIn(p'.state, direction) == FeeCounters(before.protocol + f.protocol, before.fund + f.fund,
                                                               before.creator + if onInput then f.creator else 0))
            && (var before := CountersOut(p.state, direction);
                CountersOut(p'.state, direction) == before.(creator :=
                    before.creator + if onInput then 0 else f.creator))
            && p'.state.creatorFeeOn == p.state.creatorFeeOn && p'.state.enableCreatorFee == p.state.enableCreatorFee
            && (if direction == ZeroForOne then p'.vault0 == p.vault0 + q.vaultInDelta && p'.vault1 == p.vault1 - q.vaultOutDelta
                else p'.vault1 == p.vault1 + q.vaultInDelta && p'.vault0 == p.vault0 - q.vaultOutDelta)
  {
    hide SimulateSwapBaseInput, RP.StagesOf, ExactIn, RP.WellFormed, ValidContext, VaultAmountWithoutFee, Realises,
        RP.PricingIn, RP.PricingOut;
    RP.AcceptedQuoteApplies(p, direction, amountIn, epoch);
    AcceptedMoves(RP.Context(p, direction, epoch), amountIn);
  }

  /** What an accepted simulation reports about the vaults and the creator-fee side. */
  lemma AcceptedMoves(ctx: SwapContext, amountIn: int)
    requires SimulateSwapBaseInput(ctx, amountIn, None).Accepted?
    ensures var v := SimulateSwapBaseInput(ctx, amountIn, None).value;
            && IsCreatorFeeOnInput(ctx.pool.creatorFeeOn, ctx.direction) == Some(v.onInput)
            && v.vaultInAfter == ctx.inputVault + v.actualAmountIn && v.vaultOutAfter == ctx.outputVault - v.amountOut
            && v.transferFeeIn + v.actualAmountIn == amountIn
            && CurveSwapBaseInput(v.actualAmountIn, v.reserveIn, v.reserveOut, FeeRatesOf(ctx.config, ctx.pool),
                 v.onInput) == Value(v.curve)
  {
    hide GetTransferFee, ReservesFor, CurveSwapBaseInput, ConstantProduct, FeeRatesOf;
  }

  /** Every fee of an accepted exact-in swap is the stated share of the stated base. */
  lemma AcceptedFeesAreShares(ctx: SwapContext, amountIn: int)
    requires SimulateSwapBaseInput(ctx, amountIn, None).Accepted?
    ensures var v := SimulateSwapBaseInput(ctx, amountIn, None).value;
            FeeShares(v.curve, FeeRatesOf(ctx.config, ctx.pool), v.onInput)
  {
    hide SimulateSwapBaseInput, CurveSwapBaseInput, FeeShares, FeeRatesOf;
    AcceptedMoves(ctx, amountIn);
    var v := SimulateSwapBaseInput(ctx, amountIn, None).value;
    ExactInShares(v.actualAmountIn, v.reserveIn, v.reserveOut, FeeRatesOf(ctx.config, ctx.pool), v.onInput);
  }
}
