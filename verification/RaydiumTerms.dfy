/**
 * What a Raydium swap is, in the pool's own fields and without the functions that compute it: the
 * transfer fees in force, the shares of the configured rates, and the constant-product bracket
 * (src/adapters/raydium_cpmm/math.ts).  These terms leave exactly one quote for an amount.
 */
module RaydiumTerms {
  import opened Arith
  import opened Outcomes
  import opened TransferFee
  import opened RaydiumMath
  import opened RaydiumExact
  import opened RaydiumSwap
  import opened RaydiumFees
  import RP = RaydiumPool

  /** The creator fee leaves the input in mode 0, and in modes 1 and 2 when token 0 or token 1 is the input. */
  predicate CreatorOnInput(s: PoolState, direction: Direction) {
    s.creatorFeeOn == 0 || (s.creatorFeeOn == 1 && direction == ZeroForOne) || (s.creatorFeeOn == 2 && direction == OneForZero)
  }

  function CreatorRate(config: AmmConfig, s: PoolState): nat { if s.enableCreatorFee then config.creator else 0 }

  /** The four fees of a curve result, at the rates of the configuration. */
  predicate ConfiguredShares(c: CurveResult, config: AmmConfig, s: PoolState, direction: Direction) {
    var creator := CreatorRate(config, s);
    && FloorShare(c.protocolFee, c.tradeFee, config.protocol, 1_000_000)
    && FloorShare(c.fundFee, c.tradeFee, config.fund, 1_000_000)
    && (if CreatorOnInput(s, direction) then
          && CeilShare(c.tradeFee + c.creatorFee, c.inputAmount, config.trade + creator, 1_000_000)
          && FloorShare(c.creatorFee, c.tradeFee + c.creatorFee, creator, config.trade + creator)
        else
          && CeilShare(c.tradeFee, c.inputAmount, config.trade, 1_000_000)
          && CeilShare(c.creatorFee, c.outputSwapped, creator, 1_000_000))
  }

  /** The product bracket: `out` is the most that leaves reserves `x`, `y` for `less` without lowering their product. */
  predicate ProductBracket(out: nat, less: nat, x: nat, y: nat) {
    out * (x + less) <= less * y < (out + 1) * (x + less)
  }

  lemma ConfiguredAre(c: CurveResult, ctx: SwapContext, onInput: bool)
    requires IsCreatorFeeOnInput(ctx.pool.creatorFeeOn, ctx.direction) == Some(onInput)
    requires FeeShares(c, FeeRatesOf(ctx.config, ctx.pool), onInput)
    ensures ConfiguredShares(c, ctx.config, ctx.pool, ctx.direction)
  {
    hide FloorShare, CeilShare;
  }

  // ----- exact-in, through the adapter -----

  /** A vault less everything accrued in it. */
  function Tradeable(vault: nat, accrued: FeeCounters): int {
    vault - accrued.protocol - accrued.fund - accrued.creator
  }

  /** An accepted quote of `amountIn`, item by item. */
  predicate QuoteTerms(p: RP.Pool, direction: Direction, amountIn: nat, epoch: nat, q: RP.Quote)
    requires q.fees.Some?
  {
    var f := q.fees.value;
    var (mintIn, mintOut) := if direction == ZeroForOne then (p.mint0, p.mint1) else (p.mint1, p.mint0);
    var token0, token1 := Tradeable(p.vault0, p.state.fees0), Tradeable(p.vault1, p.state.fees1);
    var (reserveIn, reserveOut) := if direction == ZeroForOne then (token0, token1) else (token1, token0);
    var trade, creator := f.lp + f.protocol + f.fund, CreatorRate(p.config, p.state);
    && FeeInForce(f.transferIn, amountIn, mintIn, epoch)
    && q.vaultInDelta == amountIn - f.transferIn && 0 <= f.lp && 0 <= q.vaultInDelta && 0 <= q.vaultOutDelta
    && FloorShare(f.protocol, trade, p.config.protocol, 1_000_000)
    && FloorShare(f.fund, trade, p.config.fund, 1_000_000)
    && 0 < reserveIn && 0 < reserveOut
    && (if CreatorOnInput(p.state, direction) then
          && CeilShare(trade + f.creator, q.vaultInDelta, p.config.trade + creator, 1_000_000)
          && FloorShare(f.creator, trade + f.creator, creator, p.config.trade + creator)
          && trade + f.creator <= q.vaultInDelta
          && ProductBracket(q.vaultOutDelta, q.vaultInDelta - trade - f.creator, reserveIn, reserveOut)
        else
          && CeilShare(trade, q.vaultInDelta, p.config.trade, 1_000_000)
          && CeilShare(f.creator, q.vaultOutDelta + f.creator, creator, 1_000_000)
          && trade <= q.vaultInDelta
          && ProductBracket(q.vaultOutDelta + f.creator, q.vaultInDelta - trade, reserveIn, reserveOut))
    && FeeInForce(f.transferOut, q.vaultOutDelta, mintOut, epoch)
    && q.amountOutToUser == q.vaultOutDelta - f.transferOut > 0
  }

  lemma CurveBracket(d: nat, x: nat, y: nat)
    requires x > 0
    ensures ProductBracket(Curve(d, x, y), d, x, y)
  {
    hide FloorDiv;
    FloorBounds(d * y, x + d);
    Distribute(x + d, Curve(d, x, y), 1);
  }

  /** What an accepted simulation passes to the quote. */
  lemma SimulationTerms(ctx: SwapContext, amountIn: nat)
    requires ValidContext(ctx) && SimulateSwapBaseInput(ctx, amountIn, None).Accepted?
    ensures var v := SimulateSwapBaseInput(ctx, amountIn, None).value; var c := v.curve;
            && FeeInForce(v.transferFeeIn, amountIn, ctx.inputMint, ctx.epoch)
            && FeeInForce(v.transferFeeOut, v.amountOut, ctx.outputMint, ctx.epoch)
            && ConfiguredShares(c, ctx.config, ctx.pool, ctx.direction)
            && c.inputAmount == v.actualAmountIn == amountIn - v.transferFeeIn
            && v.amountReceived == v.amountOut - v.transferFeeOut > 0
            && FeesBalance(c, FeeRatesOf(ctx.config, ctx.pool), v.onInput)
                 && v.onInput == CreatorOnInput(ctx.pool, ctx.direction)
            && c.outputAmount == v.amountOut && ReserveIn(ctx) > 0
            && ProductBracket(c.outputSwapped, c.inputLessFees, ReserveIn(ctx), ReserveOut(ctx))
  {
    hide SimulateSwapBaseInput, FeeShares, ConfiguredShares, FeeInForce, FeesBalance, FeeRatesOf, ProductBracket,
        ExactIn, ValidContext,
         GetTransferFee, ConstantProduct, InputRefusal;
    var v := SimulateSwapBaseInput(ctx, amountIn, None).value;
    ExactInIsTotal(ctx, amountIn, None);
    RefusesBeyondU64(ctx, amountIn);
    AcceptedMoves(ctx, amountIn);
    AcceptedFeesAreShares(ctx, amountIn);
    ConfiguredAre(v.curve, ctx, v.onInput);
    FeesInForce(ctx, amountIn);
    CurveStage(ctx, amountIn);
    OnInputInFields(ctx);
  }

  lemma RefusesBeyondU64(ctx: SwapContext, amountIn: nat)
    requires ValidContext(ctx) && InputRefusal(ctx, amountIn, None).None?
    ensures amountIn <= U64_MAX && ExactIn(ctx, amountIn).received > 0
  {
    hide ExactIn, ValidContext, SplitsZeroRate;
  }

  lemma OnInputInFields(ctx: SwapContext)
    requires ValidContext(ctx)
    ensures OnInput(ctx) == CreatorOnInput(ctx.pool, ctx.direction)
  {
  }

  lemma CurveStage(ctx: SwapContext, amountIn: nat)
    requires ValidContext(ctx)
    ensures var s := ExactIn(ctx, amountIn);
            ReserveIn(ctx) > 0 && ProductBracket(s.swapped, s.lessFees, ReserveIn(ctx), ReserveOut(ctx))
  {
    hide Curve, AfterTransfer, AfterFee, InputRate, OutputRate, ReserveIn, ReserveOut, TierIn, TierOut, ProductBracket;
    ReservesExact(ctx);
    CurveBracket(ExactIn(ctx, amountIn).lessFees, ReserveIn(ctx), ReserveOut(ctx));
  }

  lemma FeesInForce(ctx: SwapContext, amountIn: nat)
    requires ValidContext(ctx) && SimulateSwapBaseInput(ctx, amountIn, None).Accepted?
    ensures var v := SimulateSwapBaseInput(ctx, amountIn, None).value;
            && FeeInForce(v.transferFeeIn, amountIn, ctx.inputMint, ctx.epoch)
            && FeeInForce(v.transferFeeOut, v.amountOut, ctx.outputMint, ctx.epoch)
  {
    hide SimulateSwapBaseInput, FeeInForce, GetTransferFee;
    TransfersOf(ctx, amountIn);
    SwapFeeInForce(ctx.inputMint, ctx.epoch, amountIn);
    SwapFeeInForce(ctx.outputMint, ctx.epoch, SimulateSwapBaseInput(ctx, amountIn, None).value.amountOut);
  }

  lemma TransfersOf(ctx: SwapContext, amountIn: nat)
    requires SimulateSwapBaseInput(ctx, amountIn, None).Accepted?
    ensures var v := SimulateSwapBaseInput(ctx, amountIn, None).value;
            && amountIn <= U64_MAX && v.amountOut <= U64_MAX
            && GetTransferFee(ctx.inputMint, ctx.epoch, amountIn) == Value(v.transferFeeIn)
            && GetTransferFee(ctx.outputMint, ctx.epoch, v.amountOut) == Value(v.transferFeeOut)
  {
    hide GetTransferFee, ReservesFor, CurveSwapBaseInput, ConstantProduct, FeeRatesOf;
  }

  /** Every accepted quote meets the terms of its pool. */
  lemma AcceptedQuoteMeetsTerms(p: RP.Pool, direction: Direction, amountIn: int, epoch: nat)
    requires RP.WellFormed(p) && !RP.QuoteExactIn(p, direction, amountIn, epoch).rejected
    ensures var q := RP.QuoteExactIn(p, direction, amountIn, epoch);
            0 < amountIn && q.fees.Some? && QuoteTerms(p, direction, amountIn, epoch, q)
  {
    hide SimulateSwapBaseInput, RP.WellFormed, ValidContext, FeeInForce, FloorShare, CeilShare, ProductBracket,
        ReserveIn, ReserveOut,
         Realises, ExactIn, RP.StagesOf, ConstantProduct;
    RP.AcceptedSimulation(p, direction, amountIn, epoch);
    RP.ContextValid(p, direction, epoch);
    SimulationTerms(RP.Context(p, direction, epoch), amountIn);
  }

  // ----- the terms are complete -----

  lemma CeilShareUnique(f: nat, g: nat, base: nat, rate: nat, den: nat)
    requires den > 0 && CeilShare(f, base, rate, den) && CeilShare(g, base, rate, den)
    ensures f == g
  {
    if f < g { MulMono(f + 1, g, den); Distribute(den, f, 1); }
    if g < f { MulMono(g + 1, f, den); Distribute(den, g, 1); }
  }

  lemma FloorShareUnique(f: nat, g: nat, base: nat, rate: nat, den: nat)
    requires FloorShare(f, base, rate, den) && FloorShare(g, base, rate, den)
    ensures f == g
  {
    if f < g { MulMono(f + 1, g, den); }
    if g < f { MulMono(g + 1, f, den); }
  }

  lemma BracketUnique(o: nat, u: nat, less: nat, x: nat, y: nat)
    requires x > 0 && ProductBracket(o, less, x, y) && ProductBracket(u, less, x, y)
    ensures o == u
  {
    if o < u { MulMono(o + 1, u, x + less); }
    if u < o { MulMono(u + 1, o, x + less); }
  }

  /** Two quotes that meet the terms of one pool for one amount agree on every amount. */
  lemma TermsDetermineQuote(p: RP.Pool, direction: Direction, amountIn: nat, epoch: nat, q: RP.Quote, r: RP.Quote)
    requires q.fees.Some? && r.fees.Some?
    requires QuoteTerms(p, direction, amountIn, epoch, q) && QuoteTerms(p, direction, amountIn, epoch, r)
    ensures q.fees == r.fees && q.vaultInDelta == r.vaultInDelta && q.vaultOutDelta == r.vaultOutDelta
    ensures q.amountOutToUser == r.amountOutToUser
  {
    hide FeeInForce, FloorShare, CeilShare, ProductBracket;
    var f, g := q.fees.value, r.fees.value;
    var (mintIn, mintOut) := if direction == ZeroForOne then (p.mint0, p.mint1) else (p.mint1, p.mint0);
    var token0, token1 := Tradeable(p.vault0, p.state.fees0), Tradeable(p.vault1, p.state.fees1);
    var (x, y) := if direction == ZeroForOne then (token0, token1) else (token1, token0);
    var creator := CreatorRate(p.config, p.state);
    FeeInForceUnique(f.transferIn, g.transferIn, amountIn, mintIn, epoch);
    var trade, trade' := f.lp + f.protocol + f.fund, g.lp + g.protocol + g.fund;
    if CreatorOnInput(p.state, direction) {
      CeilShareUnique(trade + f.creator, trade' + g.creator, q.vaultInDelta, p.config.trade + creator, 1_000_000);
      FloorShareUnique(f.creator, g.creator, trade + f.creator, creator, p.config.trade + creator);
      BracketUnique(q.vaultOutDelta, r.vaultOutDelta, q.vaultInDelta - trade - f.creator, x, y);
    } else {
      CeilShareUnique(trade, trade', q.vaultInDelta, p.config.trade, 1_000_000);
      BracketUnique(q.vaultOutDelta + f.creator, r.vaultOutDelta + g.creator, q.vaultInDelta - trade, x, y);
      CeilShareUnique(f.creator, g.creator, q.vaultOutDelta + f.creator, creator, 1_000_000);
    }
    FloorShareUnique(f.protocol, g.protocol, trade, p.config.protocol, 1_000_000);
    FloorShareUnique(f.fund, g.fund, trade, p.config.fund, 1_000_000);
    FeeInForceUnique(f.transferOut, g.transferOut, q.vaultOutDelta, mintOut, epoch);
  }

  // ----- when a quote is accepted -----

  /** A pool whose swaps are disabled or not yet open rejects everything; otherwise only the listed refusals reject. */
  lemma AcceptedIff(p: RP.Pool, direction: Direction, amountIn: int, epoch: nat)
    requires RP.WellFormed(p)
    ensures ValidContext(RP.Context(p, direction, epoch))
    ensures !RP.QuoteExactIn(p, direction, amountIn, epoch).rejected <==>
              p.approved && 0 <= amountIn && InputRefusal(RP.Context(p, direction, epoch), amountIn, None).None?
  {
    hide SimulateSwapBaseInput, InputRefusal, ValidContext, Realises, RP.WellFormed;
    var ctx := RP.Context(p, direction, epoch);
    RP.ContextValid(p, direction, epoch);
    if amountIn >= 0 { ExactInIsTotal(ctx, amountIn, None); } else { RP.NegativeInput(ctx, amountIn); }
  }

  // ----- the stages, whatever becomes of them -----

  /** What each stage of an exact-in swap takes off, in the fields of its pool. */
  lemma StagesMeetTerms(ctx: SwapContext, amountIn: nat)
    requires ValidContext(ctx)
    ensures var s := ExactIn(ctx, amountIn); var creator := CreatorRate(ctx.config, ctx.pool);
            var onInput := CreatorOnInput(ctx.pool, ctx.direction);
            && s.received <= s.amountOut <= s.swapped && s.lessFees <= s.actual <= amountIn
            && FeeInForce(amountIn - s.actual, amountIn, ctx.inputMint, ctx.epoch)
            && CeilShare(s.actual - s.lessFees, s.actual, ctx.config.trade + (if onInput then creator else 0),
                 1_000_000)
            && ReserveIn(ctx) > 0 && ProductBracket(s.swapped, s.lessFees, ReserveIn(ctx), ReserveOut(ctx))
            && CeilShare(s.swapped - s.amountOut, s.swapped, if onInput then 0 else creator, 1_000_000)
            && FeeInForce(s.amountOut - s.received, s.amountOut, ctx.outputMint, ctx.epoch)
  {
    hide Curve, AfterTransfer, AfterFee, FeeInForce, CeilShare, ProductBracket, ValidMint, MintTier, ReserveIn,
        ReserveOut;
    var s := ExactIn(ctx, amountIn);
    ExactInBounds(ctx, amountIn);
    OnInputInFields(ctx);
    MintsOf(ctx);
    CurveStage(ctx, amountIn);
    TransferStage(ctx.inputMint, ctx.epoch, amountIn);
    TransferStage(ctx.outputMint, ctx.epoch, s.amountOut);
    FeeStage(s.actual, InputRate(ctx));
    FeeStage(s.swapped, OutputRate(ctx));
  }

  lemma TransferStage(mint: MintFeeView, epoch: nat, gross: nat)
    requires ValidMint(mint) && ValidTier(MintTier(mint, epoch))
    ensures var net := AfterTransfer(MintTier(mint, epoch), gross);
            net <= gross && FeeInForce(gross - net, gross, mint, epoch)
  {
    hide FeeOf, CappedCeiling;
    FeeOfCapped(MintTier(mint, epoch), gross);
    ZeroTierFree(gross);
  }

  lemma FeeStage(gross: nat, rate: nat)
    requires rate < DEN
    ensures CeilShare(gross - AfterFee(gross, rate), gross, rate, 1_000_000)
  {
    hide CeilDiv;
    CeilBounds(gross * rate, DEN);
  }

  /**
   * Exact-in is refused exactly when the amount or the vault after it leaves u64, when nothing would be
   * received or less than the minimum, or when the creator's share is to be split from a zero rate.
   */
  lemma InputAcceptedIff(ctx: SwapContext, amountIn: nat, minimumAmountOut: Option<int>)
    requires ValidContext(ctx)
    ensures var s := ExactIn(ctx, amountIn);
            SimulateSwapBaseInput(ctx, amountIn, minimumAmountOut).Accepted? <==>
              && amountIn <= 0xFFFF_FFFF_FFFF_FFFF && ctx.inputVault + s.actual <= 0xFFFF_FFFF_FFFF_FFFF
              && s.received > 0 && (minimumAmountOut.Some? ==> minimumAmountOut.value <= s.received)
              && (CreatorOnInput(ctx.pool, ctx.direction) ==> ctx.config.trade + CreatorRate(ctx.config, ctx.pool) > 0)
  {
    hide SimulateSwapBaseInput, ExactIn, ValidContext, Realises, OnInput;
    ExactInIsTotal(ctx, amountIn, minimumAmountOut);
    OnInputInFields(ctx);
    NothingFromNothing(ctx, amountIn);
  }

  /** The refusals of exact-in, in order. */
  lemma InputRefusedInOrder(ctx: SwapContext, amountIn: nat, minimumAmountOut: Option<int>)
    requires ValidContext(ctx)
    ensures var s := ExactIn(ctx, amountIn); var outcome := SimulateSwapBaseInput(ctx, amountIn, minimumAmountOut);
            if amountIn > 0xFFFF_FFFF_FFFF_FFFF then outcome == Rejected(U64Overflow)
            else if s.actual == 0 then outcome == Rejected(RequireGtViolated)
            else if CreatorOnInput(ctx.pool, ctx.direction) && ctx.config.trade + CreatorRate(ctx.config, ctx.pool) == 0 then
              outcome == Rejected(ZeroTradingTokens)
            else if s.received == 0 then outcome == Rejected(RequireGtViolated)
            else if minimumAmountOut.Some? && s.received < minimumAmountOut.value then outcome == Rejected(ExceededSlippage)
            else if ctx.inputVault + s.actual > 0xFFFF_FFFF_FFFF_FFFF then outcome == Rejected(U64OverflowVault)
            else outcome.Accepted?
  {
    hide SimulateSwapBaseInput, ExactIn, ValidContext, Realises, OnInput;
    ExactInIsTotal(ctx, amountIn, minimumAmountOut);
    OnInputInFields(ctx);
  }

  lemma NothingFromNothing(ctx: SwapContext, amountIn: nat)
    requires ValidContext(ctx)
    ensures ExactIn(ctx, amountIn).received > 0 ==> ExactIn(ctx, amountIn).actual > 0
  {
    hide ValidContext, ExactIn, FeeInForce, CeilShare, ReserveIn, ReserveOut;
    StagesMeetTerms(ctx, amountIn);
    var s := ExactIn(ctx, amountIn);
    if s.received > 0 { BracketNeedsInput(s.swapped, s.lessFees, ReserveIn(ctx), ReserveOut(ctx)); }
  }

  lemma BracketNeedsInput(out: nat, less: nat, x: nat, y: nat)
    requires x > 0 && out > 0 && ProductBracket(out, less, x, y)
    ensures less > 0
  {
    if less == 0 { MulMono(1, out, x); }
  }

  /** A quote applies exactly when the pool itself would quote the same amounts for it, whoever computed it. */
  lemma AppliesOwnQuotesOnly(p: RP.Pool, q: RP.Quote, epoch: nat)
    requires RP.WellFormed(p) && !q.rejected
    ensures var open := p.(approved := true); var own := RP.QuoteExactIn(open, q.direction, q.amountIn, epoch);
            RP.ApplySwap(p, q, epoch).Applied? <==>
              && !own.rejected && q.amountOutToUser == own.amountOutToUser
              && q.vaultInDelta == own.vaultInDelta && q.vaultOutDelta == own.vaultOutDelta
    ensures var open := p.(approved := true); var own := RP.QuoteExactIn(open, q.direction, q.amountIn, epoch);
            !own.rejected && !RP.ApplySwap(p, q, epoch).Applied? ==> RP.ApplySwap(p, q, epoch) == RP.QuoteStateMismatch
  {
    hide SimulateSwapBaseInput, ApplyFeeUpdate, VaultAmountWithoutFee, RP.WellFormed;
    var open := p.(approved := true);
    OpenIsWellFormed(p);
    var own := RP.QuoteExactIn(open, q.direction, q.amountIn, epoch);
    if !own.rejected {
      RP.AcceptedQuoteApplies(open, q.direction, q.amountIn, epoch);
      RP.QuoteDirection(open, q.direction, q.amountIn, epoch);
    }
  }

  lemma OpenIsWellFormed(p: RP.Pool)
    requires RP.WellFormed(p)
    ensures RP.WellFormed(p.(approved := true))
  {
  }

  // ----- exact-out -----

  /** Exact-out charges the configured shares too, and the transfer fees in force on both gross amounts. */
  lemma ExactOutMeetsTerms(ctx: SwapContext, received: int, maxAmountIn: Option<int>)
    requires ValidContext(ctx) && SimulateSwapBaseOutput(ctx, received, maxAmountIn).Accepted?
    ensures var v := SimulateSwapBaseOutput(ctx, received, maxAmountIn).value;
            && ConfiguredShares(v.curve, ctx.config, ctx.pool, ctx.direction)
            && v.amountOutWithTransferFee == received + v.outTransferFee
            && FeeInForce(v.outTransferFee, v.amountOutWithTransferFee, ctx.outputMint, ctx.epoch)
            && v.inputTransferAmount == v.inputAmount + v.inputTransferFee && v.curve.inputAmount == v.inputAmount
            && FeeInForce(v.inputTransferFee, v.inputTransferAmount, ctx.inputMint, ctx.epoch)
  {
    hide SimulateSwapBaseOutput, FeeShares, ConfiguredShares, FeeInForce, ValidContext, CurveSwapBaseOutput, FeeRatesOf,
        GrossFor;
    OutputTrace(ctx, received, maxAmountIn);
    var v := SimulateSwapBaseOutput(ctx, received, maxAmountIn).value;
    ExactOutShares(v.amountOutWithTransferFee, v.reserveIn, v.reserveOut, FeeRatesOf(ctx.config, ctx.pool), v.onInput);
    ConfiguredAre(v.curve, ctx, v.onInput);
    MintsOf(ctx);
    InverseInForce(ctx.outputMint, ctx.epoch, received);
    InverseInForce(ctx.inputMint, ctx.epoch, v.inputAmount);
  }

  lemma MintsOf(ctx: SwapContext)
    requires ValidContext(ctx)
    ensures ValidMint(ctx.inputMint) && ValidMint(ctx.outputMint)
  {
    hide ValidMint, ValidRates;
  }

  lemma OutputTrace(ctx: SwapContext, received: int, maxAmountIn: Option<int>)
    requires SimulateSwapBaseOutput(ctx, received, maxAmountIn).Accepted?
    ensures var v := SimulateSwapBaseOutput(ctx, received, maxAmountIn).value;
            && 0 < received <= U64_MAX && 0 < v.inputAmount <= U64_MAX
            && GetTransferInverseFee(ctx.outputMint, ctx.epoch, received) == Inverse(v.outTransferFee)
            && v.amountOutWithTransferFee == received + v.outTransferFee
            && GetTransferInverseFee(ctx.inputMint, ctx.epoch, v.inputAmount) == Inverse(v.inputTransferFee)
            && v.inputTransferAmount == v.inputAmount + v.inputTransferFee && v.curve.inputAmount == v.inputAmount
            && IsCreatorFeeOnInput(ctx.pool.creatorFeeOn, ctx.direction) == Some(v.onInput)
            && CurveSwapBaseOutput(v.amountOutWithTransferFee, v.reserveIn, v.reserveOut,
                 FeeRatesOf(ctx.config, ctx.pool), v.onInput) == Value(v.curve)
  {
    hide GetTransferInverseFee, ReservesFor, CurveSwapBaseOutput, ConstantProduct, FeeRatesOf, IsCreatorFeeOnInput;
  }

  /** The inverse fee is the fee in force on the gross amount it leads to. */
  lemma InverseInForce(mint: MintFeeView, epoch: nat, post: nat)
    requires ValidMint(mint) && 0 < post <= U64_MAX && GetTransferInverseFee(mint, epoch, post).Inverse?
    ensures var fee := GetTransferInverseFee(mint, epoch, post).fee; FeeInForce(fee, post + fee, mint, epoch)
  {
    hide GrossFor, FeeOf, GetTransferInverseFee, CappedCeiling;
    var tier := MintTier(mint, epoch);
    GetTransferInverseFeeExact(mint, epoch, post);
    NetOfGrossFor(tier, post);
    FeeOfCapped(tier, GrossFor(tier, post));
    ZeroTierFree(GrossFor(tier, post));
  }
}
