/**
 * The checked simulations against their mathematical meaning: exact-in is total on well-formed
 * pools, exact-out is its least inverse, and u128 arithmetic never overflows.
 */
module RaydiumSwap {
  import opened Arith
  import opened Outcomes
  import opened TransferFee
  import opened RaydiumMath
  import opened RaydiumExact
  import Fee = ProportionalFee

  // ----- checked fee helpers on amounts that occur -----

  const WIDE: nat := 0x1_0000_0000_0000_0000_0000_0000  // any intermediate amount stays below 2^96

  lemma CeilFeeExact(amount: nat, rate: nat)
    requires amount <= WIDE && rate <= DEN
    ensures FeeCeilDiv(amount, rate, DEN) == Value(Fee.Fee(amount, rate, DEN))
  {
    MulMono2(amount, WIDE, rate, DEN);
  }

  lemma FloorFeeExact(amount: nat, num: nat, den: nat)
    requires amount <= WIDE && num <= DEN && num <= den && 0 < den
    ensures FeeFloorDiv(amount, num, den) == Value(FloorDiv(amount * num, den))
    ensures FloorDiv(amount * num, den) <= amount
  {
    MulMono2(amount, WIDE, num, DEN);
    ShareAtMostWhole(amount, num, den);
  }

  lemma PreFeeExact(post: nat, rate: nat)
    requires post <= WIDE && rate < DEN
    ensures CalculatePreFee(post, rate) == Value(Fee.LeastGross(post, rate, DEN))
  {
    hide Fee.LeastGross;
    MulMono(post, WIDE, DEN);
  }

  /** The protocol and fund shares are carved out of the trade fee: the LP share is never negative. */
  lemma SharesFitTradeFee(tradeFee: nat, protocol: nat, fund: nat)
    requires protocol + fund <= DEN
    ensures FloorDiv(tradeFee * protocol, DEN) + FloorDiv(tradeFee * fund, DEN) <= tradeFee
  {
    hide FloorDiv;
    FloorBounds(tradeFee * protocol, DEN);
    FloorBounds(tradeFee * fund, DEN);
    TwoShares(tradeFee, protocol, fund, FloorDiv(tradeFee * protocol, DEN), FloorDiv(tradeFee * fund, DEN));
  }

  lemma TwoShares(whole: nat, r: nat, s: nat, f: nat, g: nat)
    requires r + s <= DEN && f * DEN <= whole * r && g * DEN <= whole * s
    ensures f + g <= whole
  {
    MulMono(r + s, DEN, whole);
    Distribute(whole, r, s);
  }

  // ----- the curve -----

  function RateOnInput(r: FeeRates, onInput: bool): nat { if onInput then r.trade + r.creator else r.trade }
  function RateOnOutput(r: FeeRates, onInput: bool): nat { if onInput then 0 else r.creator }

  /** Splitting a creator fee out of a zero total rate divides by zero: the one None of the curve. */
  predicate SplitsZeroRate(r: FeeRates, onInput: bool) { onInput && r.trade + r.creator == 0 }

  /** How a curve result distributes its fees. */
  predicate FeesBalance(c: CurveResult, r: FeeRates, onInput: bool) {
    && c.protocolFee + c.fundFee <= c.tradeFee
    && c.inputAmount == c.inputLessFees + c.tradeFee + (if onInput then c.creatorFee else 0)
    && c.outputSwapped == c.outputAmount + (if onInput then 0 else c.creatorFee)
    && (r.creator == 0 ==> c.creatorFee == 0)
  }

  /** The creator's share of a combined input fee. */
  ghost function SplitOf(totalFee: nat, r: FeeRates): (share: nat)
    requires ValidRates(r) && r.trade + r.creator > 0 && totalFee <= WIDE
    ensures SplitCreatorFee(totalFee, r.trade, r.creator) == Value(share)
    ensures share <= totalFee
    ensures r.creator == 0 ==> share == 0
  {
    FloorFeeExact(totalFee, r.creator, r.trade + r.creator);
    assert r.creator == 0 ==> totalFee * r.creator == 0;
    FloorDiv(totalFee * r.creator, r.trade + r.creator)
  }

  lemma SplittingZeroRate(totalFee: nat)
    ensures SplitCreatorFee(totalFee, 0, 0) == Null
  {
  }

  lemma InputSideExact(input: nat, r: FeeRates, onInput: bool)
    requires ValidRates(r) && input <= U64_MAX && !SplitsZeroRate(r, onInput)
    ensures var f := InputSideFees(input, r, onInput);
            && f.Value?
            && f.value.lessFees == Fee.Net(input, RateOnInput(r, onInput), DEN)
            && input == f.value.lessFees + f.value.tradeFee + f.value.creatorFee
            && (r.creator == 0 || !onInput ==> f.value.creatorFee == 0)
  {
    hide Fee.Fee, FeeCeilDiv, SplitCreatorFee, SplitOf;
    var rate := RateOnInput(r, onInput);
    CeilFeeExact(input, rate);
    Fee.FeeAtMostGross(input, rate, DEN);
    var creatorFee := if onInput then SplitOf(Fee.Fee(input, rate, DEN), r) else 0;
    assert onInput ==> SplitCreatorFee(Fee.Fee(input, rate, DEN), r.trade, r.creator) == Value(creatorFee);
  }

  lemma CurveInputExact(input: nat, x: nat, y: nat, r: FeeRates, onInput: bool)
    requires ValidRates(r) && input <= U64_MAX && 0 < x <= U64_MAX && 0 < y <= U64_MAX
    ensures var c := CurveSwapBaseInput(input, x, y, r, onInput);
            if SplitsZeroRate(r, onInput) then c == Null
            else
              && c.Value?
              && c.value.inputAmount == input
              && c.value.inputLessFees == Fee.Net(input, RateOnInput(r, onInput), DEN)
              && c.value.outputSwapped == Curve(c.value.inputLessFees, x, y) < y
              && c.value.outputAmount == Fee.Net(c.value.outputSwapped, RateOnOutput(r, onInput), DEN)
              && c.value.newInputVault == x + c.value.inputLessFees
              && c.value.newOutputVault == y - c.value.outputSwapped
              && FeesBalance(c.value, r, onInput)
  {
    hide Fee.Fee, FloorDiv, FeeCeilDiv, FeeFloorDiv, SplitCreatorFee;
    if SplitsZeroRate(r, onInput) {
      CeilFeeExact(input, 0);
      SplittingZeroRate(Fee.Fee(input, 0, DEN));
    } else {
      InputSideExact(input, r, onInput);
      hide InputSideFees, ProtocolFee, FundFee;
      var f := InputSideFees(input, r, onInput).value;
      TradeSharesExact(f.tradeFee, r);
      MulMono2(f.lessFees, U64_MAX, y, U64_MAX);
      CurveBelowReserve(f.lessFees, x, y);
      var o := Curve(f.lessFees, x, y);
      CeilFeeExact(o, r.creator);
      Fee.FeeAtMostGross(o, r.creator, DEN);
      Fee.ZeroRate(o, DEN);
    }
  }

  // ----- exact-in is total -----

  lemma ReservesExact(ctx: SwapContext)
    requires ValidContext(ctx)
    ensures ReservesFor(ctx) == Accepted(Sides(ReserveIn(ctx), ReserveOut(ctx)))
    ensures IsCreatorFeeOnInput(ctx.pool.creatorFeeOn, ctx.direction) == Some(OnInput(ctx))
    ensures 0 < ReserveIn(ctx) <= ctx.inputVault <= U64_MAX && 0 < ReserveOut(ctx) <= ctx.outputVault <= U64_MAX
  {
    hide ValidRates, ValidMint, FeeRatesOf, ValidTier;
  }

  /** The refusals that remain on a well-formed pool, in the order the simulation finds them. */
  function InputRefusal(ctx: SwapContext, amountIn: nat, minimumAmountOut: Option<int>): (r: Option<Code>)
    requires ValidContext(ctx)
    ensures r.Some? ==> r.value in {U64Overflow, RequireGtViolated, ZeroTradingTokens, ExceededSlippage, U64OverflowVault}
  {
    var s := ExactIn(ctx, amountIn);
    if amountIn > U64_MAX then Some(U64Overflow)
    else if s.actual == 0 then Some(RequireGtViolated)
    else if SplitsZeroRate(FeeRatesOf(ctx.config, ctx.pool), OnInput(ctx)) then Some(ZeroTradingTokens)
    else if s.received == 0 then Some(RequireGtViolated)
    else if minimumAmountOut.Some? && s.received < minimumAmountOut.value then Some(ExceededSlippage)
    else if ctx.inputVault + s.actual > U64_MAX then Some(U64OverflowVault)
    else None
  }

  /** The curve result of an exact-in swap in terms of its stages. */
  predicate CurveRealises(ctx: SwapContext, s: Stages, curve: CurveResult)
    requires ValidContext(ctx)
  {
    && curve.inputAmount == s.actual && curve.inputLessFees == s.lessFees
    && curve.outputSwapped == s.swapped && curve.outputAmount == s.amountOut
    && curve.newInputVault == ReserveIn(ctx) + s.lessFees && curve.newOutputVault == ReserveOut(ctx) - s.swapped
    && FeesBalance(curve, FeeRatesOf(ctx.config, ctx.pool), OnInput(ctx))
  }

  /** What an accepted exact-in swap reports. */
  predicate Realises(ctx: SwapContext, amountIn: nat, v: SwapBaseInput)
    requires ValidContext(ctx)
  {
    var s := ExactIn(ctx, amountIn);
    && v.actualAmountIn == s.actual && v.transferFeeIn == amountIn - s.actual
    && v.amountOut == s.amountOut && v.amountReceived == s.received && v.transferFeeOut == s.amountOut - s.received
    && v.reserveIn == ReserveIn(ctx) && v.reserveOut == ReserveOut(ctx) && v.onInput == OnInput(ctx)
    && CurveRealises(ctx, s, v.curve)
    && v.constantBefore == ConstantProduct(v.reserveIn, v.reserveOut)
    && v.constantAfter == ConstantProduct(v.curve.newInputVault, v.curve.newOutputVault)
    && v.constantBefore <= v.constantAfter <= U128_MAX - 1
    && v.vaultInAfter == ctx.inputVault + s.actual <= U64_MAX
    && v.vaultOutAfter == ctx.outputVault - s.amountOut
  }

  function CurveOf(ctx: SwapContext, input: nat): Checked<CurveResult>
    requires ValidContext(ctx)
  {
    CurveSwapBaseInput(input, ReserveIn(ctx), ReserveOut(ctx), FeeRatesOf(ctx.config, ctx.pool), OnInput(ctx))
  }

  lemma CurveOfExact(ctx: SwapContext, amountIn: nat)
    requires ValidContext(ctx) && amountIn <= U64_MAX
    ensures var s := ExactIn(ctx, amountIn);
            if SplitsZeroRate(FeeRatesOf(ctx.config, ctx.pool), OnInput(ctx)) then CurveOf(ctx, s.actual) == Null
            else CurveOf(ctx, s.actual).Value? && CurveRealises(ctx, s, CurveOf(ctx, s.actual).value)
  {
    hide Fee.Fee, Curve, FeeOf, CurveSwapBaseInput, FeesBalance;
    ReservesExact(ctx);
    CurveInputExact(ExactIn(ctx, amountIn).actual, ReserveIn(ctx), ReserveOut(ctx), FeeRatesOf(ctx.config, ctx.pool),
        OnInput(ctx));
  }

  lemma StageConstant(ctx: SwapContext, amountIn: nat)
    requires ValidContext(ctx) && amountIn <= U64_MAX
    ensures var s := ExactIn(ctx, amountIn);
            && s.swapped < ReserveOut(ctx)
            && ConstantProduct(ReserveIn(ctx), ReserveOut(ctx))
               <= ConstantProduct(ReserveIn(ctx) + s.lessFees, ReserveOut(ctx) - s.swapped) <= U128_MAX - 1
  {
    hide NetOf, Fee.Net, Curve, ConstantProduct;
    var s := ExactIn(ctx, amountIn);
    ExactInBounds(ctx, amountIn);
    ReservesExact(ctx);
    ConstantFitsU128(s.lessFees, ReserveIn(ctx), ReserveOut(ctx));
  }

  lemma InputTransferFee(ctx: SwapContext, amountIn: nat)
    requires ValidContext(ctx) && amountIn <= U64_MAX
    ensures var s := ExactIn(ctx, amountIn);
            s.actual <= amountIn && GetTransferFee(ctx.inputMint, ctx.epoch, amountIn) == Value(amountIn - s.actual)
  {
    hide FeeOf, Fee.Net, Curve, GetTransferFee;
    GetTransferFeeExact(ctx.inputMint, ctx.epoch, amountIn);
  }

  lemma OutputTransferFee(ctx: SwapContext, amountIn: nat)
    requires ValidContext(ctx) && ExactIn(ctx, amountIn).amountOut <= U64_MAX
    ensures var s := ExactIn(ctx, amountIn);
            GetTransferFee(ctx.outputMint, ctx.epoch, s.amountOut) == Value(s.amountOut - s.received)
                && s.received <= s.amountOut
  {
    hide FeeOf, Fee.Net, Curve, GetTransferFee;
    GetTransferFeeExact(ctx.outputMint, ctx.epoch, ExactIn(ctx, amountIn).amountOut);
  }

  /** Steps 6-9 on a curve result that realises the stages. */
  lemma SettleBaseInputExact(ctx: SwapContext, amountIn: nat, minimumAmountOut: Option<int>, curve: CurveResult)
    requires ValidContext(ctx) && amountIn <= U64_MAX
    requires var s := ExactIn(ctx, amountIn);
             s.actual > 0 && CurveRealises(ctx, s, curve)
                 && !SplitsZeroRate(FeeRatesOf(ctx.config, ctx.pool), OnInput(ctx))
    ensures var s := ExactIn(ctx, amountIn);
            var sides := Sides(ReserveIn(ctx), ReserveOut(ctx));
            var outcome := SettleBaseInput(ctx, amountIn - s.actual, s.actual, sides, OnInput(ctx), curve,
                minimumAmountOut);
            match InputRefusal(ctx, amountIn, minimumAmountOut)
            case Some(code) => outcome == Rejected(code)
            case None => outcome.Accepted? && Realises(ctx, amountIn, outcome.value)
  {
    hide ExactIn, GetTransferFee, ConstantProduct, ValidContext, ReserveIn, ReserveOut, FeeRatesOf, OnInput;
    ExactInBounds(ctx, amountIn);
    ReservesExact(ctx);
    StageConstant(ctx, amountIn);
    OutputTransferFee(ctx, amountIn);
  }

  /** Steps 1-5: what reaches the curve. */
  lemma SimulationReachesCurve(ctx: SwapContext, amountIn: nat, minimumAmountOut: Option<int>)
    requires ValidContext(ctx) && amountIn <= U64_MAX
    ensures var s := ExactIn(ctx, amountIn);
            SimulateSwapBaseInput(ctx, amountIn, minimumAmountOut) ==
            if s.actual == 0 then Rejected(RequireGtViolated)
            else
              match CurveOf(ctx, s.actual)
              case Null => Rejected(ZeroTradingTokens)
              case Throws => Panicked
              case Value(curve) =>
                SettleBaseInput(ctx, amountIn - s.actual, s.actual, Sides(ReserveIn(ctx), ReserveOut(ctx)),
                    OnInput(ctx), curve,
                                minimumAmountOut)
  {
    hide Fee.Fee, Fee.Net, Curve, FeeOf, CurveSwapBaseInput, SettleBaseInput, GetTransferFee;
    GetTransferFeeExact(ctx.inputMint, ctx.epoch, amountIn);
    ReservesExact(ctx);
    MulMono2(ReserveIn(ctx), U64_MAX, ReserveOut(ctx), U64_MAX);
  }

  /**
   * Exact-in never panics on a well-formed pool: it refuses for exactly the listed reasons (never
   * for a decreased product or an insufficient output vault) and otherwise computes the stages.
   */
  lemma ExactInIsTotal(ctx: SwapContext, amountIn: nat, minimumAmountOut: Option<int>)
    requires ValidContext(ctx)
    ensures var outcome := SimulateSwapBaseInput(ctx, amountIn, minimumAmountOut);
            match InputRefusal(ctx, amountIn, minimumAmountOut)
            case Some(code) => outcome == Rejected(code)
            case None => outcome.Accepted? && Realises(ctx, amountIn, outcome.value)
  {
    if amountIn <= U64_MAX {
      SimulationReachesCurve(ctx, amountIn, minimumAmountOut);
      hide SimulateSwapBaseInput, ExactIn, CurveOf, SettleBaseInput, Realises, CurveRealises;
      CurveOfExact(ctx, amountIn);
      var s := ExactIn(ctx, amountIn);
      if s.actual > 0 && CurveOf(ctx, s.actual).Value? {
        SettleBaseInputExact(ctx, amountIn, minimumAmountOut, CurveOf(ctx, s.actual).value);
      }
    }
  }

  /** No u64 input makes the u128 arithmetic overflow. */
  lemma U128IsEnough(ctx: SwapContext, amountIn: int, minimumAmountOut: Option<int>)
    requires ValidContext(ctx)
    ensures var outcome := SimulateSwapBaseInput(ctx, amountIn, minimumAmountOut);
            && !outcome.Panicked?
            && outcome != Rejected(ConstantProductDecreased) && outcome != Rejected(InsufficientVault)
            && (outcome.Accepted? ==> outcome.value.constantAfter <= U128_MAX - 1)
  {
    if amountIn >= 0 {
      hide SimulateSwapBaseInput, ExactIn, ConstantProduct, CurveRealises, InputRefusal, ValidContext;
      ExactInIsTotal(ctx, amountIn, minimumAmountOut);
    }
  }

  // ----- exact-out -----

  lemma CurveInverseBounds(o: nat, x: nat, y: nat)
    requires 0 < x <= U64_MAX && o < y <= U64_MAX
    ensures var d := CurveInverse(o, x, y);
            && SwapBaseOutputWithoutFees(o, x, y) == Value(d)
            && d <= WIDE * U64_MAX
            && (o > 0 ==> d > 0)
            && ConstantProduct(x, y) <= ConstantProduct(x + d, y - o) <= U128_MAX
  {
    var d := CurveInverse(o, x, y);
    MulMono2(x, U64_MAX, o, U64_MAX);
    CeilBounds(x * o, y - o);
    CeilAdjoint(x * o, y - o, x * o);
    MulMono(1, y - o, x * o);
    RoundUpQuotient(x * o, y - o);
    ConstantOnCeiling(d, o, x, y);
    MulMono2(x, U64_MAX, y, U64_MAX);
    if o > 0 { MulMono2(1, x, 1, o); }
  }

  lemma ConstantOnCeiling(d: nat, o: nat, x: nat, y: nat)
    requires o < y && x * o <= d * (y - o) < x * o + (y - o)
    ensures ConstantProduct(x, y) <= ConstantProduct(x + d, y - o) < ConstantProduct(x, y) + y
  {
    assert (x + d) * (y - o) == x * y - x * o + d * (y - o);
  }

  /** checked_ceil_div's quotient-and-remainder form is the ceiling. */
  lemma RoundUpQuotient(a: nat, b: nat)
    requires b > 0
    ensures CeilDiv(a, b) == if FloorMod(a, b) != 0 then FloorDiv(a, b) + 1 else FloorDiv(a, b)
  {
    hide FloorDiv;
    FloorBounds(a, b);
    var q := if FloorMod(a, b) != 0 then FloorDiv(a, b) + 1 else FloorDiv(a, b);
    Distribute(b, FloorDiv(a, b), 1);
    QuotientUnique(a + b - 1, b, q);
  }

  /** When an exact-out request for `received` can be met. */
  predicate OutputFeasible(ctx: SwapContext, received: int, maxAmountIn: Option<int>)
    requires ValidContext(ctx)
  {
    && 0 < received
    && !SplitsZeroRate(FeeRatesOf(ctx.config, ctx.pool), OnInput(ctx))
    && Reachable(ctx, received)
    && Required(ctx, received) <= U64_MAX
    && (maxAmountIn.Some? ==> Required(ctx, received) <= maxAmountIn.value)
    && ctx.inputVault + ExactOut(ctx, received).actual <= U64_MAX
  }

  /** What an accepted exact-out swap reports. */
  predicate Requests(ctx: SwapContext, received: nat, v: SwapBaseOutput)
    requires ValidContext(ctx) && Reachable(ctx, received)
  {
    var t := ExactOut(ctx, received);
    && v.amountOutWithTransferFee == t.amountOut && v.outTransferFee == t.amountOut - received
    && v.curve.outputSwapped == t.swapped && v.curve.inputLessFees == t.lessFees
    && v.inputAmount == t.actual && v.inputTransferAmount == Required(ctx, received)
    && v.inputTransferFee == Required(ctx, received) - t.actual
    && FeesBalance(v.curve, FeeRatesOf(ctx.config, ctx.pool), OnInput(ctx))
    && v.constantBefore <= v.constantAfter <= U128_MAX
    && v.vaultInAfter == ctx.inputVault + t.actual && v.vaultOutAfter == ctx.outputVault - t.amountOut
  }

  /** The curve run backwards, when its pre-image fits the word sizes. */
  lemma CurveOutputExact(gross: nat, x: nat, y: nat, r: FeeRates, onInput: bool)
    requires ValidRates(r) && !SplitsZeroRate(r, onInput) && 0 < gross
    requires 0 < x <= U64_MAX && 0 < y <= U64_MAX
    requires Fee.LeastGross(gross, RateOnOutput(r, onInput), DEN) < y
    requires Fee.LeastGross(CurveInverse(Fee.LeastGross(gross, RateOnOutput(r, onInput), DEN), x, y),
              RateOnInput(r, onInput), DEN) <= U64_MAX
    ensures var w := Fee.LeastGross(gross, RateOnOutput(r, onInput), DEN);
            var d := CurveInverse(w, x, y);
            var c := CurveSwapBaseOutput(gross, x, y, r, onInput);
            && c.Value? && 0 < d <= U64_MAX && gross <= w
            && c.value.outputAmount == gross && c.value.outputSwapped == w && c.value.inputLessFees == d
            && c.value.inputAmount == Fee.LeastGross(d, RateOnInput(r, onInput), DEN)
            && c.value.newInputVault == x + d && c.value.newOutputVault == y - w
            && FeesBalance(c.value, r, onInput)
  {
    hide CurveSwapBaseOutput, FeesBalance, Fee.LeastGross, CurveInverse, ConstantProduct;
    var w := Fee.LeastGross(gross, RateOnOutput(r, onInput), DEN);
    Fee.NetOfLeastGross(gross, RateOnOutput(r, onInput), DEN);
    CurveInverseBounds(w, x, y);
    Fee.NetOfLeastGross(CurveInverse(w, x, y), RateOnInput(r, onInput), DEN);
    CurveOutputReturns(gross, x, y, r, onInput);
    CurveOutputValue(gross, x, y, r, onInput);
  }

  /** No checked step of the backward curve fails when its pre-images fit. */
  lemma CurveOutputReturns(gross: nat, x: nat, y: nat, r: FeeRates, onInput: bool)
    requires ValidRates(r) && !SplitsZeroRate(r, onInput)
    requires 0 < x <= U64_MAX && 0 < y <= U64_MAX
    requires Fee.LeastGross(gross, RateOnOutput(r, onInput), DEN) < y
    requires var d := CurveInverse(Fee.LeastGross(gross, RateOnOutput(r, onInput), DEN), x, y);
             Fee.LeastGross(d, RateOnInput(r, onInput), DEN) <= U64_MAX
    ensures CurveSwapBaseOutput(gross, x, y, r, onInput).Value?
  {
    hide CurveSwapBaseOutput, Fee.LeastGross, CurveInverse, CalculatePreFee, SwapBaseOutputWithoutFees,
        SplitCreatorFee, ProtocolFee, FundFee,
         SplitOf, ConstantProduct, FloorDiv, CeilDiv, Fee.Fee, Fee.Net;
    var w := Fee.LeastGross(gross, RateOnOutput(r, onInput), DEN);
    Fee.NetOfLeastGross(gross, RateOnOutput(r, onInput), DEN);
    Fee.ZeroRate(gross, DEN);
    PreFeeExact(gross, r.creator);
    CurveInverseBounds(w, x, y);
    var d := CurveInverse(w, x, y);
    Fee.NetOfLeastGross(d, RateOnInput(r, onInput), DEN);
    PreFeeExact(d, RateOnInput(r, onInput));
    var totalFee := Fee.LeastGross(d, RateOnInput(r, onInput), DEN) - d;
    var creatorFee := if onInput then SplitOf(totalFee, r) else 0;
    TradeSharesExact(totalFee - creatorFee, r);
    StepsReturn(gross, x, y, r, onInput, w, d, totalFee, creatorFee);
  }

  lemma StepsReturn(gross: nat, x: nat, y: nat, r: FeeRates, onInput: bool, w: nat, d: nat, totalFee: nat,
      creatorFee: nat)
    requires if onInput then w == gross else CalculatePreFee(gross, r.creator) == Value(w)
    requires SwapBaseOutputWithoutFees(w, x, y) == Value(d) && x + d <= U128_MAX && w <= y
    requires CalculatePreFee(d, RateOnInput(r, onInput)) == Value(d + totalFee)
    requires if onInput then SplitCreatorFee(totalFee, r.trade, r.creator) == Value(creatorFee) else creatorFee == 0
    requires creatorFee <= totalFee && ProtocolFee(totalFee - creatorFee, r.protocol).Value?
            && FundFee(totalFee - creatorFee, r.fund).Value?
    ensures CurveSwapBaseOutput(gross, x, y, r, onInput).Value?
  {
    hide CalculatePreFee, SwapBaseOutputWithoutFees, SplitCreatorFee, ProtocolFee, FundFee;
  }

  lemma TradeSharesExact(tradeFee: nat, r: FeeRates)
    requires ValidRates(r) && tradeFee <= WIDE
    ensures var p, f := ProtocolFee(tradeFee, r.protocol), FundFee(tradeFee, r.fund);
            p.Value? && f.Value? && p.value + f.value <= tradeFee
  {
    FloorFeeExact(tradeFee, r.protocol, DEN);
    FloorFeeExact(tradeFee, r.fund, DEN);
    SharesFitTradeFee(tradeFee, r.protocol, r.fund);
  }

  /** Any curve result obtained backwards, whatever its size, is the least pre-image of the wanted output. */
  lemma CurveOutputValue(gross: nat, x: nat, y: nat, r: FeeRates, onInput: bool)
    requires ValidRates(r) && 0 < x <= U64_MAX && 0 < y <= U64_MAX
    requires CurveSwapBaseOutput(gross, x, y, r, onInput).Value?
    ensures var w := Fee.LeastGross(gross, RateOnOutput(r, onInput), DEN);
            && !SplitsZeroRate(r, onInput)
            && w < y
            && var d := CurveInverse(w, x, y);
            var c := CurveSwapBaseOutput(gross, x, y, r, onInput).value;
            && c.outputAmount == gross && c.outputSwapped == w && c.inputLessFees == d
            && c.inputAmount == Fee.LeastGross(d, RateOnInput(r, onInput), DEN)
            && c.newInputVault == x + d && c.newOutputVault == y - w
            && FeesBalance(c, r, onInput)
  {
    hide FloorDiv, CeilDiv, FloorMod, Fee.LeastGross, Fee.Net, CurveInverse, SplitCreatorFee, CurveSwapBaseOutput,
        ConstantProduct,
         ProtocolFee, FundFee, CalculatePreFee, SwapBaseOutputWithoutFees;
    StepsTaken(gross, x, y, r, onInput);
    Fee.ZeroRate(gross, DEN);
    var c := CurveSwapBaseOutput(gross, x, y, r, onInput).value;
    OnlyBelowReserve(c.outputSwapped, x, y);
    CurveInverseBounds(c.outputSwapped, x, y);
    TradeSharesBounded(c.tradeFee, r);
    if onInput { SplitOfNothing(c.tradeFee + c.creatorFee, r); }
  }

  /** The checked steps behind a backward result. */
  lemma StepsTaken(gross: nat, x: nat, y: nat, r: FeeRates, onInput: bool)
    requires CurveSwapBaseOutput(gross, x, y, r, onInput).Value?
    ensures var c := CurveSwapBaseOutput(gross, x, y, r, onInput).value;
            && (if onInput then c.outputSwapped == gross else CalculatePreFee(gross, r.creator) == Value(c.outputSwapped))
            && SwapBaseOutputWithoutFees(c.outputSwapped, x, y) == Value(c.inputLessFees)
            && CalculatePreFee(c.inputLessFees, RateOnInput(r, onInput)) == Value(c.inputAmount)
            && c.inputAmount - c.inputLessFees == c.tradeFee + (if onInput then c.creatorFee else 0)
            && (if onInput then SplitCreatorFee(c.tradeFee + c.creatorFee, r.trade, r.creator) == Value(c.creatorFee)
                else c.creatorFee == c.outputSwapped - gross)
            && ProtocolFee(c.tradeFee, r.protocol) == Value(c.protocolFee)
                 && FundFee(c.tradeFee, r.fund) == Value(c.fundFee)
            && c.outputAmount == gross && c.outputSwapped <= y
            && c.newInputVault == x + c.inputLessFees && c.newOutputVault == y - c.outputSwapped
  {
    hide CalculatePreFee, SwapBaseOutputWithoutFees, SplitCreatorFee, ProtocolFee, FundFee;
  }

  lemma OnlyBelowReserve(o: nat, x: nat, y: nat)
    requires SwapBaseOutputWithoutFees(o, x, y).Value?
    ensures o < y
  {
    hide FloorDiv, FloorMod;
  }

  /** The backward curve returns a u64 input exactly when its pre-images exist and fit. */
  lemma CurveOutputIff(gross: nat, x: nat, y: nat, r: FeeRates, onInput: bool)
    requires ValidRates(r) && 0 < x <= U64_MAX && 0 < y <= U64_MAX
    ensures var c := CurveSwapBaseOutput(gross, x, y, r, onInput);
            var w := Fee.LeastGross(gross, RateOnOutput(r, onInput), DEN);
            c.Value? && c.value.inputAmount <= U64_MAX <==>
              && !SplitsZeroRate(r, onInput) && w < y
              && Fee.LeastGross(CurveInverse(w, x, y), RateOnInput(r, onInput), DEN) <= U64_MAX
  {
    hide CurveSwapBaseOutput, Fee.LeastGross, CurveInverse, FeesBalance, SplitsZeroRate;
    var w := Fee.LeastGross(gross, RateOnOutput(r, onInput), DEN);
    if CurveSwapBaseOutput(gross, x, y, r, onInput).Value? { CurveOutputValue(gross, x, y, r, onInput); }
    if !SplitsZeroRate(r, onInput) && w < y && Fee.LeastGross(CurveInverse(w, x, y), RateOnInput(r, onInput), DEN) <= U64_MAX {
      CurveOutputReturns(gross, x, y, r, onInput);
    }
  }

  lemma TradeSharesBounded(tradeFee: nat, r: FeeRates)
    requires ValidRates(r) && ProtocolFee(tradeFee, r.protocol).Value? && FundFee(tradeFee, r.fund).Value?
    ensures ProtocolFee(tradeFee, r.protocol).value + FundFee(tradeFee, r.fund).value <= tradeFee
  {
    hide FloorDiv;
    SharesFitTradeFee(tradeFee, r.protocol, r.fund);
  }

  /** Splitting for a zero creator rate divides by the trade rate, or by zero. */
  lemma SplitOfNothing(totalFee: nat, r: FeeRates)
    requires SplitCreatorFee(totalFee, r.trade, r.creator).Value?
    ensures r.trade + r.creator > 0
    ensures r.creator == 0 ==> SplitCreatorFee(totalFee, r.trade, r.creator).value == 0
  {
  }

  lemma ExactOutAccepts(ctx: SwapContext, received: int, maxAmountIn: Option<int>)
    requires ValidContext(ctx) && OutputFeasible(ctx, received, maxAmountIn)
    ensures var outcome := SimulateSwapBaseOutput(ctx, received, maxAmountIn);
            outcome.Accepted? && Requests(ctx, received, outcome.value)
  {
    hide ConstantProduct, Fee.LeastGross, CurveInverse, GrossFor, NetOf, CurveSwapBaseOutput, FeesBalance,
        GetTransferInverseFee,
         SimulateSwapBaseOutput;
    var t := ExactOut(ctx, received);
    var x, y, r := ReserveIn(ctx), ReserveOut(ctx), FeeRatesOf(ctx.config, ctx.pool);
    NetOfGrossFor(TierOut(ctx), received);
    NetOfGrossFor(TierIn(ctx), t.actual);
    Fee.NetOfLeastGross(t.amountOut, OutputRate(ctx), DEN);
    CurveOutputExact(t.amountOut, x, y, r, OnInput(ctx));
    CurveInverseBounds(t.swapped, x, y);
    Fee.NetOfLeastGross(t.lessFees, InputRate(ctx), DEN);
    GetTransferInverseFeeExact(ctx.inputMint, ctx.epoch, t.actual);
    RequestReachesCurve(ctx, received, maxAmountIn);
  }

  /** An exact-out request settles on whatever the backward curve returns. */
  lemma RequestReachesCurve(ctx: SwapContext, received: nat, maxAmountIn: Option<int>)
    requires ValidContext(ctx) && 0 < received <= GrossFor(TierOut(ctx), received) <= U64_MAX
    requires var gross := GrossFor(TierOut(ctx), received);
             CurveSwapBaseOutput(gross, ReserveIn(ctx), ReserveOut(ctx), FeeRatesOf(ctx.config, ctx.pool),
                 OnInput(ctx)).Value?
    ensures var gross := GrossFor(TierOut(ctx), received);
            var curve := CurveSwapBaseOutput(gross, ReserveIn(ctx), ReserveOut(ctx), FeeRatesOf(ctx.config, ctx.pool),
                OnInput(ctx));
            SimulateSwapBaseOutput(ctx, received, maxAmountIn)
            == SettleBaseOutput(ctx, gross - received, gross, Sides(ReserveIn(ctx), ReserveOut(ctx)), OnInput(ctx),
                curve.value, maxAmountIn)
  {
    hide ConstantProduct, GrossFor, CurveSwapBaseOutput, GetTransferInverseFee, SettleBaseOutput, ReservesFor,
        IsCreatorFeeOnInput, OnInput,
         ValidContext, ReserveIn, ReserveOut, TierOut;
    OutputTier(ctx);
    GetTransferInverseFeeExact(ctx.outputMint, ctx.epoch, received);
    ReservesExact(ctx);
  }

  lemma OutputTier(ctx: SwapContext)
    requires ValidContext(ctx)
    ensures TierOut(ctx) == MintTier(ctx.outputMint, ctx.epoch) && ValidMint(ctx.outputMint)
  {
  }

  lemma ExactOutOnlyIfFeasible(ctx: SwapContext, received: int, maxAmountIn: Option<int>)
    requires ValidContext(ctx) && SimulateSwapBaseOutput(ctx, received, maxAmountIn).Accepted?
    ensures OutputFeasible(ctx, received, maxAmountIn)
  {
    hide ConstantProduct, Fee.LeastGross, CurveInverse, GrossFor, NetOf, CurveSwapBaseOutput, GetTransferInverseFee;
    NetOfGrossFor(TierOut(ctx), received);
    GetTransferInverseFeeExact(ctx.outputMint, ctx.epoch, received);
    ReservesExact(ctx);
    var amountOut := GrossFor(TierOut(ctx), received);
    var x, y, r := ReserveIn(ctx), ReserveOut(ctx), FeeRatesOf(ctx.config, ctx.pool);
    CurveOutputValue(amountOut, x, y, r, OnInput(ctx));
    var t := ExactOut(ctx, received);
    GetTransferInverseFeeExact(ctx.inputMint, ctx.epoch, t.actual);
    NetOfGrossFor(TierIn(ctx), t.actual);
  }

  // ----- the adjunction between the two instructions -----

  lemma DeliveryIsRequested(ctx: SwapContext, received: nat, amountIn: nat)
    requires ValidContext(ctx) && received > 0
    requires var swap := SimulateSwapBaseInput(ctx, amountIn, None);
             swap.Accepted? && swap.value.amountReceived >= received
    ensures var out := SimulateSwapBaseOutput(ctx, received, None);
            out.Accepted? && out.value.inputTransferAmount <= amountIn
  {
    hide SimulateSwapBaseInput, SimulateSwapBaseOutput, Fee.LeastGross, Fee.Net, Curve, CurveInverse, NetOf, GrossFor,
        FeesBalance, FeeOf;
    ExactInIsTotal(ctx, amountIn, None);
    StagesAdjoint(ctx, amountIn, received);
    NetOfMono(TierIn(ctx), Required(ctx, received), amountIn);
    NetOfGrossFor(TierIn(ctx), ExactOut(ctx, received).actual);
    ExactOutAccepts(ctx, received, None);
  }

  lemma RequestIsDelivered(ctx: SwapContext, received: nat)
    requires ValidContext(ctx) && SimulateSwapBaseOutput(ctx, received, None).Accepted?
    ensures var out := SimulateSwapBaseOutput(ctx, received, None).value;
            var back := SimulateSwapBaseInput(ctx, out.inputTransferAmount, Some(received));
            && back.Accepted? && back.value.amountReceived >= received
            && back.value.actualAmountIn == out.inputAmount
            && back.value.vaultInAfter == out.vaultInAfter
  {
    hide SimulateSwapBaseInput, SimulateSwapBaseOutput, ExactIn, ExactOut, Required, FeesBalance;
    ExactOutOnlyIfFeasible(ctx, received, None);
    ExactOutAccepts(ctx, received, None);
    StagesRetrace(ctx, received);
    ExactInBounds(ctx, Required(ctx, received));
    ExactInIsTotal(ctx, Required(ctx, received), Some(received));
  }

  lemma MoreInputDeliversMore(ctx: SwapContext, received: nat, amountIn: nat)
    requires ValidContext(ctx) && SimulateSwapBaseOutput(ctx, received, None).Accepted?
    requires SimulateSwapBaseInput(ctx, amountIn, None).Accepted?
    requires amountIn >= SimulateSwapBaseOutput(ctx, received, None).value.inputTransferAmount
    ensures SimulateSwapBaseInput(ctx, amountIn, None).value.amountReceived >= received
  {
    hide SimulateSwapBaseInput, SimulateSwapBaseOutput, ExactIn, ExactOut, Required, FeesBalance;
    ExactOutOnlyIfFeasible(ctx, received, None);
    ExactOutAccepts(ctx, received, None);
    ExactInIsTotal(ctx, amountIn, None);
    StagesAdjoint(ctx, amountIn, received);
  }

  /**
   * Exact-out asks for an input exactly when some exact-in swap delivers the wanted amount, and it
   * asks for the least such input: fed back, that input is accepted and delivers at least as much.
   */
  lemma ExactOutIsLeastInput(ctx: SwapContext, received: nat, amountIn: nat)
    requires ValidContext(ctx) && received > 0
    ensures var out := SimulateSwapBaseOutput(ctx, received, None);
            var swap := SimulateSwapBaseInput(ctx, amountIn, None);
            var delivers := swap.Accepted? && swap.value.amountReceived >= received;
            && (delivers ==> out.Accepted? && out.value.inputTransferAmount <= amountIn)
            && (out.Accepted? ==>
                 var back := SimulateSwapBaseInput(ctx, out.value.inputTransferAmount, Some(received));
                 && back.Accepted? && back.value.amountReceived >= received
                 && back.value.actualAmountIn == out.value.inputAmount
                 && back.value.vaultInAfter == out.value.vaultInAfter)
            && (out.Accepted? && swap.Accepted? && amountIn >= out.value.inputTransferAmount ==> delivers)
  {
    hide SimulateSwapBaseInput, SimulateSwapBaseOutput, ExactIn, Required, Reachable, Realises, Requests,
        OutputFeasible, ValidContext;
    var swap := SimulateSwapBaseInput(ctx, amountIn, None);
    if swap.Accepted? && swap.value.amountReceived >= received {
      DeliveryIsRequested(ctx, received, amountIn);
    }
    if SimulateSwapBaseOutput(ctx, received, None).Accepted? {
      RequestIsDelivered(ctx, received);
      if swap.Accepted? && amountIn >= SimulateSwapBaseOutput(ctx, received, None).value.inputTransferAmount {
        MoreInputDeliversMore(ctx, received, amountIn);
      }
    }
  }
}
