/**
 * The second implementation of the exact-in quote, integrations/raydium_cpmm_amm/src/lib.rs, with
 * its own checked u64/u128 arithmetic, and its agreement with the TypeScript simulation.
 */
module RaydiumRust {
  import opened Arith
  import opened Outcomes
  import opened TransferFee
  import TS = RaydiumMath
  import opened RaydiumExact
  import RaydiumSwap

  // ----- checked u128 and u64 operations; None is Rust's None -----

  function CheckedMul(a: nat, b: nat): Option<nat> { if a * b > U128_MAX then None else Some(a * b) }
  function CheckedAdd(a: nat, b: nat): Option<nat> { if a + b > U128_MAX then None else Some(a + b) }
  function CheckedSub(a: nat, b: nat): Option<nat> { if a < b then None else Some(a - b) }
  function CheckedDiv(a: nat, b: nat): Option<nat> { if b == 0 then None else Some(FloorDiv(a, b)) }
  function TryU64(a: nat): Option<nat> { if a > U64_MAX then None else Some(a) }

  function CalculateTransferFee(fee: TransferFeeTier, preFeeAmount: nat): Option<nat> {
    if fee.bps == 0 || preFeeAmount == 0 then Some(0)
    else
      match CheckedMul(preFeeAmount, fee.bps)
      case None => None
      case Some(numerator) =>
        match CheckedAdd(numerator, MAX_FEE_BASIS_POINTS)
        case None => None
        case Some(a) =>
          match TryU64(FloorDiv(a - 1, MAX_FEE_BASIS_POINTS))
          case None => None
          case Some(raw) => Some(Min(raw, fee.maxFee))
  }

  function MintTransferFee(mint: MintFeeView, epoch: nat, preFeeAmount: nat): Option<nat> {
    if !mint.program.Token2022? then Some(0)
    else
      match mint.transferFee
      case None => Some(0)
      case Some(cfg) => CalculateTransferFee(EpochFeeTier(cfg, epoch), preFeeAmount)
  }

  function FeeCeilDiv(amount: nat, num: nat, den: nat): Option<nat> {
    if den == 0 then None
    else
      match CheckedMul(amount, num)
      case None => None
      case Some(m) =>
        match CheckedAdd(m, den)
        case None => None
        case Some(a) => CheckedDiv(a - 1, den)
  }

  function FeeFloorDiv(amount: nat, num: nat, den: nat): Option<nat> {
    if den == 0 then None
    else
      match CheckedMul(amount, num)
      case None => None
      case Some(m) => CheckedDiv(m, den)
  }

  function SwapBaseInputWithoutFees(input: nat, inputVault: nat, outputVault: nat): Option<nat> {
    match CheckedMul(input, outputVault)
    case None => None
    case Some(numerator) =>
      match CheckedAdd(inputVault, input)
      case None => None
      case Some(denominator) => CheckedDiv(numerator, denominator)
  }

  datatype CurveResult = CurveResult(outputAmount: nat, tradeFee: nat, creatorFee: nat)
  datatype InputFees = InputFees(tradeFee: nat, creatorFee: nat, lessFees: nat)

  function InputSideFees(input: nat, r: TS.FeeRates, onInput: bool): Option<InputFees> {
    if onInput then
      match FeeCeilDiv(input, r.trade + r.creator, TS.FEE_RATE_DENOMINATOR)
      case None => None
      case Some(totalFee) =>
        match FeeFloorDiv(totalFee, r.creator, r.trade + r.creator)
        case None => None
        case Some(creatorFee) =>
          match CheckedSub(totalFee, creatorFee)
          case None => None
          case Some(tradeFee) =>
            match CheckedSub(input, totalFee)
            case None => None
            case Some(lessFees) => Some(InputFees(tradeFee, creatorFee, lessFees))
    else
      match FeeCeilDiv(input, r.trade, TS.FEE_RATE_DENOMINATOR)
      case None => None
      case Some(tradeFee) =>
        match CheckedSub(input, tradeFee)
        case None => None
        case Some(lessFees) => Some(InputFees(tradeFee, 0, lessFees))
  }

  function CurveSwapBaseInput(input: nat, inputVault: nat, outputVault: nat, r: TS.FeeRates,
      onInput: bool): Option<CurveResult> {
    match InputSideFees(input, r, onInput)
    case None => None
    case Some(f) =>
      if FeeFloorDiv(f.tradeFee, r.protocol, TS.FEE_RATE_DENOMINATOR).None?
         || FeeFloorDiv(f.tradeFee, r.fund, TS.FEE_RATE_DENOMINATOR).None? then None
      else
        match SwapBaseInputWithoutFees(f.lessFees, inputVault, outputVault)
        case None => None
        case Some(swapped) =>
          if onInput then
            if outputVault < swapped then None else Some(CurveResult(swapped, f.tradeFee, f.creatorFee))
          else
            match FeeCeilDiv(swapped, r.creator, TS.FEE_RATE_DENOMINATOR)
            case None => None
            case Some(creatorFee) =>
              match CheckedSub(swapped, creatorFee)
              case None => None
              case Some(outputAmount) =>
                if outputVault < swapped then None else Some(CurveResult(outputAmount, f.tradeFee, creatorFee))
  }

  /** The fields of `RaydiumCpmmAmm` a quote reads; `active` is the status and open-time gate. */
  datatype Amm = Amm(creatorFeeOn: nat, enableCreatorFee: bool, accruedFees0: nat, accruedFees1: nat,
                     trade: nat, protocol: nat, fund: nat, creator: nat,
                     vault0: nat, vault1: nat, mint0: MintFeeView, mint1: MintFeeView, epoch: nat, active: bool)

  datatype Quote = Quote(inAmount: nat, outAmount: nat, feeAmount: nat)

  function CreatorFeeOnInput(amm: Amm, zeroForOne: bool): Option<bool> {
    if amm.creatorFeeOn == 0 then Some(true)
    else if amm.creatorFeeOn == 1 then Some(zeroForOne)
    else if amm.creatorFeeOn == 2 then Some(!zeroForOne)
    else None
  }

  /** `from_keyed_account` and `update`: None when the accrued counters overflow u64. */
  function FromPool(ctx: TS.SwapContext, active: bool): Option<Amm> {
    var z := ctx.direction == TS.ZeroForOne;
    if ctx.pool.fees0.Sum() > U64_MAX || ctx.pool.fees1.Sum() > U64_MAX then None
    else Some(Amm(ctx.pool.creatorFeeOn, ctx.pool.enableCreatorFee, ctx.pool.fees0.Sum(), ctx.pool.fees1.Sum(),
                  ctx.config.trade, ctx.config.protocol, ctx.config.fund, ctx.config.creator,
                  if z then ctx.inputVault else ctx.outputVault, if z then ctx.outputVault else ctx.inputVault,
                  if z then ctx.inputMint else ctx.outputMint, if z then ctx.outputMint
                      else ctx.inputMint, ctx.epoch, active))
  }

  function QuoteAmm(amm: Amm, zeroForOne: bool, amount: nat): Option<Quote> {
    if !amm.active then None
    else if amm.vault0 < amm.accruedFees0 || amm.vault1 < amm.accruedFees1 then None
    else
      var reserve0 := amm.vault0 - amm.accruedFees0;
      var reserve1 := amm.vault1 - amm.accruedFees1;
      var mintIn := if zeroForOne then amm.mint0 else amm.mint1;
      var mintOut := if zeroForOne then amm.mint1 else amm.mint0;
      match MintTransferFee(mintIn, amm.epoch, amount)
      case None => None
      case Some(transferFeeIn) =>
        var actualAmountIn := if amount > transferFeeIn then amount - transferFeeIn else 0;
        if actualAmountIn == 0 then None
        else
          var rates := TS.FeeRates(amm.trade, if amm.enableCreatorFee then amm.creator else 0, amm.protocol, amm.fund);
          match CreatorFeeOnInput(amm, zeroForOne)
          case None => None
          case Some(onInput) =>
            var (reserveIn, reserveOut) := if zeroForOne then (reserve0, reserve1) else (reserve1, reserve0);
            match CurveSwapBaseInput(actualAmountIn, reserveIn, reserveOut, rates, onInput)
            case None => None
            case Some(result) =>
              if result.outputAmount > U64_MAX then None
              else
                match MintTransferFee(mintOut, amm.epoch, result.outputAmount)
                case None => None
                case Some(transferFeeOut) =>
                  if result.outputAmount <= transferFeeOut then None
                  else
                    var feeAmount := if onInput then result.tradeFee + result.creatorFee else result.tradeFee;
                    Some(Quote(amount, result.outputAmount - transferFeeOut,
                        if feeAmount > U64_MAX then U64_MAX else feeAmount))
  }

  /** The Rust quote of the pool a TypeScript context describes. */
  function RustQuote(ctx: TS.SwapContext, amount: nat): Option<Quote> {
    match FromPool(ctx, true)
    case None => None
    case Some(amm) => QuoteAmm(amm, ctx.direction == TS.ZeroForOne, amount)
  }

  // ----- agreement -----

  lemma TransferFeesAgree(mint: MintFeeView, epoch: nat, amount: nat)
    requires amount <= U64_MAX && ValidMint(mint)
    ensures MintTransferFee(mint, epoch, amount) == Some(FeeOf(MintTier(mint, epoch), amount))
    ensures GetTransferFee(mint, epoch, amount) == Value(FeeOf(MintTier(mint, epoch), amount))
  {
    GetTransferFeeExact(mint, epoch, amount);
    MulMono2(amount, U64_MAX, MintTier(mint, epoch).bps, MAX_FEE_BASIS_POINTS);
  }

  /** Both curves return the same result wherever the TypeScript one is defined. */
  lemma CurvesAgree(input: nat, x: nat, y: nat, r: TS.FeeRates, onInput: bool)
    ensures var ts, rust := TS.CurveSwapBaseInput(input, x, y, r, onInput), CurveSwapBaseInput(input, x, y, r, onInput);
            && (ts.Value? ==> rust == Some(CurveResult(ts.value.outputAmount, ts.value.tradeFee, ts.value.creatorFee)))
            && (rust.Some? && x + input <= U128_MAX ==> ts.Value?)
  {
    InputSidesAgree(input, r, onInput);
  }

  lemma InputSidesAgree(input: nat, r: TS.FeeRates, onInput: bool)
    ensures var ts, rust := TS.InputSideFees(input, r, onInput), InputSideFees(input, r, onInput);
            && (ts.Value? <==> rust.Some?)
            && (ts.Value? ==> rust.value == InputFees(ts.value.tradeFee, ts.value.creatorFee,
                 ts.value.lessFees) && ts.value.lessFees <= input)
  {
  }

  lemma AccruedFees(ctx: TS.SwapContext)
    ensures var amm := FromPool(ctx, true); var rs := TS.ReservesFor(ctx);
            var z := ctx.direction == TS.ZeroForOne;
            && (rs.Accepted? ==>
                 && amm.Some? && amm.value.vault0 >= amm.value.accruedFees0
                     && amm.value.vault1 >= amm.value.accruedFees1
                 && rs.value == TS.Sides(if z then amm.value.vault0 - amm.value.accruedFees0 else amm.value.vault1 - amm.value.accruedFees1,
                                         if z then amm.value.vault1 - amm.value.accruedFees1
                                             else amm.value.vault0 - amm.value.accruedFees0))
            && (amm.Some? && amm.value.vault0 >= amm.value.accruedFees0 && amm.value.vault1 >= amm.value.accruedFees1 ==> rs.Accepted?)
  {
  }

  /** What the TypeScript simulation has computed when it accepts. */
  lemma AcceptedTrace(ctx: TS.SwapContext, amount: nat)
    requires TS.SimulateSwapBaseInput(ctx, amount, None).Accepted?
    ensures var v := TS.SimulateSwapBaseInput(ctx, amount, None).value;
            && amount <= U64_MAX
            && GetTransferFee(ctx.inputMint, ctx.epoch, amount) == Value(v.transferFeeIn)
            && v.actualAmountIn == (if amount > v.transferFeeIn then amount - v.transferFeeIn else 0) > 0
            && TS.ReservesFor(ctx) == TS.Accepted(TS.Sides(v.reserveIn, v.reserveOut))
            && TS.IsCreatorFeeOnInput(ctx.pool.creatorFeeOn, ctx.direction) == Some(v.onInput)
            && TS.CurveSwapBaseInput(v.actualAmountIn, v.reserveIn, v.reserveOut, TS.FeeRatesOf(ctx.config, ctx.pool),
                 v.onInput) == Value(v.curve)
            && v.curve.outputAmount == v.amountOut <= U64_MAX
            && GetTransferFee(ctx.outputMint, ctx.epoch, v.amountOut) == Value(v.transferFeeOut)
            && v.amountReceived == v.amountOut - v.transferFeeOut > 0
  {
    hide TS.CurveSwapBaseInput, GetTransferFee, TS.ConstantProduct;
  }

  /**
   * On every swap the TypeScript math accepts, the Rust quote returns the same amount, and reports
   * the fees taken from the input.
   */
  lemma RustAgrees(ctx: TS.SwapContext, amount: nat)
    requires ValidMint(ctx.inputMint) && ValidMint(ctx.outputMint)
    ensures var ts, rust := TS.SimulateSwapBaseInput(ctx, amount, None), RustQuote(ctx, amount);
            ts.Accepted? ==>
              && rust.Some? && rust.value.inAmount == amount
              && rust.value.outAmount == ts.value.amountReceived
              && rust.value.feeAmount == Min(U64_MAX, ts.value.curve.tradeFee + if ts.value.onInput then ts.value.curve.creatorFee else 0)
  {
    hide TS.SimulateSwapBaseInput, TS.CurveSwapBaseInput, CurveSwapBaseInput, GetTransferFee, MintTransferFee,
        TS.ReservesFor, FeeOf;
    var ts := TS.SimulateSwapBaseInput(ctx, amount, None);
    if ts.Accepted? {
      AcceptedTrace(ctx, amount);
      AccruedFees(ctx);
      TransferFeesAgree(ctx.inputMint, ctx.epoch, amount);
      TransferFeesAgree(ctx.outputMint, ctx.epoch, ts.value.amountOut);
      CurvesAgree(ts.value.actualAmountIn, ts.value.reserveIn, ts.value.reserveOut,
          TS.FeeRatesOf(ctx.config, ctx.pool), ts.value.onInput);
    }
  }

  lemma MintsValid(ctx: TS.SwapContext)
    requires ValidContext(ctx)
    ensures ValidMint(ctx.inputMint) && ValidMint(ctx.outputMint)
  {
  }

  /** The checks of the Rust quote, in terms of the context it was built from. */
  predicate RustSteps(ctx: TS.SwapContext, amount: nat)
    requires ValidContext(ctx)
  {
    var fee := MintTransferFee(ctx.inputMint, ctx.epoch, amount);
    && fee.Some? && amount > fee.value
    && RustCurveSteps(ctx, amount - fee.value)
  }

  predicate RustCurveSteps(ctx: TS.SwapContext, actual: nat)
    requires ValidContext(ctx)
  {
    var curve := CurveSwapBaseInput(actual, ReserveIn(ctx), ReserveOut(ctx), TS.FeeRatesOf(ctx.config, ctx.pool),
        OnInput(ctx));
    && curve.Some? && curve.value.outputAmount <= U64_MAX
    && var out := MintTransferFee(ctx.outputMint, ctx.epoch, curve.value.outputAmount);
    out.Some? && out.value < curve.value.outputAmount
  }

  lemma QuotedIffSteps(ctx: TS.SwapContext, amount: nat)
    requires ValidContext(ctx)
    ensures RustQuote(ctx, amount).Some? <==> RustSteps(ctx, amount)
  {
    hide MintTransferFee, CurveSwapBaseInput, ValidMint, ValidRates;
    AccruedFees(ctx);
  }

  /** The Rust quote exists exactly when something reaches the curve, something leaves, and the fee can be split. */
  lemma QuotedIffStages(ctx: TS.SwapContext, amount: nat)
    requires ValidContext(ctx) && amount <= U64_MAX
    ensures var s := ExactIn(ctx, amount);
            RustSteps(ctx, amount) <==>
              s.actual > 0 && s.received > 0
                  && !RaydiumSwap.SplitsZeroRate(TS.FeeRatesOf(ctx.config, ctx.pool), OnInput(ctx))
  {
    hide ExactIn, ValidContext, RustCurveSteps, MintTransferFee, FeeOf, RaydiumSwap.SplitsZeroRate;
    var s := ExactIn(ctx, amount);
    InputFeeAgrees(ctx, amount);
    if s.actual > 0 { CurveStepsIffStages(ctx, amount); }
  }

  lemma InputFeeAgrees(ctx: TS.SwapContext, amount: nat)
    requires ValidContext(ctx) && amount <= U64_MAX
    ensures var s := ExactIn(ctx, amount);
            s.actual <= amount && MintTransferFee(ctx.inputMint, ctx.epoch, amount) == Some(amount - s.actual)
  {
    hide ExactIn, ValidContext, MintTransferFee, GetTransferFee, FeeOf;
    RaydiumSwap.InputTransferFee(ctx, amount);
    MintsValid(ctx);
    TransferFeesAgree(ctx.inputMint, ctx.epoch, amount);
  }

  lemma CurveStepsIffStages(ctx: TS.SwapContext, amount: nat)
    requires ValidContext(ctx) && amount <= U64_MAX
    ensures var s := ExactIn(ctx, amount);
            RustCurveSteps(ctx, s.actual) <==>
              s.received > 0 && !RaydiumSwap.SplitsZeroRate(TS.FeeRatesOf(ctx.config, ctx.pool), OnInput(ctx))
  {
    hide ExactIn, ValidContext, ReserveIn, ReserveOut, OnInput, FeeOf,
         CurveSwapBaseInput, TS.CurveSwapBaseInput, MintTransferFee, GetTransferFee, TS.FeeRatesOf, RaydiumSwap.SplitsZeroRate;
    var s := ExactIn(ctx, amount);
    ExactInBounds(ctx, amount);
    RaydiumSwap.ReservesExact(ctx);
    RaydiumSwap.CurveOfExact(ctx, amount);
    RaydiumSwap.OutputTransferFee(ctx, amount);
    MintsValid(ctx);
    TransferFeesAgree(ctx.outputMint, ctx.epoch, s.amountOut);
    CurvesAgree(s.actual, ReserveIn(ctx), ReserveOut(ctx), TS.FeeRatesOf(ctx.config, ctx.pool), OnInput(ctx));
  }

  /**
   * On a well-formed pool the Rust quote exists for exactly the swaps the TypeScript math accepts
   * and, beyond those, the inputs that overflow the input vault, which Rust never checks.
   */
  lemma RustQuotesIff(ctx: TS.SwapContext, amount: nat)
    requires ValidContext(ctx) && amount <= U64_MAX
    ensures var ts := TS.SimulateSwapBaseInput(ctx, amount, None);
            RustQuote(ctx, amount).Some? <==> ts.Accepted? || ts == TS.Rejected(TS.U64OverflowVault)
  {
    hide TS.SimulateSwapBaseInput, RustQuote, ExactIn, ValidContext, RustSteps, RaydiumSwap.SplitsZeroRate;
    QuotedIffSteps(ctx, amount);
    QuotedIffStages(ctx, amount);
    RaydiumSwap.ExactInIsTotal(ctx, amount, None);
  }
}
