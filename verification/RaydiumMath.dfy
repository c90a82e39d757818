/**
 * The Raydium CPMM swap arithmetic of src/adapters/raydium_cpmm/math.ts: checked fee helpers, the
 * curve in both directions, the two instruction-level simulations and the fee-counter update.
 */
module RaydiumMath {
  import opened Arith
  import opened Outcomes
  import opened TransferFee
  import Fee = ProportionalFee

  const FEE_RATE_DENOMINATOR: nat := 1_000_000

  datatype Direction = ZeroForOne | OneForZero
  datatype FeeRates = FeeRates(trade: nat, creator: nat, protocol: nat, fund: nat)

  // ----- curve/fees.rs -----

  function FeeCeilDiv(amount: nat, num: nat, den: nat): Checked<nat> {
    if den == 0 then Null
    else
      var m :- InU128(amount * num);
      var a :- InU128(m + den);
      Value(FloorDiv(a - 1, den))
  }

  function FeeFloorDiv(amount: nat, num: nat, den: nat): (r: Checked<nat>)
    ensures r.Value? && num <= den ==> r.value <= amount
  {
    if den == 0 then Null
    else
      var m :- InU128(amount * num);
      ShareAtMostWhole(amount, num, den);
      Value(FloorDiv(m, den))
  }

  lemma ShareAtMostWhole(amount: nat, num: nat, den: nat)
    requires den > 0
    ensures num <= den ==> FloorDiv(amount * num, den) <= amount
  {
    if num <= den {
      FloorBounds(amount * num, den);
      MulMono(num, den, amount);
      MulCancel(FloorDiv(amount * num, den), amount, den);
    }
  }

  function TradingFee(amount: nat, rate: nat): Checked<nat> { FeeCeilDiv(amount, rate, FEE_RATE_DENOMINATOR) }
  function ProtocolFee(tradeFee: nat, rate: nat): Checked<nat> { FeeFloorDiv(tradeFee, rate, FEE_RATE_DENOMINATOR) }
  function FundFee(tradeFee: nat, rate: nat): Checked<nat> { FeeFloorDiv(tradeFee, rate, FEE_RATE_DENOMINATOR) }
  function CreatorFee(amount: nat, rate: nat): Checked<nat> { FeeCeilDiv(amount, rate, FEE_RATE_DENOMINATOR) }

  function SplitCreatorFee(totalFee: nat, tradeRate: nat, creatorRate: nat): (r: Checked<nat>)
    ensures r.Value? ==> r.value <= totalFee
  {
    FeeFloorDiv(totalFee, creatorRate, tradeRate + creatorRate)
  }

  /** A granted pre-fee amount is the least gross amount leaving `postFee`. */
  function CalculatePreFee(postFee: nat, rate: nat): (r: Checked<nat>)
    ensures r.Value? ==> rate < FEE_RATE_DENOMINATOR && r.value == Fee.LeastGross(postFee, rate, FEE_RATE_DENOMINATOR) >= postFee
  {
    if rate == 0 then
      Fee.ZeroRate(postFee, FEE_RATE_DENOMINATOR);
      Value(postFee)
    else
      var numerator :- InU128(postFee * FEE_RATE_DENOMINATOR);
      var denominator := FEE_RATE_DENOMINATOR - rate;
      if denominator < 0 then Null
      else
        var a :- InU128(numerator + denominator);
        if denominator == 0 then Null
        else
          LeastGrossExact(postFee, rate, a);
          Value(FloorDiv(a - 1, denominator))
  }

  lemma LeastGrossExact(postFee: nat, rate: nat, a: nat)
    requires rate < FEE_RATE_DENOMINATOR && a == postFee * FEE_RATE_DENOMINATOR + (FEE_RATE_DENOMINATOR - rate)
    ensures FloorDiv(a - 1, FEE_RATE_DENOMINATOR - rate)
              == Fee.LeastGross(postFee, rate, FEE_RATE_DENOMINATOR) >= postFee
  {
    Fee.NetOfLeastGross(postFee, rate, FEE_RATE_DENOMINATOR);
  }

  // ----- curve/constant_product.rs: these panic -----

  function SwapBaseInputWithoutFees(input: nat, inputVault: nat, outputVault: nat): Checked<nat> {
    if input * outputVault > U128_MAX then Throws
    else if inputVault + input > U128_MAX then Throws
    else if inputVault + input == 0 then Throws
    else Value(FloorDiv(input * outputVault, inputVault + input))
  }

  function SwapBaseOutputWithoutFees(output: nat, inputVault: nat, outputVault: nat): Checked<nat> {
    var numerator := inputVault * output;
    var denominator := outputVault - output;
    if numerator > U128_MAX then Throws
    else if denominator < 0 then Throws
    else if denominator == 0 then Throws
    else
      var q := FloorDiv(numerator, denominator);
      var r := FloorMod(numerator, denominator);
      var out := if r != 0 then q + 1 else q;
      if out > U128_MAX then Throws else Value(out)
  }

  /** The pool's invariant: the product of its reserves. */
  function ConstantProduct(x: nat, y: nat): nat { x * y }

  // ----- curve/calculator.rs -----

  datatype CurveResult = CurveResult(
    newInputVault: nat, newOutputVault: nat, inputAmount: nat, outputAmount: nat,
    tradeFee: nat, protocolFee: nat, fundFee: nat, creatorFee: nat,
    inputLessFees: nat, outputSwapped: nat)

  datatype InputFees = InputFees(tradeFee: nat, creatorFee: nat, lessFees: nat)

  /** Fees taken from the input before it reaches the curve. */
  function InputSideFees(input: nat, r: FeeRates, onInput: bool): Checked<InputFees> {
    if onInput then
      var totalFee :- TradingFee(input, r.trade + r.creator);
      var creatorFee :- SplitCreatorFee(totalFee, r.trade, r.creator);
      if input < totalFee then Null
      else Value(InputFees(totalFee - creatorFee, creatorFee, input - totalFee))
    else
      var tradeFee :- TradingFee(input, r.trade);
      if input < tradeFee then Null else Value(InputFees(tradeFee, 0, input - tradeFee))
  }

  function CurveSwapBaseInput(input: nat, inputVault: nat, outputVault: nat, r: FeeRates,
      onInput: bool): Checked<CurveResult> {
    var f :- InputSideFees(input, r, onInput);
    var protocolFee :- ProtocolFee(f.tradeFee, r.protocol);
    var fundFee :- FundFee(f.tradeFee, r.fund);
    var swapped :- SwapBaseInputWithoutFees(f.lessFees, inputVault, outputVault);
    var outputCreatorFee :- if onInput then Value(0) else CreatorFee(swapped, r.creator);
    if swapped < outputCreatorFee then Null
    else
      var newInputVault :- InU128(inputVault + f.lessFees);
      if outputVault < swapped then Null
      else Value(CurveResult(newInputVault, outputVault - swapped, input, swapped - outputCreatorFee,
                             f.tradeFee, protocolFee, fundFee, if onInput then f.creatorFee else outputCreatorFee,
                             f.lessFees, swapped))
  }

  function CurveSwapBaseOutput(output: nat, inputVault: nat, outputVault: nat, r: FeeRates,
      onInput: bool): Checked<CurveResult> {
    var actualOutput :- if onInput then Value(output) else CalculatePreFee(output, r.creator);
    var inputSwapped :- SwapBaseOutputWithoutFees(actualOutput, inputVault, outputVault);
    var inputAmount :- CalculatePreFee(inputSwapped, if onInput then r.trade + r.creator else r.trade).Unwrap();
    var totalFee := inputAmount - inputSwapped;
    var creatorFee :- if onInput then SplitCreatorFee(totalFee, r.trade, r.creator) else Value(actualOutput - output);
    var tradeFee := if onInput then totalFee - creatorFee else totalFee;
    var protocolFee :- ProtocolFee(tradeFee, r.protocol);
    var fundFee :- FundFee(tradeFee, r.fund);
    var newInputVault :- InU128(inputVault + inputSwapped);
    if outputVault < actualOutput then Null
    else Value(CurveResult(newInputVault, outputVault - actualOutput, inputAmount, output,
                           tradeFee, protocolFee, fundFee, creatorFee, inputSwapped, actualOutput))
  }

  // ----- states/pool.rs -----

  datatype FeeCounters = FeeCounters(protocol: nat, fund: nat, creator: nat) {
    function Sum(): nat { protocol + fund + creator }
    predicate FitU64() { protocol <= U64_MAX && fund <= U64_MAX && creator <= U64_MAX }
  }

  datatype AmmConfig = AmmConfig(trade: nat, protocol: nat, fund: nat, creator: nat)

  /** `fees0`, `fees1` are the accrued counters of token 0 and token 1. */
  datatype PoolState = PoolState(fees0: FeeCounters, fees1: FeeCounters, creatorFeeOn: nat, enableCreatorFee: bool)

  datatype Code =
    | U64Overflow | RequireGtViolated | InvalidFeeModel | ZeroTradingTokens | ExceededSlippage
    | ConstantProductDecreased | U64OverflowVault | InsufficientVault | MathOverflow
    | InvalidInputCode | TransferFeeNotMatchCode | RequireEqViolated

  datatype SwapOutcome<+T> = Accepted(value: T) | Rejected(code: Code) | Panicked

  datatype Reserves = Reserves(reserve0: nat, reserve1: nat)

  function VaultAmountWithoutFee(pool: PoolState, vault0: nat, vault1: nat): SwapOutcome<Reserves> {
    if pool.fees0.Sum() > U64_MAX || pool.fees1.Sum() > U64_MAX then Rejected(MathOverflow)
    else if vault0 < pool.fees0.Sum() then Rejected(InsufficientVault)
    else if vault1 < pool.fees1.Sum() then Rejected(InsufficientVault)
    else Accepted(Reserves(vault0 - pool.fees0.Sum(), vault1 - pool.fees1.Sum()))
  }

  function IsCreatorFeeOnInput(creatorFeeOn: nat, direction: Direction): Option<bool> {
    if creatorFeeOn == 0 then Some(true)
    else if creatorFeeOn == 1 then Some(direction == ZeroForOne)
    else if creatorFeeOn == 2 then Some(direction == OneForZero)
    else None
  }

  function AdjustCreatorFeeRate(pool: PoolState, configRate: nat): nat {
    if pool.enableCreatorFee then configRate else 0
  }

  function FeeRatesOf(config: AmmConfig, pool: PoolState): FeeRates {
    FeeRates(config.trade, AdjustCreatorFeeRate(pool, config.creator), config.protocol, config.fund)
  }

  // ----- instructions/swap_base_input.rs and swap_base_output.rs -----

  datatype SwapContext = SwapContext(
    pool: PoolState, config: AmmConfig, direction: Direction,
    inputVault: nat, outputVault: nat, inputMint: MintFeeView, outputMint: MintFeeView, epoch: nat)

  datatype Sides = Sides(reserveIn: nat, reserveOut: nat)

  function ReservesFor(ctx: SwapContext): SwapOutcome<Sides> {
    var z := ctx.direction == ZeroForOne;
    match VaultAmountWithoutFee(ctx.pool, if z then ctx.inputVault else ctx.outputVault,
        if z then ctx.outputVault else ctx.inputVault)
    case Accepted(r) => Accepted(if z then Sides(r.reserve0, r.reserve1) else Sides(r.reserve1, r.reserve0))
    case Rejected(code) => Rejected(code)
    case Panicked => Panicked
  }

  datatype SwapBaseInput = SwapBaseInput(
    transferFeeIn: nat, actualAmountIn: nat, reserveIn: nat, reserveOut: nat, onInput: bool, curve: CurveResult,
    amountOut: nat, transferFeeOut: nat, amountReceived: nat, constantBefore: nat, constantAfter: nat,
    vaultInAfter: nat, vaultOutAfter: nat)

  function SimulateSwapBaseInput(ctx: SwapContext, amountIn: int,
      minimumAmountOut: Option<int>): SwapOutcome<SwapBaseInput> {
    if amountIn < 0 || amountIn > U64_MAX then Rejected(U64Overflow)
    else
      match GetTransferFee(ctx.inputMint, ctx.epoch, amountIn)
      case Null => Panicked
      case Throws => Panicked
      case Value(transferFeeIn) =>
        var actualAmountIn := if amountIn > transferFeeIn then amountIn - transferFeeIn else 0;
        if actualAmountIn <= 0 then Rejected(RequireGtViolated)
        else
          match ReservesFor(ctx)
          case Rejected(code) => Rejected(code)
          case Panicked => Panicked
          case Accepted(rs) =>
            if ConstantProduct(rs.reserveIn, rs.reserveOut) > U128_MAX then Panicked
            else
              match IsCreatorFeeOnInput(ctx.pool.creatorFeeOn, ctx.direction)
              case None => Rejected(InvalidFeeModel)
              case Some(onInput) =>
                match CurveSwapBaseInput(actualAmountIn, rs.reserveIn, rs.reserveOut, FeeRatesOf(ctx.config, ctx.pool),
                    onInput)
                case Null => Rejected(ZeroTradingTokens)
                case Throws => Panicked
                case Value(curve) => SettleBaseInput(ctx, transferFeeIn, actualAmountIn, rs, onInput, curve,
                    minimumAmountOut)
  }

  /** Steps 6-9 of swap_base_input: constant check, output transfer fee, slippage, vault moves. */
  function SettleBaseInput(ctx: SwapContext, transferFeeIn: nat, actualAmountIn: nat, rs: Sides, onInput: bool,
                           curve: CurveResult, minimumAmountOut: Option<int>): SwapOutcome<SwapBaseInput> {
    var constantBefore := ConstantProduct(rs.reserveIn, rs.reserveOut);
    var constantAfter := ConstantProduct(curve.newInputVault, curve.newOutputVault);
    if constantAfter > U128_MAX then Panicked
    else if curve.outputAmount > U64_MAX then Panicked
    else
      var amountOut := curve.outputAmount;
      match GetTransferFee(ctx.outputMint, ctx.epoch, amountOut)
      case Null => Panicked
      case Throws => Panicked
      case Value(transferFeeOut) =>
        if amountOut < transferFeeOut then Panicked
        else
          var amountReceived := amountOut - transferFeeOut;
          var vaultInAfter := ctx.inputVault + actualAmountIn;
          if amountReceived <= 0 then Rejected(RequireGtViolated)
          else if minimumAmountOut.Some? && amountReceived < minimumAmountOut.value then Rejected(ExceededSlippage)
          else if curve.protocolFee > U64_MAX || curve.fundFee > U64_MAX || curve.creatorFee > U64_MAX then Panicked
          else if constantAfter < constantBefore then Rejected(ConstantProductDecreased)
          else if vaultInAfter > U64_MAX then Rejected(U64OverflowVault)
          else if ctx.outputVault < amountOut then Rejected(InsufficientVault)
          else Accepted(SwapBaseInput(transferFeeIn, actualAmountIn, rs.reserveIn, rs.reserveOut, onInput, curve,
                                      amountOut, transferFeeOut, amountReceived, constantBefore, constantAfter,
                                      vaultInAfter, ctx.outputVault - amountOut))
  }

  datatype SwapBaseOutput = SwapBaseOutput(
    outTransferFee: nat, amountOutWithTransferFee: nat, reserveIn: nat, reserveOut: nat, onInput: bool, curve: CurveResult,
    inputAmount: nat, inputTransferFee: nat, inputTransferAmount: nat, constantBefore: nat, constantAfter: nat,
    vaultInAfter: nat, vaultOutAfter: nat)

  function SimulateSwapBaseOutput(ctx: SwapContext, amountOutReceived: int,
      maxAmountIn: Option<int>): SwapOutcome<SwapBaseOutput> {
    if amountOutReceived <= 0 then Rejected(RequireGtViolated)
    else if amountOutReceived > U64_MAX then Rejected(U64Overflow)
    else
      match GetTransferInverseFee(ctx.outputMint, ctx.epoch, amountOutReceived)
      case InvalidInput => Rejected(InvalidInputCode)
      case TransferFeeNotMatch => Rejected(TransferFeeNotMatchCode)
      case InverseOverflow => Panicked
      case Inverse(outTransferFee) =>
        var gross := amountOutReceived + outTransferFee;
        if gross > U64_MAX then Panicked
        else
          match ReservesFor(ctx)
          case Rejected(code) => Rejected(code)
          case Panicked => Panicked
          case Accepted(rs) =>
            match IsCreatorFeeOnInput(ctx.pool.creatorFeeOn, ctx.direction)
            case None => Rejected(InvalidFeeModel)
            case Some(onInput) =>
              match CurveSwapBaseOutput(gross, rs.reserveIn, rs.reserveOut, FeeRatesOf(ctx.config, ctx.pool), onInput)
              case Null => Rejected(ZeroTradingTokens)
              case Throws => Panicked
              case Value(curve) => SettleBaseOutput(ctx, outTransferFee, gross, rs, onInput, curve, maxAmountIn)
  }

  function SettleBaseOutput(ctx: SwapContext, outTransferFee: nat, gross: nat, rs: Sides, onInput: bool,
                            curve: CurveResult, maxAmountIn: Option<int>): SwapOutcome<SwapBaseOutput> {
    var constantBefore := ConstantProduct(rs.reserveIn, rs.reserveOut);
    var constantAfter := ConstantProduct(curve.newInputVault, curve.newOutputVault);
    var inputAmount := curve.inputAmount;
    if constantAfter > U128_MAX then Panicked
    else if inputAmount > U64_MAX then Panicked
    else if inputAmount <= 0 then Rejected(RequireGtViolated)
    else
      match GetTransferInverseFee(ctx.inputMint, ctx.epoch, inputAmount)
      case InvalidInput => Rejected(InvalidInputCode)
      case TransferFeeNotMatch => Rejected(TransferFeeNotMatchCode)
      case InverseOverflow => Panicked
      case Inverse(inputTransferFee) =>
        var inputTransferAmount := inputAmount + inputTransferFee;
        var vaultInAfter := ctx.inputVault + inputAmount;
        if inputTransferAmount > U64_MAX then Panicked
        else if maxAmountIn.Some? && maxAmountIn.value < inputTransferAmount then Rejected(ExceededSlippage)
        else if curve.outputAmount != gross then Rejected(RequireEqViolated)
        else if constantAfter < constantBefore then Rejected(ConstantProductDecreased)
        else if vaultInAfter > U64_MAX then Rejected(U64OverflowVault)
        else if ctx.outputVault < gross then Rejected(InsufficientVault)
        else Accepted(SwapBaseOutput(outTransferFee, gross, rs.reserveIn, rs.reserveOut, onInput, curve,
                                     inputAmount, inputTransferFee, inputTransferAmount, constantBefore, constantAfter,
                                     vaultInAfter, ctx.outputVault - gross))
  }

  // ----- update_fees -----

  /** `None` where the program panics: a stray creator fee, or a counter leaving u64. */
  function ApplyFeeUpdate(pool: PoolState, direction: Direction, onInput: bool, protocolFee: nat, fundFee: nat,
      creatorFee: nat): Option<PoolState> {
    if !pool.enableCreatorFee && creatorFee != 0 then None
    else
      var input := if direction == ZeroForOne then pool.fees0 else pool.fees1;
      var output := if direction == ZeroForOne then pool.fees1 else pool.fees0;
      var input' := FeeCounters(input.protocol + protocolFee, input.fund + fundFee,
          if onInput then input.creator + creatorFee else input.creator);
      var output' := if onInput then output else output.(creator := output.creator + creatorFee);
      var next := if direction == ZeroForOne then pool.(fees0 := input', fees1 := output')
          else pool.(fees0 := output', fees1 := input');
      if next.fees0.FitU64() && next.fees1.FitU64() then Some(next) else None
  }
}
