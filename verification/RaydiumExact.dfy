/**
 * What a Raydium swap computes, free of word sizes: an input amount passes five monotone stages
 * (transfer fee in, input fees, curve, output fee, transfer fee out), each with a least pre-image.
 * On every well-formed pool the checked exact-in simulation is that composition and the checked
 * exact-out simulation is the composition of the pre-images.
 */
module RaydiumExact {
  import opened Arith
  import opened TransferFee
  import opened RaydiumMath
  import Fee = ProportionalFee

  const DEN: nat := FEE_RATE_DENOMINATOR

  // ----- what validatePool establishes -----

  predicate ValidRates(r: FeeRates) {
    r.trade + r.creator < DEN && r.protocol + r.fund <= DEN
  }

  predicate ValidPool(pool: PoolState, vault0: nat, vault1: nat) {
    && vault0 <= U64_MAX && vault1 <= U64_MAX
    && pool.fees0.Sum() < vault0 && pool.fees1.Sum() < vault1
    && pool.creatorFeeOn <= 2
  }

  predicate ValidContext(ctx: SwapContext) {
    && (if ctx.direction == ZeroForOne then ValidPool(ctx.pool, ctx.inputVault, ctx.outputVault)
        else ValidPool(ctx.pool, ctx.outputVault, ctx.inputVault))
    && ValidRates(FeeRatesOf(ctx.config, ctx.pool))
    && ValidMint(ctx.inputMint) && ValidMint(ctx.outputMint)
  }

  function InputCounters(ctx: SwapContext): FeeCounters {
    if ctx.direction == ZeroForOne then ctx.pool.fees0 else ctx.pool.fees1
  }

  function OutputCounters(ctx: SwapContext): FeeCounters {
    if ctx.direction == ZeroForOne then ctx.pool.fees1 else ctx.pool.fees0
  }

  function ReserveIn(ctx: SwapContext): nat requires ValidContext(ctx) { ctx.inputVault - InputCounters(ctx).Sum() }
  function ReserveOut(ctx: SwapContext): nat requires ValidContext(ctx) { ctx.outputVault - OutputCounters(ctx).Sum() }

  function OnInput(ctx: SwapContext): bool
    requires ctx.pool.creatorFeeOn <= 2
  {
    IsCreatorFeeOnInput(ctx.pool.creatorFeeOn, ctx.direction).value
  }

  // ----- the constant-product stage -----

  function Curve(d: nat, x: nat, y: nat): nat
    requires x > 0
  {
    FloorDiv(d * y, x + d)
  }

  function CurveInverse(o: nat, x: nat, y: nat): nat
    requires o < y
  {
    CeilDiv(x * o, y - o)
  }

  lemma CurveBelowReserve(d: nat, x: nat, y: nat)
    requires x > 0 && y > 0
    ensures Curve(d, x, y) < y
  {
    FloorAdjoint(d * y, x + d, y);
    assert y * (x + d) == y * x + d * y;
    MulMono(1, x, y);
  }

  lemma CurveAdjoint(d: nat, o: nat, x: nat, y: nat)
    requires x > 0 && o < y
    ensures Curve(d, x, y) >= o <==> d >= CurveInverse(o, x, y)
  {
    FloorAdjoint(d * y, x + d, o);
    CeilAdjoint(x * o, y - o, d);
    Distribute(o, x, d);
    DistributeMinus(d, y, o);
  }

  lemma CurveMono(d: nat, e: nat, x: nat, y: nat)
    requires x > 0 && y > 0 && d <= e
    ensures Curve(d, x, y) <= Curve(e, x, y)
  {
    var o := Curve(d, x, y);
    CurveBelowReserve(d, x, y);
    CurveAdjoint(d, o, x, y);
    CurveAdjoint(e, o, x, y);
  }

  /** The product of reserves grows by exactly the remainder the curve rounds away. */
  lemma ConstantGain(d: nat, x: nat, y: nat)
    requires x > 0 && y > 0
    ensures Curve(d, x, y) < y
    ensures ConstantProduct(x + d, y - Curve(d, x, y)) == ConstantProduct(x, y) + FloorMod(d * y, x + d)
  {
    hide FloorDiv;
    var o := Curve(d, x, y);
    CurveBelowReserve(d, x, y);
    DistributeMinus(x + d, y, o);
    Distribute(y, x, d);
  }

  /** u128 suffices, by two units, for every u64 input and reserves. */
  lemma ConstantFitsU128(d: nat, x: nat, y: nat)
    requires 0 < x <= U64_MAX && 0 < y <= U64_MAX && d <= U64_MAX
    ensures Curve(d, x, y) < y
    ensures ConstantProduct(x, y) <= ConstantProduct(x + d, y - Curve(d, x, y)) <= U128_MAX - 1
  {
    ConstantGain(d, x, y);
    FloorBounds(d * y, x + d);
    MulMono2(x, U64_MAX, y, U64_MAX);
  }

  // ----- exact-in: the five stages -----

  function InputRate(ctx: SwapContext): nat
    requires ValidContext(ctx)
  {
    var r := FeeRatesOf(ctx.config, ctx.pool);
    if OnInput(ctx) then r.trade + r.creator else r.trade
  }

  function OutputRate(ctx: SwapContext): nat
    requires ValidContext(ctx)
  {
    if OnInput(ctx) then 0 else FeeRatesOf(ctx.config, ctx.pool).creator
  }

  function TierIn(ctx: SwapContext): (tier: TransferFeeTier)
    requires ValidContext(ctx)
    ensures ValidTier(tier)
  {
    MintTier(ctx.inputMint, ctx.epoch)
  }

  function TierOut(ctx: SwapContext): (tier: TransferFeeTier)
    requires ValidContext(ctx)
    ensures ValidTier(tier)
  {
    MintTier(ctx.outputMint, ctx.epoch)
  }

  datatype Stages = Stages(actual: nat, lessFees: nat, swapped: nat, amountOut: nat, received: nat)

  /** The vault-side amount of a gross transfer. */
  function AfterTransfer(tier: TransferFeeTier, gross: nat): (net: nat)
    requires ValidTier(tier)
    ensures net <= gross
  {
    FeeOfBounds(tier, gross);
    NetOf(tier, gross)
  }

  function AfterFee(gross: nat, rate: nat): (net: nat)
    requires rate < DEN
    ensures net <= gross
  {
    Fee.FeeAtMostGross(gross, rate, DEN);
    Fee.Net(gross, rate, DEN)
  }

  function ExactIn(ctx: SwapContext, amountIn: nat): Stages
    requires ValidContext(ctx)
  {
    var actual := AfterTransfer(TierIn(ctx), amountIn);
    var lessFees := AfterFee(actual, InputRate(ctx));
    var swapped := Curve(lessFees, ReserveIn(ctx), ReserveOut(ctx));
    var amountOut := AfterFee(swapped, OutputRate(ctx));
    Stages(actual, lessFees, swapped, amountOut, AfterTransfer(TierOut(ctx), amountOut))
  }

  lemma ExactInBounds(ctx: SwapContext, amountIn: nat)
    requires ValidContext(ctx)
    ensures var s := ExactIn(ctx, amountIn);
            && s.received <= s.amountOut <= s.swapped < ReserveOut(ctx)
            && s.lessFees <= s.actual <= amountIn
            && (s.lessFees == 0 ==> s.swapped == 0)
  {
    hide NetOf, Fee.Net, Curve;
    var s := ExactIn(ctx, amountIn);
    CurveBelowReserve(s.lessFees, ReserveIn(ctx), ReserveOut(ctx));
    CurveAtZero(ReserveIn(ctx), ReserveOut(ctx));
  }

  lemma CurveAtZero(x: nat, y: nat)
    requires x > 0
    ensures Curve(0, x, y) == 0
  {
    assert 0 * y == 0;
  }

  // ----- exact-out: the least pre-images -----

  /** What must leave the curve so that `received` reaches the trader. */
  function CurveOutputFor(ctx: SwapContext, received: nat): nat
    requires ValidContext(ctx)
  {
    Fee.LeastGross(GrossFor(TierOut(ctx), received), OutputRate(ctx), DEN)
  }

  predicate Reachable(ctx: SwapContext, received: nat)
    requires ValidContext(ctx)
  {
    CurveOutputFor(ctx, received) < ReserveOut(ctx)
  }

  /** The same stages read backwards: each is the least amount giving the next. */
  function ExactOut(ctx: SwapContext, received: nat): Stages
    requires ValidContext(ctx) && Reachable(ctx, received)
  {
    var amountOut := GrossFor(TierOut(ctx), received);
    var swapped := CurveOutputFor(ctx, received);
    var lessFees := CurveInverse(swapped, ReserveIn(ctx), ReserveOut(ctx));
    Stages(Fee.LeastGross(lessFees, InputRate(ctx), DEN), lessFees, swapped, amountOut, received)
  }

  function Required(ctx: SwapContext, received: nat): nat
    requires ValidContext(ctx) && Reachable(ctx, received)
  {
    GrossFor(TierIn(ctx), ExactOut(ctx, received).actual)
  }

  /** Inputs delivering at least `received` are exactly those from `Required(received)` on. */
  lemma StagesAdjoint(ctx: SwapContext, amountIn: nat, received: nat)
    requires ValidContext(ctx)
    ensures ExactIn(ctx, amountIn).received >= received
            <==> Reachable(ctx, received) && amountIn >= Required(ctx, received)
  {
    hide NetOf, GrossFor, Fee.Net, Fee.LeastGross, Curve, CurveInverse;
    var s := ExactIn(ctx, amountIn);
    ExactInBounds(ctx, amountIn);
    NetOfAdjoint(TierOut(ctx), s.amountOut, received);
    Fee.NetAdjoint(s.swapped, GrossFor(TierOut(ctx), received), OutputRate(ctx), DEN);
    if Reachable(ctx, received) {
      var t := ExactOut(ctx, received);
      CurveAdjoint(s.lessFees, t.swapped, ReserveIn(ctx), ReserveOut(ctx));
      Fee.NetAdjoint(s.actual, t.lessFees, InputRate(ctx), DEN);
      NetOfAdjoint(TierIn(ctx), amountIn, t.actual);
    }
  }

  /** Fed its own requirement, exact-in retraces the input stages and reaches the curve output. */
  lemma StagesRetrace(ctx: SwapContext, received: nat)
    requires ValidContext(ctx) && Reachable(ctx, received)
    ensures var s := ExactIn(ctx, Required(ctx, received)); var t := ExactOut(ctx, received);
            s.actual == t.actual && s.lessFees == t.lessFees && s.swapped >= t.swapped && s.received >= received
  {
    hide NetOf, GrossFor, Fee.Net, Fee.LeastGross, Curve, CurveInverse;
    var t := ExactOut(ctx, received);
    NetOfGrossFor(TierIn(ctx), t.actual);
    Fee.NetOfLeastGross(t.lessFees, InputRate(ctx), DEN);
    CurveAdjoint(t.lessFees, t.swapped, ReserveIn(ctx), ReserveOut(ctx));
    StagesAdjoint(ctx, Required(ctx, received), received);
  }
}
