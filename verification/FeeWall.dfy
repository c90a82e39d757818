/**
 * The fee wall: two pools can only be arbitraged when the ratio of their pricing-reserve prices
 * exceeds the product of both advertised fee factors.  scripts/verify_candidates.ts reads the wall
 * as the sum of the two rates; the product is at least that.
 */
module FeeWall {
  import opened Arith
  import opened Outcomes
  import opened Circuit
  import Fee = ProportionalFee
  import TF = TransferFee
  import RM = RaydiumMath
  import RX = RaydiumExact
  import RS = RaydiumSwap
  import RP = RaydiumPool
  import PM = PumpMath
  import PP = PumpPool
  import RT = RaydiumTerms
  import PT = PumpTerms

  predicate WellFormed(p: Pool) {
    match p
    case Raydium(ray, _, _) => RP.WellFormed(ray)
    case Pump(pump) => PP.WellFormed(pump)
  }

  /** The reserves that price the pool: fee-adjusted for Raydium, effective quote for PumpSwap. */
  function WsolReserve(p: Pool): int {
    match p
    case Raydium(ray, wsolIs0, _) => if wsolIs0 then RP.Reserve0(ray) else RP.Reserve1(ray)
    case Pump(pump) => PP.EffQ(pump)
  }

  function TokenReserve(p: Pool): int {
    match p
    case Raydium(ray, wsolIs0, _) => if wsolIs0 then RP.Reserve1(ray) else RP.Reserve0(ray)
    case Pump(pump) => pump.base
  }

  /** The advertised rate as a fraction: trade plus creator fee, or the sum of the fee schedule. */
  function RateDen(p: Pool): nat { if p.Raydium? then RM.FEE_RATE_DENOMINATOR else PM.BPS }

  function Rate(p: Pool): nat {
    match p
    case Raydium(ray, _, _) => var r := RM.FeeRatesOf(ray.config, ray.state); r.trade + r.creator
    case Pump(pump) => match PP.Schedule(pump) case Some(fees) => fees.Total() case None => 0
  }

  /** What the pool's own fields advertise: the rates it is configured to charge and the reserves less what is owed. */
  lemma AdvertisedTerms(p: Pool)
    requires WellFormed(p)
    ensures match p
            case Raydium(ray, wsolIs0, _) =>
              && Rate(p) == ray.config.trade + RT.CreatorRate(ray.config, ray.state) && RateDen(p) == 1_000_000
              && WsolReserve(p) == (if wsolIs0 then RT.Tradeable(ray.vault0, ray.state.fees0) else RT.Tradeable(ray.vault1, ray.state.fees1))
              && TokenReserve(p) == (if wsolIs0 then RT.Tradeable(ray.vault1, ray.state.fees1) else RT.Tradeable(ray.vault0, ray.state.fees0))
            case Pump(pump) =>
              && RateDen(p) == 10_000 && WsolReserve(p) == pump.quote + pump.virtualQuote
                   && TokenReserve(p) == pump.base
              && exists fees: PM.FeeBps :: PT.ChargedFor(pump.config, pump.base, pump.quote + pump.virtualQuote, fees)
                                && Rate(p) == fees.lp + fees.protocol + fees.creator
  {
    hide PP.Schedule, PT.ChargedFor;
    if p.Pump? {
      PT.ScheduleMeetsTerms(p.pump);
      var fees := PP.Schedule(p.pump).value;
      assert Rate(p) == fees.lp + fees.protocol + fees.creator;
      assert PT.ChargedFor(p.pump.config, p.pump.base, p.pump.quote + p.pump.virtualQuote, fees);
    }
  }

  /** A leg that pays `paid` and receives `got` stays strictly below the pool's fee-reduced price. */
  predicate BelowPrice(paid: int, got: int, resIn: int, resOut: int, rate: nat, den: nat) {
    got * (den + rate) * resIn < paid * den * resOut
  }

  // ----- one leg -----

  /** Charging two rates in turn costs at least their sum: (1-a)(1-b)(1+a+b) <= 1. */
  lemma TwoRates(a: nat, b: nat, den: nat)
    requires a + b <= den
    ensures (den - a) * (den - b) * (den + (a + b)) <= den * den * den
  {
    OneRateOff(den, a, b);
    SquareIsLargest(den, a);
    TwoSteps(den - a, den - b, den + (a + b), den, den + a);
  }

  /** (1-b)(1+a+b) <= 1+a. */
  lemma OneRateOff(den: nat, a: nat, b: nat)
    requires b <= den
    ensures (den - b) * (den + (a + b)) <= den * (den + a)
  {
    Distribute(den - b, den + a, b);
    Distribute(den + a, den - b, b);
    MulMono(den - b, den + a, b);
  }

  lemma SquareIsLargest(den: nat, a: nat)
    requires a <= den
    ensures (den - a) * (den + a) <= den * den
  {
    Distribute(den - a, den, a);
    Distribute(den, den - a, a);
    MulMono(den - a, den, a);
  }

  lemma TwoSteps(x: nat, y: nat, w: nat, den: nat, z: nat)
    requires y * w <= den * z && x * z <= den * den
    ensures x * y * w <= den * den * den
  {
    SwapFactors(x, y, w);
    MulMono(y * w, den * z, x);
    SwapFactors(den, z, x);
    MulMono(x * z, den * den, den);
  }

  lemma NetAtMostShare(gross: nat, rate: nat, den: nat)
    requires 0 < den && rate <= den
    ensures Fee.Net(gross, rate, den) * den <= gross * (den - rate)
  {
    hide FloorDiv;
    CeilBounds(gross * rate, den);
    DistributeMinus(gross, den, rate);
    DistributeMinus(den, gross, CeilDiv(gross * rate, den));
  }

  lemma CurveBelowPrice(d: nat, x: nat, y: nat)
    requires x > 0 && RX.Curve(d, x, y) > 0
    ensures RX.Curve(d, x, y) * x < d * y
  {
    hide FloorDiv;
    var o := RX.Curve(d, x, y);
    FloorBounds(d * y, x + d);
    Distribute(o, x, d);
    if d == 0 { RX.CurveAtZero(x, y); } else { MulMono2(1, o, 1, d); }
  }

  /** Multiplying both sides of `a * b <= c * d` by `k` on the first factors. */
  lemma ScaleFirst(a: nat, b: nat, c: nat, d: nat, k: nat)
    requires a * b <= c * d
    ensures a * k * b <= c * k * d
  {
    SwapFactors(a, k, b);
    SwapFactors(c, k, d);
    MulMono(a * b, c * d, k);
  }

  lemma ChainShares(g: nat, c: nat, p: nat, u: nat, v: nat, den: nat)
    requires den > 0 && g * den < c * u && c * den <= p * v
    ensures g * den * den < p * v * u
  {
    MulCancel(g * den, c * u, den);
    SwapFactors(c, u, den);
    MulMono(c * den, p * v, u);
  }

  /** From `g * den^2 < p * vu` and `vu * w <= den^3`, the wall: `g * w < p * den`. */
  lemma ClimbWall(g: nat, p: nat, vu: nat, w: nat, den: nat)
    requires den > 0 && w > 0 && g * den * den < p * vu && vu * w <= den * den * den
    ensures g * w < p * den
  {
    SwapFactors(g, den, den);
    ClimbSquare(g, p, vu, w, den * den, den);
    MulCancel(g * w, p * den, den * den);
  }

  lemma ClimbSquare(g: nat, p: nat, vu: nat, w: nat, square: nat, den: nat)
    requires w > 0 && g * square < p * vu && vu * w <= square * den
    ensures g * w * square < p * den * square
  {
    MulCancel(g * square, p * vu, w);
    SwapFactors(g, square, w);
    SwapFactors(p, den, square);
    SwapFactors(p, vu, w);
    MulMono(vu * w, square * den, p);
  }

  /** Input rate `a`, curve, output rate `b`: the received amount is below the fee-reduced price. */
  lemma StagesBelowPrice(paid: nat, d: nat, swapped: nat, got: nat, a: nat, b: nat, x: nat, y: nat, den: nat)
    requires a + b < den && x > 0 && y > 0
    requires d * den <= paid * (den - a)
    requires swapped * x < d * y
    requires got * den <= swapped * (den - b)
    ensures BelowPrice(paid, got, x, y, a + b, den)
  {
    var u, v := den - b, den - a;
    ScaleFirst(got, den, swapped, u, x);
    MulCancel(swapped * x, d * y, u);
    ScaleFirst(d, den, paid, v, y);
    ChainShares(got * x, d * y, paid * y, u, v, den);
    SwapFactors(paid * y, v, u);
    TwoRates(a, b, den);
    ClimbWall(got * x, paid * y, v * u, den + (a + b), den);
    SwapFactors(got, x, den + (a + b));
    SwapFactors(paid, y, den);
  }

  /** No Raydium swap beats its fee-reduced price, transfer fees included. */
  lemma RaydiumBelowPrice(p: RP.Pool, direction: RM.Direction, amountIn: int, epoch: nat)
    requires RP.WellFormed(p) && !RP.QuoteExactIn(p, direction, amountIn, epoch).rejected
    ensures var q := RP.QuoteExactIn(p, direction, amountIn, epoch);
            var r := RM.FeeRatesOf(p.config, p.state);
            && q.amountIn > 0
            && BelowPrice(q.amountIn, q.amountOutToUser, RP.PricingIn(p, direction), RP.PricingOut(p, direction),
                          r.trade + r.creator, RM.FEE_RATE_DENOMINATOR)
  {
    hide RP.QuoteExactIn, RP.WellFormed, RX.ValidContext, RP.PricingIn, RP.PricingOut, RP.StagesOf, RX.ExactIn,
        BelowPrice,
         RX.ReserveIn, RX.ReserveOut, RM.SimulateSwapBaseInput, RS.Realises, RM.FeeRatesOf;
    RP.AcceptedSimulation(p, direction, amountIn, epoch);
    RP.QuoteItemises(p, direction, amountIn, epoch);
    RP.QuoteDirection(p, direction, amountIn, epoch);
    RP.ContextValid(p, direction, epoch);
    var ctx := RP.Context(p, direction, epoch);
    AcceptedIsPositive(p, direction, amountIn, epoch);
    StagesOfContext(ctx, amountIn, amountIn);
    assert ctx.config == p.config && ctx.pool == p.state;
  }

  lemma AcceptedIsPositive(p: RP.Pool, direction: RM.Direction, amountIn: int, epoch: nat)
    requires RP.WellFormed(p) && !RP.QuoteExactIn(p, direction, amountIn, epoch).rejected
    ensures amountIn > 0 && RP.StagesOf(p, direction, amountIn, epoch).received > 0
  {
    hide RP.WellFormed, RX.ValidContext, RX.ExactIn, RS.FeesBalance, RM.ConstantProduct, RX.ReserveIn, RX.ReserveOut,
        RS.CurveRealises, RM.SimulateSwapBaseInput;
    RP.AcceptedSimulation(p, direction, amountIn, epoch);
    RP.ContextValid(p, direction, epoch);
    RS.ExactInIsTotal(RP.Context(p, direction, epoch), amountIn, None);
  }

  lemma StagesOfContext(ctx: RM.SwapContext, amountIn: nat, paid: nat)
    requires RX.ValidContext(ctx) && RX.ExactIn(ctx, amountIn).received > 0 && paid >= amountIn
    ensures var s := RX.ExactIn(ctx, amountIn); var r := RM.FeeRatesOf(ctx.config, ctx.pool);
            BelowPrice(paid, s.received, RX.ReserveIn(ctx), RX.ReserveOut(ctx), r.trade + r.creator,
                RM.FEE_RATE_DENOMINATOR)
  {
    hide Fee.Net, RX.Curve, TF.NetOf, RX.ReserveIn, RX.ReserveOut, BelowPrice;
    var s := RX.ExactIn(ctx, amountIn);
    var x, y := RX.ReserveIn(ctx), RX.ReserveOut(ctx);
    var a, b, den := RX.InputRate(ctx), RX.OutputRate(ctx), RM.FEE_RATE_DENOMINATOR;
    RX.ExactInBounds(ctx, amountIn);
    RS.ReservesExact(ctx);
    NetAtMostShare(s.actual, a, den);
    NetAtMostShare(s.swapped, b, den);
    CurveBelowPrice(s.lessFees, x, y);
    MulMono(s.actual, paid, den - a);
    MulMono(s.received, s.amountOut, den);
    RatesAddUp(ctx);
    StagesBelowPrice(paid, s.lessFees, s.swapped, s.received, a, b, x, y, den);
  }

  lemma RatesAddUp(ctx: RM.SwapContext)
    requires RX.ValidContext(ctx)
    ensures var r := RM.FeeRatesOf(ctx.config, ctx.pool);
            RX.InputRate(ctx) + RX.OutputRate(ctx) == r.trade + r.creator < RM.FEE_RATE_DENOMINATOR
  {
    hide TF.ValidTier;
  }

  /** No PumpSwap buy beats its fee-reduced price. */
  lemma PumpBuyBelowPrice(p: PP.Pool, fees: PM.FeeBps, amountIn: int)
    requires PP.WellFormed(p) && !PP.QuoteBuy(p, fees, amountIn).rejected
    ensures var q := PP.QuoteBuy(p, fees, amountIn);
            q.amountIn > 0 && BelowPrice(q.amountIn, q.amountOutToUser, PP.EffQ(p), p.base, fees.Total(), PM.BPS)
  {
    hide PM.EffectiveQuote, PM.UncorrectedQuote, PM.FeesOn, PM.BaseOutFor, PM.Debit, PM.BuyQuoteInput,
        PP.TransferFeeWorstCase, PP.FeeFreeBase, BelowPrice, PM.FeeBps.Total;
    PP.AcceptedBuy(PP.MathState(p), fees, amountIn);
    PP.BuyMoves(p, fees, amountIn);
    var r := PM.BuyQuoteInput(PP.MathState(p), fees, amountIn).value;
    PP.WorstCaseBounds(p, r.baseOut);
    DebitCoversRate(fees, amountIn);
    BuyBelowPrice(r.totalWithFees, r.effectiveQuote, r.baseOut, r.baseOut - PP.TransferFeeWorstCase(p, r.baseOut),
        p.base, PP.EffQ(p), fees.Total());
  }

  /** The debit covers the effective quote and its combined fee rate. */
  lemma DebitCoversRate(fees: PM.FeeBps, quote: nat)
    requires PM.EffectiveQuote(fees, quote) >= 0
    ensures PM.EffectiveQuote(fees, quote) * (PM.BPS + fees.Total()) <= PM.Debit(fees, quote) * PM.BPS
  {
    hide PM.UncorrectedQuote, PM.FeesOn, PM.FeeBps.Total;
    var e, eff, t := PM.UncorrectedQuote(fees, quote), PM.EffectiveQuote(fees, quote), fees.Total();
    PM.CorrectionAtMostTwo(fees, quote);
    PM.FeesOnBounds(e, fees);
    MulMono(eff, e, t);
    Distribute(eff, PM.BPS, t);
  }

  lemma BuyBelowPrice(paid: nat, eff: nat, baseOut: nat, got: nat, base: nat, effQ: nat, rate: nat)
    requires eff >= 2 && base > 0 && effQ > 0 && got <= baseOut && baseOut == PM.BaseOutFor(base, effQ, eff - 1)
    requires eff * (PM.BPS + rate) <= paid * PM.BPS
    ensures paid > 0 && BelowPrice(paid, got, effQ, base, rate, PM.BPS)
  {
    hide FloorDiv;
    var w := PM.BPS + rate;
    // baseOut * effQ < base * eff
    FloorBounds(base * (eff - 1), effQ + (eff - 1));
    Distribute(baseOut, effQ, eff - 1);
    DistributeMinus(base, eff, 1);
    MulMono2(0, baseOut, 0, eff - 1);
    MulMono(got, baseOut, effQ);
    PricedBelow(got * effQ, base, eff, w, paid);
    SwapFactors(got, effQ, w);
    SwapFactors(paid, PM.BPS, base);
    if paid == 0 { MulMono2(2, eff, PM.BPS, w); }
  }

  lemma PricedBelow(g: nat, base: nat, eff: nat, w: nat, paid: nat)
    requires g < base * eff && w > 0 && eff * w <= paid * PM.BPS
    ensures g * w < paid * PM.BPS * base
  {
    MulCancel(g, base * eff, w);
    SwapFactors(base, eff, w);
    MulMono(eff * w, paid * PM.BPS, base);
  }

  /** No PumpSwap sell beats its fee-reduced price. */
  lemma PumpSellBelowPrice(p: PP.Pool, fees: PM.FeeBps, amountIn: int)
    requires PP.WellFormed(p) && !PP.QuoteSell(p, fees, amountIn).rejected
    ensures var q := PP.QuoteSell(p, fees, amountIn);
            q.amountIn > 0 && BelowPrice(q.amountIn, q.amountOutToUser, p.base, PP.EffQ(p), fees.Total(), PM.BPS)
  {
    PP.SellMoves(p, fees, amountIn);
    hide PM.FeesOn, PM.QuoteOutFor, PP.TransferFeeWorstCase, PP.FeeFreeBase, BelowPrice, PM.FeeBps.Total, PP.MovesSell;
    var r := PM.SellBaseInput(PP.MathState(p), fees, amountIn).value;
    PM.FeesOnBounds(r.quoteAmountOut, fees);
    SellBelowPrice(amountIn, r.quoteAmountOut, r.userQuoteOut, p.base, PP.EffQ(p), fees.Total());
  }

  lemma SellBelowPrice(paid: nat, quoteOut: nat, got: nat, base: nat, effQ: nat, rate: nat)
    requires paid > 0 && got > 0 && base > 0 && effQ > 0 && quoteOut == PM.QuoteOutFor(base, effQ, paid)
    requires got <= quoteOut && quoteOut * rate <= (quoteOut - got) * PM.BPS
    ensures BelowPrice(paid, got, base, effQ, rate, PM.BPS)
  {
    hide FloorDiv;
    var den := PM.BPS;
    // quoteOut * base < paid * effQ
    FloorBounds(effQ * paid, base + paid);
    Distribute(quoteOut, base, paid);
    MulMono2(1, quoteOut, 1, paid);
    SellShare(quoteOut, got, rate);
    MulMono(got * (den + rate), quoteOut * den, base);
    SwapFactors(quoteOut, den, base);
    SwapFactors(paid, den, effQ);
    MulCancel(quoteOut * base, effQ * paid, den);
  }

  /** Paying a rate of the larger gross amount costs at least that rate of the net: (1-f)(1+f) <= 1. */
  lemma SellShare(quoteOut: nat, got: nat, rate: nat)
    requires 0 < got <= quoteOut && quoteOut * rate <= (quoteOut - got) * PM.BPS
    ensures got * (PM.BPS + rate) <= quoteOut * PM.BPS
  {
    DistributeMinus(PM.BPS, quoteOut, got);
    Distribute(got, PM.BPS, rate);
    MulMono(got, quoteOut, rate);
  }

  /** One leg of either adapter, in either direction. */
  lemma LegBelowPrice(p: Pool, wsolIn: bool, amountIn: int)
    requires WellFormed(p)
    requires var q := QuoteExactIn(p, wsolIn, amountIn); q.Some? && !q.value.rejected
    ensures var q := QuoteExactIn(p, wsolIn, amountIn).value;
            && q.amountIn > 0
            && (if wsolIn then BelowPrice(q.amountIn, q.amountOutToUser, WsolReserve(p), TokenReserve(p), Rate(p),
                 RateDen(p))
                else BelowPrice(q.amountIn, q.amountOutToUser, TokenReserve(p), WsolReserve(p), Rate(p), RateDen(p)))
  {
    hide BelowPrice, RP.QuoteExactIn, RP.WellFormed, PP.WellFormed, PP.QuoteBuy, PP.QuoteSell, PP.Schedule,
        RP.Reserve0, RP.Reserve1, PP.EffQ, RM.FeeRatesOf;
    match p
    case Raydium(ray, _, epoch) => RaydiumBelowPrice(ray, DirectionOf(p, wsolIn), amountIn, epoch);
    case Pump(pump) =>
      var fees := PP.Schedule(pump).value;
      if wsolIn { PumpBuyBelowPrice(pump, fees, amountIn); } else { PumpSellBelowPrice(pump, fees, amountIn); }
  }

  // ----- circuits -----

  /** Price of the token in WSOL on `b` over its price on `a` exceeds both fee factors together. */
  predicate ClearsWall(c: Circuit) {
    (RateDen(c.poolA) + Rate(c.poolA)) * (RateDen(c.poolB) + Rate(c.poolB)) * (WsolReserve(c.poolA) * TokenReserve(c.poolB))
    < RateDen(c.poolA) * RateDen(c.poolB) * (TokenReserve(c.poolA) * WsolReserve(c.poolB))
  }

  /** The price gap is at most the sum of the two advertised rates. */
  predicate GapWithinFees(c: Circuit) {
    RateDen(c.poolA) * RateDen(c.poolB) * (TokenReserve(c.poolA) * WsolReserve(c.poolB) - WsolReserve(c.poolA) * TokenReserve(c.poolB))
    <= (Rate(c.poolA) * RateDen(c.poolB) + Rate(c.poolB) * RateDen(c.poolA)) * (WsolReserve(c.poolA) * TokenReserve(c.poolB))
  }

  lemma ReservesPositive(p: Pool)
    requires WellFormed(p)
    ensures WsolReserve(p) > 0 && TokenReserve(p) > 0 && RateDen(p) > 0
  {
    hide RP.WellFormed, RP.Reserve0, RP.Reserve1;
    if p.Raydium? { RP.ReservesPositive(p.ray); }
  }

  /** A leg's bound with the received amount paid onward: multiply and cancel the amounts. */
  lemma ComposeLegs(a: nat, t: nat, w: nat, fa: nat, fb: nat, da: nat, db: nat, xa: nat, ya: nat, xb: nat, yb: nat)
    requires 0 < a <= w && 0 < t && 0 < da && 0 < db && 0 < xa && 0 < ya && 0 < xb && 0 < yb
    requires t * fa * xa < a * da * ya
    requires w * fb * yb < t * db * xb
    ensures fa * fb * (xa * yb) < da * db * (ya * xb)
  {
    MulMono(a, w, fb * yb);
    SwapFactors(a, fb, yb);
    SwapFactors(w, fb, yb);
    Multiply(t * fa * xa, a * da * ya, a * fb * yb, t * db * xb);
    Regroup(t, fa, xa, a, fb, yb);
    Regroup(a, da, ya, t, db, xb);
    MulMono2(1, a, 1, t);
    MulCancel(fa * fb * (xa * yb), da * db * (ya * xb), a * t);
  }

  lemma Multiply(p: nat, q: nat, r: nat, s: nat)
    requires p < q && r < s
    ensures p * r < q * s
  {
    MulMono(p, q, r);
    MulCancel(r, s, q);
  }

  lemma Regroup(t: int, f: int, x: int, a: int, g: int, y: int)
    ensures t * f * x * (a * g * y) == f * g * (x * y) * (a * t)
  {
  }

  /** A circuit that loses nothing, at whatever size, clears the fee wall. */
  lemma ProfitClearsWall(c: Circuit, amountIn: int)
    requires WellFormed(c.poolA) && WellFormed(c.poolB)
    requires EvaluateCircuit(c, amountIn).Evaluated? && EvaluateCircuit(c, amountIn).value.pnl >= 0
    ensures ClearsWall(c)
  {
    hide QuoteExactIn, WellFormed, WsolReserve, TokenReserve, Rate, RateDen;
    var v := EvaluateCircuit(c, amountIn).value;
    LegBelowPrice(c.poolA, true, amountIn);
    LegBelowPrice(c.poolB, false, v.quoteA.amountOutToUser);
    ReservesPositive(c.poolA);
    ReservesPositive(c.poolB);
    ComposeLegs(v.quoteA.amountIn, v.quoteA.amountOutToUser, v.quoteB.amountOutToUser,
                RateDen(c.poolA) + Rate(c.poolA), RateDen(c.poolB) + Rate(c.poolB), RateDen(c.poolA), RateDen(c.poolB),
                WsolReserve(c.poolA), TokenReserve(c.poolA), WsolReserve(c.poolB), TokenReserve(c.poolB));
  }

  lemma WallExceedsSum(ra: nat, rb: nat, da: nat, db: nat, base: nat, gap: int)
    requires (da + ra) * (db + rb) * base < da * db * (base + gap)
    ensures (ra * db + rb * da) * base < da * db * gap
  {
    assert (da + ra) * (db + rb) == da * db + (ra * db + rb * da) + ra * rb;
    Distribute(base, da * db + (ra * db + rb * da), ra * rb);
    Distribute(base, da * db, ra * db + rb * da);
    Distribute(da * db, base, gap);
    MulMono(0, ra * rb, base);
  }

  /** When the gap is at most the summed rates, no size is profitable. */
  lemma GapWithinFeesNeverPays(c: Circuit, amountIn: int)
    requires WellFormed(c.poolA) && WellFormed(c.poolB) && GapWithinFees(c)
    ensures EvaluateCircuit(c, amountIn).Evaluated? ==> EvaluateCircuit(c, amountIn).value.pnl < 0
  {
    hide EvaluateCircuit, WellFormed, WsolReserve, TokenReserve, Rate, RateDen;
    var r := EvaluateCircuit(c, amountIn);
    if r.Evaluated? && r.value.pnl >= 0 {
      ProfitClearsWall(c, amountIn);
      ReservesPositive(c.poolA);
      ReservesPositive(c.poolB);
      var base := WsolReserve(c.poolA) * TokenReserve(c.poolB);
      MulMono2(0, WsolReserve(c.poolA), 0, TokenReserve(c.poolB));
      WallExceedsSum(Rate(c.poolA), Rate(c.poolB), RateDen(c.poolA), RateDen(c.poolB), base,
          TokenReserve(c.poolA) * WsolReserve(c.poolB) - base);
    }
  }

  /** The two directions of a pair are never both free of loss, at any two sizes. */
  lemma OneDirectionAtMost(c: Circuit, amountIn: int, amountBack: int)
    requires WellFormed(c.poolA) && WellFormed(c.poolB)
    ensures var there, back := EvaluateCircuit(c, amountIn), EvaluateCircuit(Circuit(c.poolB, c.poolA), amountBack);
            !(there.Evaluated? && there.value.pnl >= 0 && back.Evaluated? && back.value.pnl >= 0)
  {
    hide EvaluateCircuit, WellFormed, WsolReserve, TokenReserve, Rate, RateDen;
    var reverse := Circuit(c.poolB, c.poolA);
    var there, back := EvaluateCircuit(c, amountIn), EvaluateCircuit(reverse, amountBack);
    if there.Evaluated? && there.value.pnl >= 0 && back.Evaluated? && back.value.pnl >= 0 {
      ProfitClearsWall(c, amountIn);
      ProfitClearsWall(reverse, amountBack);
      ReservesPositive(c.poolA);
      ReservesPositive(c.poolB);
      WallIsAboveOne(Rate(c.poolA), Rate(c.poolB), RateDen(c.poolA), RateDen(c.poolB),
                     WsolReserve(c.poolA) * TokenReserve(c.poolB), TokenReserve(c.poolA) * WsolReserve(c.poolB));
      WallIsAboveOne(Rate(c.poolB), Rate(c.poolA), RateDen(c.poolB), RateDen(c.poolA),
                     WsolReserve(c.poolB) * TokenReserve(c.poolA), TokenReserve(c.poolB) * WsolReserve(c.poolA));
    }
  }

  lemma WallIsAboveOne(ra: nat, rb: nat, da: nat, db: nat, left: int, right: int)
    requires da > 0 && db > 0 && left >= 0 && (da + ra) * (db + rb) * left < da * db * right
    ensures left < right
  {
    MulMono2(da, da + ra, db, db + rb);
    MulMono(da * db, (da + ra) * (db + rb), left);
    MulMono2(1, da, 1, db);
    MulCancel(left, right, da * db);
  }

  /** Sizing a circuit whose gap is within the advertised fees chooses the zero trade. */
  method SizeWithinFees(c: Circuit, grid: seq<int>, maxCapital: int, refineSteps: nat)
      returns (best: Option<CircuitEval>, evaluated: seq<Point>)
    requires WellFormed(c.poolA) && WellFormed(c.poolB) && GapWithinFees(c)
    ensures best.None?
    ensures |evaluated| == |GridSizes(grid, maxCapital)|
  {
    hide EvaluateCircuit, WellFormed, GapWithinFees, Honest;
    best, evaluated := SizeCircuit(c, grid, maxCapital, refineSteps);
    if best.Some? {
      GapWithinFeesNeverPays(c, best.value.amountIn);
    }
  }
}
