/**
 * A Raydium pool as a state machine: quoting, applying a quote (vault moves and fee counters carved
 * out of the vaults), and runs of arbitrary swap attempts by traders.
 */
module RaydiumPool {
  import opened Arith
  import opened Outcomes
  import opened TransferFee
  import opened RaydiumMath
  import opened RaydiumExact
  import opened RaydiumSwap

  /** `approved`: swaps are not disabled by the status bits and the open time has passed. */
  datatype Pool = Pool(state: PoolState, config: AmmConfig, vault0: nat, vault1: nat,
                       mint0: MintFeeView, mint1: MintFeeView, approved: bool)

  predicate WellFormed(p: Pool) {
    && ValidPool(p.state, p.vault0, p.vault1)
    && ValidRates(FeeRatesOf(p.config, p.state))
    && ValidMint(p.mint0) && ValidMint(p.mint1)
  }

  function Reserve0(p: Pool): int { p.vault0 - p.state.fees0.Sum() }
  function Reserve1(p: Pool): int { p.vault1 - p.state.fees1.Sum() }

  function Context(p: Pool, direction: Direction, epoch: nat): SwapContext {
    if direction == ZeroForOne then SwapContext(p.state, p.config, direction, p.vault0, p.vault1, p.mint0, p.mint1,
        epoch)
    else SwapContext(p.state, p.config, direction, p.vault1, p.vault0, p.mint1, p.mint0, epoch)
  }

  // ----- quoteExactIn -----

  datatype Fees = Fees(lp: int, protocol: nat, fund: nat, creator: nat, transferIn: nat, transferOut: nat)

  datatype Quote = Quote(direction: Direction, amountIn: int, amountOutToUser: int, vaultInDelta: int,
      vaultOutDelta: int,
                         fees: Option<Fees>, rejected: bool)

  function RejectedQuote(direction: Direction, amountIn: int): Quote {
    Quote(direction, amountIn, 0, 0, 0, None, true)
  }

  function QuoteExactIn(p: Pool, direction: Direction, amountIn: int, epoch: nat): Quote {
    if !p.approved then RejectedQuote(direction, amountIn)
    else
      match SimulateSwapBaseInput(Context(p, direction, epoch), amountIn, None)
      case Rejected(_) => RejectedQuote(direction, amountIn)
      case Panicked => RejectedQuote(direction, amountIn)
      case Accepted(v) =>
        var c := v.curve;
        var fees := Fees(c.tradeFee - c.protocolFee - c.fundFee, c.protocolFee, c.fundFee, c.creatorFee,
            v.transferFeeIn, v.transferFeeOut);
        Quote(direction, amountIn, v.amountReceived, v.actualAmountIn, v.amountOut, Some(fees), false)
  }

  // ----- applySwap -----

  datatype Applied = Applied(pool: Pool) | QuoteRejected | Unsupported(code: Code) | Overflow | QuoteStateMismatch | FeeUpdatePanic

  function ApplySwap(p: Pool, q: Quote, epoch: nat): Applied {
    if q.rejected then QuoteRejected
    else
      match SimulateSwapBaseInput(Context(p, q.direction, epoch), q.amountIn, None)
      case Rejected(code) => Unsupported(code)
      case Panicked => Overflow
      case Accepted(v) =>
        if v.amountReceived != q.amountOutToUser || v.actualAmountIn != q.vaultInDelta || v.amountOut != q.vaultOutDelta then QuoteStateMismatch
        else
          match ApplyFeeUpdate(p.state, q.direction, v.onInput, v.curve.protocolFee, v.curve.fundFee,
              v.curve.creatorFee)
          case None => FeeUpdatePanic
          case Some(state) =>
            var z := q.direction == ZeroForOne;
            var vault0 := if z then v.vaultInAfter else v.vaultOutAfter;
            var vault1 := if z then v.vaultOutAfter else v.vaultInAfter;
            (match VaultAmountWithoutFee(state, vault0, vault1)
             case Rejected(code) => Unsupported(code)
             case Panicked => Overflow
             case Accepted(_) => Applied(p.(state := state, vault0 := vault0, vault1 := vault1)))
  }

  // ----- every accepted swap applies -----

  function PricingIn(p: Pool, direction: Direction): int {
    if direction == ZeroForOne then Reserve0(p) else Reserve1(p)
  }
  function PricingOut(p: Pool, direction: Direction): int {
    if direction == ZeroForOne then Reserve1(p) else Reserve0(p)
  }

  lemma ContextValid(p: Pool, direction: Direction, epoch: nat)
    requires WellFormed(p)
    ensures var ctx := Context(p, direction, epoch);
            && ValidContext(ctx)
            && ReserveIn(ctx) == PricingIn(p, direction) > 0
            && ReserveOut(ctx) == PricingOut(p, direction) > 0
  {
    hide ValidRates, ValidMint, FeeRatesOf;
  }

  /** The stages an attempt passes through. */
  ghost function StagesOf(p: Pool, direction: Direction, amountIn: nat, epoch: nat): Stages
    requires WellFormed(p)
  {
    ContextValid(p, direction, epoch);
    ExactIn(Context(p, direction, epoch), amountIn)
  }

  /** An accepted quote comes from an accepted simulation that realises the stages. */
  lemma AcceptedSimulation(p: Pool, direction: Direction, amountIn: int, epoch: nat)
    requires WellFormed(p) && !QuoteExactIn(p, direction, amountIn, epoch).rejected
    ensures var ctx := Context(p, direction, epoch);
            var outcome := SimulateSwapBaseInput(ctx, amountIn, None);
            && 0 < amountIn <= U64_MAX && ValidContext(ctx)
            && outcome.Accepted? && Realises(ctx, amountIn, outcome.value)
            && ExactIn(ctx, amountIn) == StagesOf(p, direction, amountIn, epoch)
  {
    hide SimulateSwapBaseInput, ExactIn, WellFormed, ValidContext, Realises;
    ContextValid(p, direction, epoch);
    var ctx := Context(p, direction, epoch);
    if amountIn >= 0 {
      ExactInIsTotal(ctx, amountIn, None);
      ExactInBounds(ctx, amountIn);
    } else {
      NegativeInput(ctx, amountIn);
    }
  }

  lemma NegativeInput(ctx: SwapContext, amountIn: int)
    requires amountIn < 0
    ensures SimulateSwapBaseInput(ctx, amountIn, None) == Rejected(U64Overflow)
  {
  }

  /** The fee items account for every unit between what the trader gives and what the trader gets. */
  lemma QuoteItemises(p: Pool, direction: Direction, amountIn: int, epoch: nat)
    requires WellFormed(p) && !QuoteExactIn(p, direction, amountIn, epoch).rejected
    ensures var q := QuoteExactIn(p, direction, amountIn, epoch);
            && 0 < amountIn && q.fees.Some?
            && var f := q.fees.value;
            var onInput := IsCreatorFeeOnInput(p.state.creatorFeeOn, direction) == Some(true);
            var s := StagesOf(p, direction, amountIn, epoch);
            && 0 <= f.lp
            && amountIn == f.transferIn + f.lp + f.protocol + f.fund + (if onInput then f.creator else 0) + s.lessFees
            && s.swapped == q.amountOutToUser + f.transferOut + (if onInput then 0 else f.creator)
            && q.vaultInDelta == amountIn - f.transferIn
            && q.vaultOutDelta == q.amountOutToUser + f.transferOut
            && s.received == q.amountOutToUser
  {
    hide SimulateSwapBaseInput, ExactIn, StagesOf, WellFormed, ValidContext, ConstantProduct, ReserveIn, ReserveOut;
    AcceptedSimulation(p, direction, amountIn, epoch);
    ReservesOnInput(p, direction, epoch);
  }

  lemma ReservesOnInput(p: Pool, direction: Direction, epoch: nat)
    requires WellFormed(p)
    ensures var ctx := Context(p, direction, epoch);
            ctx.pool.creatorFeeOn <= 2 && IsCreatorFeeOnInput(p.state.creatorFeeOn, direction) == Some(OnInput(ctx))
  {
    hide ValidRates, ValidMint, FeeRatesOf;
  }

  /** An accepted swap's numbers, as far as the vaults and counters are concerned. */
  predicate Settles(p: Pool, direction: Direction, v: SwapBaseInput, s: Stages) {
    var c := v.curve;
    && c.protocolFee + c.fundFee <= c.tradeFee
    && c.inputAmount == s.lessFees + c.tradeFee + (if v.onInput then c.creatorFee else 0) == s.actual
    && s.swapped == s.amountOut + (if v.onInput then 0 else c.creatorFee) < PricingOut(p, direction)
    && (!p.state.enableCreatorFee ==> c.creatorFee == 0)
    && v.vaultInAfter == (if direction == ZeroForOne then p.vault0 else p.vault1) + s.actual <= U64_MAX
    && v.vaultOutAfter == (if direction == ZeroForOne then p.vault1 else p.vault0) - s.amountOut
  }

  function UpdatedState(p: Pool, direction: Direction, v: SwapBaseInput): Option<PoolState> {
    ApplyFeeUpdate(p.state, direction, v.onInput, v.curve.protocolFee, v.curve.fundFee, v.curve.creatorFee)
  }

  /** What steps 8 and 9 do to the counters and vaults. */
  predicate Settled(p: Pool, direction: Direction, v: SwapBaseInput, s: Stages) {
    && UpdatedState(p, direction, v).Some?
    && var z := direction == ZeroForOne;
       var p' := p.(state := UpdatedState(p, direction, v).value,
                    vault0 := if z then v.vaultInAfter else v.vaultOutAfter, vault1 := if z then v.vaultOutAfter
                        else v.vaultInAfter);
    && ValidPool(p'.state, p'.vault0, p'.vault1)
    && p'.state.enableCreatorFee == p.state.enableCreatorFee
    && PricingIn(p', direction) == PricingIn(p, direction) + s.lessFees + (v.curve.tradeFee - v.curve.protocolFee - v.curve.fundFee)
    && PricingOut(p', direction) == PricingOut(p, direction) - s.swapped
  }

  lemma SettleZeroForOne(p: Pool, v: SwapBaseInput, s: Stages)
    requires ValidPool(p.state, p.vault0, p.vault1) && Settles(p, ZeroForOne, v, s)
    ensures Settled(p, ZeroForOne, v, s)
  {
  }

  lemma SettleOneForZero(p: Pool, v: SwapBaseInput, s: Stages)
    requires ValidPool(p.state, p.vault0, p.vault1) && Settles(p, OneForZero, v, s)
    ensures Settled(p, OneForZero, v, s)
  {
  }

  lemma SettledApplies(p: Pool, direction: Direction, v: SwapBaseInput, s: Stages)
    requires WellFormed(p) && Settles(p, direction, v, s)
    ensures Settled(p, direction, v, s)
    ensures var z := direction == ZeroForOne;
            var p' := p.(state := UpdatedState(p, direction, v).value,
                         vault0 := if z then v.vaultInAfter else v.vaultOutAfter, vault1 := if z then v.vaultOutAfter
                             else v.vaultInAfter);
            WellFormed(p') && VaultAmountWithoutFee(p'.state, p'.vault0, p'.vault1).Accepted?
  {
    hide Settles, UpdatedState, ValidRates, ValidMint;
    if direction == ZeroForOne { SettleZeroForOne(p, v, s); } else { SettleOneForZero(p, v, s); }
  }

  /**
   * From a well-formed pool every accepted quote applies, to a well-formed pool: no counter leaves
   * u64, no fee exceeds its vault, and the pricing reserves become the curve's new reserves with
   * the liquidity providers' share of the trade fee added on the input side.
   */
  lemma AcceptedQuoteApplies(p: Pool, direction: Direction, amountIn: int, epoch: nat)
    requires WellFormed(p) && !QuoteExactIn(p, direction, amountIn, epoch).rejected
    ensures var q := QuoteExactIn(p, direction, amountIn, epoch);
            var applied := ApplySwap(p, q, epoch);
            && 0 < amountIn && q.fees.Some?
            && var s := StagesOf(p, direction, amountIn, epoch);
            && applied.Applied?
            && WellFormed(applied.pool)
            && applied.pool == p.(state := applied.pool.state, vault0 := applied.pool.vault0,
                 vault1 := applied.pool.vault1)
            && PricingIn(applied.pool, direction) == PricingIn(p, direction) + s.lessFees + q.fees.value.lp
            && PricingOut(applied.pool, direction) == PricingOut(p, direction) - s.swapped
  {
    hide SimulateSwapBaseInput, ExactIn, StagesOf, WellFormed, ValidContext, ApplyFeeUpdate, VaultAmountWithoutFee,
        Realises,
         PricingIn, PricingOut, ValidPool, Settles;
    AcceptedSimulation(p, direction, amountIn, epoch);
    AcceptedSettles(p, direction, amountIn, epoch);
    SettledApplies(p, direction, SimulateSwapBaseInput(Context(p, direction, epoch), amountIn, None).value,
        StagesOf(p, direction, amountIn, epoch));
  }

  lemma AcceptedSettles(p: Pool, direction: Direction, amountIn: int, epoch: nat)
    requires WellFormed(p) && !QuoteExactIn(p, direction, amountIn, epoch).rejected
    ensures var outcome := SimulateSwapBaseInput(Context(p, direction, epoch), amountIn, None);
            && 0 < amountIn && outcome.Accepted?
            && Settles(p, direction, outcome.value, StagesOf(p, direction, amountIn, epoch))
  {
    hide SimulateSwapBaseInput, ExactIn, StagesOf, WellFormed, ValidContext, ConstantProduct, ReserveIn, ReserveOut,
        PricingIn, PricingOut, OnInput, QuoteExactIn;
    AcceptedSimulation(p, direction, amountIn, epoch);
    ContextValid(p, direction, epoch);
    ReservesOnInput(p, direction, epoch);
    ExactInBounds(Context(p, direction, epoch), amountIn);
  }

  /** Applying an accepted quote never lowers the product of the pricing reserves. */
  lemma ProductNeverFalls(p: Pool, direction: Direction, amountIn: int, epoch: nat)
    requires WellFormed(p) && !QuoteExactIn(p, direction, amountIn, epoch).rejected
    ensures var applied := ApplySwap(p, QuoteExactIn(p, direction, amountIn, epoch), epoch);
            && applied.Applied?
            && PricingIn(p, direction) * PricingOut(p, direction)
                 <= PricingIn(applied.pool, direction) * PricingOut(applied.pool, direction)
  {
    hide ApplySwap, QuoteExactIn, WellFormed, ValidContext, ExactIn, PricingIn, PricingOut;
    ContextValid(p, direction, epoch);
    AcceptedQuoteApplies(p, direction, amountIn, epoch);
    QuoteItemises(p, direction, amountIn, epoch);
    CurveKeepsProduct(Context(p, direction, epoch), amountIn,
        QuoteExactIn(p, direction, amountIn, epoch).fees.value.lp);
  }

  lemma CurveKeepsProduct(ctx: SwapContext, amountIn: nat, lp: nat)
    requires ValidContext(ctx)
    ensures var s := ExactIn(ctx, amountIn);
            ReserveIn(ctx) * ReserveOut(ctx) <= (ReserveIn(ctx) + s.lessFees + lp) * (ReserveOut(ctx) - s.swapped)
  {
    hide AfterFee, AfterTransfer, Curve, ReserveIn, ReserveOut, InputRate, OutputRate, TierIn, TierOut, ValidContext;
    var x, y := ReserveIn(ctx), ReserveOut(ctx);
    var s := ExactIn(ctx, amountIn);
    ContextReservesPositive(ctx);
    ProductAfterCurve(s.lessFees, x, y, lp);
  }

  lemma ContextReservesPositive(ctx: SwapContext)
    requires ValidContext(ctx)
    ensures ReserveIn(ctx) > 0 && ReserveOut(ctx) > 0
  {
    ReservesExact(ctx);
  }

  lemma ProductAfterCurve(d: nat, x: nat, y: nat, lp: nat)
    requires x > 0 && y > 0
    ensures x * y <= (x + d + lp) * (y - Curve(d, x, y))
  {
    hide FloorDiv;
    ConstantGain(d, x, y);
    FloorBounds(d * y, x + d);
    MulMono(x + d, x + d + lp, y - Curve(d, x, y));
  }

  // ----- runs -----

  datatype Attempt = Attempt(direction: Direction, amountIn: int, epoch: nat)

  /** Net token balances of all traders together, relative to the start of the run. */
  datatype World = World(pool: Pool, traders0: int, traders1: int)

  /** A refused attempt changes nothing. */
  function Step(w: World, a: Attempt): World {
    var q := QuoteExactIn(w.pool, a.direction, a.amountIn, a.epoch);
    match ApplySwap(w.pool, q, a.epoch)
    case Applied(pool) =>
      if a.direction == ZeroForOne then World(pool, w.traders0 - q.amountIn, w.traders1 + q.amountOutToUser)
      else World(pool, w.traders0 + q.amountOutToUser, w.traders1 - q.amountIn)
    case _ => w
  }

  function Run(w: World, attempts: seq<Attempt>): World
    decreases |attempts|
  {
    if attempts == [] then w else Run(Step(w, attempts[0]), attempts[1..])
  }

  /** What one step, and hence every run, keeps. */
  ghost predicate Keeps(w: World, w': World) {
    && WellFormed(w'.pool)
    && Reserve0(w.pool) * Reserve1(w.pool) <= Reserve0(w'.pool) * Reserve1(w'.pool)
    && w'.traders0 + Reserve0(w'.pool) <= w.traders0 + Reserve0(w.pool)
    && w'.traders1 + Reserve1(w'.pool) <= w.traders1 + Reserve1(w.pool)
  }

  lemma StepKeeps(w: World, a: Attempt)
    requires WellFormed(w.pool)
    ensures Keeps(w, Step(w, a))
  {
    var q := QuoteExactIn(w.pool, a.direction, a.amountIn, a.epoch);
    QuoteDirection(w.pool, a.direction, a.amountIn, a.epoch);
    if q.rejected {
      RejectedNeverApplies(w.pool, q, a.epoch);
      hide QuoteExactIn, WellFormed, ApplySwap;
    } else {
      hide QuoteExactIn, WellFormed, ApplySwap, Reserve0, Reserve1, StagesOf;
      ProductNeverFalls(w.pool, a.direction, a.amountIn, a.epoch);
      AcceptedQuoteApplies(w.pool, a.direction, a.amountIn, a.epoch);
      QuoteItemises(w.pool, a.direction, a.amountIn, a.epoch);
    }
  }

  lemma QuoteDirection(p: Pool, direction: Direction, amountIn: int, epoch: nat)
    ensures var q := QuoteExactIn(p, direction, amountIn, epoch); q.amountIn == amountIn && q.direction == direction
  {
    hide SimulateSwapBaseInput;
  }

  lemma RejectedNeverApplies(p: Pool, q: Quote, epoch: nat)
    requires q.rejected
    ensures ApplySwap(p, q, epoch) == QuoteRejected
  {
    hide SimulateSwapBaseInput;
  }

  lemma {:induction false} RunKeeps(w: World, attempts: seq<Attempt>)
    requires WellFormed(w.pool)
    ensures Keeps(w, Run(w, attempts))
    decreases |attempts|
  {
    hide Step, WellFormed, Reserve0, Reserve1;
    if attempts != [] {
      StepKeeps(w, attempts[0]);
      RunKeeps(Step(w, attempts[0]), attempts[1..]);
    }
  }

  /**
   * Over any run of swap attempts, in both directions and at any epochs, the product of pricing
   * reserves never falls, and traders who end with no less of one token cannot end with more of
   * the other.
   */
  lemma NoFreeTokens(w: World, attempts: seq<Attempt>)
    requires WellFormed(w.pool)
    ensures var w' := Run(w, attempts);
            && WellFormed(w'.pool)
            && Reserve0(w.pool) * Reserve1(w.pool) <= Reserve0(w'.pool) * Reserve1(w'.pool)
            && (w'.traders1 >= w.traders1 ==> w'.traders0 <= w.traders0)
            && (w'.traders0 >= w.traders0 ==> w'.traders1 <= w.traders1)
  {
    var w' := Run(w, attempts);
    RunKeeps(w, attempts);
    hide Run, Reserve0, Reserve1;
    ReservesPositive(w.pool);
    ReservesPositive(w'.pool);
    OtherReserveGrows(Reserve0(w.pool), Reserve1(w.pool), Reserve0(w'.pool), Reserve1(w'.pool));
    OtherReserveGrows(Reserve1(w.pool), Reserve0(w.pool), Reserve1(w'.pool), Reserve0(w'.pool));
  }

  lemma ReservesPositive(p: Pool)
    requires WellFormed(p)
    ensures Reserve0(p) > 0 && Reserve1(p) > 0
  {
    hide ValidRates, ValidMint;
  }

  lemma OtherReserveGrows(a: int, b: int, a': int, b': int)
    requires 0 < a && 0 < b && 0 < a' && 0 < b' && a * b <= a' * b'
    ensures b' <= b ==> a <= a'
  {
    if b' <= b {
      MulMono(b', b, a');
      MulCancel(a, a', b);
    }
  }
}
