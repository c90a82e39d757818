/**
 * A worked circuit: two Raydium pools with the usual 0.25% trade fee, the token twice as dear on the
 * second.  It shows that the hypotheses of the general results can be met together, and the pnl is
 * the one the source's integer arithmetic gives.
 */
module Example {
  import opened Arith
  import opened Outcomes
  import TF = TransferFee
  import Fee = ProportionalFee
  import RM = RaydiumMath
  import RX = RaydiumExact
  import RS = RaydiumSwap
  import RP = RaydiumPool
  import Rust = RaydiumRust
  import Circuit
  import FeeWall
  import Executor

  const NO_FEES: RM.FeeCounters := RM.FeeCounters(0, 0, 0)
  const SPL: TF.MintFeeView := TF.MintFeeView(TF.SplToken, None)

  /** WSOL is token 0. */
  function PoolOf(wsol: nat, token: nat): RP.Pool {
    RP.Pool(RM.PoolState(NO_FEES, NO_FEES, 0, false), RM.AmmConfig(2_500, 120_000, 40_000, 0), wsol, token, SPL, SPL,
        true)
  }

  lemma NoTransferFee(ctx: RM.SwapContext, gross: nat)
    requires RX.ValidContext(ctx) && ctx.inputMint == SPL && ctx.outputMint == SPL
    ensures RX.AfterTransfer(RX.TierIn(ctx), gross) == gross && RX.AfterTransfer(RX.TierOut(ctx), gross) == gross
  {
    hide RX.ValidContext;
    Fee.ZeroRate(gross, 10_000);
  }

  /** `less` reaches a curve with reserves `x`, `y`, and `out` leaves it. */
  predicate Trades(amount: nat, less: nat, out: nat, x: nat, y: nat) {
    && 0 < less < amount <= 0xffff_ffff && 0 < out
    && (amount - less - 1) * 1_000_000 < amount * 2_500 <= (amount - less) * 1_000_000
    && out * (x + less) <= less * y < out * (x + less) + (x + less)
  }

  lemma PoolValid(wsol: nat, token: nat)
    requires 0 < wsol <= U64_MAX && 0 < token <= U64_MAX
    ensures RP.WellFormed(PoolOf(wsol, token))
  {
  }

  lemma LegContext(wsol: nat, token: nat, direction: RM.Direction)
    requires 0 < wsol <= U64_MAX && 0 < token <= U64_MAX
    ensures var ctx := RP.Context(PoolOf(wsol, token), direction, 0);
            && RX.ValidContext(ctx)
            && RX.ReserveIn(ctx) == (if direction == RM.ZeroForOne then wsol else token)
            && RX.ReserveOut(ctx) == (if direction == RM.ZeroForOne then token else wsol)
  {
    hide RP.WellFormed, RX.ValidContext, RX.ReserveIn, RX.ReserveOut, RP.Context, RP.Reserve0, RP.Reserve1, PoolOf;
    PoolValid(wsol, token);
    RP.ContextValid(PoolOf(wsol, token), direction, 0);
    Reserves(wsol, token);
  }

  lemma Reserves(wsol: nat, token: nat)
    ensures RP.Reserve0(PoolOf(wsol, token)) == wsol
    ensures RP.Reserve1(PoolOf(wsol, token)) == token
  {
  }

  lemma ContextMints(wsol: nat, token: nat, direction: RM.Direction)
    ensures var ctx := RP.Context(PoolOf(wsol, token), direction, 0);
            ctx.inputMint == SPL && ctx.outputMint == SPL && ctx.inputVault == if direction == RM.ZeroForOne then wsol
                else token
  {
  }

  lemma LegRates(wsol: nat, token: nat, direction: RM.Direction)
    requires RX.ValidContext(RP.Context(PoolOf(wsol, token), direction, 0))
    ensures var ctx := RP.Context(PoolOf(wsol, token), direction, 0);
            && RX.InputRate(ctx) == 2_500 && RX.OutputRate(ctx) == 0
            && !RS.SplitsZeroRate(RM.FeeRatesOf(ctx.config, ctx.pool), RX.OnInput(ctx))
  {
    hide RX.ValidContext;
  }

  lemma LegStages(ctx: RM.SwapContext, amount: nat, less: nat, out: nat)
    requires RX.ValidContext(ctx) && RX.InputRate(ctx) == 2_500 && RX.OutputRate(ctx) == 0
    requires ctx.inputMint == SPL && ctx.outputMint == SPL && RX.ReserveIn(ctx) > 0
    requires Trades(amount, less, out, RX.ReserveIn(ctx), RX.ReserveOut(ctx))
    ensures RX.ExactIn(ctx, amount) == RX.Stages(amount, less, out, out, out)
  {
    hide FloorDiv, RX.AfterTransfer, RX.ValidContext, RX.InputRate, RX.OutputRate, RX.ReserveIn, RX.ReserveOut,
        RX.TierIn, RX.TierOut;
    NoTransferFee(ctx, amount);
    NoTransferFee(ctx, out);
    QuotientUnique(amount * 2_500 + 999_999, 1_000_000, amount - less);
    QuotientUnique(less * RX.ReserveOut(ctx), RX.ReserveIn(ctx) + less, out);
    Fee.ZeroRate(out, 1_000_000);
  }

  lemma Leg(wsol: nat, token: nat, direction: RM.Direction, amount: nat, less: nat, out: nat)
    requires 0 < wsol <= 0xffff_ffff && 0 < token <= 0xffff_ffff
    requires Trades(amount, less, out, if direction == RM.ZeroForOne then wsol else token,
              if direction == RM.ZeroForOne then token else wsol)
    ensures RP.WellFormed(PoolOf(wsol, token))
    ensures var q := RP.QuoteExactIn(PoolOf(wsol, token), direction, amount, 0);
            !q.rejected && q.amountIn == amount && q.amountOutToUser == out
  {
    hide FloorDiv, RM.SimulateSwapBaseInput, RX.ExactIn, RS.CurveRealises, RM.ConstantProduct, RX.ValidContext,
        RP.WellFormed, RX.ReserveIn, RX.ReserveOut, RS.SplitsZeroRate;
    var ctx := RP.Context(PoolOf(wsol, token), direction, 0);
    PoolValid(wsol, token);
    LegContext(wsol, token, direction);
    LegRates(wsol, token, direction);
    ContextMints(wsol, token, direction);
    LegStages(ctx, amount, less, out);
    RS.ExactInIsTotal(ctx, amount, None);
  }

  /** A full vault: the TypeScript math refuses for its u64 limit, and the Rust quote does not look. */
  lemma VaultOverflow()
    ensures var ctx := RP.Context(PoolOf(U64_MAX, U64_MAX), RM.ZeroForOne, 0);
            && RX.ValidContext(ctx)
            && RM.SimulateSwapBaseInput(ctx, 1_000, None) == RM.Rejected(RM.U64OverflowVault)
            && Rust.RustQuote(ctx, 1_000).Some?
  {
    hide FloorDiv, RM.SimulateSwapBaseInput, Rust.RustQuote, RX.ExactIn, RX.ValidContext, RX.ReserveIn, RX.ReserveOut,
        RS.SplitsZeroRate, RS.Realises;
    var ctx := RP.Context(PoolOf(U64_MAX, U64_MAX), RM.ZeroForOne, 0);
    LegContext(U64_MAX, U64_MAX, RM.ZeroForOne);
    LegRates(U64_MAX, U64_MAX, RM.ZeroForOne);
    ContextMints(U64_MAX, U64_MAX, RM.ZeroForOne);
    LegStages(ctx, 1_000, 997, 996);
    RS.ExactInIsTotal(ctx, 1_000, None);
    Rust.RustQuotesIff(ctx, 1_000);
  }

  function Cheap(): Circuit.Pool { Circuit.Raydium(PoolOf(1_000_000_000, 1_000_000_000), true, 0) }
  function Dear(): Circuit.Pool { Circuit.Raydium(PoolOf(2_000_000_000, 1_000_000_000), true, 0) }

  /** A million lamports come back as 1986051. */
  lemma ProfitableCircuit()
    ensures FeeWall.WellFormed(Cheap()) && FeeWall.WellFormed(Dear())
    ensures var e := Circuit.EvaluateCircuit(Circuit.Circuit(Cheap(), Dear()), 1_000_000);
            && e.Evaluated? && e.value.pnl == 986_051
            && e.value.quoteA.amountOutToUser == 996_505 && e.value.quoteB.amountOutToUser == 1_986_051
  {
    hide RP.QuoteExactIn, RP.WellFormed;
    Leg(1_000_000_000, 1_000_000_000, RM.ZeroForOne, 1_000_000, 997_500, 996_505);
    Leg(2_000_000_000, 1_000_000_000, RM.OneForZero, 996_505, 994_013, 1_986_051);
  }

  /** The executor commits it, and reports that profit, when asked for at most as much. */
  lemma ExecutedCircuit(a0: Executor.Accounts<Executor.Dex>, p: Executor.Params)
    requires a0.dex == Executor.Dex(Cheap(), Dear()) && a0.inter == 0 && 1_000_000 <= a0.base <= 1_000_000_000
    requires p == Executor.Params(1_000_000, p.minProfit, 1, 1, Executor.RaydiumSwapBaseInput,
              Executor.RaydiumSwapBaseInput, 0)
    ensures var r := Executor.Execute(a0, p, Executor.OwnersOf(a0.dex), Executor.LegA(0), Executor.LegB(0));
            (r.Ok? <==> p.minProfit <= 986_051) && (r.Ok? ==> r.value.1 == 986_051)
  {
    hide Executor.Execute, Circuit.QuoteExactIn, FeeWall.WellFormed, Circuit.EvaluateCircuit;
    ProfitableCircuit();
    Executor.ExecutionMatchesEvaluation(a0, p, 0, 0);
  }
}
