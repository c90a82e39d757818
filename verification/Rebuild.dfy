/**
 * From evaluation to instructions (src/simulation/probe.ts, src/adapters/pumpswap/adapter.ts): the
 * direct circuit builds leg A for the quoted debit, through a re-derived budget on PumpSwap, and leg B
 * for the quoted output.  Also how the proceeds of a leg depend on the amount sold.
 */
module Rebuild {
  import opened Arith
  import opened Outcomes
  import opened Circuit
  import FeeWall
  import TF = TransferFee
  import RM = RaydiumMath
  import RX = RaydiumExact
  import RP = RaydiumPool
  import PM = PumpMath
  import PP = PumpPool
  import PC = PumpConditions
  import opened Executor

  // ----- leg B: more tokens sold -----

  /** Raydium never pays less for more. */
  lemma RaydiumMonotone(p: RP.Pool, direction: RM.Direction, less: int, more: int, epoch: nat)
    requires RP.WellFormed(p) && less <= more
    requires !RP.QuoteExactIn(p, direction, less, epoch).rejected
            && !RP.QuoteExactIn(p, direction, more, epoch).rejected
    ensures RP.QuoteExactIn(p, direction, less, epoch).amountOutToUser
              <= RP.QuoteExactIn(p, direction, more, epoch).amountOutToUser
  {
    hide RP.QuoteExactIn, RP.WellFormed, RX.ExactIn, RP.StagesOf, RX.Required, RX.Reachable, RX.ValidContext,
        RM.SimulateSwapBaseInput;
    RP.QuoteItemises(p, direction, less, epoch);
    RP.QuoteItemises(p, direction, more, epoch);
    RP.AcceptedSimulation(p, direction, less, epoch);
    RP.AcceptedSimulation(p, direction, more, epoch);
    var ctx := RP.Context(p, direction, epoch);
    var received := RX.ExactIn(ctx, less).received;
    RX.StagesAdjoint(ctx, less, received);
    RX.StagesAdjoint(ctx, more, received);
  }

  /** What selling more may cost: a lamport for each PumpSwap fee beyond the first, otherwise nothing. */
  function Slack(p: Pool): nat {
    match p
    case Raydium(_, _, _) => 0
    case Pump(pump) => match PP.Schedule(pump) case Some(fees) => PC.Excess(fees) case None => 0
  }

  lemma LegBAlmostMonotone(p: Pool, less: int, more: int)
    requires FeeWall.WellFormed(p) && less <= more
    requires var q := QuoteExactIn(p, false, less); q.Some? && !q.value.rejected
    requires var q := QuoteExactIn(p, false, more); q.Some? && !q.value.rejected
    ensures QuoteExactIn(p, false, less).value.amountOutToUser - Slack(p)
              <= QuoteExactIn(p, false, more).value.amountOutToUser
  {
    hide RP.QuoteExactIn, PP.QuoteSell, PP.QuoteBuy, PP.Schedule, RP.WellFormed, PP.WellFormed, PC.Excess;
    match p
    case Raydium(ray, _, epoch) => RaydiumMonotone(ray, DirectionOf(p, false), less, more, epoch);
    case Pump(pump) => PC.PumpSellAlmostMonotone(pump, PP.Schedule(pump).value, less, more);
  }

  // ----- leg A: the re-derived budget -----

  /** Receiving more gross base never nets less, whichever tier is the worse. */
  lemma WorstCaseNetMono(p: PP.Pool, a: nat, b: nat)
    requires PP.WellFormed(p) && a <= b
    ensures a - PP.TransferFeeWorstCase(p, a) <= b - PP.TransferFeeWorstCase(p, b)
  {
    hide TF.TransferFeeOn, TF.FeeOf;
    if p.transferTiers.Some? {
      var older, newer := p.transferTiers.value.older, p.transferTiers.value.newer;
      TF.NetOfMono(older, a, b);
      TF.NetOfMono(newer, a, b);
      TF.ShortFeeExact(older, a);
      TF.ShortFeeExact(older, b);
      TF.ShortFeeExact(newer, a);
      TF.ShortFeeExact(newer, b);
    }
  }

  /** The re-derived budget is accepted, debited the quoted amount, and delivers at least the quoted tokens. */
  lemma RebuiltLegA(pump: PP.Pool, amountIn: int)
    requires PP.WellFormed(pump)
    requires var q := QuoteExactIn(Pump(pump), true, amountIn); q.Some? && !q.value.rejected
    ensures var q := QuoteExactIn(Pump(pump), true, amountIn).value;
            var budget := PP.SpendableBudgetFor(pump, q.amountIn);
            && budget.Some? && budget.value > 0
            && var q' := QuoteExactIn(Pump(pump), true, budget.value);
            && q'.Some? && !q'.value.rejected && q'.value.amountIn == q.amountIn
                && q'.value.amountOutToUser >= q.amountOutToUser
  {
    hide PM.BuyQuoteInput, PP.Schedule, PP.WellFormed, PP.TransferFeeWorstCase, PP.SpendableBudgetFor;
    var fees := PP.Schedule(pump).value;
    var quoted := PM.BuyQuoteInput(PP.MathState(pump), fees, amountIn).value;
    PP.QuoteThenBuild(pump, fees, amountIn);
    var budget := PP.SpendableBudgetFor(pump, quoted.totalWithFees).value;
    WorstCaseNetMono(pump, quoted.baseOut, PM.BuyQuoteInput(PP.MathState(pump), fees, budget).value.baseOut);
    BudgetPositive(PP.MathState(pump), fees, budget);
  }

  lemma BudgetPositive(s: PM.PoolMathState, fees: PM.FeeBps, budget: int)
    requires PM.BuyQuoteInput(s, fees, budget).Ok?
    ensures budget > 0
  {
    hide PM.EffectiveQuote, PM.BaseOutFor, PM.UncorrectedQuote, PM.FeesOn;
  }

  /** The amount the leg A instruction carries for a quoted debit. */
  function BuiltAmount(p: Pool, debit: int): Option<int> {
    match p case Raydium(_, _, _) => Some(debit) case Pump(pump) => PP.SpendableBudgetFor(pump, debit)
  }

  lemma BuiltLegA(p: Pool, amountIn: int)
    requires FeeWall.WellFormed(p)
    requires var q := QuoteExactIn(p, true, amountIn); q.Some? && !q.value.rejected
    ensures var q := QuoteExactIn(p, true, amountIn).value;
            var amount := BuiltAmount(p, q.amountIn);
            && amount.Some? && amount.value > 0
            && var q' := QuoteExactIn(p, true, amount.value);
            && q'.Some? && !q'.value.rejected && q'.value.amountIn == q.amountIn > 0
                && q'.value.amountOutToUser >= q.amountOutToUser
  {
    hide PP.QuoteExactIn, PP.WellFormed, PP.SpendableBudgetFor, RP.QuoteExactIn, RP.WellFormed;
    SwapIffQuoted(p, true, amountIn);
    hide Swap;
    match p
    case Raydium(ray, _, epoch) => RP.QuoteDirection(ray, DirectionOf(p, true), amountIn, epoch);
    case Pump(pump) => RebuiltLegA(pump, amountIn);
  }

  /** Room for both legs: the debit is covered, every amount and credit is a u64, and rents can be paid. */
  predicate RoomFor(a0: Accounts<Dex>, v: CircuitEval, rentA: U64, rentB: U64) {
    var amount := BuiltAmount(a0.dex.poolA, v.quoteA.amountIn);
    && v.quoteA.amountIn <= a0.base && rentA + rentB <= a0.lamports
    && InU64(v.quoteA.amountOutToUser) && InU64(v.quoteB.amountOutToUser) && a0.base + v.pnl <= U64_MAX
    && (amount.Some? ==>
          var q := QuoteExactIn(a0.dex.poolA, true, amount.value);
          InU64(amount.value) && (q.Some? ==> a0.inter + q.value.amountOutToUser <= U64_MAX))
  }

  /**
   * The direct circuit, built with the quoted outputs as its minimums, executes on the evaluated pools
   * and earns exactly the evaluated pnl; what leg A delivers beyond its quote stays with the user.
   */
  lemma DirectCircuitRealisesPnl(a0: Accounts<Dex>, amountIn: int, rentA: U64, rentB: U64)
    requires FeeWall.WellFormed(a0.dex.poolA) && FeeWall.WellFormed(a0.dex.poolB)
    requires EvaluateCircuit(Circuit(a0.dex.poolA, a0.dex.poolB), amountIn).Evaluated?
    requires RoomFor(a0, EvaluateCircuit(Circuit(a0.dex.poolA, a0.dex.poolB), amountIn).value, rentA, rentB)
    ensures var v := EvaluateCircuit(Circuit(a0.dex.poolA, a0.dex.poolB), amountIn).value;
            var amount := BuiltAmount(a0.dex.poolA, v.quoteA.amountIn);
            && amount.Some?
            && var a1 := LegA(rentA)(a0, amount.value, v.quoteA.amountOutToUser);
            && a1.Some?
            && var a2 := LegB(rentB)(a1.value, v.quoteA.amountOutToUser, v.quoteB.amountOutToUser);
            && a2.Some? && a2.value.base == a0.base + v.pnl && a2.value.inter >= a0.inter
  {
    hide QuoteExactIn, FeeWall.WellFormed, LegA, LegB, BuiltAmount;
    var v := EvaluateCircuit(Circuit(a0.dex.poolA, a0.dex.poolB), amountIn).value;
    BuiltLegA(a0.dex.poolA, amountIn);
    var amount := BuiltAmount(a0.dex.poolA, v.quoteA.amountIn).value;
    NoInventorySold(Circuit(a0.dex.poolA, a0.dex.poolB), amountIn);
    LegAFor(a0, amount, v.quoteA.amountOutToUser, rentA);
    var a1 := LegA(rentA)(a0, amount, v.quoteA.amountOutToUser).value;
    LegBOutcome(a1, v.quoteA.amountOutToUser, v.quoteB.amountOutToUser, rentB);
  }

  /** Leg A at any amount the user can cover, whether or not the balance covers the whole budget. */
  lemma LegAFor(a0: Accounts<Dex>, amount: U64, minOut: U64, rentA: U64)
    requires FeeWall.WellFormed(a0.dex.poolA)
    requires var q := QuoteExactIn(a0.dex.poolA, true, amount);
             q.Some? && !q.value.rejected && q.value.amountOutToUser >= minOut && q.value.amountIn <= a0.base
             && a0.inter + q.value.amountOutToUser <= U64_MAX && rentA <= a0.lamports
    ensures var q := QuoteExactIn(a0.dex.poolA, true, amount).value;
            var a1 := LegA(rentA)(a0, amount, minOut);
            && a1.Some? && a1.value.base == a0.base - q.amountIn && a1.value.inter == a0.inter + q.amountOutToUser
            && a1.value.lamports == a0.lamports - rentA && a1.value.dex.poolB == a0.dex.poolB
  {
    hide Swap, QuoteExactIn, FeeWall.WellFormed;
    SwapIffQuoted(a0.dex.poolA, true, amount);
    assert LegA(rentA)(a0, amount, minOut) == SettleA(a0, Swap(a0.dex.poolA, true, amount), minOut, rentA);
  }

  /**
   * The executor sells all that leg A delivers.  If it were given the built amount rather than the
   * evaluated one, it would earn the evaluated pnl or more, up to the slack of leg B's fees.
   */
  lemma ExecutorKeepsPnl(a0: Accounts<Dex>, p: Params, amountIn: int, rentA: U64, rentB: U64)
    requires FeeWall.WellFormed(a0.dex.poolA) && FeeWall.WellFormed(a0.dex.poolB)
    requires EvaluateCircuit(Circuit(a0.dex.poolA, a0.dex.poolB), amountIn).Evaluated?
    requires var v := EvaluateCircuit(Circuit(a0.dex.poolA, a0.dex.poolB), amountIn).value;
             BuiltAmount(a0.dex.poolA, v.quoteA.amountIn) == Some(p.amountIn)
    requires Execute(a0, p, OwnersOf(a0.dex), LegA(rentA), LegB(rentB)).Ok?
    ensures var v := EvaluateCircuit(Circuit(a0.dex.poolA, a0.dex.poolB), amountIn).value;
            Execute(a0, p, OwnersOf(a0.dex), LegA(rentA), LegB(rentB)).value.1 >= v.pnl - Slack(a0.dex.poolB)
  {
    hide Execute, QuoteExactIn, FeeWall.WellFormed, BuiltAmount, Slack;
    var c := Circuit(a0.dex.poolA, a0.dex.poolB);
    var v := EvaluateCircuit(c, amountIn).value;
    ExecutionMatchesEvaluation(a0, p, rentA, rentB);
    BuiltLegA(a0.dex.poolA, amountIn);
    NoInventorySold(c, p.amountIn);
    LegBAlmostMonotone(a0.dex.poolB, v.quoteA.amountOutToUser,
        EvaluateCircuit(c, p.amountIn).value.quoteA.amountOutToUser);
  }
}
