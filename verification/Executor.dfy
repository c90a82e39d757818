/**
 * The on-chain executor (programs/arb_executor/src/lib.rs, guard.rs): one transaction of two CPIs
 * checked by balance deltas; first for arbitrary CPI effects, then with the CPIs modelled by the
 * adapters' own transitions on two distinct pools.
 */
module Executor {
  import opened Arith
  import opened Outcomes
  import Circuit
  import FeeWall
  import RM = RaydiumMath
  import RP = RaydiumPool
  import PM = PumpMath
  import PP = PumpPool

  type U64 = x: nat | x <= U64_MAX witness 0

  datatype Kind = RaydiumSwapBaseInput | PumpBuyExactQuoteIn | PumpSell

  datatype Error =
    | LegKindInvalidForPosition | PoolOwnerMismatch | ZeroMinOutForPumpBuy | InsufficientBaseBalance | CpiFailed | LegANoOutput
    | LeftoverIntermediate | LamportSpendAboveMax | ProfitBelowMin | ArithmeticOverflow

  datatype Result<+T> = Ok(value: T) | Err(error: Error) {
    predicate IsFailure() { Err? }
    function PropagateFailure<U>(): Result<U> requires Err? { Err(error) }
    function Extract(): T requires Ok? { value }
  }

  datatype Params = Params(amountIn: U64, minProfit: U64, legAMinOut: U64, legBMinOut: U64, legAKind: Kind,
      legBKind: Kind, maxLamportsSpend: U64)

  /** The user's base and intermediate token balances and lamports, and everything the DEXes own. */
  datatype Accounts<D> = Accounts(base: U64, inter: U64, lamports: U64, dex: D)

  /** A CPI with an amount and a minimum output; None is a failed CPI, which fails the transaction. */
  type Cpi<!D> = (Accounts<D>, U64, U64) -> Option<Accounts<D>>

  // ----- guards -----

  function CheckAmountIn(amountIn: U64, base0: U64): Result<()> {
    if amountIn > base0 then Err(InsufficientBaseBalance) else Ok(())
  }

  function LegADelta(inter0: U64, inter1: U64): Result<U64> {
    if inter1 < inter0 || inter1 - inter0 == 0 then Err(LegANoOutput) else Ok(inter1 - inter0)
  }

  function CheckNoLeftover(inter0: U64, inter2: U64): Result<()> {
    if inter2 != inter0 then Err(LeftoverIntermediate) else Ok(())
  }

  /** saturating_sub, then the limit. */
  function LamportsSpent(lamports0: U64, lamports1: U64, maxSpend: U64): Result<U64> {
    var spent: U64 := if lamports0 < lamports1 then 0 else lamports0 - lamports1;
    if spent > maxSpend then Err(LamportSpendAboveMax) else Ok(spent)
  }

  function CheckProfit(base0: U64, base1: U64, minProfit: U64): Result<U64> {
    if base0 + minProfit > U64_MAX then Err(ArithmeticOverflow)
    else if base1 < base0 + minProfit then Err(ProfitBelowMin)
    else Ok(base1 - base0)
  }

  /** The DEX programs, and the owner of each leg's pool account. */
  datatype Program = RaydiumCpmm | PumpAmm
  datatype Owners = Owners(poolA: Program, poolB: Program)

  datatype Role = LegRoleA | LegRoleB

  function ExpectedProgram(kind: Kind): Program { if kind == RaydiumSwapBaseInput then RaydiumCpmm else PumpAmm }

  /** validate_segment as far as kinds go: a kind for the position, and a pool owned by that kind's program. */
  function ValidateLeg(kind: Kind, role: Role, owner: Program): Result<()> {
    if (kind == PumpSell && role == LegRoleA) || (kind == PumpBuyExactQuoteIn && role == LegRoleB) then Err(LegKindInvalidForPosition)
    else if owner != ExpectedProgram(kind) then Err(PoolOwnerMismatch)
    else Ok(())
  }

  // ----- the transaction -----

  function InvokeLeg<D>(cpi: Cpi<D>, a: Accounts<D>, amount: U64, minOut: U64): Result<Accounts<D>> {
    match cpi(a, amount, minOut) case None => Err(CpiFailed) case Some(a') => Ok(a')
  }

  /** The accounts and profit when every step succeeds. */
  function Execute<D>(a0: Accounts<D>, p: Params, owners: Owners, legA: Cpi<D>, legB: Cpi<D>): Result<(Accounts<D>, U64)> {
    if p.legAKind == PumpBuyExactQuoteIn && p.legAMinOut == 0 then Err(ZeroMinOutForPumpBuy)
    else
      var _ :- CheckAmountIn(p.amountIn, a0.base);
      var _ :- ValidateLeg(p.legAKind, LegRoleA, owners.poolA);
      var _ :- ValidateLeg(p.legBKind, LegRoleB, owners.poolB);
      var a1 :- InvokeLeg(legA, a0, p.amountIn, p.legAMinOut);
      var delta :- LegADelta(a0.inter, a1.inter);
      var a2 :- InvokeLeg(legB, a1, delta, p.legBMinOut);
      var _ :- CheckNoLeftover(a0.inter, a2.inter);
      var _ :- LamportsSpent(a0.lamports, a2.lamports, p.maxLamportsSpend);
      var profit :- CheckProfit(a0.base, a2.base, p.minProfit);
      Ok((a2, profit))
  }

  class Bank<D(!new)> {
    var base: U64
    var inter: U64
    var lamports: U64
    var dex: D

    constructor (a: Accounts<D>)
      ensures State() == a
    {
      base, inter, lamports, dex := a.base, a.inter, a.lamports, a.dex;
    }

    function State(): Accounts<D>
      reads this
    {
      Accounts(base, inter, lamports, dex)
    }

    method Put(a: Accounts<D>)
      modifies this
      ensures State() == a
    {
      base, inter, lamports, dex := a.base, a.inter, a.lamports, a.dex;
    }

    /** A CPI either changes the accounts or fails, leaving the rest of the transaction unexecuted. */
    method Invoke(cpi: Cpi<D>, amount: U64, minOut: U64) returns (ok: bool)
      modifies this
      ensures var after := cpi(old(State()), amount, minOut);
              ok == after.Some? && State() == if ok then after.value else old(State())
    {
      var after := cpi(State(), amount, minOut);
      ok := after.Some?;
      if ok { Put(after.value); }
    }

    /** process_instruction: re-reads the balances between the CPIs. */
    method ProcessInstruction(p: Params, owners: Owners, legA: Cpi<D>, legB: Cpi<D>) returns (r: Result<U64>)
      modifies this
      ensures var outcome := Execute(old(State()), p, owners, legA, legB);
              if outcome.Ok? then r == Ok(outcome.value.1) && State() == outcome.value.0 else r == Err(outcome.error)
    {
      if p.legAKind == PumpBuyExactQuoteIn && p.legAMinOut == 0 { return Err(ZeroMinOutForPumpBuy); }
      var base0, inter0, lamports0 := base, inter, lamports;
      var _ :- CheckAmountIn(p.amountIn, base0);
      var _ :- ValidateLeg(p.legAKind, LegRoleA, owners.poolA);
      var _ :- ValidateLeg(p.legBKind, LegRoleB, owners.poolB);
      var okA := Invoke(legA, p.amountIn, p.legAMinOut);
      if !okA { return Err(CpiFailed); }
      var delta :- LegADelta(inter0, inter);
      var okB := Invoke(legB, delta, p.legBMinOut);
      if !okB { return Err(CpiFailed); }
      var _ :- CheckNoLeftover(inter0, inter);
      var _ :- LamportsSpent(lamports0, lamports, p.maxLamportsSpend);
      var profit :- CheckProfit(base0, base, p.minProfit);
      r := Ok(profit);
    }

    /** The transaction around it: the runtime commits on success and restores every account on error. */
    method Transact(p: Params, owners: Owners, legA: Cpi<D>, legB: Cpi<D>) returns (r: Result<U64>)
      modifies this
      ensures r.Err? ==> State() == old(State())
      ensures r.Ok? ==> base == old(base) + r.value && r.value >= p.minProfit && inter == old(inter)
                        && old(lamports) - lamports <= p.maxLamportsSpend && p.amountIn <= old(base)
      ensures var outcome := Execute(old(State()), p, owners, legA, legB);
              if outcome.Ok? then r == Ok(outcome.value.1) && State() == outcome.value.0 else r == Err(outcome.error)
    {
      var before := State();
      SuccessGuarantees(before, p, owners, legA, legB);
      hide Execute;
      r := ProcessInstruction(p, owners, legA, legB);
      if r.Err? { Put(before); }
    }
  }

  /** Whatever the CPIs do, success means profit, no leftover and bounded lamport spend. */
  lemma SuccessGuarantees<D(!new)>(a0: Accounts<D>, p: Params, owners: Owners, legA: Cpi<D>, legB: Cpi<D>)
    ensures var outcome := Execute(a0, p, owners, legA, legB);
            outcome.Ok? ==>
              var (a2, profit) := outcome.value;
              && a2.base == a0.base + profit && profit >= p.minProfit && a2.inter == a0.inter
              && a0.lamports - a2.lamports <= p.maxLamportsSpend && p.amountIn <= a0.base
  {
  }

  /** A leg's kind fits its position, and its pool belongs to the program of that kind. */
  predicate LegFits(kind: Kind, unfit: Kind, owner: Program) {
    kind != unfit && (kind == RaydiumSwapBaseInput <==> owner == RaydiumCpmm)
  }

  /** The two CPIs succeed, the second on exactly what the first delivered; `a1` and `a2` are the accounts after each. */
  ghost predicate BothLegs<D(!new)>(a0: Accounts<D>, p: Params, legA: Cpi<D>, legB: Cpi<D>, a1: Accounts<D>,
      a2: Accounts<D>) {
    && legA(a0, p.amountIn, p.legAMinOut) == Some(a1) && a1.inter > a0.inter
    && legB(a1, a1.inter - a0.inter, p.legBMinOut) == Some(a2)
  }

  /** For arbitrary CPIs: success holds exactly when every guard holds of the accounts the CPIs leave, and the profit is the gain. */
  lemma ExecutesIff<D(!new)>(a0: Accounts<D>, p: Params, owners: Owners, legA: Cpi<D>, legB: Cpi<D>, a2: Accounts<D>,
      profit: U64)
    ensures Execute(a0, p, owners, legA, legB) == Ok((a2, profit)) <==>
              && (p.legAKind == PumpBuyExactQuoteIn ==> p.legAMinOut > 0) && p.amountIn <= a0.base
              && LegFits(p.legAKind, PumpSell, owners.poolA) && LegFits(p.legBKind, PumpBuyExactQuoteIn, owners.poolB)
              && (exists a1 :: BothLegs(a0, p, legA, legB, a1, a2))
              && a2.inter == a0.inter && a0.lamports - a2.lamports <= p.maxLamportsSpend
              && a0.base + p.minProfit <= U64_MAX && profit >= p.minProfit && a2.base == a0.base + profit
  {
    var first := legA(a0, p.amountIn, p.legAMinOut);
    if first.Some? {
      assert Execute(a0, p, owners, legA, legB) == Ok((a2, profit)) ==> BothLegs(a0, p, legA, legB, first.value, a2);
    }
  }

  // ----- the CPIs as adapter transitions -----

  datatype Dex = Dex(poolA: Circuit.Pool, poolB: Circuit.Pool)

  function OwnerOf(pool: Circuit.Pool): Program { if pool.Raydium? then RaydiumCpmm else PumpAmm }

  function OwnersOf(dex: Dex): Owners { Owners(OwnerOf(dex.poolA), OwnerOf(dex.poolB)) }

  /** The one instruction kind that trades the pool in the direction. */
  function KindFor(pool: Circuit.Pool, wsolIn: bool): Kind {
    if pool.Raydium? then RaydiumSwapBaseInput else if wsolIn then PumpBuyExactQuoteIn else PumpSell
  }

  /** The pool's own quote and the pool after it; None when the swap is refused. */
  function Swap(pool: Circuit.Pool, wsolIn: bool, amount: int): Option<(Circuit.Quote, Circuit.Pool)> {
    match pool
    case Raydium(ray, wsolIs0, epoch) =>
      var q := RP.QuoteExactIn(ray, Circuit.DirectionOf(pool, wsolIn), amount, epoch);
      (match RP.ApplySwap(ray, q, epoch)
       case Applied(ray') => Some((Circuit.Quote(q.amountIn, q.amountOutToUser, q.rejected),
           Circuit.Raydium(ray', wsolIs0, epoch)))
       case _ => None)
    case Pump(pump) =>
      match PP.QuoteExactIn(pump, wsolIn, amount)
      case None => None
      case Some(q) =>
        match PP.ApplySwap(pump, q)
        case Applied(pump') => Some((Circuit.Quote(q.amountIn, q.amountOutToUser, q.rejected), Circuit.Pump(pump')))
        case _ => None
  }

  predicate InU64(x: int) { 0 <= x <= U64_MAX }

  /** Leg A: the user pays WSOL into pool A, may pay rent, and receives at least the minimum output. */
  function SettleA(a: Accounts<Dex>, swap: Option<(Circuit.Quote, Circuit.Pool)>, minOut: U64,
      rent: U64): Option<Accounts<Dex>> {
    match swap
    case None => None
    case Some((q, pool)) =>
      if q.amountOutToUser < minOut || !InU64(a.base - q.amountIn) || !InU64(a.inter + q.amountOutToUser) || rent > a.lamports then None
      else Some(Accounts(a.base - q.amountIn, a.inter + q.amountOutToUser, a.lamports - rent, a.dex.(poolA := pool)))
  }

  /** Leg B: the user pays the token into pool B and receives WSOL. */
  function SettleB(a: Accounts<Dex>, swap: Option<(Circuit.Quote, Circuit.Pool)>, minOut: U64,
      rent: U64): Option<Accounts<Dex>> {
    match swap
    case None => None
    case Some((q, pool)) =>
      if q.amountOutToUser < minOut || !InU64(a.inter - q.amountIn) || !InU64(a.base + q.amountOutToUser) || rent > a.lamports then None
      else Some(Accounts(a.base + q.amountOutToUser, a.inter - q.amountIn, a.lamports - rent, a.dex.(poolB := pool)))
  }

  function LegA(rent: U64): Cpi<Dex> {
    (a: Accounts<Dex>, amount: U64, minOut: U64) => SettleA(a, Swap(a.dex.poolA, true, amount), minOut, rent)
  }

  function LegB(rent: U64): Cpi<Dex> {
    (a: Accounts<Dex>, amount: U64, minOut: U64) => SettleB(a, Swap(a.dex.poolB, false, amount), minOut, rent)
  }

  /** Every accepted quote can be applied, spends at most the amount asked and pays out no negative amount. */
  lemma SwapIffQuoted(pool: Circuit.Pool, wsolIn: bool, amount: int)
    requires FeeWall.WellFormed(pool)
    ensures var q := Circuit.QuoteExactIn(pool, wsolIn, amount);
            && (Swap(pool, wsolIn, amount).Some? <==> q.Some? && !q.value.rejected)
            && (Swap(pool, wsolIn, amount).Some? ==> Swap(pool, wsolIn, amount).value.0 == q.value
                                                     && 0 < q.value.amountIn <= amount && 0 <= q.value.amountOutToUser)
  {
    match pool
    case Raydium(ray, _, epoch) => RaydiumSwapIffQuoted(ray, Circuit.DirectionOf(pool, wsolIn), amount, epoch);
    case Pump(pump) => PumpSwapIffQuoted(pump, wsolIn, amount);
    hide RP.QuoteExactIn, RP.ApplySwap, PP.QuoteExactIn, PP.ApplySwap, RP.WellFormed, PP.WellFormed;
  }

  lemma RaydiumSwapIffQuoted(p: RP.Pool, direction: RM.Direction, amount: int, epoch: nat)
    requires RP.WellFormed(p)
    ensures var q := RP.QuoteExactIn(p, direction, amount, epoch);
            && (RP.ApplySwap(p, q, epoch).Applied? <==> !q.rejected)
            && (!q.rejected ==> 0 < q.amountIn <= amount && 0 <= q.amountOutToUser)
  {
    hide RP.QuoteExactIn, RP.ApplySwap, RP.WellFormed, RP.StagesOf, RP.PricingIn, RP.PricingOut;
    var q := RP.QuoteExactIn(p, direction, amount, epoch);
    RP.QuoteDirection(p, direction, amount, epoch);
    if q.rejected {
      RP.RejectedNeverApplies(p, q, epoch);
    } else {
      RP.AcceptedQuoteApplies(p, direction, amount, epoch);
      RP.QuoteItemises(p, direction, amount, epoch);
    }
  }

  lemma PumpSwapIffQuoted(p: PP.Pool, isBuy: bool, amount: int)
    requires PP.WellFormed(p)
    ensures var q := PP.QuoteExactIn(p, isBuy, amount);
            && q.Some? && (PP.ApplySwap(p, q.value).Applied? <==> !q.value.rejected)
            && (!q.value.rejected ==> 0 < q.value.amountIn <= amount && 0 <= q.value.amountOutToUser)
  {
    hide PP.QuoteBuy, PP.QuoteSell, PP.Schedule, PP.WellFormed, PP.FeeFreeBase, PP.EffQ;
    PP.AcceptedQuoteApplies(p, isBuy, amount);
    var fees := PP.Schedule(p).value;
    if isBuy && !PP.QuoteBuy(p, fees, amount).rejected {
      PP.BuyMoves(p, fees, amount);
      BuyWithinBudget(p, fees, amount);
    }
    if !isBuy && !PP.QuoteSell(p, fees, amount).rejected {
      PP.SellMoves(p, fees, amount);
      PP.SellKeepsAmount(p, fees, amount);
    }
  }

  lemma BuyWithinBudget(p: PP.Pool, fees: PM.FeeBps, amount: int)
    requires !PP.QuoteBuy(p, fees, amount).rejected
    ensures PP.QuoteBuy(p, fees, amount).amountIn <= amount
  {
    hide PM.UncorrectedQuote, PM.FeesOn, PM.BaseOutFor, PP.TransferFeeWorstCase;
  }

  /** What the caller must have arranged besides an evaluation that pays. */
  predicate Affordable(a0: Accounts<Dex>, p: Params, rentA: U64, rentB: U64) {
    && p.legAKind == KindFor(a0.dex.poolA, true) && p.legBKind == KindFor(a0.dex.poolB, false)
    && (p.legAKind == PumpBuyExactQuoteIn ==> p.legAMinOut != 0)
    && p.amountIn <= a0.base && a0.base + p.minProfit <= U64_MAX
    && rentA + rentB <= a0.lamports && rentA + rentB <= p.maxLamportsSpend
  }

  /** The evaluation meets the leg minimums and the profit, and its credits fit a balance. */
  predicate Pays(a0: Accounts<Dex>, p: Params, v: Circuit.CircuitEval) {
    && v.quoteA.amountOutToUser >= p.legAMinOut && a0.inter + v.quoteA.amountOutToUser <= U64_MAX
    && v.quoteB.amountOutToUser >= p.legBMinOut && a0.base + v.pnl <= U64_MAX
    && v.pnl >= p.minProfit
  }

  /** Leg A of the transaction against leg A of the evaluation. */
  lemma LegAOutcome(a0: Accounts<Dex>, p: Params, rentA: U64)
    requires FeeWall.WellFormed(a0.dex.poolA) && p.amountIn <= a0.base
    ensures var q := Circuit.QuoteExactIn(a0.dex.poolA, true, p.amountIn);
            var after := LegA(rentA)(a0, p.amountIn, p.legAMinOut);
            && (after.Some? <==> q.Some? && !q.value.rejected && q.value.amountOutToUser >= p.legAMinOut
                                 && a0.inter + q.value.amountOutToUser <= U64_MAX && rentA <= a0.lamports)
            && (after.Some? ==>
                  && after.value.base == a0.base - q.value.amountIn && 0 < q.value.amountIn
                  && after.value.inter == a0.inter + q.value.amountOutToUser && 0 <= q.value.amountOutToUser
                  && after.value.lamports == a0.lamports - rentA && after.value.dex.poolB == a0.dex.poolB)
  {
    hide Swap, Circuit.QuoteExactIn, FeeWall.WellFormed;
    SwapIffQuoted(a0.dex.poolA, true, p.amountIn);
    assert LegA(rentA)(a0, p.amountIn, p.legAMinOut)
        == SettleA(a0, Swap(a0.dex.poolA, true, p.amountIn), p.legAMinOut, rentA);
  }

  /** Leg B sells exactly what leg A delivered. */
  lemma LegBOutcome(a1: Accounts<Dex>, delta: U64, minOut: U64, rentB: U64)
    requires FeeWall.WellFormed(a1.dex.poolB) && delta <= a1.inter
    ensures var q := Circuit.QuoteExactIn(a1.dex.poolB, false, delta);
            var after := LegB(rentB)(a1, delta, minOut);
            && (after.Some? <==> q.Some? && !q.value.rejected && q.value.amountOutToUser >= minOut
                                 && a1.base + q.value.amountOutToUser <= U64_MAX && rentB <= a1.lamports)
            && (after.Some? ==>
                  && after.value.base == a1.base + q.value.amountOutToUser
                  && after.value.inter == a1.inter - delta && q.value.amountIn == delta
                  && after.value.lamports == a1.lamports - rentB)
  {
    hide Swap, Circuit.QuoteExactIn, FeeWall.WellFormed;
    SwapIffQuoted(a1.dex.poolB, false, delta);
    Circuit.SellQuotesWholeInput(a1.dex.poolB, delta);
    assert LegB(rentB)(a1, delta, minOut) == SettleB(a1, Swap(a1.dex.poolB, false, delta), minOut, rentB);
  }

  /**
   * The transaction over the pools' own transitions succeeds exactly when the off-chain evaluation
   * at `amountIn` pays and the caller can afford it; it then realises the evaluated pnl.
   */
  lemma ExecutionMatchesEvaluation(a0: Accounts<Dex>, p: Params, rentA: U64, rentB: U64)
    requires FeeWall.WellFormed(a0.dex.poolA) && FeeWall.WellFormed(a0.dex.poolB)
    ensures var e := Circuit.EvaluateCircuit(Circuit.Circuit(a0.dex.poolA, a0.dex.poolB), p.amountIn);
            var outcome := Execute(a0, p, OwnersOf(a0.dex), LegA(rentA), LegB(rentB));
            && (outcome.Ok? <==> Affordable(a0, p, rentA, rentB) && e.Evaluated? && Pays(a0, p, e.value))
            && (outcome.Ok? ==> outcome.value.1 == e.value.pnl)
            && outcome != Err(LeftoverIntermediate)
  {
    hide Circuit.QuoteExactIn, FeeWall.WellFormed, LegA, LegB;
    var qa := Circuit.QuoteExactIn(a0.dex.poolA, true, p.amountIn);
    if p.amountIn <= a0.base {
      LegAOutcome(a0, p, rentA);
      var after := LegA(rentA)(a0, p.amountIn, p.legAMinOut);
      if after.Some? && after.value.inter > a0.inter {
        LegBOutcome(after.value, after.value.inter - a0.inter, p.legBMinOut, rentB);
      }
      ZeroIsNeverQuoted(a0, p);
      Circuit.NoInventorySold(Circuit.Circuit(a0.dex.poolA, a0.dex.poolB), p.amountIn);
    }
  }

  lemma ZeroIsNeverQuoted(a0: Accounts<Dex>, p: Params)
    requires FeeWall.WellFormed(a0.dex.poolA)
    ensures var q := Circuit.QuoteExactIn(a0.dex.poolA, true, p.amountIn);
            q.Some? && !q.value.rejected ==> p.amountIn > 0
  {
    hide Swap, Circuit.QuoteExactIn, FeeWall.WellFormed;
    SwapIffQuoted(a0.dex.poolA, true, p.amountIn);
  }

  /** A circuit whose price gap is within the advertised fees can never be executed, at any amount. */
  lemma NothingExecutesWithinFees(a0: Accounts<Dex>, p: Params, rentA: U64, rentB: U64)
    requires FeeWall.WellFormed(a0.dex.poolA) && FeeWall.WellFormed(a0.dex.poolB)
    requires FeeWall.GapWithinFees(Circuit.Circuit(a0.dex.poolA, a0.dex.poolB))
    ensures Execute(a0, p, OwnersOf(a0.dex), LegA(rentA), LegB(rentB)).Err?
  {
    hide Circuit.EvaluateCircuit, FeeWall.WellFormed, FeeWall.GapWithinFees, Execute;
    ExecutionMatchesEvaluation(a0, p, rentA, rentB);
    FeeWall.GapWithinFeesNeverPays(Circuit.Circuit(a0.dex.poolA, a0.dex.poolB), p.amountIn);
  }
}
