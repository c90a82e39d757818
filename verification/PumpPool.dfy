/**
 * A PumpSwap pool as a state machine (src/adapters/pumpswap/adapter.ts): quoting with the fee
 * schedule re-selected from the current market cap, applying quotes, re-deriving the budget a buy
 * instruction must carry, and runs of arbitrary attempts.
 */
module PumpPool {
  import opened Arith
  import opened Outcomes
  import opened PumpMath
  import opened FeeSchedule
  import TF = TransferFee

  /** `base` and `quote` are the raw vault balances; `blocked` collects the Token-2022 gate's refusals. */
  datatype Pool = Pool(base: int, quote: int, virtualQuote: int, config: Config,
      transferTiers: Option<TF.TransferFeeConfig>,
                       buyDisabled: bool, sellDisabled: bool, blocked: bool)

  function EffQ(p: Pool): int { p.quote + p.virtualQuote }

  function MathState(p: Pool): PoolMathState { PoolMathState(p.base, p.quote, p.virtualQuote) }

  /** The schedule of the current reserves; None where the source reports it unsupported. */
  function Schedule(p: Pool): Option<FeeBps> {
    if p.base < 0 || EffQ(p) < 0 then None else SelectFeeSchedule(p.config, p.base, EffQ(p))
  }

  /** transferFeeAmountWorstCase: the larger fee of the two scheduled tiers. */
  function TransferFeeWorstCase(p: Pool, amount: nat): nat {
    match p.transferTiers
    case None => 0
    case Some(tiers) => Max(TF.TransferFeeOn(amount, Some(tiers.older)), TF.TransferFeeOn(amount, Some(tiers.newer)))
  }

  // ----- quoteExactIn -----

  datatype Quote = Quote(isBuy: bool, amountIn: int, amountOutToUser: int, vaultInDelta: int, vaultOutDelta: int,
      rejected: bool)

  function RejectedQuote(isBuy: bool, amountIn: int): Quote { Quote(isBuy, amountIn, 0, 0, 0, true) }

  function QuoteBuy(p: Pool, fees: FeeBps, amountIn: int): Quote {
    match BuyQuoteInput(MathState(p), fees, amountIn)
    case Refused(_) => RejectedQuote(true, amountIn)
    case Ok(r) =>
      Quote(true, r.totalWithFees, r.baseOut - TransferFeeWorstCase(p, r.baseOut), r.effectiveQuote + r.fees.lp,
            r.baseOut, p.buyDisabled || p.blocked)
  }

  function QuoteSell(p: Pool, fees: FeeBps, amountIn: int): Quote {
    match SellBaseInput(MathState(p), fees, amountIn)
    case Refused(_) => RejectedQuote(false, amountIn)
    case Ok(r) =>
      Quote(false, amountIn, r.userQuoteOut, r.baseIn - TransferFeeWorstCase(p, r.baseIn), r.quoteAmountOut - r.fees.lp,
          p.sellDisabled || p.blocked)
  }

  /** None where the source returns Unsupported. */
  function QuoteExactIn(p: Pool, isBuy: bool, amountIn: int): Option<Quote> {
    match Schedule(p)
    case None => None
    case Some(fees) => Some(if isBuy then QuoteBuy(p, fees, amountIn) else QuoteSell(p, fees, amountIn))
  }

  // ----- applySwap -----

  datatype Applied = Applied(pool: Pool) | QuoteRejected | NegativeReserve

  function ApplySwap(p: Pool, q: Quote): Applied {
    if q.rejected then QuoteRejected
    else
      var newBase := if q.isBuy then p.base - q.vaultOutDelta else p.base + q.vaultInDelta;
      var newQuote := if q.isBuy then p.quote + q.vaultInDelta else p.quote - q.vaultOutDelta;
      if newBase < 0 || newQuote < 0 then NegativeReserve
      else Applied(p.(base := newBase, quote := newQuote))
  }

  // ----- spendableBudgetFor -----

  predicate BudgetFits(p: Pool, fees: FeeBps, budget: int, amountIn: int) {
    var r := BuyQuoteInput(MathState(p), fees, budget);
    r.Ok? && r.value.totalWithFees <= amountIn
  }

  function SpendableBudgetFor(p: Pool, amountIn: int): Option<int> {
    match Schedule(p)
    case None => None
    case Some(fees) =>
      if BudgetFits(p, fees, amountIn + 1, amountIn) then Some(amountIn + 1)
      else if BudgetFits(p, fees, amountIn, amountIn) then Some(amountIn)
      else None
  }

  /** The amounts of an accepted buy, in the vocabulary of the inversion lemmas. */
  lemma AcceptedBuy(s: PoolMathState, fees: FeeBps, quote: int)
    requires BuyQuoteInput(s, fees, quote).Ok?
    ensures var r := BuyQuoteInput(s, fees, quote).value;
            && quote > 0 && s.baseReserve > 0 && r.effQ > 0 && r.effQ == s.quoteReserve + s.virtualQuoteReserves
            && r.effectiveQuote == EffectiveQuote(fees, quote) >= 2
            && r.curveInput == r.effectiveQuote - 1
            && r.totalWithFees == Debit(fees, quote)
            && r.fees == FeesOn(UncorrectedQuote(fees, quote), fees)
            && r.baseOut == BaseOutFor(s.baseReserve, r.effQ, r.curveInput) > 0
  {
    hide EffectiveQuote, UncorrectedQuote, FeesOn, BaseOutFor;
  }

  /** A budget equal to a debit reproduces that debit and the quote behind it. */
  lemma DebitIsItsOwnBudget(fees: FeeBps, quote: nat)
    requires EffectiveQuote(fees, quote) >= 0
    ensures var debit := Debit(fees, quote);
            0 <= debit && Debit(fees, debit) == debit && EffectiveQuote(fees, debit) == EffectiveQuote(fees, quote)
  {
    hide UncorrectedQuote, FeesOn;
    var e, t := UncorrectedQuote(fees, quote), fees.Total();
    var debit := Debit(fees, quote);
    if debit != quote {
      FeesOnBounds(e, fees);
      UncorrectedMono(fees, debit, quote);
      UncorrectedReached(fees, debit, e);
    }
  }

  lemma UncorrectedReached(fees: FeeBps, quote: nat, e: nat)
    requires e * BPS + e * fees.Total() <= quote * BPS
    ensures UncorrectedQuote(fees, quote) >= e
  {
    hide FloorDiv;
    FloorAdjoint(quote * BPS, BPS + fees.Total(), e);
    Distribute(e, BPS, fees.Total());
  }

  /** One more lamport of budget that is not debited can only improve the quote. */
  lemma SpareLamportNeverHurts(fees: FeeBps, debit: nat)
    requires Debit(fees, debit) == debit && Debit(fees, debit + 1) <= debit
    ensures Debit(fees, debit + 1) == debit && EffectiveQuote(fees, debit) <= EffectiveQuote(fees, debit + 1)
  {
    hide UncorrectedQuote, FeesOn;
    UncorrectedMono(fees, debit, debit + 1);
    FeesOnMono(UncorrectedQuote(fees, debit), UncorrectedQuote(fees, debit + 1), fees);
  }

  /**
   * Quote, then build: the budget re-derived from a quoted debit always exists, is debited exactly
   * the quoted amount and buys at least the quoted base, whatever the fee rates.
   */
  lemma QuoteThenBuild(p: Pool, fees: FeeBps, budget: int)
    requires Schedule(p) == Some(fees) && BuyQuoteInput(MathState(p), fees, budget).Ok?
    ensures var quoted := BuyQuoteInput(MathState(p), fees, budget).value;
            var rebuilt := SpendableBudgetFor(p, quoted.totalWithFees);
            && rebuilt.Some?
            && var r := BuyQuoteInput(MathState(p), fees, rebuilt.value);
            r.Ok? && r.value.totalWithFees == quoted.totalWithFees && r.value.baseOut >= quoted.baseOut
  {
    hide EffectiveQuote, UncorrectedQuote, Debit, FeesOn, BaseOutFor, Schedule;
    var s := MathState(p);
    AcceptedBuy(s, fees, budget);
    DebitIsItsOwnBudget(fees, budget);
    var debit := Debit(fees, budget);
    SameQuoteAccepted(s, fees, budget, debit);
    if BudgetFits(p, fees, debit + 1, debit) {
      AcceptedBuy(s, fees, debit + 1);
      AcceptedBuy(s, fees, debit);
      SpareLamportNeverHurts(fees, debit);
      BuyCurveMono(s.baseReserve, s.quoteReserve + s.virtualQuoteReserves, EffectiveQuote(fees, debit) - 1,
          EffectiveQuote(fees, debit + 1) - 1);
    }
  }

  lemma SameQuoteAccepted(s: PoolMathState, fees: FeeBps, q: int, r: nat)
    requires BuyQuoteInput(s, fees, q).Ok? && EffectiveQuote(fees, r) == EffectiveQuote(fees, q) && r > 0
    ensures BuyQuoteInput(s, fees, r).Ok?
    ensures BuyQuoteInput(s, fees, r).value.baseOut == BuyQuoteInput(s, fees, q).value.baseOut
    ensures BuyQuoteInput(s, fees, r).value.totalWithFees == Debit(fees, r)
  {
    hide EffectiveQuote, UncorrectedQuote, FeesOn, BaseOutFor;
  }

  /** Whatever amount it is asked for, a budget found is never debited more. */
  lemma BudgetNeverOverdrawn(p: Pool, amountIn: int)
    ensures var b := SpendableBudgetFor(p, amountIn);
            b.Some? ==> b.value in {amountIn, amountIn + 1} && Schedule(p).Some?
                        && var r := BuyQuoteInput(MathState(p), Schedule(p).value, b.value);
                        r.Ok? && r.value.totalWithFees <= amountIn
  {
    hide BuyQuoteInput, Schedule;
  }

  // ----- runs -----

  predicate WellFormed(p: Pool) {
    && p.base > 0 && p.quote >= 0 && p.virtualQuote >= 0 && EffQ(p) > 0
    && Configured(p.config)
    && (p.transferTiers.Some? ==>
         TF.ValidTier(p.transferTiers.value.older) && TF.ValidTier(p.transferTiers.value.newer))
  }

  /** The base mint charges no transfer fee on any amount. */
  predicate FeeFreeBase(p: Pool) { FeeFreeTiers(p.transferTiers) }

  predicate FeeFreeTiers(transferTiers: Option<TF.TransferFeeConfig>) {
    match transferTiers
    case None => true
    case Some(tiers) =>
        (tiers.older.bps == 0 || tiers.older.maxFee == 0) && (tiers.newer.bps == 0 || tiers.newer.maxFee == 0)
  }

  lemma WorstCaseBounds(p: Pool, amount: nat)
    requires WellFormed(p)
    ensures TransferFeeWorstCase(p, amount) <= amount
    ensures FeeFreeBase(p) ==> TransferFeeWorstCase(p, amount) == 0
  {
    match p.transferTiers
    case None =>
    case Some(tiers) =>
      TierBounds(tiers.older, amount);
      TierBounds(tiers.newer, amount);
      hide TF.TransferFeeOn;
  }

  lemma TierBounds(tier: TF.TransferFeeTier, amount: nat)
    requires TF.ValidTier(tier)
    ensures TF.TransferFeeOn(amount, Some(tier)) <= amount
    ensures tier.bps == 0 || tier.maxFee == 0 ==> TF.TransferFeeOn(amount, Some(tier)) == 0
  {
    TF.ShortFeeExact(tier, amount);
    TF.FeeOfBounds(tier, amount);
    hide TF.FeeOf, FloorDiv;
  }

  /** A well-formed pool always has a schedule and is never reported empty. */
  lemma NeverEmpty(p: Pool, fees: FeeBps, amount: int)
    requires WellFormed(p)
    ensures Schedule(p).Some?
    ensures EffectiveQuoteReserve(MathState(p)) == Ok(EffQ(p))
    ensures BuyQuoteInput(MathState(p), fees, amount) != Refused(EmptyPool)
            && SellBaseInput(MathState(p), fees, amount) != Refused(EmptyPool)
  {
    hide EffectiveQuote, UncorrectedQuote, FeesOn, BaseOutFor, QuoteOutFor, SelectFeeSchedule;
    ScheduleExists(p.config, p.base, EffQ(p));
  }

  /** What an accepted quote moves. */
  predicate MovesBuy(p: Pool, q: Quote) {
    && 0 < q.vaultOutDelta < p.base && 0 <= q.amountOutToUser <= q.vaultOutDelta
    && 0 < q.vaultInDelta <= q.amountIn
    && p.base * EffQ(p) <= (p.base - q.vaultOutDelta) * (EffQ(p) + q.vaultInDelta)
  }

  predicate MovesSell(p: Pool, q: Quote) {
    && 0 <= q.vaultInDelta <= q.amountIn
    && 0 < q.amountOutToUser <= q.vaultOutDelta <= p.quote
    && q.vaultOutDelta < EffQ(p)
    && p.base * EffQ(p) <= (p.base + q.amountIn) * (EffQ(p) - q.vaultOutDelta)
    && (FeeFreeBase(p) ==> q.vaultInDelta == q.amountIn)
  }

  lemma BuyMoves(p: Pool, fees: FeeBps, amountIn: int)
    requires WellFormed(p) && !QuoteBuy(p, fees, amountIn).rejected
    ensures var q := QuoteBuy(p, fees, amountIn); q.isBuy && MovesBuy(p, q)
  {
    hide EffectiveQuote, UncorrectedQuote, FeesOn, BaseOutFor, TransferFeeWorstCase, FeeFreeBase, BuyQuoteInput, Debit;
    AcceptedBuy(MathState(p), fees, amountIn);
    var r := BuyQuoteInput(MathState(p), fees, amountIn).value;
    WorstCaseBounds(p, r.baseOut);
    DebitCoversVault(fees, amountIn);
    BuyCurve(p.base, EffQ(p), r.curveInput);
    MulMono(EffQ(p) + r.curveInput, EffQ(p) + r.effectiveQuote + r.fees.lp, p.base - r.baseOut);
  }

  lemma DebitCoversVault(fees: FeeBps, quote: nat)
    ensures EffectiveQuote(fees, quote) + FeesOn(UncorrectedQuote(fees, quote), fees).lp <= Debit(fees, quote)
  {
    hide UncorrectedQuote, FeeCeil, EffectiveQuote;
  }

  lemma SellMoves(p: Pool, fees: FeeBps, amountIn: int)
    requires WellFormed(p) && !QuoteSell(p, fees, amountIn).rejected
    ensures var q := QuoteSell(p, fees, amountIn); !q.isBuy && q.amountIn > 0 && MovesSell(p, q)
  {
    hide QuoteOutFor, TransferFeeWorstCase, FeeFreeBase, FeeCeil;
    var r := SellBaseInput(MathState(p), fees, amountIn).value;
    WorstCaseBounds(p, amountIn);
    SellCurve(p.base, EffQ(p), amountIn);
    MulMono(EffQ(p) - r.quoteAmountOut, EffQ(p) - r.quoteAmountOut + r.fees.lp, p.base + amountIn);
  }

  /** `tradersBase` is the traders' base, `tradersQuote` their WSOL, relative to the start of the run. */
  datatype World = World(pool: Pool, tradersBase: int, tradersQuote: int)

  datatype Attempt = Attempt(isBuy: bool, amountIn: int)

  /** A refused attempt changes nothing. */
  function Step(w: World, a: Attempt): World {
    match QuoteExactIn(w.pool, a.isBuy, a.amountIn)
    case None => w
    case Some(q) =>
      match ApplySwap(w.pool, q)
      case Applied(pool) =>
        if a.isBuy then World(pool, w.tradersBase + q.amountOutToUser, w.tradersQuote - q.amountIn)
        else World(pool, w.tradersBase - q.amountIn, w.tradersQuote + q.amountOutToUser)
      case _ => w
  }

  function Run(w: World, attempts: seq<Attempt>): World
    decreases |attempts|
  {
    if attempts == [] then w else Run(Step(w, attempts[0]), attempts[1..])
  }

  /** Kept for every base mint: the pool stays tradeable and the static configuration stays put. */
  predicate StaysWellFormed(w: World, w': World) {
    && WellFormed(w'.pool)
    && w'.pool == w.pool.(base := w'.pool.base, quote := w'.pool.quote)
  }

  /** Kept for every base mint: traders and vault together never gain either token. */
  predicate Conserves(w: World, w': World) {
    && w'.tradersBase + w'.pool.base <= w.tradersBase + w.pool.base
    && w'.tradersQuote + w'.pool.quote <= w.tradersQuote + w.pool.quote
  }

  /** Kept when the base mint charges no transfer fee. */
  predicate KeepsProduct(w: World, w': World) {
    w.pool.base * EffQ(w.pool) <= w'.pool.base * EffQ(w'.pool)
  }

  lemma StepKeeps(w: World, a: Attempt)
    requires WellFormed(w.pool)
    ensures StaysWellFormed(w, Step(w, a)) && Conserves(w, Step(w, a))
    ensures FeeFreeBase(w.pool) ==> KeepsProduct(w, Step(w, a))
  {
    hide QuoteBuy, QuoteSell, Schedule, FeeFreeBase, Configured;
    NeverEmpty(w.pool, FeeBps(0, 0, 0), 0);
    var fees := Schedule(w.pool).value;
    if a.isBuy {
      if !QuoteBuy(w.pool, fees, a.amountIn).rejected { BuyMoves(w.pool, fees, a.amountIn); }
    } else {
      if !QuoteSell(w.pool, fees, a.amountIn).rejected {
        SellMoves(w.pool, fees, a.amountIn);
        SellKeepsAmount(w.pool, fees, a.amountIn);
      }
    }
  }

  lemma SellKeepsAmount(p: Pool, fees: FeeBps, amountIn: int)
    ensures QuoteSell(p, fees, amountIn).amountIn == amountIn
  {
    hide SellBaseInput;
  }

  /** An accepted quote is never turned down for a negative reserve. */
  lemma AcceptedQuoteApplies(p: Pool, isBuy: bool, amountIn: int)
    requires WellFormed(p)
    ensures var q := QuoteExactIn(p, isBuy, amountIn);
            q.Some? && (q.value.rejected || ApplySwap(p, q.value).Applied?)
  {
    hide QuoteBuy, QuoteSell, Schedule, FeeFreeBase;
    NeverEmpty(p, FeeBps(0, 0, 0), 0);
    var fees := Schedule(p).value;
    if isBuy {
      if !QuoteBuy(p, fees, amountIn).rejected { BuyMoves(p, fees, amountIn); }
    } else {
      if !QuoteSell(p, fees, amountIn).rejected { SellMoves(p, fees, amountIn); }
    }
  }

  lemma {:induction false} RunStaysWellFormed(w: World, attempts: seq<Attempt>)
    requires WellFormed(w.pool)
    ensures StaysWellFormed(w, Run(w, attempts))
    decreases |attempts|
  {
    hide Step, WellFormed;
    if attempts != [] {
      StepKeeps(w, attempts[0]);
      RunStaysWellFormed(Step(w, attempts[0]), attempts[1..]);
    }
  }

  /** Over any run, on any base mint, neither token is created. */
  lemma {:induction false} RunConserves(w: World, attempts: seq<Attempt>)
    requires WellFormed(w.pool)
    ensures Conserves(w, Run(w, attempts))
    decreases |attempts|
  {
    hide Step, WellFormed, KeepsProduct;
    if attempts != [] {
      StepKeeps(w, attempts[0]);
      RunConserves(Step(w, attempts[0]), attempts[1..]);
    }
  }

  lemma {:induction false} RunKeepsProduct(w: World, attempts: seq<Attempt>)
    requires WellFormed(w.pool) && FeeFreeBase(w.pool)
    ensures KeepsProduct(w, Run(w, attempts))
    decreases |attempts|
  {
    hide Step, WellFormed, EffQ, Conserves;
    if attempts != [] {
      StepKeeps(w, attempts[0]);
      RunKeepsProduct(Step(w, attempts[0]), attempts[1..]);
    }
  }

  /** Traders who end with no less of one token end with no more of the other. */
  predicate NoGain(w: World, w': World) {
    && (w'.tradersBase >= w.tradersBase ==> w'.tradersQuote <= w.tradersQuote)
    && (w'.tradersQuote >= w.tradersQuote ==> w'.tradersBase <= w.tradersBase)
  }

  /**
   * Over any run of buys and sells, with the fee tier re-selected at every step: the vaults never
   * go negative and the pool is never empty; on a base mint without transfer fee traders who gave up
   * no base hold no more WSOL, nor the reverse.
   */
  lemma NoFreeLamports(w: World, attempts: seq<Attempt>)
    requires WellFormed(w.pool)
    ensures var w' := Run(w, attempts);
            && w'.pool.base > 0 && w'.pool.quote >= 0 && EffQ(w'.pool) > 0 && Schedule(w'.pool).Some?
            && (FeeFreeBase(w.pool) ==> KeepsProduct(w, w') && NoGain(w, w'))
  {
    hide Run, Schedule, FeeFreeBase, EffQ;
    var w' := Run(w, attempts);
    RunStaysWellFormed(w, attempts);
    NeverEmpty(w'.pool, FeeBps(0, 0, 0), 0);
    if FeeFreeBase(w.pool) {
      RunConserves(w, attempts);
      RunKeepsProduct(w, attempts);
      OtherSideGrows(w.pool.base, EffQ(w.pool), w'.pool.base, EffQ(w'.pool));
      OtherSideGrows(EffQ(w.pool), w.pool.base, EffQ(w'.pool), w'.pool.base);
      QuoteFollowsEffQ(w.pool, w'.pool);
    }
  }

  lemma QuoteFollowsEffQ(p: Pool, p': Pool)
    requires p'.virtualQuote == p.virtualQuote
    ensures EffQ(p') - EffQ(p) == p'.quote - p.quote
  {
  }

  lemma OtherSideGrows(a: int, b: int, a': int, b': int)
    requires 0 < a && 0 < b && 0 < a' && 0 < b' && a * b <= a' * b'
    ensures a' <= a ==> b <= b'
  {
    if a' <= a {
      MulMono(a', a, b');
      MulCancel(b, b', a);
    }
  }

  /**
   * The condition on the base mint cannot be dropped: when the transfer fee withholds everything
   * that is sold, the vault receives nothing while the curve still pays, and the product falls.
   */
  lemma WithheldSellLowersProduct(p: Pool, fees: FeeBps, amountIn: int)
    requires WellFormed(p) && !QuoteSell(p, fees, amountIn).rejected
    requires amountIn > 0 && TransferFeeWorstCase(p, amountIn) == amountIn
    ensures var after := ApplySwap(p, QuoteSell(p, fees, amountIn));
            after.Applied? && after.pool.base * EffQ(after.pool) < p.base * EffQ(p)
  {
    hide QuoteSell, TransferFeeWorstCase, FeeFreeBase;
    SellMoves(p, fees, amountIn);
    WithheldDelta(p, fees, amountIn);
    var q := QuoteSell(p, fees, amountIn);
    MulCancel(EffQ(p) - q.vaultOutDelta, EffQ(p), p.base);
  }

  lemma WithheldDelta(p: Pool, fees: FeeBps, amountIn: int)
    requires amountIn > 0 && !QuoteSell(p, fees, amountIn).rejected && TransferFeeWorstCase(p, amountIn) == amountIn
    ensures QuoteSell(p, fees, amountIn).vaultInDelta == 0
  {
    hide TransferFeeWorstCase, QuoteOutFor, FeesOn;
  }
}
