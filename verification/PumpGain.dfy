/**
 * Why conservation of value needs a fee-free base mint (src/adapters/pumpswap/adapter.ts): on any mint
 * with a transfer fee some pool can be traded, from nothing, to more WSOL and no less base.  Units sold
 * one by one are priced by the curve and withheld whole, so the vault pays without receiving.
 */
module PumpGain {
  import opened Arith
  import opened Outcomes
  import opened PumpMath
  import opened PumpPool
  import opened PumpConditions
  import TF = TransferFee

  /** No run on any well-formed pool with these transfer tiers, whatever its fees, gains a token for nothing. */
  ghost predicate NeverGains(tiers: Option<TF.TransferFeeConfig>) {
    forall w: World, attempts: seq<Attempt> :: WellFormed(w.pool) && w.pool.transferTiers == tiers ==>
        NoGain(w, Run(w, attempts))
  }

  function Free(): FeeBps { FeeBps(0, 0, 0) }

  /** A fee-free schedule charges nothing. */
  lemma NothingCharged(amount: nat)
    ensures FeesOn(amount, Free()) == Fees(0, 0, 0)
  {
    hide CeilDiv;
  }

  /** The whole budget reaches the curve. */
  lemma WholeBudget(budget: nat)
    ensures UncorrectedQuote(Free(), budget) == budget
  {
    hide FloorDiv;
    QuotientUnique(budget * BPS, BPS, budget);
  }

  // ----- selling single units -----

  /** One unit of base left in the vault. */
  function Drained(quote: nat, tiers: Option<TF.TransferFeeConfig>): Pool { FlatPool(1, quote, Free(), tiers) }

  const SELL_ONE: Attempt := Attempt(false, 1)

  lemma Half(quote: nat)
    ensures QuoteOutFor(1, quote, 1) == quote / 2
  {
    hide FloorDiv;
    QuotientUnique(quote, 2, quote / 2);
  }

  /** One unit is quoted half the quote vault and adds nothing to the base vault; one lamport alone cannot be taken. */
  lemma UnitQuote(quote: nat, tiers: Option<TF.TransferFeeConfig>)
    requires quote >= 1 && TransferFeeWorstCase(Drained(quote, tiers), 1) == 1
    ensures QuoteSell(Drained(quote, tiers), Free(), 1) ==
            if quote == 1 then RejectedQuote(false, 1) else Quote(false, 1, quote / 2, 0, quote / 2, false)
  {
    hide FeesOn, QuoteOutFor, TransferFeeWorstCase, Free, EffectiveQuoteReserve, SellBaseInput;
    UnitPriced(quote);
  }

  lemma UnitPriced(quote: nat)
    requires quote >= 1
    ensures var r := SellBaseInput(PoolMathState(1, quote, 0), Free(), 1);
            if quote == 1 then r.Refused? else r == Ok(Sell(1, quote / 2, Fees(0, 0, 0), quote / 2, quote))
  {
    hide FeesOn, QuoteOutFor, Free;
    assert EffectiveQuoteReserve(PoolMathState(1, quote, 0)) == Ok(quote);
    Half(quote);
    NothingCharged(quote / 2);
  }

  lemma SellOne(w: World, quote: nat, tiers: Option<TF.TransferFeeConfig>)
    requires w.pool == Drained(quote, tiers) && quote >= 1 && ValidTiers(tiers) && !FeeFreeTiers(tiers)
    ensures Step(w, SELL_ONE) == if quote == 1 then w
                                 else World(Drained(quote - quote / 2, tiers), w.tradersBase - 1,
                                     w.tradersQuote + quote / 2)
  {
    hide QuoteSell, TransferFeeWorstCase, Schedule, WellFormed, FeeFreeTiers, ValidTiers, Free;
    FlatPoolFits(1, quote, Free(), tiers);
    OneUnitWithheld(w.pool);
    UnitQuote(quote, tiers);
  }

  function Pow2(k: nat): nat { if k == 0 then 1 else 2 * Pow2(k - 1) }

  function Sells(k: nat): seq<Attempt> { if k == 0 then [] else [SELL_ONE] + Sells(k - 1) }

  /** At most k units empty the quote vault of anything up to 2^k, but for one lamport. */
  lemma {:induction false} SellsDrain(w: World, quote: nat, tiers: Option<TF.TransferFeeConfig>, k: nat)
    requires w.pool == Drained(quote, tiers) && 1 <= quote <= Pow2(k) && ValidTiers(tiers) && !FeeFreeTiers(tiers)
    ensures var w' := Run(w, Sells(k)); w'.tradersQuote == w.tradersQuote + quote - 1 && w'.tradersBase >= w.tradersBase - k
    decreases k
  {
    hide Step, Drained, FeeFreeTiers, ValidTiers, Free;
    if k > 0 {
      SellOne(w, quote, tiers);
      assert Sells(k)[1..] == Sells(k - 1);
      SellsDrain(Step(w, SELL_ONE), if quote == 1 then 1 else quote - quote / 2, tiers, k - 1);
    }
  }

  // ----- buying all but one unit -----

  /** The budget 2y + 1 buys y of the y + 1 units of a pool holding two lamports. */
  lemma BuyAllButOne(y: nat, tiers: Option<TF.TransferFeeConfig>)
    requires y >= 1 && ValidTiers(tiers)
    ensures var w := World(FlatPool(y + 1, 2, Free(), tiers), 0, 0);
            Step(w, Attempt(true, 2 * y + 1))
            == World(Drained(2 * y + 3, tiers), y - TransferFeeWorstCase(w.pool, y), -(2 * y + 1))
  {
    hide QuoteBuy, TransferFeeWorstCase, Schedule, WellFormed, ValidTiers, Free;
    FlatPoolFits(y + 1, 2, Free(), tiers);
    BudgetQuote(y, tiers);
  }

  lemma BudgetQuote(y: nat, tiers: Option<TF.TransferFeeConfig>)
    requires y >= 1
    ensures var p := FlatPool(y + 1, 2, Free(), tiers);
            QuoteBuy(p, Free(), 2 * y + 1) == Quote(true, 2 * y + 1, y - TransferFeeWorstCase(p, y), 2 * y + 1, y,
                false)
  {
    hide FeesOn, UncorrectedQuote, BaseOutFor, TransferFeeWorstCase, Free;
    WholeBudget(2 * y + 1);
    NothingCharged(2 * y + 1);
    AllButOne(y);
  }

  lemma AllButOne(y: nat)
    ensures BaseOutFor(y + 1, 2, 2 * y) == y
  {
    hide FloorDiv;
    Distribute(y, 2, 2 * y);
    Distribute(2 * y, y, 1);
    QuotientUnique((y + 1) * (2 * y), 2 + 2 * y, y);
  }

  // ----- the run -----

  function LargestFee(tiers: TF.TransferFeeConfig): nat { Max(tiers.older.maxFee, tiers.newer.maxFee) }

  lemma FeeAtMostLargest(p: Pool, amount: nat)
    requires p.transferTiers.Some?
    ensures TransferFeeWorstCase(p, amount) <= LargestFee(p.transferTiers.value)
  {
    hide FloorDiv;
  }

  lemma {:induction false} Pow2Grows(m: nat)
    ensures 4 * m + 11 <= Pow2(m + 4)
  {
    if m > 0 {
      Pow2Grows(m - 1);
    } else {
      assert Pow2(4) == 2 * Pow2(3) == 4 * Pow2(2) == 8 * Pow2(1) == 16 * Pow2(0);
    }
  }

  /** Buy twice the largest fee and four units, then sell what is needed one by one: one lamport is left over. */
  lemma GainingRun(tiers: TF.TransferFeeConfig)
    requires ValidTiers(Some(tiers)) && !FeeFreeTiers(Some(tiers))
    ensures var m := LargestFee(tiers);
            var w := World(FlatPool(2 * m + 5, 2, Free(), Some(tiers)), 0, 0);
            var w' := Run(w, [Attempt(true, 4 * m + 9)] + Sells(m + 4));
            WellFormed(w.pool) && w'.tradersBase >= 0 && w'.tradersQuote == 1
  {
    hide Step, WellFormed, Schedule, FeeFreeTiers, TransferFeeWorstCase, LargestFee, Drained, Pow2, ValidTiers, Free;
    var m := LargestFee(tiers);
    var y := 2 * m + 4;
    var w := World(FlatPool(y + 1, 2, Free(), Some(tiers)), 0, 0);
    var buy := Attempt(true, 2 * y + 1);
    FlatPoolFits(y + 1, 2, Free(), Some(tiers));
    BuyAllButOne(y, Some(tiers));
    FeeAtMostLargest(w.pool, y);
    Pow2Grows(m);
    SellsDrain(Step(w, buy), 2 * y + 3, Some(tiers), m + 4);
    assert ([buy] + Sells(m + 4))[1..] == Sells(m + 4);
  }

  /** Over every well-formed pool with the tiers and every run, nothing is gained exactly when no transfer fee is ever charged. */
  lemma NeverGainsIff(tiers: Option<TF.TransferFeeConfig>)
    requires ValidTiers(tiers)
    ensures NeverGains(tiers) <==> FeeFreeTiers(tiers)
  {
    hide WellFormed, Run, ValidTiers, Free;
    if FeeFreeTiers(tiers) {
      forall w: World, attempts: seq<Attempt> | WellFormed(w.pool) && w.pool.transferTiers == tiers
        ensures NoGain(w, Run(w, attempts))
      {
        NoFreeLamports(w, attempts);
      }
    } else {
      var m := LargestFee(tiers.value);
      var w := World(FlatPool(2 * m + 5, 2, Free(), tiers), 0, 0);
      GainingRun(tiers.value);
      assert !NoGain(w, Run(w, [Attempt(true, 4 * m + 9)] + Sells(m + 4)));
    }
  }
}
