/**
 * Exactly when PumpSwap behaves as one would expect (src/adapters/pumpswap/math.ts, adapter.ts): when
 * a larger budget never buys less, when selling more never nets less, when no trade lowers the product
 * of reserves, and when the re-derived budget is the largest of all.  Each is an if-and-only-if over
 * every well-formed pool with a given fee schedule, with the failing trades as accepted quotes.
 */
module PumpConditions {
  import opened Arith
  import opened Outcomes
  import opened PumpMath
  import opened PumpPool
  import TF = TransferFee
  import FS = FeeSchedule
  import Fee = ProportionalFee
  import RX = RaydiumExact

  // ----- pools with a given schedule -----

  /** A pool outside the tiered schedules: its fees are the flat ones whatever its reserves. */
  function FlatPool(base: nat, quote: nat, fees: FeeBps, tiers: Option<TF.TransferFeeConfig>): Pool {
    var config := FS.Config(false, false, 0, FS.SolLike, fees, [FS.FeeTier(0, fees)], [], fees, false, 0, true);
    Pool(base, quote, 0, config, tiers, false, false, false)
  }

  predicate ValidTiers(tiers: Option<TF.TransferFeeConfig>) {
    tiers.Some? ==> TF.ValidTier(tiers.value.older) && TF.ValidTier(tiers.value.newer)
  }

  lemma FlatPoolFits(base: nat, quote: nat, fees: FeeBps, tiers: Option<TF.TransferFeeConfig>)
    requires base > 0 && quote > 0 && ValidTiers(tiers)
    ensures var p := FlatPool(base, quote, fees, tiers);
            WellFormed(p) && Schedule(p) == Some(fees) && EffQ(p) == quote
                && MathState(p) == PoolMathState(base, quote, 0)
  {
    hide FloorDiv, TF.ValidTier;
  }

  // ----- the fees as a function of the amount -----

  function Charged(amount: nat, fees: FeeBps): nat { FeesOn(amount, fees).Sum() }

  /** The combined rate on one amount, rounded up once. */
  function RoundedOnce(amount: nat, fees: FeeBps): nat { CeilDiv(amount * fees.Total(), BPS) }

  lemma CeilShift(x: nat, k: nat)
    ensures CeilDiv(x + k * BPS, BPS) == CeilDiv(x, BPS) + k
  {
    hide FloorDiv;
    FloorBounds(x + BPS - 1, BPS);
    QuotientUnique(x + k * BPS + BPS - 1, BPS, CeilDiv(x, BPS) + k);
  }

  lemma FeeShift(amount: nat, bps: nat)
    ensures FeeCeil(amount + BPS, bps) == FeeCeil(amount, bps) + bps
  {
    hide FeeCeil, CeilDiv;
    FeeIsCeiling(amount, bps);
    FeeIsCeiling(amount + BPS, bps);
    ProductShift(amount, bps);
    CeilShift(amount * bps, bps);
  }

  lemma FeeIsCeiling(amount: nat, bps: nat)
    ensures FeeCeil(amount, bps) == CeilDiv(amount * bps, BPS)
  {
    hide FeeCeil, CeilDiv;
    FeeCeilExact(amount, bps);
  }

  lemma ProductShift(amount: nat, k: nat)
    ensures (amount + BPS) * k == amount * k + k * BPS
  {
    Distribute(k, amount, BPS);
  }

  lemma FeesShift(amount: nat, fees: FeeBps)
    ensures Charged(amount + BPS, fees) == Charged(amount, fees) + fees.Total()
  {
    hide FeeCeil;
    FeeShift(amount, fees.lp);
    FeeShift(amount, fees.protocol);
    FeeShift(amount, fees.creator);
  }

  lemma RoundedShift(amount: nat, fees: FeeBps)
    ensures RoundedOnce(amount + BPS, fees) == RoundedOnce(amount, fees) + fees.Total()
  {
    hide CeilDiv, FeeBps.Total;
    ProductShift(amount, fees.Total());
    CeilShift(amount * fees.Total(), fees.Total());
  }

  /** Both repeat with period 10000, the total rate further up. */
  lemma ChargedShift(amount: nat, fees: FeeBps)
    ensures Charged(amount + BPS, fees) == Charged(amount, fees) + fees.Total()
    ensures RoundedOnce(amount + BPS, fees) == RoundedOnce(amount, fees) + fees.Total()
  {
    hide Charged, RoundedOnce;
    FeesShift(amount, fees);
    RoundedShift(amount, fees);
  }

  // ----- buys -----

  /** Reaching the effective quote `e` costs two lamports of correction that the step below did not pay. */
  predicate Drops(e: nat, fees: FeeBps)
    requires e >= 1
  {
    Charged(e, fees) >= RoundedOnce(e, fees) + 2 && Charged(e - 1, fees) <= RoundedOnce(e, fees)
  }

  /** A check of 10000 amounts. */
  predicate NeverDrops(fees: FeeBps) {
    forall e: nat :: 1 <= e <= BPS ==> !Drops(e, fees)
  }

  lemma DropsShift(e: nat, fees: FeeBps)
    requires e >= 1
    ensures Drops(e + BPS, fees) <==> Drops(e, fees)
  {
    hide Charged, RoundedOnce, FeeBps.Total;
    ChargedShift(e, fees);
    ChargedShift(e - 1, fees);
  }

  lemma {:induction false} NeverDropsAnywhere(e: nat, fees: FeeBps)
    requires e >= 1 && NeverDrops(fees)
    ensures !Drops(e, fees)
  {
    hide Drops;
    if e > BPS {
      NeverDropsAnywhere(e - BPS, fees);
      DropsShift(e - BPS, fees);
    }
  }

  /** The first budget whose uncorrected quote is `e`, and the budget before it. */
  function FirstBudget(e: nat, fees: FeeBps): (q: nat)
    ensures q >= e
  {
    e + RoundedOnce(e, fees)
  }

  lemma FirstBudgetReaches(e: nat, fees: FeeBps)
    requires e >= 1
    ensures var q := FirstBudget(e, fees);
            q >= 1 && UncorrectedQuote(fees, q) == e && UncorrectedQuote(fees, q - 1) == e - 1
  {
    hide FloorDiv, CeilDiv, FeeBps.Total;
    var t, q := fees.Total(), FirstBudget(e, fees);
    CeilBounds(e * t, BPS);
    FirstBudgetBounds(e, t, RoundedOnce(e, fees));
    QuotientUnique(q * BPS, BPS + t, e);
    QuotientUnique((q - 1) * BPS, BPS + t, e - 1);
  }

  lemma FirstBudgetBounds(e: nat, t: nat, c: nat)
    requires e >= 1 && e * t <= c * BPS < e * t + BPS
    ensures e * (BPS + t) <= (e + c) * BPS < e * (BPS + t) + (BPS + t)
    ensures (e - 1) * (BPS + t) <= (e + c - 1) * BPS < (e - 1) * (BPS + t) + (BPS + t)
  {
    Distribute(e, BPS, t);
    Distribute(BPS + t, e - 1, 1);
  }

  /** Where the uncorrected quote steps up, the budget is the first one of the new quote. */
  lemma StepsAtFirstBudget(q: nat, fees: FeeBps)
    ensures var e, e' := UncorrectedQuote(fees, q), UncorrectedQuote(fees, q + 1);
            e' == e || (e' == e + 1 && q + 1 == FirstBudget(e', fees))
  {
    hide FloorDiv, CeilDiv, UncorrectedQuote;
    var t, e, e' := fees.Total(), UncorrectedQuote(fees, q), UncorrectedQuote(fees, q + 1);
    UncorrectedMono(fees, q, q + 1);
    UncorrectedBounds(fees, q);
    UncorrectedBounds(fees, q + 1);
    if e' > e {
      FirstBudgetReaches(e', fees);
      var first := FirstBudget(e', fees);
      if first <= q { UncorrectedMono(fees, first, q); }
      if first > q + 1 { UncorrectedMono(fees, q + 1, first - 1); }
      assert first == q + 1;
    }
  }

  lemma DropLowers(e: nat, fees: FeeBps)
    requires e >= 1 && Drops(e, fees)
    ensures var q := FirstBudget(e, fees);
            q >= 1 && EffectiveQuote(fees, q) == e - 2 && EffectiveQuote(fees, q - 1) == e - 1
  {
    hide UncorrectedQuote, RoundedOnce, FeesOn;
    FirstBudgetReaches(e, fees);
    CorrectionAtMostTwo(fees, FirstBudget(e, fees));
  }

  lemma StepKeepsOrder(q: nat, fees: FeeBps)
    requires NeverDrops(fees)
    ensures EffectiveQuote(fees, q) <= EffectiveQuote(fees, q + 1)
  {
    hide UncorrectedQuote, RoundedOnce, FeesOn, NeverDrops;
    StepsAtFirstBudget(q, fees);
    EffectiveQuoteAlmostMonotone(fees, q, q + 1);
    var e' := UncorrectedQuote(fees, q + 1);
    if e' > UncorrectedQuote(fees, q) {
      NeverDropsAnywhere(e', fees);
      CorrectionAtMostTwo(fees, q + 1);
    }
  }

  lemma {:induction false} KeepsOrder(q: nat, r: nat, fees: FeeBps)
    requires NeverDrops(fees) && q <= r
    ensures EffectiveQuote(fees, q) <= EffectiveQuote(fees, r)
    decreases r - q
  {
    hide EffectiveQuote, NeverDrops;
    if q < r {
      StepKeepsOrder(q, fees);
      KeepsOrder(q + 1, r, fees);
    }
  }

  /** Over every well-formed pool with the schedule, a larger accepted budget buys no less. */
  ghost predicate BuysMonotone(fees: FeeBps) {
    forall p: Pool, q: nat, r: nat ::
        WellFormed(p) && Schedule(p) == Some(fees) && q <= r && BothBought(p, fees, q, r) ==>
      Bought(p, fees, q) <= Bought(p, fees, r)
  }

  predicate BothBought(p: Pool, fees: FeeBps, q: nat, r: nat) {
    BuyQuoteInput(MathState(p), fees, q).Ok? && BuyQuoteInput(MathState(p), fees, r).Ok?
  }

  function Bought(p: Pool, fees: FeeBps, q: nat): nat {
    match BuyQuoteInput(MathState(p), fees, q) case Ok(r) => r.baseOut case Refused(_) => 0
  }

  lemma OrderedBuys(p: Pool, fees: FeeBps, q: nat, r: nat)
    requires NeverDrops(fees) && q <= r && BothBought(p, fees, q, r)
    ensures Bought(p, fees, q) <= Bought(p, fees, r)
  {
    hide EffectiveQuote, UncorrectedQuote, FeesOn, BaseOutFor, NeverDrops, BuyQuoteInput;
    AcceptedBuy(MathState(p), fees, q);
    AcceptedBuy(MathState(p), fees, r);
    KeepsOrder(q, r, fees);
    BuyCurveMono(p.base, EffQ(p), EffectiveQuote(fees, q) - 1, EffectiveQuote(fees, r) - 1);
  }

  /** A pool fine enough to tell the curve inputs `c` and `c + 1` apart. */
  function FinePool(c: nat, fees: FeeBps): Pool { FlatPool((c + 1) * (c + 2), 1, fees, None) }

  lemma FinePoolOutputs(c: nat)
    requires c >= 1
    ensures BaseOutFor((c + 1) * (c + 2), 1, c + 1) == (c + 1) * (c + 1)
    ensures BaseOutFor((c + 1) * (c + 2), 1, c) == c * (c + 2)
    ensures 0 < c * (c + 2) < (c + 1) * (c + 1)
  {
    hide FloorDiv;
    SwapFactors(c + 1, c + 2, c + 1);
    SwapFactors(c + 1, c + 2, c);
    QuotientUnique((c + 1) * (c + 2) * (c + 1), c + 2, (c + 1) * (c + 1));
    QuotientUnique((c + 1) * (c + 2) * c, c + 1, c * (c + 2));
    MulMono2(1, c, 1, c + 2);
    Distribute(c, c, 2);
    Distribute(c + 1, c, 1);
    Distribute(c, c, 1);
  }

  /** An effective quote with a positive curve input is bought, at the curve's price. */
  lemma FineBuy(c: nat, fees: FeeBps, q: nat, input: nat)
    requires q > 0 && EffectiveQuote(fees, q) == input + 1 && input >= 1 && BaseOutFor((c + 1) * (c + 2), 1, input) > 0
    ensures BuyQuoteInput(MathState(FinePool(c, fees)), fees, q).Ok?
    ensures Bought(FinePool(c, fees), fees, q) == BaseOutFor((c + 1) * (c + 2), 1, input)
  {
    hide EffectiveQuote, UncorrectedQuote, FeesOn, BaseOutFor;
    MulMono2(1, c + 1, 1, c + 2);
  }

  /** On this pool the first budget of a dropping quote buys strictly less than the budget before it. */
  lemma DropOnPool(c: nat, fees: FeeBps)
    requires c >= 1 && Drops(c + 3, fees)
    ensures var p, q := FinePool(c, fees), FirstBudget(c + 3, fees);
            && WellFormed(p) && Schedule(p) == Some(fees)
            && BothBought(p, fees, q - 1, q) && Bought(p, fees, q) < Bought(p, fees, q - 1)
  {
    hide EffectiveQuote, UncorrectedQuote, FeesOn, BaseOutFor, Drops, RoundedOnce, WellFormed, Schedule,
        BuyQuoteInput, Bought;
    var q := FirstBudget(c + 3, fees);
    DropLowers(c + 3, fees);
    MulMono2(1, c + 1, 1, c + 2);
    FlatPoolFits((c + 1) * (c + 2), 1, fees, None);
    FinePoolOutputs(c);
    FineBuy(c, fees, q - 1, c + 1);
    FineBuy(c, fees, q, c);
  }

  /** Buys are monotone exactly when no amount below the period drops. */
  lemma BuysMonotoneIff(fees: FeeBps)
    ensures BuysMonotone(fees) <==> NeverDrops(fees)
    ensures (forall q: nat, r: nat :: q <= r ==> EffectiveQuote(fees, q) <= EffectiveQuote(fees, r)) <==>
              NeverDrops(fees)
  {
    hide WellFormed, Schedule, BothBought, Bought, EffectiveQuote, Drops;
    if NeverDrops(fees) {
      forall q: nat, r: nat | q <= r ensures EffectiveQuote(fees, q) <= EffectiveQuote(fees, r) {
        KeepsOrder(q, r, fees);
      }
      forall p: Pool, q: nat, r: nat | q <= r && BothBought(p, fees, q, r)
          ensures Bought(p, fees, q) <= Bought(p, fees, r) {
        OrderedBuys(p, fees, q, r);
      }
    } else {
      var e: nat :| 1 <= e <= BPS && Drops(e, fees);
      DropLowers(e, fees);
      DropsShift(e, fees);
      DropOnPool(e + BPS - 3, fees);
    }
  }

  predicate SomeRateZero(fees: FeeBps) { fees.lp == 0 || fees.protocol == 0 || fees.creator == 0 }

  /** With a zero rate two ceilings remain, which exceed the single one by at most one lamport. */
  lemma ZeroRateNeverDrops(fees: FeeBps)
    requires SomeRateZero(fees)
    ensures NeverDrops(fees)
  {
    hide Charged, RoundedOnce;
    forall e: nat | 1 <= e <= BPS ensures !Drops(e, fees) { TwoCeilings(e, fees); }
  }

  lemma TwoCeilings(e: nat, fees: FeeBps)
    requires SomeRateZero(fees)
    ensures Charged(e, fees) <= RoundedOnce(e, fees) + 1
  {
    hide FeeCeil, CeilDiv, SomeRateZero, FeeBps.Total, Fees.Sum;
    OneCeiling(e, fees.lp);
    OneCeiling(e, fees.protocol);
    OneCeiling(e, fees.creator);
    CeilBounds(e * fees.Total(), BPS);
    CountCeilings(e, fees, FeesOn(e, fees), RoundedOnce(e, fees));
  }

  lemma CountCeilings(e: nat, fees: FeeBps, f: Fees, once: nat)
    requires f.lp * BPS < e * fees.lp + BPS && f.protocol * BPS < e * fees.protocol + BPS
            && f.creator * BPS < e * fees.creator + BPS
    requires e * fees.Total() <= once * BPS && SomeRateZero(fees)
    ensures f.Sum() <= once + 1
  {
    hide FeeBps.Total, SomeRateZero;
    SplitTotal(e, fees);
    ZeroProducts(e, fees);
  }

  lemma ZeroProducts(e: nat, fees: FeeBps)
    ensures SomeRateZero(fees) ==> e * fees.lp == 0 || e * fees.protocol == 0 || e * fees.creator == 0
  {
    if fees.lp == 0 { assert e * fees.lp == 0; }
    if fees.protocol == 0 { assert e * fees.protocol == 0; }
    if fees.creator == 0 { assert e * fees.creator == 0; }
  }

  /** Up to a total of 100% the check is whether one of the three rates is zero. */
  lemma NeverDropsIff(fees: FeeBps)
    ensures SomeRateZero(fees) ==> NeverDrops(fees)
    ensures fees.Total() <= BPS ==> (NeverDrops(fees) <==> SomeRateZero(fees))
  {
    if SomeRateZero(fees) {
      ZeroRateNeverDrops(fees);
    } else if fees.Total() <= BPS {
      DropsAtOne(fees);
    }
  }

  lemma DropsAtOne(fees: FeeBps)
    requires !SomeRateZero(fees) && fees.Total() <= BPS
    ensures Drops(1, fees)
  {
    hide FloorDiv;
    QuotientUnique(fees.lp + BPS - 1, BPS, 1);
    QuotientUnique(fees.protocol + BPS - 1, BPS, 1);
    QuotientUnique(fees.creator + BPS - 1, BPS, 1);
    QuotientUnique(fees.Total() + BPS - 1, BPS, 1);
  }

  /**
   * With three rates and a total of at most 100% the budget after 10000 + total + 1 is accepted and buys
   * less: at 1, 1 and 1 basis points 10005 lamports buy less than 10004.
   */
  lemma BuyNotMonotone(fees: FeeBps)
    requires !SomeRateZero(fees) && fees.Total() <= BPS
    ensures var p, q := FinePool(BPS - 2, fees), BPS + fees.Total() + 1;
            && WellFormed(p) && Schedule(p) == Some(fees)
            && BothBought(p, fees, q, q + 1) && Bought(p, fees, q + 1) < Bought(p, fees, q)
  {
    hide FloorDiv, Drops, WellFormed, Schedule, BothBought, Bought, FinePool, FeeBps.Total, Charged, RoundedOnce;
    TotalPositive(fees);
    DropsAtOne(fees);
    DropsShift(1, fees);
    ChargedShift(1, fees);
    RoundedOne(fees);
    DropOnPool(BPS - 2, fees);
  }

  lemma TotalPositive(fees: FeeBps)
    requires !SomeRateZero(fees)
    ensures fees.Total() > 0
  {
  }

  lemma RoundedOne(fees: FeeBps)
    requires 0 < fees.Total() <= BPS
    ensures RoundedOnce(1, fees) == 1
  {
    hide FloorDiv;
    QuotientUnique(fees.Total() + BPS - 1, BPS, 1);
  }

  // ----- sells -----

  lemma SellOutMono(base: nat, effQ: nat, less: nat, more: nat)
    requires base > 0 && effQ > 0 && less <= more
    ensures QuoteOutFor(base, effQ, less) <= QuoteOutFor(base, effQ, more)
  {
    hide FloorDiv;
    RX.CurveMono(less, more, base, effQ);
    Commute(effQ, less);
    Commute(effQ, more);
  }

  lemma Commute(a: nat, b: nat)
    ensures a * b == b * a
  {
  }

  function NetOfFees(amount: nat, fees: FeeBps): int { amount - Charged(amount, fees) }

  predicate OneRateAtMost(fees: FeeBps) {
    (fees.lp == 0 && fees.protocol == 0) || (fees.lp == 0 && fees.creator == 0) || (fees.protocol == 0
        && fees.creator == 0)
  }

  function RateCount(fees: FeeBps): nat {
    (if fees.lp == 0 then 0 else 1) + (if fees.protocol == 0 then 0 else 1) + (if fees.creator == 0 then 0 else 1)
  }

  /** A single rate is one proportional fee. */
  lemma SingleRate(amount: nat, fees: FeeBps)
    requires OneRateAtMost(fees)
    ensures NetOfFees(amount, fees) == Fee.Net(amount, fees.Total(), BPS)
  {
    hide FloorDiv, CeilDiv;
    FeeCeilExact(amount, fees.Total());
    assert FeeCeil(amount, 0) == 0;
  }

  /** The lamports by which separate ceilings can exceed a single one. */
  function Excess(fees: FeeBps): nat { if RateCount(fees) <= 1 then 0 else RateCount(fees) - 1 }

  /** Each rate beyond the first can cost one lamport more than rounding once. */
  lemma CeilingsOverOne(amount: nat, fees: FeeBps)
    ensures RoundedOnce(amount, fees) <= Charged(amount, fees) <= RoundedOnce(amount, fees) + Excess(fees)
  {
    hide FeesOn, CeilDiv, FeeBps.Total, OneRateAtMost, SomeRateZero, RateCount;
    FeesOnBounds(amount, fees);
    NearCeiling(amount * fees.Total(), Charged(amount, fees));
    AtMostThree(fees);
    if OneRateAtMost(fees) {
      SingleRate(amount, fees);
    } else if SomeRateZero(fees) {
      TwoCeilings(amount, fees);
    }
  }

  lemma NearCeiling(x: nat, f: nat)
    requires x <= f * BPS < x + 3 * BPS
    ensures CeilDiv(x, BPS) <= f <= CeilDiv(x, BPS) + 2
  {
    hide CeilDiv;
    CeilAdjoint(x, BPS, f);
    CeilBounds(x, BPS);
  }

  lemma NetOfFeesAlmostMonotone(less: nat, more: nat, fees: FeeBps)
    requires fees.Total() < BPS && less <= more
    ensures NetOfFees(less, fees) - Excess(fees) <= NetOfFees(more, fees)
  {
    hide Charged, CeilDiv, Excess, FeeBps.Total;
    CeilingsOverOne(less, fees);
    CeilingsOverOne(more, fees);
    Fee.NetMono(less, more, fees.Total(), BPS);
  }

  /** Selling more nets less by at most one lamport for each rate beyond the first. */
  lemma PumpSellAlmostMonotone(p: Pool, fees: FeeBps, less: int, more: int)
    requires WellFormed(p) && less <= more && BothSold(p, fees, less, more)
    ensures QuoteSell(p, fees, less).amountOutToUser - Excess(fees) <= QuoteSell(p, fees, more).amountOutToUser
  {
    hide QuoteOutFor, FeesOn, TransferFeeWorstCase, Excess, FeeBps.Total;
    if fees.Total() >= BPS { NoSellAtFullRate(p, fees, less); }
    SellOutMono(p.base, EffQ(p), less, more);
    NetOfFeesAlmostMonotone(QuoteOutFor(p.base, EffQ(p), less), QuoteOutFor(p.base, EffQ(p), more), fees);
  }

  /** Fees of 100% or more leave nothing. */
  lemma NothingLeftAtFullRate(amount: nat, fees: FeeBps)
    requires fees.Total() >= BPS
    ensures NetOfFees(amount, fees) <= 0
  {
    hide FeesOn, FeeBps.Total;
    FeesOnBounds(amount, fees);
    MulMono(BPS, fees.Total(), amount);
  }

  lemma NoSellAtFullRate(p: Pool, fees: FeeBps, amountIn: int)
    requires fees.Total() >= BPS
    ensures QuoteSell(p, fees, amountIn).rejected
  {
    hide FeesOn, QuoteOutFor, TransferFeeWorstCase, FeeBps.Total;
    match SellBaseInput(MathState(p), fees, amountIn)
    case Ok(r) => NothingLeftAtFullRate(r.quoteAmountOut, fees);
    case Refused(_) =>
  }

  lemma FeeOnOne(bps: nat)
    requires bps <= BPS
    ensures FeeCeil(1, bps) == (if bps == 0 then 0 else 1) && FeeCeil(0, bps) == 0
  {
    hide FloorDiv;
    if bps > 0 { QuotientUnique(bps + BPS - 1, BPS, 1); }
  }

  lemma ChargedAtOne(fees: FeeBps)
    requires fees.Total() <= BPS
    ensures Charged(1, fees) == RateCount(fees) && Charged(0, fees) == 0
  {
    hide FeeCeil;
    FeeOnOne(fees.lp);
    FeeOnOne(fees.protocol);
    FeeOnOne(fees.creator);
  }

  /** Three periods of the fees, and one lamport more. */
  lemma NetAroundThreePeriods(n: nat, fees: FeeBps)
    requires n == 3 * BPS && fees.Total() <= BPS
    ensures NetOfFees(n, fees) == 3 * (BPS - fees.Total())
    ensures NetOfFees(n + 1, fees) == NetOfFees(n, fees) + 1 - RateCount(fees)
  {
    hide Charged, RoundedOnce, RateCount, FeeBps.Total;
    ChargedAtOne(fees);
    ChargedShift(0, fees);
    ChargedShift(BPS, fees);
    ChargedShift(2 * BPS, fees);
    ChargedShift(1, fees);
    ChargedShift(BPS + 1, fees);
    ChargedShift(2 * BPS + 1, fees);
  }

  /** A pool that pays out exactly `n` for `n` and `n + 1` for `n + 1`. */
  function EvenPool(n: nat, fees: FeeBps): Pool { FlatPool(1, n + 2, fees, None) }

  lemma EvenPoolOutputs(n: nat)
    ensures QuoteOutFor(1, n + 2, n) == n && QuoteOutFor(1, n + 2, n + 1) == n + 1
  {
    hide FloorDiv;
    Distribute(n, n, 2);
    Distribute(n, 1, n);
    QuotientUnique((n + 2) * n, 1 + n, n);
    QuotientUnique((n + 2) * (n + 1), 1 + (n + 1), n + 1);
  }

  lemma EvenSell(n: nat, fees: FeeBps, amountIn: nat)
    requires amountIn > 0 && QuoteOutFor(1, n + 2, amountIn) == amountIn <= n + 2 && NetOfFees(amountIn, fees) > 0
    ensures var q := QuoteSell(EvenPool(n, fees), fees, amountIn);
            !q.rejected && q.amountOutToUser == NetOfFees(amountIn, fees)
  {
    hide FeesOn, QuoteOutFor;
  }

  /** On this pool one more unit sold changes the proceeds by one lamport less the number of rates. */
  lemma SellDropOnPool(n: nat, fees: FeeBps)
    requires n == 3 * BPS && fees.Total() < BPS
    ensures var p := EvenPool(n, fees);
            && WellFormed(p) && Schedule(p) == Some(fees)
            && !QuoteSell(p, fees, n).rejected && !QuoteSell(p, fees, n + 1).rejected
            && QuoteSell(p, fees, n + 1).amountOutToUser == QuoteSell(p, fees, n).amountOutToUser + 1 - RateCount(fees)
  {
    hide NetOfFees, QuoteSell, QuoteOutFor, WellFormed, Schedule, RateCount, FeeBps.Total;
    FlatPoolFits(1, n + 2, fees, None);
    EvenPoolOutputs(n);
    NetAroundThreePeriods(n, fees);
    AtMostThree(fees);
    EvenSell(n, fees, n);
    EvenSell(n, fees, n + 1);
  }

  lemma AtMostThree(fees: FeeBps)
    ensures RateCount(fees) <= 3 && (RateCount(fees) <= 1 <==> OneRateAtMost(fees))
    ensures RateCount(fees) == 3 <==> !SomeRateZero(fees)
  {
  }

  /** Over every well-formed pool with the schedule, selling more nets no less. */
  ghost predicate SellsMonotone(fees: FeeBps) {
    forall p: Pool, less: int, more: int ::
        WellFormed(p) && Schedule(p) == Some(fees) && less <= more && BothSold(p, fees, less, more) ==>
      QuoteSell(p, fees, less).amountOutToUser <= QuoteSell(p, fees, more).amountOutToUser
  }

  predicate BothSold(p: Pool, fees: FeeBps, less: int, more: int) {
    !QuoteSell(p, fees, less).rejected && !QuoteSell(p, fees, more).rejected
  }

  /** Sells are monotone exactly with at most one rate, or when fees of 100% refuse every sell. */
  lemma SellsMonotoneIff(fees: FeeBps)
    ensures SellsMonotone(fees) <==> OneRateAtMost(fees) || fees.Total() >= BPS
  {
    hide WellFormed, Schedule, QuoteSell, RateCount, OneRateAtMost, FeeBps.Total, EvenPool, FloorDiv;
    if fees.Total() >= BPS {
      forall p: Pool, amountIn: int ensures QuoteSell(p, fees, amountIn).rejected {
        NoSellAtFullRate(p, fees, amountIn);
      }
    } else if OneRateAtMost(fees) {
      forall p: Pool, less: int, more: int | WellFormed(p) && less <= more && BothSold(p, fees, less, more)
        ensures QuoteSell(p, fees, less).amountOutToUser <= QuoteSell(p, fees, more).amountOutToUser
      {
        AtMostThree(fees);
        PumpSellAlmostMonotone(p, fees, less, more);
      }
    } else {
      var n := 3 * BPS;
      SellDropOnPool(n, fees);
      AtMostThree(fees);
      assert BothSold(EvenPool(n, fees), fees, n, n + 1);
    }
  }

  /** Below 100% the bound is reached, for every number of rates, between two accepted sells. */
  lemma SlackIsReached(n: nat, fees: FeeBps)
    requires n == 3 * BPS && RateCount(fees) >= 1 && fees.Total() < BPS
    ensures var p := EvenPool(n, fees);
            && WellFormed(p) && Schedule(p) == Some(fees) && BothSold(p, fees, n, n + 1)
            && QuoteSell(p, fees, n + 1).amountOutToUser == QuoteSell(p, fees, n).amountOutToUser - Excess(fees)
  {
    hide WellFormed, Schedule, QuoteSell, RateCount, EvenPool, FeeBps.Total;
    SellDropOnPool(n, fees);
  }

  // ----- the product of reserves -----

  predicate Accepted(p: Pool, isBuy: bool, amountIn: int) {
    var q := QuoteExactIn(p, isBuy, amountIn);
    q.Some? && !q.value.rejected
  }

  /** Applying the quote does not lower the product of the base and effective quote reserves. */
  predicate ProductKept(p: Pool, isBuy: bool, amountIn: int)
    requires Accepted(p, isBuy, amountIn)
  {
    var after := ApplySwap(p, QuoteExactIn(p, isBuy, amountIn).value);
    after.Applied? && p.base * EffQ(p) <= after.pool.base * EffQ(after.pool)
  }

  /** Every accepted trade on every well-formed pool with these transfer tiers and fees keeps the product. */
  ghost predicate TradesKeepProduct(tiers: Option<TF.TransferFeeConfig>, fees: FeeBps) {
    forall p: Pool, isBuy: bool, amountIn: int ::
      WellFormed(p) && p.transferTiers == tiers && Schedule(p) == Some(fees) && Accepted(p, isBuy, amountIn) ==>
          ProductKept(p, isBuy, amountIn)
  }

  lemma BuyKeepsProduct(p: Pool, fees: FeeBps, amountIn: int)
    requires WellFormed(p) && Schedule(p) == Some(fees) && Accepted(p, true, amountIn)
    ensures ProductKept(p, true, amountIn)
  {
    hide QuoteBuy, Schedule, FeeFreeBase;
    BuyMoves(p, fees, amountIn);
  }

  lemma SellKeepsProduct(p: Pool, fees: FeeBps, amountIn: int)
    requires WellFormed(p) && Schedule(p) == Some(fees) && Accepted(p, false, amountIn) && FeeFreeBase(p)
    ensures ProductKept(p, false, amountIn)
  {
    hide QuoteSell, Schedule, FeeFreeBase;
    SellMoves(p, fees, amountIn);
  }

  /** A mint with any transfer fee withholds the whole of a transfer of one unit. */
  lemma OneUnitWithheld(p: Pool)
    requires WellFormed(p) && !FeeFreeBase(p)
    ensures TransferFeeWorstCase(p, 1) == 1
  {
    hide FloorDiv;
    WorstCaseBounds(p, 1);
    var tiers := p.transferTiers.value;
    var tier := if tiers.older.bps > 0 && tiers.older.maxFee > 0 then tiers.older else tiers.newer;
    QuotientUnique(tier.bps + 9_999, 10_000, 1);
  }

  /** On any pool of such a mint an accepted sell of one unit strictly lowers the product. */
  lemma SellOfOneLowersProduct(p: Pool, fees: FeeBps)
    requires WellFormed(p) && !FeeFreeBase(p) && Schedule(p) == Some(fees) && Accepted(p, false, 1)
    ensures !ProductKept(p, false, 1)
  {
    hide QuoteSell, WellFormed, Schedule, FeeFreeBase, TransferFeeWorstCase;
    OneUnitWithheld(p);
    WithheldSellLowersProduct(p, fees, 1);
  }

  /** A pool that pays `n` for a single unit. */
  function DearPool(n: nat, fees: FeeBps, tiers: Option<TF.TransferFeeConfig>): Pool { FlatPool(1, 2 * n, fees, tiers) }

  lemma DearSell(n: nat, fees: FeeBps, tiers: Option<TF.TransferFeeConfig>)
    requires n == 3 * BPS && fees.Total() < BPS && ValidTiers(tiers)
    ensures var p := DearPool(n, fees, tiers);
            WellFormed(p) && Schedule(p) == Some(fees) && p.transferTiers == tiers && Accepted(p, false, 1)
  {
    hide FeesOn, TransferFeeWorstCase, WellFormed, Schedule, FeeBps.Total, FloorDiv, RateCount;
    FlatPoolFits(1, 2 * n, fees, tiers);
    QuotientUnique(2 * n, 2, n);
    NetAroundThreePeriods(n, fees);
  }

  /**
   * The product is kept by every accepted trade exactly when the base mint never charges a transfer fee,
   * or when fees of 100% refuse every sell.
   */
  lemma ProductKeptIff(tiers: Option<TF.TransferFeeConfig>, fees: FeeBps)
    requires ValidTiers(tiers)
    ensures TradesKeepProduct(tiers, fees) <==> FeeFreeTiers(tiers) || fees.Total() >= BPS
  {
    hide WellFormed, Schedule, ProductKept, QuoteBuy, QuoteSell, FeeFreeTiers, FeeBps.Total, FloorDiv, DearPool;
    if FeeFreeTiers(tiers) || fees.Total() >= BPS {
      forall p: Pool, isBuy: bool, amountIn: int
        | WellFormed(p) && p.transferTiers == tiers && Schedule(p) == Some(fees) && Accepted(p, isBuy, amountIn)
        ensures ProductKept(p, isBuy, amountIn)
      {
        if isBuy {
          BuyKeepsProduct(p, fees, amountIn);
        } else {
          if fees.Total() >= BPS { NoSellAtFullRate(p, fees, amountIn); }
          SellKeepsProduct(p, fees, amountIn);
        }
      }
    } else {
      var n := 3 * BPS;
      DearSell(n, fees, tiers);
      SellOfOneLowersProduct(DearPool(n, fees, tiers), fees);
    }
  }

  // ----- the re-derived budget -----

  /** The budget found is debited at most the amount, and no larger accepted budget is. */
  ghost predicate FindsLargest(fees: FeeBps) {
    forall p: Pool, amountIn: int, q: int ::
      WellFormed(p) && Schedule(p) == Some(fees) && SpendableBudgetFor(p, amountIn).Some?
          && BudgetFits(p, fees, q, amountIn) ==>
        q <= SpendableBudgetFor(p, amountIn).value
            && BudgetFits(p, fees, SpendableBudgetFor(p, amountIn).value, amountIn)
  }

  lemma FoundIsLargest(p: Pool, fees: FeeBps, amountIn: int, q: int)
    requires Schedule(p) == Some(fees) && fees.Total() <= BPS
    requires SpendableBudgetFor(p, amountIn).Some? && BudgetFits(p, fees, q, amountIn)
    ensures q <= SpendableBudgetFor(p, amountIn).value
    ensures BudgetFits(p, fees, SpendableBudgetFor(p, amountIn).value, amountIn)
  {
    hide Debit, EffectiveQuote, UncorrectedQuote, FeesOn, BaseOutFor, Schedule, FeeBps.Total, BuyQuoteInput;
    BudgetNeverOverdrawn(p, amountIn);
    AcceptedBuy(MathState(p), fees, q);
    DebitAtLeast(fees, q);
  }

  /** Above 100% a budget two lamports over its debit is missed. */
  lemma LargestMissed(fees: FeeBps)
    requires fees.Total() > BPS
    ensures var p, q := FlatPool(2, 1, fees, None), BPS + fees.Total() + 2;
            && WellFormed(p) && Schedule(p) == Some(fees)
            && BudgetFits(p, fees, q, q - 2) && BudgetFits(p, fees, q - 2, q - 2)
  {
    hide FloorDiv, FeesOn, UncorrectedQuote, WellFormed, Schedule, FeeBps.Total, BaseOutFor;
    var q := BPS + fees.Total() + 2;
    FlatPoolFits(2, 1, fees, None);
    DebitGapOfTwo(fees);
    FullPeriodBudget(fees);
    BuysSomething(EffectiveQuote(fees, q) - 1);
    BuysSomething(EffectiveQuote(fees, q - 2) - 1);
  }

  lemma FullPeriodBudget(fees: FeeBps)
    ensures var q := BPS + fees.Total(); UncorrectedQuote(fees, q) == BPS && EffectiveQuote(fees, q) == BPS && Debit(fees, q) == q
  {
    hide FloorDiv, FeesOn, FeeBps.Total, RoundedOnce;
    QuotientUnique((BPS + fees.Total()) * BPS, BPS + fees.Total(), BPS);
    ChargedShift(0, fees);
    NothingOnZero(fees);
  }

  lemma NothingOnZero(fees: FeeBps)
    ensures Charged(0, fees) == 0
  {
    hide CeilDiv;
  }

  lemma BuysSomething(c: nat)
    requires c >= 1
    ensures BaseOutFor(2, 1, c) >= 1
  {
    hide FloorDiv;
    FloorAdjoint(2 * c, 1 + c, 1);
  }

  /** The budget found is the largest, on every pool and for every amount, exactly when fees total at most 100%. */
  lemma FindsLargestIff(fees: FeeBps)
    ensures FindsLargest(fees) <==> fees.Total() <= BPS
  {
    hide WellFormed, Schedule, BudgetFits, FeeBps.Total, FloorDiv;
    if fees.Total() <= BPS {
      forall p: Pool, amountIn: int, q: int
        | Schedule(p) == Some(fees) && SpendableBudgetFor(p, amountIn).Some? && BudgetFits(p, fees, q, amountIn)
        ensures q <= SpendableBudgetFor(p, amountIn).value
        ensures BudgetFits(p, fees, SpendableBudgetFor(p, amountIn).value, amountIn)
      {
        FoundIsLargest(p, fees, amountIn, q);
      }
    } else {
      LargestMissed(fees);
      var p, q := FlatPool(2, 1, fees, None), BPS + fees.Total() + 2;
      assert SpendableBudgetFor(p, q - 2).Some? && SpendableBudgetFor(p, q - 2).value < q;
    }
  }
}
