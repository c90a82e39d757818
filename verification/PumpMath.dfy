/**
 * The PumpSwap swap arithmetic of src/adapters/pumpswap/math.ts: ceiling fees, the effective quote
 * reserve, exact-base buys, the fee-inverting quote buys with their single correction, and sells.
 */
module PumpMath {
  import opened Arith

  const BPS: nat := 10_000

  /** `quoteReserve` is the raw vault balance; pricing adds the virtual reserves. */
  datatype PoolMathState = PoolMathState(baseReserve: int, quoteReserve: int, virtualQuoteReserves: int)

  datatype FeeBps = FeeBps(lp: nat, protocol: nat, creator: nat) {
    function Total(): nat { lp + protocol + creator }
  }

  datatype Reject = NegativeVirtualQuoteReserves | EmptyPool | ZeroAmount | BuyExceedsReserves | AmountTooSmall | ZeroOut | BoostRealReserveCap

  datatype MathResult<+T> = Ok(value: T) | Refused(reason: Reject)

  function FeeCeil(amount: nat, bps: nat): nat {
    if bps == 0 || amount == 0 then 0 else CeilDiv(amount * bps, BPS)
  }

  /** The three fees charged on one amount, each rounded up on its own. */
  datatype Fees = Fees(lp: nat, protocol: nat, creator: nat) {
    function Sum(): nat { lp + protocol + creator }
  }

  function FeesOn(amount: nat, fees: FeeBps): Fees {
    Fees(FeeCeil(amount, fees.lp), FeeCeil(amount, fees.protocol), FeeCeil(amount, fees.creator))
  }

  /** An accepted effective reserve is positive, and so is the base reserve. */
  function EffectiveQuoteReserve(s: PoolMathState): (r: MathResult<nat>)
    ensures r.Ok? ==> r.value > 0 && s.baseReserve > 0 && r.value == s.quoteReserve + s.virtualQuoteReserves
  {
    if s.virtualQuoteReserves < 0 then Refused(NegativeVirtualQuoteReserves)
    else
      var effQ := s.quoteReserve + s.virtualQuoteReserves;
      if effQ <= 0 || s.baseReserve <= 0 then Refused(EmptyPool) else Ok(effQ)
  }

  // ----- buy(base_amount_out): exact base out -----

  datatype BuyBase = BuyBase(baseOut: nat, quoteAmountIn: nat, fees: Fees, userQuoteIn: nat, effQ: nat)

  function BuyBaseInput(s: PoolMathState, fees: FeeBps, baseOut: int): MathResult<BuyBase> {
    match EffectiveQuoteReserve(s)
    case Refused(reason) => Refused(reason)
    case Ok(effQ) =>
      if baseOut <= 0 then Refused(ZeroAmount)
      else if baseOut >= s.baseReserve then Refused(BuyExceedsReserves)
      else
        var quoteAmountIn := CeilDiv(effQ * baseOut, s.baseReserve - baseOut);
        var f := FeesOn(quoteAmountIn, fees);
        Ok(BuyBase(baseOut, quoteAmountIn, f, quoteAmountIn + f.Sum(), effQ))
  }

  // ----- buy_exact_quote_in(spendable_quote_in) -----

  /** floor(quote * 10000 / (10000 + total)). */
  function UncorrectedQuote(fees: FeeBps, quote: nat): nat {
    FloorDiv(quote * BPS, BPS + fees.Total())
  }

  /** The quote reaching the curve side: one correction, fees not recomputed. */
  function EffectiveQuote(fees: FeeBps, quote: nat): int {
    var e := UncorrectedQuote(fees, quote);
    var withFees := e + FeesOn(e, fees).Sum();
    if withFees > quote then e - (withFees - quote) else e
  }

  /** What the user is debited: the corrected quote plus the uncorrected fees. */
  function Debit(fees: FeeBps, quote: nat): int {
    EffectiveQuote(fees, quote) + FeesOn(UncorrectedQuote(fees, quote), fees).Sum()
  }

  function BaseOutFor(base: nat, effQ: nat, curveInput: nat): nat
    requires effQ + curveInput > 0
  {
    FloorDiv(base * curveInput, effQ + curveInput)
  }

  datatype BuyQuote = BuyQuote(spendable: nat, effectiveQuote: nat, fees: Fees, totalWithFees: nat, curveInput: nat,
      baseOut: nat, effQ: nat)

  function BuyQuoteInput(s: PoolMathState, fees: FeeBps, quote: int): MathResult<BuyQuote> {
    match EffectiveQuoteReserve(s)
    case Refused(reason) => Refused(reason)
    case Ok(effQ) =>
      if quote <= 0 then Refused(ZeroAmount)
      else
        var effectiveQuote := EffectiveQuote(fees, quote);
        var curveInput := effectiveQuote - 1;
        if curveInput <= 0 then Refused(AmountTooSmall)
        else
          var baseOut := BaseOutFor(s.baseReserve, effQ, curveInput);
          if baseOut <= 0 then Refused(ZeroOut)
          else
            var f := FeesOn(UncorrectedQuote(fees, quote), fees);
            Ok(BuyQuote(quote, effectiveQuote, f, effectiveQuote + f.Sum(), curveInput, baseOut, effQ))
  }

  // ----- sell(base_amount_in) -----

  datatype Sell = Sell(baseIn: nat, quoteAmountOut: nat, fees: Fees, userQuoteOut: nat, effQ: nat)

  function QuoteOutFor(base: nat, effQ: nat, baseIn: nat): nat
    requires base + baseIn > 0
  {
    FloorDiv(effQ * baseIn, base + baseIn)
  }

  function SellBaseInput(s: PoolMathState, fees: FeeBps, baseIn: int): MathResult<Sell> {
    match EffectiveQuoteReserve(s)
    case Refused(reason) => Refused(reason)
    case Ok(effQ) =>
      if baseIn <= 0 then Refused(ZeroAmount)
      else
        var quoteAmountOut := QuoteOutFor(s.baseReserve, effQ, baseIn);
        var f := FeesOn(quoteAmountOut, fees);
        if s.quoteReserve < quoteAmountOut - f.lp then Refused(BoostRealReserveCap)
        else if quoteAmountOut - f.Sum() <= 0 then Refused(ZeroOut)
        else Ok(Sell(baseIn, quoteAmountOut, f, quoteAmountOut - f.Sum(), effQ))
  }

  // ----- the fee on one amount -----

  lemma FeeCeilExact(amount: nat, bps: nat)
    ensures FeeCeil(amount, bps) == CeilDiv(amount * bps, BPS)
    ensures amount * bps <= FeeCeil(amount, bps) * BPS < amount * bps + BPS
    ensures amount * bps == 0 ==> FeeCeil(amount, bps) == 0
  {
    hide FloorDiv;
    if bps == 0 || amount == 0 {
      assert amount * bps == 0;
      QuotientUnique(BPS - 1, BPS, 0);
    }
    CeilBounds(amount * bps, BPS);
  }

  lemma FeeCeilMono(a: nat, b: nat, bps: nat)
    requires a <= b
    ensures FeeCeil(a, bps) <= FeeCeil(b, bps)
  {
    hide FeeCeil, CeilDiv;
    FeeCeilExact(a, bps);
    FeeCeilExact(b, bps);
    MulMono(a, b, bps);
    CeilMono(a * bps, b * bps, BPS);
  }

  /** Three separate ceilings exceed the combined rate by less than three lamports. */
  lemma FeesOnBounds(amount: nat, fees: FeeBps)
    ensures amount * fees.Total() <= FeesOn(amount, fees).Sum() * BPS < amount * fees.Total() + 3 * BPS
  {
    hide FeeCeil, FeeBps.Total, Fees.Sum;
    OneCeiling(amount, fees.lp);
    OneCeiling(amount, fees.protocol);
    OneCeiling(amount, fees.creator);
    ThreeCeilings(amount, fees, FeesOn(amount, fees));
  }

  lemma OneCeiling(amount: nat, bps: nat)
    ensures amount * bps <= FeeCeil(amount, bps) * BPS < amount * bps + BPS
  {
    hide FeeCeil, CeilDiv;
    FeeCeilExact(amount, bps);
  }

  lemma ThreeCeilings(a: nat, fees: FeeBps, f: Fees)
    requires a * fees.lp <= f.lp * BPS < a * fees.lp + BPS
    requires a * fees.protocol <= f.protocol * BPS < a * fees.protocol + BPS
    requires a * fees.creator <= f.creator * BPS < a * fees.creator + BPS
    ensures a * fees.Total() <= f.Sum() * BPS < a * fees.Total() + 3 * BPS
  {
    SplitTotal(a, fees);
  }

  lemma SplitTotal(a: nat, fees: FeeBps)
    ensures a * fees.Total() == a * fees.lp + a * fees.protocol + a * fees.creator
  {
    Distribute(a, fees.lp, fees.protocol);
    Distribute(a, fees.lp + fees.protocol, fees.creator);
  }

  lemma FeesOnMono(a: nat, b: nat, fees: FeeBps)
    requires a <= b
    ensures FeesOn(a, fees).lp <= FeesOn(b, fees).lp && FeesOn(a, fees).Sum() <= FeesOn(b, fees).Sum()
  {
    hide FeeCeil;
    FeeCeilMono(a, b, fees.lp);
    FeeCeilMono(a, b, fees.protocol);
    FeeCeilMono(a, b, fees.creator);
  }

  // ----- bounds on the quote inversion -----

  lemma UncorrectedBounds(fees: FeeBps, quote: nat)
    ensures var e, t := UncorrectedQuote(fees, quote), fees.Total();
            e * BPS + e * t <= quote * BPS < e * BPS + e * t + BPS + t
  {
    hide FloorDiv;
    var e, t := UncorrectedQuote(fees, quote), fees.Total();
    FloorBounds(quote * BPS, BPS + t);
    Distribute(e, BPS, t);
  }

  lemma UncorrectedMono(fees: FeeBps, q: nat, r: nat)
    requires q <= r
    ensures UncorrectedQuote(fees, q) <= UncorrectedQuote(fees, r)
  {
    hide FloorDiv;
    var t := fees.Total();
    var e := FloorDiv(q * BPS, BPS + t);
    FloorAdjoint(q * BPS, BPS + t, e);
    FloorAdjoint(r * BPS, BPS + t, e);
  }

  /** Whatever the fee rates, the correction takes back at most two lamports. */
  lemma CorrectionAtMostTwo(fees: FeeBps, quote: nat)
    ensures UncorrectedQuote(fees, quote) - 2 <= EffectiveQuote(fees, quote) <= UncorrectedQuote(fees, quote)
    ensures Debit(fees, quote) <= quote
  {
    hide UncorrectedQuote, FeesOn;
    var e, t := UncorrectedQuote(fees, quote), fees.Total();
    UncorrectedBounds(fees, quote);
    FeesOnBounds(e, fees);
  }

  /** A larger budget never lowers the effective quote by more than one lamport. */
  lemma EffectiveQuoteAlmostMonotone(fees: FeeBps, q: nat, r: nat)
    requires q <= r
    ensures EffectiveQuote(fees, q) - 1 <= EffectiveQuote(fees, r)
    ensures UncorrectedQuote(fees, q) == UncorrectedQuote(fees, r) ==>
              EffectiveQuote(fees, q) <= EffectiveQuote(fees, r)
  {
    hide UncorrectedQuote, FeesOn;
    UncorrectedMono(fees, q, r);
    if UncorrectedQuote(fees, q) < UncorrectedQuote(fees, r) {
      CorrectionAtMostTwo(fees, q);
      CorrectionAtMostTwo(fees, r);
    }
  }

  /** The debit is the budget or one lamport less, for every budget, exactly when fees total at most 100%. */
  lemma DebitWithinOneLamport(fees: FeeBps)
    ensures (forall quote: nat :: quote - 1 <= Debit(fees, quote) <= quote) <==> fees.Total() <= BPS
  {
    hide EffectiveQuote, UncorrectedQuote, FeesOn, FeeBps.Total, Debit;
    if fees.Total() <= BPS {
      forall quote: nat ensures quote - 1 <= Debit(fees, quote) <= quote {
        DebitAtLeast(fees, quote);
        CorrectionAtMostTwo(fees, quote);
      }
    } else {
      var quote := BPS + fees.Total() + 2;
      DebitGapOfTwo(fees);
      assert !(quote - 1 <= Debit(fees, quote));
    }
  }

  lemma DebitAtLeast(fees: FeeBps, quote: nat)
    requires fees.Total() <= BPS
    ensures quote - 1 <= Debit(fees, quote)
  {
    hide UncorrectedQuote, FeesOn;
    var e, t := UncorrectedQuote(fees, quote), fees.Total();
    UncorrectedBounds(fees, quote);
    FeesOnBounds(e, fees);
  }

  /** Above 100% the budget 10000 + total + 2 strands two lamports. */
  lemma DebitGapOfTwo(fees: FeeBps)
    requires fees.Total() > BPS
    ensures var quote := BPS + fees.Total() + 2;
            UncorrectedQuote(fees, quote) == BPS && Debit(fees, quote) == quote - 2
  {
    hide FloorDiv, FeeCeil;
    var quote, t := BPS + fees.Total() + 2, fees.Total();
    QuotientUnique(quote * BPS, BPS + t, BPS);
    FeeCeilExact(BPS, fees.lp);
    FeeCeilExact(BPS, fees.protocol);
    FeeCeilExact(BPS, fees.creator);
  }

  // ----- the curve -----

  lemma BuyCurve(base: nat, effQ: nat, curveInput: nat)
    requires base > 0 && effQ > 0
    ensures var out := BaseOutFor(base, effQ, curveInput);
            out < base && base * effQ <= (base - out) * (effQ + curveInput)
  {
    hide FloorDiv;
    var out := BaseOutFor(base, effQ, curveInput);
    FloorBounds(base * curveInput, effQ + curveInput);
    Distribute(base, effQ, curveInput);
    DistributeMinus(effQ + curveInput, base, out);
    if out >= base { MulMono(base, out, effQ + curveInput); MulMono2(1, base, 1, effQ); }
  }

  lemma BuyCurveMono(base: nat, effQ: nat, c: nat, d: nat)
    requires effQ > 0 && c <= d
    ensures BaseOutFor(base, effQ, c) <= BaseOutFor(base, effQ, d)
  {
    hide FloorDiv;
    var out := BaseOutFor(base, effQ, c);
    FloorAdjoint(base * c, effQ + c, out);
    FloorAdjoint(base * d, effQ + d, out);
    BuyOutAtMostBase(base, effQ, c);
    Distribute(out, effQ, c);
    Distribute(out, effQ, d);
    DistributeMinus(base, d, c);
    DistributeMinus(out, d, c);
    MulMono(out, base, d - c);
  }

  /** An exact-base buy asks for the least curve input that buys the wanted base. */
  lemma BuyBaseAsksLeast(s: PoolMathState, fees: FeeBps, baseOut: int, curveInput: nat)
    requires BuyBaseInput(s, fees, baseOut).Ok?
    ensures var r := BuyBaseInput(s, fees, baseOut).value;
            && s.baseReserve > 0 && r.effQ > 0
            && (BaseOutFor(s.baseReserve, r.effQ, curveInput) >= baseOut <==> curveInput >= r.quoteAmountIn)
  {
    hide FloorDiv, CeilDiv, FeesOn;
    var base, effQ := s.baseReserve, EffectiveQuoteReserve(s).value;
    FloorAdjoint(base * curveInput, effQ + curveInput, baseOut);
    CeilAdjoint(effQ * baseOut, base - baseOut, curveInput);
    Distribute(baseOut, effQ, curveInput);
    DistributeMinus(curveInput, base, baseOut);
  }

  lemma BuyOutAtMostBase(base: nat, effQ: nat, c: nat)
    requires effQ > 0
    ensures BaseOutFor(base, effQ, c) <= base
  {
    hide FloorDiv;
    FloorBounds(base * c, effQ + c);
    Distribute(base, effQ, c);
    MulCancel(BaseOutFor(base, effQ, c), base, effQ + c);
  }

  lemma SellCurve(base: nat, effQ: nat, baseIn: nat)
    requires base > 0 && effQ > 0
    ensures var out := QuoteOutFor(base, effQ, baseIn);
            out < effQ && base * effQ <= (base + baseIn) * (effQ - out)
  {
    hide FloorDiv;
    var out := QuoteOutFor(base, effQ, baseIn);
    FloorBounds(effQ * baseIn, base + baseIn);
    Distribute(effQ, base, baseIn);
    DistributeMinus(base + baseIn, effQ, out);
    if out >= effQ { MulMono(effQ, out, base + baseIn); MulMono2(1, base, 1, effQ); }
  }
}
