/**
 * The Token-2022 transfer fee: the exact port in raydium_cpmm/math.ts (lines 167-226), the short
 * form in state/token.ts (lines 87-100) and the fact that the two inverses agree and invert.
 */
module TransferFee {
  import opened Arith
  import opened Outcomes
  import Fee = ProportionalFee

  const MAX_FEE_BASIS_POINTS: nat := 10_000

  datatype TransferFeeTier = TransferFeeTier(epoch: nat, maxFee: nat, bps: nat)
  datatype TransferFeeConfig = TransferFeeConfig(older: TransferFeeTier, newer: TransferFeeTier)
  datatype TokenProgram = SplToken | Token2022
  datatype MintFeeView = MintFeeView(program: TokenProgram, transferFee: Option<TransferFeeConfig>)

  /** parseMint refuses a mint whose tiers exceed 10000 basis points. */
  predicate ValidTier(tier: TransferFeeTier) { tier.bps <= MAX_FEE_BASIS_POINTS }

  predicate ValidMint(mint: MintFeeView) {
    mint.transferFee.Some? ==> ValidTier(mint.transferFee.value.older) && ValidTier(mint.transferFee.value.newer)
  }

  function EpochFeeTier(cfg: TransferFeeConfig, epoch: nat): TransferFeeTier {
    if epoch >= cfg.newer.epoch then cfg.newer else cfg.older
  }

  function CalculateFee(tier: TransferFeeTier, preFeeAmount: nat): Checked<nat> {
    if tier.bps == 0 || preFeeAmount == 0 then Value(0)
    else
      var raw := FloorDiv(preFeeAmount * tier.bps + MAX_FEE_BASIS_POINTS - 1, MAX_FEE_BASIS_POINTS);
      if raw > U64_MAX then Null
      else Value(if raw < tier.maxFee then raw else tier.maxFee)
  }

  function CalculatePreFeeAmount(tier: TransferFeeTier, postFeeAmount: nat): Checked<nat> {
    if tier.bps > MAX_FEE_BASIS_POINTS then Null
    else if tier.bps == 0 then Value(postFeeAmount)
    else if postFeeAmount == 0 then Value(0)
    else if tier.bps == MAX_FEE_BASIS_POINTS then FitsU64(tier.maxFee + postFeeAmount)
    else
      var denominator := MAX_FEE_BASIS_POINTS - tier.bps;
      var raw := FloorDiv(postFeeAmount * MAX_FEE_BASIS_POINTS + denominator - 1, denominator);
      if raw - postFeeAmount >= tier.maxFee then FitsU64(postFeeAmount + tier.maxFee)
      else FitsU64(raw)
  }

  function CalculateInverseFee(tier: TransferFeeTier, postFeeAmount: nat): Checked<nat> {
    var pre :- CalculatePreFeeAmount(tier, postFeeAmount);
    CalculateFee(tier, pre)
  }

  /** raydium get_transfer_fee: `Throws` where the program unwraps a None. */
  function GetTransferFee(mint: MintFeeView, epoch: nat, preFeeAmount: nat): Checked<nat> {
    if mint.program.SplToken? || mint.transferFee.None? then Value(0)
    else CalculateFee(EpochFeeTier(mint.transferFee.value, epoch), preFeeAmount).Unwrap()
  }

  datatype InverseFee = Inverse(fee: nat) | InvalidInput | TransferFeeNotMatch | InverseOverflow

  function GetTransferInverseFee(mint: MintFeeView, epoch: nat, postFeeAmount: nat): InverseFee {
    if mint.program.SplToken? then Inverse(0)
    else if postFeeAmount == 0 then InvalidInput
    else if mint.transferFee.None? then Inverse(0)
    else
      var tier := EpochFeeTier(mint.transferFee.value, epoch);
      if tier.bps == MAX_FEE_BASIS_POINTS then Inverse(tier.maxFee)
      else
        match CalculateInverseFee(tier, postFeeAmount)
        case Value(fee) =>
          var sum := postFeeAmount + fee;
          if sum > U64_MAX then InverseOverflow
          else
            (match CalculateFee(tier, sum)
             case Value(check) => if check != fee then TransferFeeNotMatch else Inverse(fee)
             case _ => InverseOverflow)
        case _ => InverseOverflow
  }

  /** token.ts: transferFeeOn. */
  function TransferFeeOn(amount: nat, fee: Option<TransferFeeTier>): nat {
    if fee.None? || fee.value.bps == 0 || amount == 0 then 0
    else
      var raw := FloorDiv(amount * fee.value.bps + 9_999, 10_000);
      if raw > fee.value.maxFee then fee.value.maxFee else raw
  }

  /** token.ts: transferFeeInverse. */
  function TransferFeeInverse(net: nat, fee: Option<TransferFeeTier>): int
    requires fee.Some? ==> ValidTier(fee.value)
  {
    if fee.None? || fee.value.bps == 0 || net == 0 then 0
    else if fee.value.bps == 10_000 then fee.value.maxFee
    else
      var gross := FloorDiv(net * 10_000 + (10_000 - fee.value.bps) - 1, 10_000 - fee.value.bps);
      var f := gross - net;
      if f > fee.value.maxFee then fee.value.maxFee else f
  }

  // ----- the mathematical fee: no word-size limit -----

  function FeeOf(tier: TransferFeeTier, amount: nat): nat {
    Min(Fee.Fee(amount, tier.bps, MAX_FEE_BASIS_POINTS), tier.maxFee)
  }

  function NetOf(tier: TransferFeeTier, amount: nat): int { amount - FeeOf(tier, amount) }

  /** Least gross amount that delivers `net`. */
  function GrossFor(tier: TransferFeeTier, net: nat): nat
    requires ValidTier(tier)
  {
    if net == 0 then 0
    else if tier.bps == MAX_FEE_BASIS_POINTS then net + tier.maxFee
    else Min(Fee.LeastGross(net, tier.bps, MAX_FEE_BASIS_POINTS), net + tier.maxFee)
  }

  lemma FeeOfBounds(tier: TransferFeeTier, amount: nat)
    requires ValidTier(tier)
    ensures FeeOf(tier, amount) <= amount
  {
    Fee.FeeAtMostGross(amount, tier.bps, MAX_FEE_BASIS_POINTS);
  }

  /** The checked fee is the mathematical one whenever the amount is a u64. */
  lemma CalculateFeeExact(tier: TransferFeeTier, amount: nat)
    requires ValidTier(tier) && amount <= U64_MAX
    ensures CalculateFee(tier, amount) == Value(FeeOf(tier, amount))
    ensures TransferFeeOn(amount, Some(tier)) == FeeOf(tier, amount)
  {
    FeeOfBounds(tier, amount);
    Fee.FeeAtMostGross(amount, tier.bps, MAX_FEE_BASIS_POINTS);
    ShortFeeExact(tier, amount);
  }

  /** Gross amounts delivering at least `net` are exactly those from `GrossFor(net)` on. */
  lemma NetOfAdjoint(tier: TransferFeeTier, gross: nat, net: nat)
    requires ValidTier(tier)
    ensures NetOf(tier, gross) >= net <==> gross >= GrossFor(tier, net)
  {
    FeeOfBounds(tier, gross);
    if net > 0 {
      if tier.bps == MAX_FEE_BASIS_POINTS {
        FullRate(gross);
      } else {
        Fee.NetAdjoint(gross, net, tier.bps, MAX_FEE_BASIS_POINTS);
      }
    }
  }

  lemma FullRate(gross: nat)
    ensures Fee.Fee(gross, MAX_FEE_BASIS_POINTS, MAX_FEE_BASIS_POINTS) == gross
  {
    CeilBounds(gross * MAX_FEE_BASIS_POINTS, MAX_FEE_BASIS_POINTS);
  }

  /** The least gross amount delivers the wanted amount exactly. */
  lemma NetOfGrossFor(tier: TransferFeeTier, net: nat)
    requires ValidTier(tier)
    ensures GrossFor(tier, net) >= net
    ensures NetOf(tier, GrossFor(tier, net)) == net
  {
    var gross := GrossFor(tier, net);
    NetOfAdjoint(tier, gross, net);
    FeeOfBounds(tier, gross);
    if net > 0 {
      NetOfAdjoint(tier, gross - 1, net);
      Fee.FeeMono(gross - 1, gross, tier.bps, MAX_FEE_BASIS_POINTS);
    }
  }

  lemma NetOfMono(tier: TransferFeeTier, g: nat, h: nat)
    requires ValidTier(tier) && g <= h
    ensures 0 <= NetOf(tier, g) <= NetOf(tier, h)
  {
    FeeOfBounds(tier, g);
    NetOfAdjoint(tier, g, NetOf(tier, g));
    NetOfAdjoint(tier, h, NetOf(tier, g));
  }

  /** The fee the short inverse names is the one that turns `net` into its least gross amount. */
  lemma ShortInverseExact(tier: TransferFeeTier, net: nat)
    requires ValidTier(tier)
    ensures net + TransferFeeInverse(net, Some(tier)) == GrossFor(tier, net)
  {
    Fee.ZeroRate(net, MAX_FEE_BASIS_POINTS);
  }

  /**
   * Both inverses agree for every amount and valid tier: the exact port refuses precisely when the
   * gross amount leaves u64 (a zero rate is never refused), and otherwise names the same fee.
   */
  lemma InversesAgree(tier: TransferFeeTier, net: nat)
    requires ValidTier(tier)
    ensures CalculateInverseFee(tier, net) ==
            if tier.bps != 0 && net != 0 && GrossFor(tier, net) > U64_MAX then Null
            else Value(TransferFeeInverse(net, Some(tier)))
  {
    ShortInverseExact(tier, net);
    if tier.bps != 0 && net != 0 && GrossFor(tier, net) <= U64_MAX {
      NetOfGrossFor(tier, net);
      PreFeeExact(tier, net);
      CalculateFeeExact(tier, GrossFor(tier, net));
    } else if tier.bps != 0 && net != 0 {
      PreFeeExact(tier, net);
    }
  }

  lemma PreFeeExact(tier: TransferFeeTier, net: nat)
    requires ValidTier(tier) && tier.bps != 0 && net != 0
    ensures CalculatePreFeeAmount(tier, net) == FitsU64(GrossFor(tier, net))
  {
    if tier.bps != MAX_FEE_BASIS_POINTS {
      Fee.NetOfLeastGross(net, tier.bps, MAX_FEE_BASIS_POINTS);
    }
  }

  /** The inverse fee yields the least gross amount that still delivers the wanted amount. */
  lemma InverseFeeIsLeast(tier: TransferFeeTier, net: nat, gross: nat)
    requires ValidTier(tier)
    ensures var least := net + TransferFeeInverse(net, Some(tier));
            && least >= 0
            && least - TransferFeeOn(least, Some(tier)) == net
            && (gross - TransferFeeOn(gross, Some(tier)) >= net <==> gross >= least)
  {
    ShortInverseExact(tier, net);
    NetOfGrossFor(tier, net);
    NetOfAdjoint(tier, gross, net);
    ShortFeeExact(tier, gross);
    ShortFeeExact(tier, GrossFor(tier, net));
  }

  lemma ShortFeeExact(tier: TransferFeeTier, amount: nat)
    ensures TransferFeeOn(amount, Some(tier)) == FeeOf(tier, amount)
  {
    if tier.bps == 0 || amount == 0 {
      assert amount * tier.bps == 0;
    } else {
      RoundUp(amount * tier.bps);
    }
  }

  lemma RoundUp(x: nat)
    ensures FloorDiv(x + 9_999, 10_000) == CeilDiv(x, 10_000)
  {
  }

  // ----- per-mint view used by the swaps -----

  function MintTier(mint: MintFeeView, epoch: nat): TransferFeeTier {
    if mint.program.SplToken? || mint.transferFee.None? then TransferFeeTier(0, 0, 0)
    else EpochFeeTier(mint.transferFee.value, epoch)
  }

  lemma GetTransferFeeExact(mint: MintFeeView, epoch: nat, amount: nat)
    requires ValidMint(mint) && amount <= U64_MAX
    ensures GetTransferFee(mint, epoch, amount) == Value(FeeOf(MintTier(mint, epoch), amount))
    ensures ValidTier(MintTier(mint, epoch))
    ensures FeeOf(MintTier(mint, epoch), amount) <= amount
  {
    CalculateFeeExact(MintTier(mint, epoch), amount);
    FeeOfBounds(MintTier(mint, epoch), amount);
  }

  /**
   * On a positive amount the inverse lookup never reports a mismatch: either the gross amount fits
   * u64 and the fee leading to it is returned, or the program panics.  A full-rate tier is the one
   * case where the fee comes back unchecked.
   */
  lemma GetTransferInverseFeeExact(mint: MintFeeView, epoch: nat, post: nat)
    requires ValidMint(mint) && 0 < post <= U64_MAX
    ensures var tier := MintTier(mint, epoch);
            && ValidTier(tier)
            && GrossFor(tier, post) >= post
            && GetTransferInverseFee(mint, epoch, post) ==
               if GrossFor(tier, post) > U64_MAX && tier.bps != MAX_FEE_BASIS_POINTS then InverseOverflow
               else Inverse(GrossFor(tier, post) - post)
  {
    hide FloorDiv, CeilDiv, FeeOf, GrossFor;
    var tier := MintTier(mint, epoch);
    NetOfGrossFor(tier, post);
    ShortInverseExact(tier, post);
    InversesAgree(tier, post);
    Fee.ZeroRate(post, MAX_FEE_BASIS_POINTS);
    if GrossFor(tier, post) <= U64_MAX {
      CalculateFeeExact(tier, GrossFor(tier, post));
    }
  }

  // ----- the fee in force -----

  /**
   * `fee` is what a mint withholds from a transfer at an epoch: nothing for the legacy program or a mint
   * without the extension, otherwise the newer tier's rate from that tier's epoch on and the older one's
   * before, rounded up and capped by the tier's maximum.
   */
  predicate FeeInForce(fee: nat, amount: nat, mint: MintFeeView, epoch: nat) {
    if mint.program.SplToken? || mint.transferFee.None? then fee == 0
    else
      var cfg := mint.transferFee.value;
      if cfg.newer.epoch <= epoch then CappedCeiling(fee, amount, cfg.newer.bps, cfg.newer.maxFee)
      else CappedCeiling(fee, amount, cfg.older.bps, cfg.older.maxFee)
  }

  predicate CappedCeiling(fee: nat, amount: nat, bps: nat, maxFee: nat) {
    fee <= maxFee && fee * 10_000 < amount * bps + 10_000 && (fee < maxFee ==> amount * bps <= fee * 10_000)
  }

  lemma FeeOfCapped(tier: TransferFeeTier, amount: nat)
    ensures CappedCeiling(FeeOf(tier, amount), amount, tier.bps, tier.maxFee)
  {
    hide CeilDiv;
    CeilBounds(amount * tier.bps, MAX_FEE_BASIS_POINTS);
  }

  /** There is only one such fee. */
  lemma FeeInForceUnique(fee: nat, other: nat, amount: nat, mint: MintFeeView, epoch: nat)
    requires FeeInForce(fee, amount, mint, epoch) && FeeInForce(other, amount, mint, epoch)
    ensures fee == other
  {
  }

  /** The fee the swaps take is the one in force. */
  lemma SwapFeeInForce(mint: MintFeeView, epoch: nat, amount: nat)
    requires ValidMint(mint) && amount <= U64_MAX
    ensures GetTransferFee(mint, epoch, amount).Value?
              && FeeInForce(GetTransferFee(mint, epoch, amount).value, amount, mint, epoch)
  {
    hide FeeOf, GetTransferFee, CappedCeiling;
    GetTransferFeeExact(mint, epoch, amount);
    FeeOfCapped(MintTier(mint, epoch), amount);
    ZeroTierFree(amount);
  }

  lemma ZeroTierFree(amount: nat)
    ensures FeeOf(TransferFeeTier(0, 0, 0), amount) == 0
  {
    hide FloorDiv;
  }
}
