/**
 * A fee of `rate/den` rounded up, seen as a map from gross to net amounts, together with its
 * lower adjoint (the least gross amount that still leaves a wanted net amount).
 */
module ProportionalFee {
  import opened Arith

  function Fee(gross: nat, rate: nat, den: nat): (fee: nat)
    requires den > 0
  {
    CeilDiv(gross * rate, den)
  }

  /** What is left of `gross`; a rate above `den` may make this negative. */
  function Net(gross: nat, rate: nat, den: nat): int
    requires den > 0
  {
    gross - Fee(gross, rate, den)
  }

  function LeastGross(net: nat, rate: nat, den: nat): nat
    requires rate < den
  {
    CeilDiv(net * den, den - rate)
  }

  lemma FeeAtMostGross(gross: nat, rate: nat, den: nat)
    requires 0 < den && rate <= den
    ensures Fee(gross, rate, den) <= gross
  {
    CeilAdjoint(gross * rate, den, gross);
    MulMono(rate, den, gross);
  }

  lemma ZeroRate(gross: nat, den: nat)
    requires den > 0
    ensures Fee(gross, 0, den) == 0 && Net(gross, 0, den) == gross
    ensures LeastGross(gross, 0, den) == gross
  {
    assert gross * 0 == 0;
    CeilAdjoint(gross * den, den, gross);
    CeilBounds(gross * den, den);
    MulCancel(gross, CeilDiv(gross * den, den), den);
  }

  lemma FeeMono(g: nat, h: nat, rate: nat, den: nat)
    requires 0 < den && g <= h
    ensures Fee(g, rate, den) <= Fee(h, rate, den)
  {
    MulMono(g, h, rate);
    CeilMono(g * rate, h * rate, den);
  }

  /** Gross amounts leaving at least `net` are exactly those from `LeastGross(net)` on. */
  lemma NetAdjoint(gross: nat, net: nat, rate: nat, den: nat)
    requires rate < den
    ensures Net(gross, rate, den) >= net <==> gross >= LeastGross(net, rate, den)
  {
    hide CeilDiv;
    CeilAdjoint(net * den, den - rate, gross);
    DistributeMinus(gross, den, rate);
    if gross >= net {
      CeilAdjoint(gross * rate, den, gross - net);
      DistributeMinus(den, gross, net);
    } else {
      MulMono(gross + 1, net, den);
      Distribute(den, gross, 1);
    }
  }

  lemma NetMono(g: nat, h: nat, rate: nat, den: nat)
    requires rate < den && g <= h
    ensures 0 <= Net(g, rate, den) <= Net(h, rate, den)
  {
    FeeAtMostGross(g, rate, den);
    NetAdjoint(g, Net(g, rate, den), rate, den);
    NetAdjoint(h, Net(g, rate, den), rate, den);
  }

  /** One more unit of gross adds at most one unit of net. */
  lemma NetStep(gross: nat, rate: nat, den: nat)
    requires rate < den
    ensures Net(gross + 1, rate, den) <= Net(gross, rate, den) + 1
  {
    FeeMono(gross, gross + 1, rate, den);
  }

  /** The least gross amount leaves the wanted net amount exactly. */
  lemma NetOfLeastGross(net: nat, rate: nat, den: nat)
    requires rate < den
    ensures Net(LeastGross(net, rate, den), rate, den) == net
    ensures LeastGross(net, rate, den) >= net
  {
    var g := LeastGross(net, rate, den);
    NetAdjoint(g, net, rate, den);
    if g > 0 {
      NetAdjoint(g - 1, net, rate, den);
      NetStep(g - 1, rate, den);
    } else {
      assert 0 * rate == 0;
    }
  }
}
