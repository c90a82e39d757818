/**
 * What the search of `sizeCircuit` achieves (src/routing/circuit.ts): the bracket keeps the peak of a
 * profit that rises and then never rises again, it shrinks by a third of its width a step, and enough
 * steps therefore find a size within one lamport of the peak.
 */
module Sizing {
  import opened Outcomes
  import opened Circuit
  import FeeWall
  import PM = PumpMath
  import Executor

  // ----- what is recorded -----

  lemma RecordHas(c: Circuit, evaluated: seq<Point>, x: int, y: int)
    ensures Has(Record(c, evaluated, x), y) <==> Has(evaluated, y) || y == x
  {
    hide EvaluateCircuit;
    if !Has(evaluated, x) {
      var after := Record(c, evaluated, x);
      assert after[|evaluated|].amountIn == x;
      assert forall i :: 0 <= i < |evaluated| ==> after[i] == evaluated[i];
    }
  }

  /** Exactly the sizes asked for are added. */
  lemma {:induction false} RecordedHas(c: Circuit, evaluated: seq<Point>, xs: seq<int>, y: int)
    ensures Has(Recorded(c, evaluated, xs), y) <==> Has(evaluated, y) || y in xs
    decreases |xs|
  {
    hide Has, Record;
    if xs != [] {
      RecordHas(c, evaluated, xs[0], y);
      RecordedHas(c, Record(c, evaluated, xs[0]), xs[1..], y);
      assert xs == [xs[0]] + xs[1..];
    }
  }

  // ----- the search moves towards profit -----

  ghost function ProfitAt(c: Circuit, x: int): int { Comparable(EvaluateCircuit(c, x)) }

  /** The comparable pnl rises strictly up to `peak` and never rises after it. */
  ghost predicate Peaked(c: Circuit, lo: int, hi: int, peak: int) {
    && lo <= peak <= hi
    && (forall x, y :: lo <= x < y <= peak ==> ProfitAt(c, x) < ProfitAt(c, y))
    && (forall x, y :: peak <= x < y <= hi ==> ProfitAt(c, x) >= ProfitAt(c, y))
  }

  lemma NarrowedKeepsPeak(c: Circuit, lo: int, hi: int, peak: int)
    requires hi - lo > 1 && Peaked(c, lo, hi, peak)
    ensures var b := Narrowed(c, lo, hi); Peaked(c, b.0, b.1, peak)
  {
    hide EvaluateCircuit, Comparable, Thirds;
    var m := Thirds(lo, hi);
    assert Comparable(EvaluateCircuit(c, m.0)) == ProfitAt(c, m.0)
        && Comparable(EvaluateCircuit(c, m.1)) == ProfitAt(c, m.1);
  }

  lemma InBracket(c: Circuit, lo: int, hi: int, peak: int)
    requires Peaked(c, lo, hi, peak)
    ensures lo <= peak <= hi
  {
  }

  /** No step ever discards the peak. */
  lemma {:induction false} NarrowKeepsPeak(c: Circuit, lo: int, hi: int, n: nat, peak: int)
    requires Peaked(c, lo, hi, peak)
    ensures var b := Narrow(c, lo, hi, n); Peaked(c, b.0, b.1, peak) && b.0 <= peak <= b.1
    decreases n
  {
    hide EvaluateCircuit, Peaked, Narrowed;
    InBracket(c, lo, hi, peak);
    if n > 0 && hi - lo > 1 {
      NarrowedKeepsPeak(c, lo, hi, peak);
      var b := Narrowed(c, lo, hi);
      NarrowKeepsPeak(c, b.0, b.1, n - 1, peak);
    }
  }

  // ----- and gets there -----

  function Pow(b: nat, n: nat): nat { if n == 0 then 1 else b * Pow(b, n - 1) }

  /** One step takes off a third of the width, rounded down. */
  lemma NarrowedWidth(c: Circuit, lo: int, hi: int)
    requires hi - lo > 1
    ensures var b := Narrowed(c, lo, hi); lo <= b.0 < b.1 <= hi && b.1 - b.0 == (hi - lo) - (hi - lo) / 3
  {
    hide EvaluateCircuit, Comparable;
  }

  lemma ShrinkScaled(w: nat, v: nat, u: nat, p: nat, q: nat)
    requires 2 <= w && 2 <= v && 3 * (v - 2) <= 2 * (w - 2) && 2 <= u && (u - 2) * q <= p * (v - 2)
    ensures (u - 2) * (3 * q) <= (2 * p) * (w - 2)
  {
    var a, b, d := u - 2, v - 2, w - 2;
    assert a * (3 * q) == 3 * (a * q);
    assert 3 * (p * b) == p * (3 * b);
    assert p * (3 * b) <= p * (2 * d);
    assert (2 * p) * d == p * (2 * d);
  }

  /** After `n` steps at most (2/3)^n of the width beyond two is left, and never less than two. */
  lemma {:induction false} NarrowWidth(c: Circuit, lo: int, hi: int, n: nat)
    requires hi - lo >= 2
    ensures var b := Narrow(c, lo, hi, n);
            lo <= b.0 && b.1 <= hi && b.1 - b.0 >= 2 && (b.1 - b.0 - 2) * Pow(3, n) <= Pow(2, n) * (hi - lo - 2)
    decreases n
  {
    hide EvaluateCircuit, Narrowed;
    if n > 0 {
      NarrowedWidth(c, lo, hi);
      var b := Narrowed(c, lo, hi);
      NarrowWidth(c, b.0, b.1, n - 1);
      var e := Narrow(c, b.0, b.1, n - 1);
      ShrinkScaled(hi - lo, b.1 - b.0, e.1 - e.0, Pow(2, n - 1), Pow(3, n - 1));
    }
  }

  /** A bracket two wide stands still: its thirds are its ends, and the size between them is never looked at. */
  lemma {:induction false} TwoWideStands(c: Circuit, lo: int, hi: int, n: nat)
    requires hi == lo + 2
    ensures Narrow(c, lo, hi, n) == (lo, hi)
    ensures forall x :: x in Visited(c, lo, hi, n) <==> n > 0 && (x == lo || x == hi)
  {
    hide EvaluateCircuit, Comparable;
    if n > 0 { TwoWideStands(c, lo, hi, n - 1); }
  }

  /** The steps after the first `n` look at a suffix of the sizes visited. */
  lemma {:induction false} VisitedAfter(c: Circuit, lo: int, hi: int, n: nat, k: nat) returns (before: seq<int>)
    ensures var b := Narrow(c, lo, hi, n); Visited(c, lo, hi, n + k) == before + Visited(c, b.0, b.1, k)
    decreases n
  {
    hide EvaluateCircuit, Narrowed, Thirds;
    if n > 0 && hi - lo > 1 {
      var b, m := Narrowed(c, lo, hi), Thirds(lo, hi);
      before := VisitedAfter(c, b.0, b.1, n - 1, k);
      var e := Narrow(c, lo, hi, n);
      assert e == Narrow(c, b.0, b.1, n - 1);
      calc {
        Visited(c, lo, hi, n + k);
        [m.0, m.1] + Visited(c, b.0, b.1, n + k - 1);
        [m.0, m.1] + (before + Visited(c, e.0, e.1, k));
        ([m.0, m.1] + before) + Visited(c, e.0, e.1, k);
      }
      before := [m.0, m.1] + before;
    } else {
      before := [];
    }
  }

  lemma NothingLeft(u: nat, p: nat, q: nat, w: nat)
    requires u * q <= p * w < q
    ensures u == 0
  {
    assert u > 0 ==> u * q >= q;
  }

  /** With more steps than it takes to narrow to two, a size within one lamport of the peak is visited. */
  lemma VisitsPeak(c: Circuit, lo: int, hi: int, n: nat, steps: nat, peak: int) returns (x: int)
    requires Peaked(c, lo, hi, peak) && hi - lo >= 2 && n < steps && Pow(2, n) * (hi - lo - 2) < Pow(3, n)
    ensures x in Visited(c, lo, hi, steps) && peak - 1 <= x <= peak + 1
  {
    hide EvaluateCircuit, Narrow, Visited, Peaked, Pow;
    NarrowKeepsPeak(c, lo, hi, n, peak);
    NarrowWidth(c, lo, hi, n);
    var b := Narrow(c, lo, hi, n);
    NothingLeft(b.1 - b.0 - 2, Pow(2, n), Pow(3, n), hi - lo - 2);
    TwoWideStands(c, b.0, b.1, steps - n);
    var before := VisitedAfter(c, lo, hi, n, steps - n);
    x := if peak <= b.0 + 1 then b.0 else b.1;
    assert x in Visited(c, b.0, b.1, steps - n);
  }

  /**
   * Sizing around a peaked profit: with enough refinement steps the answer pays at least what some size
   * within one lamport of the peak pays.
   */
  method SizePeaked(c: Circuit, grid: seq<int>, maxCapital: int, refineSteps: nat, g: CircuitEval, n: nat, peak: int)
    returns (best: Option<CircuitEval>, evaluated: seq<Point>)
    requires GridBest(c, GridSizes(grid, maxCapital)) == Some(g)
    requires var b := Bracket(GridSizes(grid, maxCapital), g.amountIn, maxCapital);
             Peaked(c, b.0, b.1, peak) && b.1 - b.0 >= 2 && n < refineSteps && Pow(2, n) * (b.1 - b.0 - 2) < Pow(3, n)
    ensures best.Some? && best.value.pnl > 0
    ensures exists x :: peak - 1 <= x <= peak + 1 && Has(evaluated, x) && ProfitAt(c, x) <= best.value.pnl
  {
    hide EvaluateCircuit, GridSizes, Bracket, Visited, GridBest, Peaked, Pow, Best, Honest, Has, Recorded;
    best, evaluated := SizeCircuit(c, grid, maxCapital, refineSteps);
    ghost var sizes := GridSizes(grid, maxCapital);
    ghost var b := Bracket(sizes, g.amountIn, maxCapital);
    ghost var x := VisitsPeak(c, b.0, b.1, n, refineSteps, peak);
    RecordedHas(c, PointsAt(c, sizes), Visited(c, b.0, b.1, refineSteps), x);
    RecordedHas(c, PointsAt(c, sizes), Visited(c, b.0, b.1, refineSteps), g.amountIn);
    GridBestPays(c, sizes);
    GridPoint(c, sizes, g.amountIn);
    PaysAtLeast(c, maxCapital, evaluated, best, g.amountIn);
    PaysAtLeast(c, maxCapital, evaluated, best, x);
  }

  lemma {:induction false} GridBestPays(c: Circuit, sizes: seq<int>)
    ensures var g := GridBest(c, sizes);
            g.Some? ==> g.value.pnl > 0 && EvaluateCircuit(c, g.value.amountIn) == Evaluated(g.value)
    decreases |sizes|
  {
    if sizes != [] {
      NoInventorySold(c, sizes[|sizes| - 1]);
      GridBestPays(c, sizes[..|sizes| - 1]);
    }
    hide EvaluateCircuit;
  }

  lemma GridPoint(c: Circuit, sizes: seq<int>, x: int)
    requires x in sizes
    ensures Has(PointsAt(c, sizes), x)
  {
    hide EvaluateCircuit;
    var k :| 0 <= k < |sizes| && sizes[k] == x;
    assert PointsAt(c, sizes)[k].amountIn == x;
  }

  /** The best is at least every evaluated profit, and exists when one is positive. */
  lemma PaysAtLeast(c: Circuit, maxCapital: int, evaluated: seq<Point>, best: Option<CircuitEval>, x: int)
    requires Honest(c, maxCapital, evaluated) && Best(c, evaluated, best) && Has(evaluated, x)
    ensures ProfitAt(c, x) <= if best.Some? then best.value.pnl else 0
    ensures best.Some? ==> best.value.pnl > 0
  {
    hide EvaluateCircuit;
    var i :| 0 <= i < |evaluated| && evaluated[i].amountIn == x;
  }

  /** A size that fails compares below every size that can be evaluated, as long as sizes stay below 2^120. */
  lemma FailureIsLeast(c: Circuit, x: int, y: int)
    requires FeeWall.WellFormed(c.poolA) && FeeWall.WellFormed(c.poolB) && y < 0x100_0000_0000_0000_0000_0000_0000_0000
    requires EvaluateCircuit(c, x).Failed? && EvaluateCircuit(c, y).Evaluated?
    ensures ProfitAt(c, x) < ProfitAt(c, y)
  {
    hide QuoteExactIn, FeeWall.WellFormed, Executor.Swap;
    var qa := QuoteExactIn(c.poolA, true, y).value;
    Executor.SwapIffQuoted(c.poolA, true, y);
    Executor.SwapIffQuoted(c.poolB, false, qa.amountOutToUser);
  }

  /** Why an evaluation on well-formed pools ends as it does; neither the inventory check nor an unsupported leg ever ends it. */
  lemma EvaluationEnds(c: Circuit, x: int)
    requires FeeWall.WellFormed(c.poolA) && FeeWall.WellFormed(c.poolB)
    ensures var qa := QuoteExactIn(c.poolA, true, x);
            qa.Some? && (var out := qa.value.amountOutToUser; var qb := QuoteExactIn(c.poolB, false, out);
            && qb.Some?
            && (match EvaluateCircuit(c, x)
                case Evaluated(v) =>
                  && x > 0 && !qa.value.rejected && out > 0 && !qb.value.rejected
                  && v == CircuitEval(x, qa.value, qb.value, qb.value.amountOutToUser - qa.value.amountIn)
                case Failed(ZeroTrade) => x <= 0
                case Failed(LegARejected) => x > 0 && qa.value.rejected
                case Failed(LegAZeroOut) => x > 0 && !qa.value.rejected && out <= 0
                case Failed(LegBRejected) => x > 0 && !qa.value.rejected && out > 0 && qb.value.rejected
                case Failed(_) => false))
  {
    hide QuoteExactIn, FeeWall.WellFormed, Executor.Swap;
    AlwaysQuoted(c.poolA, true, x);
    var qa := QuoteExactIn(c.poolA, true, x).value;
    Executor.SwapIffQuoted(c.poolA, true, x);
    AlwaysQuoted(c.poolB, false, qa.amountOutToUser);
    NoInventorySold(c, x);
  }

  lemma AlwaysQuoted(p: Pool, wsolIn: bool, amount: int)
    requires FeeWall.WellFormed(p)
    ensures QuoteExactIn(p, wsolIn, amount).Some?
  {
    hide RP.QuoteExactIn, PP.QuoteBuy, PP.QuoteSell, PP.Schedule, RP.WellFormed, PP.WellFormed;
    if p.Pump? { PP.NeverEmpty(p.pump, PM.FeeBps(0, 0, 0), amount); }
  }
}
