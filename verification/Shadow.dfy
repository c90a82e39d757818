/**
 * The decision policy of the shadow run (src/cli/shadow.ts): reserve the sized circuit and, when
 * the ledger refuses the amount, size again inside what it does grant.
 */
module Shadow {
  import opened Outcomes
  import opened Circuit
  import Capital

  /** The smaller of the configured maximum and the ledger's capacity. */
  function EffectiveSizingCap(l: Capital.Ledger, maxCapital: int, feeBudget: int, deposit: int): (cap: int)
    ensures var ledgerCap := Capital.CapacityFor(l, feeBudget, deposit);
            cap <= ledgerCap && cap <= maxCapital && (cap == ledgerCap || cap == maxCapital)
  {
    var ledgerCap := Capital.CapacityFor(l, feeBudget, deposit);
    if ledgerCap < maxCapital then ledgerCap else maxCapital
  }

  datatype Refusal = Refusal(code: Capital.Code, amountIn: int, budget: int)

  datatype ReserveAttempt = ReserveAttempt(hold: Capital.ReserveResult, chosen: CircuitEval, cap: int,
      refusedFirst: Option<Refusal>, retried: bool)

  /** What is asked for besides the amount. */
  datatype Probe = Probe(id: string, feeBudget: int, deposit: int, pools: seq<Capital.Address>, mint: Capital.Address)

  function At(p: Probe, amountIn: int): Capital.Position {
    Capital.Position(p.id, amountIn, p.feeBudget, p.deposit, p.pools, p.mint)
  }

  /** A refused reservation leaves the open positions, what they lock and the capital alone. */
  ghost predicate SameHoldings(l: Capital.Ledger, l': Capital.Ledger) {
    l' == l.(stats := l'.stats, journal := l'.journal)
  }

  /** After a refusal for a cap, every positive amount within the capacity is granted. */
  lemma SmallerIsGranted(l: Capital.Ledger, p: Probe, amountIn: int, smaller: int)
    requires Capital.ResultOf(l, At(p, amountIn)).Refused? && Capital.CapCode(Capital.ResultOf(l, At(p, amountIn)).code)
    requires 0 < smaller <= Capital.CapacityFor(l, p.feeBudget, p.deposit)
    ensures Capital.ResultOf(Capital.AfterReserve(l, At(p, amountIn)), At(p, smaller))
              == Capital.Granted(At(p, smaller))
    ensures smaller < amountIn
  {
    hide Capital.CapacityFor, Capital.FirstConflict, Capital.Disjoint, Capital.HasId, Capital.CapRefusal;
    var l' := Capital.AfterReserve(l, At(p, amountIn));
    Capital.CapRefusalMeansTooLarge(l, At(p, amountIn));
    Capital.CapacityIsExact(l', At(p, smaller));
    SameRoom(l, l', p);
  }

  lemma SameRoom(l: Capital.Ledger, l': Capital.Ledger, p: Probe)
    requires SameHoldings(l, l')
    ensures Capital.CapacityFor(l', p.feeBudget, p.deposit) == Capital.CapacityFor(l, p.feeBudget, p.deposit)
    ensures forall x, y :: Capital.ConflictFree(l, At(p, x)) <==> Capital.ConflictFree(l', At(p, y))
  {
    hide Capital.Frac;
    assert forall q: Capital.Position, x, y :: Capital.Disjoint(q, At(p, x)) <==> Capital.Disjoint(q, At(p, y));
  }

  /**
   * One decision: at most one position is added, for exactly the chosen evaluation; a retry is always
   * granted, for a smaller size that no grid size within the cap beats; and giving up after a cap refusal
   * means none of those was profitable.
   */
  method ReserveBestSize(c: Circuit, best: CircuitEval, grid: seq<int>, refineSteps: nat, maxCapital: int,
      ledger: Capital.CapitalLedger, p: Probe)
    returns (a: ReserveAttempt)
    modifies ledger
    ensures var before := old(ledger.Model());
            && a.cap == EffectiveSizingCap(before, maxCapital, p.feeBudget, p.deposit)
            && (a.refusedFirst.None? <==> Capital.ResultOf(before, At(p, best.amountIn)).Granted?)
            && (a.refusedFirst.Some? ==>
                  var first := Capital.ResultOf(before, At(p, best.amountIn));
                  a.refusedFirst.value == Refusal(first.code, best.amountIn, first.budget))
            && (!a.retried ==> a.chosen == best && a.hold == Capital.ResultOf(before, At(p, best.amountIn)))
    ensures a.retried ==> a.hold.Granted? && a.refusedFirst.Some? && Capital.CapCode(a.refusedFirst.value.code)
                          && 0 < a.chosen.amountIn <= a.cap < best.amountIn && a.chosen.pnl > 0
                          && forall x :: x in grid && 0 < x <= a.cap ==> !ProfitsMore(c, x, a.chosen.pnl)
    ensures a.chosen == best || EvaluateCircuit(c, a.chosen.amountIn) == Evaluated(a.chosen)
    ensures if a.hold.Granted? then a.hold.position == At(p, a.chosen.amountIn) && ledger.pending == old(ledger.pending) + [a.hold.position]
            else SameHoldings(old(ledger.Model()), ledger.Model())
    ensures ledger.capital == old(ledger.capital)
    ensures a.hold.Refused? && Capital.CapCode(a.hold.code) ==>
              a.cap < best.amountIn && (a.cap <= 0 || forall x :: x in grid && 0 < x <= a.cap ==> !Profitable(c, x))
  {
    hide EvaluateCircuit, Capital.Budget, Capital.Refusal, Capital.CapacityFor, Honest, Has, Best;
    ghost var before := ledger.Model();
    var cap := ledger.Capacity(p.feeBudget, p.deposit);
    if maxCapital <= cap { cap := maxCapital; }
    var first := ledger.Reserve(At(p, best.amountIn));
    if first.Granted? {
      return ReserveAttempt(first, best, cap, None, false);
    }
    var refused := Some(Refusal(first.code, best.amountIn, first.budget));
    if Capital.CapCode(first.code) { CapBelowRefused(before, p, best.amountIn, maxCapital); }
    if !Capital.CapCode(first.code) || cap <= 0 || cap >= best.amountIn {
      return ReserveAttempt(first, best, cap, refused, false);
    }
    var smaller, evaluated := SizeCircuit(c, grid, cap, refineSteps);
    BestIsFresh(c, grid, cap, evaluated, smaller);
    if smaller.None? {
      return ReserveAttempt(first, best, cap, refused, false);
    }
    SmallerIsGranted(before, p, best.amountIn, smaller.value.amountIn);
    var second := ledger.Reserve(At(p, smaller.value.amountIn));
    a := ReserveAttempt(second, if second.Granted? then smaller.value else best, cap, refused, true);
  }

  predicate ProfitsMore(c: Circuit, x: int, pnl: int) {
    EvaluateCircuit(c, x).Evaluated? && EvaluateCircuit(c, x).value.pnl > pnl
  }

  predicate Profitable(c: Circuit, x: int) { ProfitsMore(c, x, 0) }

  /** A cap refusal puts the sizing cap strictly below the refused amount. */
  lemma CapBelowRefused(l: Capital.Ledger, p: Probe, amountIn: int, maxCapital: int)
    requires Capital.ResultOf(l, At(p, amountIn)).Refused? && Capital.CapCode(Capital.ResultOf(l, At(p, amountIn)).code)
    ensures EffectiveSizingCap(l, maxCapital, p.feeBudget, p.deposit) < amountIn
  {
    hide Capital.CapacityFor, Capital.Refusal;
    Capital.CapRefusalMeansTooLarge(l, At(p, amountIn));
  }

  /** The sizer's answer is a fresh profitable evaluation that no grid size within the cap beats. */
  lemma BestIsFresh(c: Circuit, grid: seq<int>, cap: int, evaluated: seq<Point>, best: Option<CircuitEval>)
    requires Honest(c, cap, evaluated) && Best(c, evaluated, best)
    requires forall x :: x in grid && 0 < x <= cap ==> Has(evaluated, x)
    ensures best.Some? ==> best.value.pnl > 0 && EvaluateCircuit(c, best.value.amountIn) == Evaluated(best.value)
    ensures forall x :: x in grid && 0 < x <= cap ==> !ProfitsMore(c, x, if best.Some? then best.value.pnl else 0)
  {
    hide EvaluateCircuit;
    forall x | x in grid && 0 < x <= cap ensures !ProfitsMore(c, x, if best.Some? then best.value.pnl else 0) {
      var i :| 0 <= i < |evaluated| && evaluated[i].amountIn == x;
    }
  }
}
