/**
 * The capital ledger in its own fields (src/accounting/capital.ts): the limits as products of the capital
 * and its fractions, each refusal and its place in the order of the checks, and what the journal adds up to.
 */
module CapitalTerms {
  import opened Arith
  import opened Outcomes
  import opened Capital

  // ----- the limits as products -----

  /** A positive amount is within a fraction of the capital exactly when the products say so. */
  lemma WithinFraction(amount: int, capital: int, millionths: nat)
    requires amount >= 1
    ensures amount <= Frac(capital, millionths) <==> amount * 1_000_000 <= capital * millionths
  {
    TruncatedAtLeast(amount, capital * millionths);
  }

  lemma TruncatedAtLeast(amount: int, product: int)
    requires amount >= 1
    ensures amount <= Millionth(product) <==> amount * 1_000_000 <= product
  {
  }

  lemma WithinRest(rest: int, capital: int, millionths: nat)
    requires capital >= 0
    ensures Frac(capital, millionths) <= rest <==> capital * millionths < (rest + 1) * 1_000_000
  {
    MulMono(0, capital, millionths);
    RoundedAtMost(rest, capital * millionths);
  }

  lemma RoundedAtMost(rest: int, product: nat)
    ensures Millionth(product) <= rest <==> product < (rest + 1) * 1_000_000
  {
  }

  /** What is asked for fits one episode, what is open fits beside it, and the reserve stays untouched. */
  predicate FitsCapital(l: Ledger, need: int) {
    && need * 1_000_000 <= l.capital * l.cfg.maxEpisode
    && (l.locked + need) * 1_000_000 <= l.capital * l.cfg.maxAggregateOpen
    && l.capital * l.cfg.reserve < (l.capital - l.locked - need + 1) * 1_000_000
  }

  lemma EpisodeNeedsCapital(l: Ledger, need: int)
    requires need >= 1 && need * 1_000_000 <= l.capital * l.cfg.maxEpisode
    ensures l.capital > 0
  {
    if l.capital <= 0 { MulMono(l.capital, 0, l.cfg.maxEpisode); }
  }

  /** The budget is the largest amount that fits. */
  lemma BudgetIsLargest(l: Ledger, need: int)
    requires l.locked >= 0 && need >= 1
    ensures need <= Budget(l) <==> FitsCapital(l, need)
  {
    hide Frac;
    WithinFraction(need, l.capital, l.cfg.maxEpisode);
    WithinFraction(l.locked + need, l.capital, l.cfg.maxAggregateOpen);
    if need * 1_000_000 <= l.capital * l.cfg.maxEpisode {
      EpisodeNeedsCapital(l, need);
      WithinRest(l.capital - l.locked - need, l.capital, l.cfg.reserve);
    }
  }

  // ----- which refusal, in which order -----

  predicate WellAsked(p: Position) { p.amountIn > 0 && p.feeBudget >= 0 && p.deposit >= 0 }

  ghost predicate IdInUse(l: Ledger, p: Position) { exists q :: q in l.pending && q.id == p.id }

  ghost predicate PoolInCommon(q: Position, p: Position) { exists a :: a in q.pools && a in p.pools }

  /** The oldest position that clashes is at `k`. */
  ghost predicate FirstClash(l: Ledger, p: Position, k: nat) {
    k < |l.pending| && !Disjoint(l.pending[k], p) && forall i :: 0 <= i < k ==> Disjoint(l.pending[i], p)
  }

  ghost predicate Clashes(l: Ledger, p: Position) { exists q :: q in l.pending && !Disjoint(q, p) }

  /** The reason of each refusal, every earlier check having passed. */
  ghost predicate RefusedFor(l: Ledger, p: Position, code: Code) {
    var need := p.amountIn + p.feeBudget + p.deposit;
    match code
    case NonPositive => !WellAsked(p)
    case DuplicateId => WellAsked(p) && IdInUse(l, p)
    case Concurrency => WellAsked(p) && !IdInUse(l, p) && |l.pending| >= l.cfg.maxConcurrent
    case PoolConflict =>
      WellAsked(p) && !IdInUse(l, p) && |l.pending| < l.cfg.maxConcurrent
        && exists k: nat :: FirstClash(l, p, k) && PoolInCommon(l.pending[k], p)
    case MintConflict =>
      WellAsked(p) && !IdInUse(l, p) && |l.pending| < l.cfg.maxConcurrent
        && exists k: nat :: FirstClash(l, p, k) && !PoolInCommon(l.pending[k], p) && l.pending[k].mint == p.mint
    case EpisodeCap => Unclashing(l, p) && need * 1_000_000 > l.capital * l.cfg.maxEpisode
    case AggregateCap =>
      Unclashing(l, p) && need * 1_000_000 <= l.capital * l.cfg.maxEpisode
        && (l.locked + need) * 1_000_000 > l.capital * l.cfg.maxAggregateOpen
    case ReserveFloor =>
      Unclashing(l, p) && need * 1_000_000 <= l.capital * l.cfg.maxEpisode
        && (l.locked + need) * 1_000_000 <= l.capital * l.cfg.maxAggregateOpen
        && l.capital * l.cfg.reserve >= (l.capital - l.locked - need + 1) * 1_000_000
  }

  ghost predicate Unclashing(l: Ledger, p: Position) {
    WellAsked(p) && !IdInUse(l, p) && |l.pending| < l.cfg.maxConcurrent && !Clashes(l, p)
  }

  lemma IdFound(pending: seq<Position>, id: string)
    ensures HasId(pending, id) <==> exists q :: q in pending && q.id == id
  {
    if HasId(pending, id) {
      var k :| 0 <= k < |pending| && pending[k].id == id;
      assert pending[k] in pending;
    }
  }

  lemma PoolFound(q: Position, p: Position)
    ensures SharesPool(q.pools, p.pools) <==> PoolInCommon(q, p)
    ensures ConflictWith(q, p).None? <==> Disjoint(q, p)
  {
    if SharesPool(q.pools, p.pools) {
      var k :| 0 <= k < |q.pools| && q.pools[k] in p.pools;
      assert q.pools[k] in q.pools;
    }
    if a :| a in q.pools && a in p.pools {
      var k :| 0 <= k < |q.pools| && q.pools[k] == a;
    }
  }

  /** The scan stops at the first position that clashes. */
  lemma {:induction false} ClashAt(pending: seq<Position>, p: Position, k: nat)
    requires k < |pending| && !Disjoint(pending[k], p) && forall i :: 0 <= i < k ==> Disjoint(pending[i], p)
    ensures FirstConflict(pending, p) == Some(if PoolInCommon(pending[k], p) then PoolConflict else MintConflict)
  {
    hide Disjoint, PoolInCommon;
    PoolFound(pending[0], p);
    PoolFound(pending[k], p);
    if k > 0 {
      ClashAt(pending[1..], p, k - 1);
    }
  }

  lemma {:induction false} FindFirst(pending: seq<Position>, p: Position) returns (k: nat)
    ensures k <= |pending| && forall i :: 0 <= i < k ==> Disjoint(pending[i], p)
    ensures k < |pending| ==> !Disjoint(pending[k], p)
  {
    hide Disjoint;
    if pending == [] || !Disjoint(pending[0], p) {
      k := 0;
    } else {
      var j := FindFirst(pending[1..], p);
      k := j + 1;
    }
  }

  lemma ClashIsSome(pending: seq<Position>, p: Position, k: nat)
    requires k < |pending| && !Disjoint(pending[k], p) && !PoolInCommon(pending[k], p)
    ensures pending[k].mint == p.mint
  {
  }

  /** The conflict found is that of the oldest position that clashes. */
  lemma ConflictInFields(l: Ledger, p: Position, code: Code)
    ensures FirstConflict(l.pending, p) == Some(code) <==>
              exists k: nat :: FirstClash(l, p, k)
                          && code == if PoolInCommon(l.pending[k], p) then PoolConflict else MintConflict
    ensures FirstConflict(l.pending, p).None? <==> !Clashes(l, p)
  {
    hide Disjoint, PoolInCommon, FirstConflict;
    NoConflictIffDisjoint(l.pending, p);
    if k: nat :| FirstClash(l, p, k) && code == if PoolInCommon(l.pending[k], p) then PoolConflict else MintConflict {
      ClashAt(l.pending, p, k);
    }
    if FirstConflict(l.pending, p).Some? {
      var k := FindFirst(l.pending, p);
      assert k < |l.pending|;
      ClashAt(l.pending, p, k);
      assert FirstClash(l, p, k);
    }
  }

  lemma CapsInFields(l: Ledger, need: int)
    requires l.locked >= 0 && need >= 1
    ensures CapRefusal(l, need) == Some(EpisodeCap) <==> need * 1_000_000 > l.capital * l.cfg.maxEpisode
    ensures CapRefusal(l, need) == Some(AggregateCap) <==>
              need * 1_000_000 <= l.capital * l.cfg.maxEpisode
                  && (l.locked + need) * 1_000_000 > l.capital * l.cfg.maxAggregateOpen
    ensures CapRefusal(l, need) == Some(ReserveFloor) <==>
              && need * 1_000_000 <= l.capital * l.cfg.maxEpisode
                   && (l.locked + need) * 1_000_000 <= l.capital * l.cfg.maxAggregateOpen
              && l.capital * l.cfg.reserve >= (l.capital - l.locked - need + 1) * 1_000_000
  {
    hide Frac;
    WithinFraction(need, l.capital, l.cfg.maxEpisode);
    WithinFraction(l.locked + need, l.capital, l.cfg.maxAggregateOpen);
    if need * 1_000_000 <= l.capital * l.cfg.maxEpisode {
      EpisodeNeedsCapital(l, need);
      WithinRest(l.capital - l.locked - need, l.capital, l.cfg.reserve);
    }
  }

  /** A reservation is refused with a code exactly for its reason, and granted exactly when there is none. */
  lemma RefusedExactlyFor(l: Ledger, p: Position, code: Code)
    requires l.locked >= 0
    ensures Refusal(l, p) == Some(code) <==> RefusedFor(l, p, code)
    ensures Refusal(l, p).None? <==> Unclashing(l, p) && FitsCapital(l, p.amountIn + p.feeBudget + p.deposit)
  {
    hide CapRefusal, FirstConflict, HasId, IdInUse, Clashes, FirstClash, PoolInCommon;
    IdFound(l.pending, p.id);
    SameId(l, p);
    ConflictCase(l, p, code);
    ConflictCodes(l.pending, p);
    if WellAsked(p) { CapsInFields(l, Need(p)); CapCodes(l, Need(p)); }
  }

  lemma SameId(l: Ledger, p: Position)
    ensures IdInUse(l, p) <==> HasId(l.pending, p.id)
  {
    hide HasId;
    IdFound(l.pending, p.id);
  }

  lemma CapCodes(l: Ledger, need: int)
    ensures CapRefusal(l, need).Some? ==> CapCode(CapRefusal(l, need).value)
  {
    hide Frac;
  }

  lemma ConflictCase(l: Ledger, p: Position, code: Code)
    ensures FirstConflict(l.pending, p) == Some(PoolConflict) <==>
              exists k: nat :: FirstClash(l, p, k) && PoolInCommon(l.pending[k], p)
    ensures FirstConflict(l.pending, p) == Some(MintConflict) <==>
              exists k: nat :: FirstClash(l, p, k) && !PoolInCommon(l.pending[k], p) && l.pending[k].mint == p.mint
    ensures FirstConflict(l.pending, p).None? <==> !Clashes(l, p)
    ensures FirstConflict(l.pending, p).Some? ==>
              FirstConflict(l.pending, p).value == PoolConflict || FirstConflict(l.pending, p).value == MintConflict
  {
    hide PoolInCommon, FirstConflict, Clashes, Disjoint;
    ConflictInFields(l, p, PoolConflict);
    ConflictInFields(l, p, MintConflict);
    forall k: nat | FirstClash(l, p, k) && !PoolInCommon(l.pending[k], p) ensures l.pending[k].mint == p.mint {
      ClashIsSome(l.pending, p, k);
    }
    if FirstConflict(l.pending, p).Some? { ConflictInFields(l, p, FirstConflict(l.pending, p).value); }
  }

  // ----- what the journal adds up to -----

  function Total(journal: seq<Event>, f: Event -> int): int {
    if journal == [] then 0 else Total(journal[..|journal| - 1], f) + f(journal[|journal| - 1])
  }

  function Reserved(e: Event): int { if e.ReserveEvent? then 1 else 0 }
  function Rejected(e: Event): int { if e.RejectEvent? then 1 else 0 }
  function SettledAs(status: Status): Event -> int {
    (e: Event) => if e.SettleEvent? && e.settlement.status == status then 1 else 0
  }
  function NetOfFee(e: Event): int { if e.SettleEvent? then e.settlement.realisedPnl - e.settlement.feePaid else 0 }

  /** Every counter is a count, and the hypothetical pnl a sum, over the journal. */
  ghost predicate Explained(l: Ledger) {
    && l.stats.reserved == Total(l.journal, Reserved) && l.stats.rejected == Total(l.journal, Rejected)
    && l.stats.filled == Total(l.journal, SettledAs(Filled))
    && l.stats.reverted == Total(l.journal, SettledAs(Reverted))
    && l.stats.notLanded == Total(l.journal, SettledAs(NotLanded))
    && l.stats.hypotheticalPnl == (if l.cfg.hypothetical then Total(l.journal, NetOfFee) else 0)
  }

  lemma TotalAppend(journal: seq<Event>, e: Event, f: Event -> int)
    ensures Total(journal + [e], f) == Total(journal, f) + f(e)
  {
    assert (journal + [e])[..|journal|] == journal;
  }

  lemma TotalsAppend(journal: seq<Event>, e: Event)
    ensures var after := journal + [e];
            && Total(after, Reserved) == Total(journal, Reserved) + Reserved(e)
            && Total(after, Rejected) == Total(journal, Rejected) + Rejected(e)
            && (forall s :: Total(after, SettledAs(s)) == Total(journal, SettledAs(s)) + SettledAs(s)(e))
            && Total(after, NetOfFee) == Total(journal, NetOfFee) + NetOfFee(e)
  {
    hide Total;
    TotalAppend(journal, e, Reserved);
    TotalAppend(journal, e, Rejected);
    TotalAppend(journal, e, NetOfFee);
    forall s ensures Total(journal + [e], SettledAs(s)) == Total(journal, SettledAs(s)) + SettledAs(s)(e) {
      TotalAppend(journal, e, SettledAs(s));
    }
  }

  /** A step writes at most one entry, with the capital and the locked amount it leaves. */
  ghost predicate Journals(l: Ledger, a: Action, l': Ledger) {
    match a
    case DoReserve(p) =>
      (match ResultOf(l, p)
       case Granted(_) => l'.journal == l.journal + [ReserveEvent(p, l'.locked, l'.capital)]
       case Refused(code, budget) => l'.journal == l.journal + [RejectEvent(code, budget)])
    case DoSettle(o) =>
      (match AfterSettle(l, o).1
       case UnknownPosition => l' == l
       case NegativeLocked => l'.journal == l.journal
       case Settled(capital, locked) =>
         && capital == l'.capital && locked == l'.locked
         && exists p ::
              p in l.pending && p.id == o.id
                  && l'.journal == l.journal + [SettleEvent(o, p.deposit, l.cfg.hypothetical, capital, locked)])
  }

  lemma StepJournals(l: Ledger, a: Action)
    ensures Journals(l, a, Step(l, a))
  {
    hide Refusal, Budget, Credit, Counted;
  }

  /** Locked amounts move by the need of the position, and capital only by a live settlement's result less its fee. */
  lemma SettleMoves(l: Ledger, o: Settlement, k: nat)
    requires Sound(l) && k < |l.pending| && l.pending[k].id == o.id
    ensures var (l', r) := AfterSettle(l, o); var p := l.pending[k];
            && r.Settled? && l'.pending == l.pending[..k] + l.pending[k + 1..]
            && l'.locked == l.locked - p.amountIn - p.feeBudget - p.deposit
            && l'.capital == l.capital + (if l.cfg.hypothetical then 0
                                          else if o.status == Filled then o.realisedPnl - o.feePaid else -o.feePaid)
  {
    hide Counted, Locked;
    SettleKeepsSound(l, o);
    assert IndexOf(l.pending, o.id) == k;
  }

  lemma ReserveExplained(l: Ledger, p: Position)
    requires Explained(l)
    ensures Explained(AfterReserve(l, p))
  {
    hide Refusal, Budget, Total, SettledAs;
    var l' := AfterReserve(l, p);
    TotalsAppend(l.journal, l'.journal[|l.journal|]);
    CountsNothing(l'.journal[|l.journal|]);
  }

  lemma CountsNothing(e: Event)
    ensures !e.SettleEvent? ==> NetOfFee(e) == 0 && forall s :: SettledAs(s)(e) == 0
  {
  }

  lemma SettleExplained(l: Ledger, o: Settlement)
    requires Explained(l) && !AfterSettle(l, o).1.NegativeLocked?
    ensures Explained(AfterSettle(l, o).0)
  {
    hide Total;
    var l' := AfterSettle(l, o).0;
    if AfterSettle(l, o).1.Settled? { TotalsAppend(l.journal, l'.journal[|l.journal|]); }
  }

  lemma {:induction false} RunExplained(l: Ledger, actions: seq<Action>)
    requires Sound(l) && Explained(l)
    ensures Explained(Run(l, actions))
    decreases |actions|
  {
    hide Sound, Explained, AfterReserve, AfterSettle;
    if actions != [] {
      match actions[0] {
        case DoReserve(p) =>
          ReserveKeepsSound(l, p);
          ReserveExplained(l, p);
        case DoSettle(o) =>
          SettleKeepsSound(l, o);
          SettleExplained(l, o);
      }
      RunExplained(Step(l, actions[0]), actions[1..]);
    }
  }

  /** From a fresh ledger, after any run, the journal explains every counter. */
  lemma JournalExplainsStats(cfg: Config, actions: seq<Action>)
    requires ValidConfig(cfg)
    ensures Explained(Run(Opened(cfg), actions))
  {
    assert Sound(Opened(cfg)) && Explained(Opened(cfg));
    RunExplained(Opened(cfg), actions);
  }
}
