/**
 * The capital ledger (src/accounting/capital.ts): caps, concurrency and account conflicts on open
 * positions, as a class proved against a specification on values, and what every run keeps.
 */
module Capital {
  import opened Arith
  import opened Outcomes

  /** Pool and mint addresses in base58, which is never empty. */
  type Address = s: string | s != "" witness "1"

  /** The three fractions are in millionths, as `frac` rounds them. */
  datatype Config = Config(capitalLamports: int, maxEpisode: nat, maxAggregateOpen: nat, reserve: nat,
      maxConcurrent: int, hypothetical: bool)

  const MILLION: nat := 1_000_000

  predicate ValidConfig(cfg: Config) {
    cfg.maxEpisode <= MILLION && cfg.maxAggregateOpen <= MILLION && cfg.reserve <= MILLION
  }

  datatype Position = Position(id: string, amountIn: int, feeBudget: int, deposit: int, pools: seq<Address>,
      mint: Address)

  function Need(p: Position): int { p.amountIn + p.feeBudget + p.deposit }

  datatype Code = EpisodeCap | AggregateCap | ReserveFloor | Concurrency | PoolConflict | MintConflict | DuplicateId | NonPositive

  datatype ReserveResult = Granted(position: Position) | Refused(code: Code, budget: int)

  datatype Status = Filled | Reverted | NotLanded

  datatype Settlement = Settlement(id: string, realisedPnl: int, feePaid: int, status: Status)

  datatype SettleResult = Settled(capital: int, locked: int) | UnknownPosition | NegativeLocked

  datatype Stats = Stats(reserved: int, rejected: int, settled: int, filled: int, reverted: int, notLanded: int,
      feesPaid: int, hypotheticalPnl: int)

  datatype Event =
    | ReserveEvent(position: Position, locked: int, capital: int)
    | RejectEvent(code: Code, budget: int)
    | SettleEvent(settlement: Settlement, depositReleased: int, hypothetical: bool, capital: int, locked: int)

  // ----- specification on values -----

  /** `pending` is the source's Map in insertion order. */
  datatype Ledger = Ledger(cfg: Config, initial: int, capital: int, pending: seq<Position>, locked: int, stats: Stats,
      journal: seq<Event>)

  function Opened(cfg: Config): Ledger {
    Ledger(cfg, cfg.capitalLamports, cfg.capitalLamports, [], 0, Stats(0, 0, 0, 0, 0, 0, 0, 0), [])
  }

  /** BigInt division truncates toward zero, and a live ledger's capital may fall below zero. */
  function Frac(capital: int, millionths: nat): int {
    Millionth(capital * millionths)
  }

  function Millionth(product: int): int {
    if product >= 0 then product / 1_000_000 else -((-product) / 1_000_000)
  }

  function EpisodeLimit(l: Ledger): int { Frac(l.capital, l.cfg.maxEpisode) }
  function OpenLimit(l: Ledger): int { Frac(l.capital, l.cfg.maxAggregateOpen) }
  function FloorLimit(l: Ledger): int { l.capital - Frac(l.capital, l.cfg.reserve) }

  function Budget(l: Ledger): int {
    var m := Min(Min(EpisodeLimit(l), OpenLimit(l) - l.locked), FloorLimit(l) - l.locked);
    if m > 0 then m else 0
  }

  function CapacityFor(l: Ledger, feeBudget: int, deposit: int): int {
    var room := Budget(l) - feeBudget - deposit;
    if room > 0 then room else 0
  }

  predicate HasId(pending: seq<Position>, id: string) { exists k :: 0 <= k < |pending| && pending[k].id == id }

  predicate SharesPool(p: seq<Address>, q: seq<Address>) { exists k :: 0 <= k < |p| && p[k] in q }

  function ConflictWith(q: Position, p: Position): Option<Code> {
    if SharesPool(q.pools, p.pools) then Some(PoolConflict) else if q.mint == p.mint then Some(MintConflict) else None
  }

  /** The conflict reported is that of the oldest pending position that has one. */
  function FirstConflict(pending: seq<Position>, p: Position): Option<Code> {
    if pending == [] then None
    else if ConflictWith(pending[0], p).Some? then ConflictWith(pending[0], p)
    else FirstConflict(pending[1..], p)
  }

  function CapRefusal(l: Ledger, need: int): Option<Code> {
    if need > EpisodeLimit(l) then Some(EpisodeCap)
    else if l.locked + need > OpenLimit(l) then Some(AggregateCap)
    else if l.locked + need > FloorLimit(l) then Some(ReserveFloor)
    else None
  }

  /** The refusal, if any, in the order of the checks. */
  function Refusal(l: Ledger, p: Position): Option<Code> {
    if p.amountIn <= 0 || p.feeBudget < 0 || p.deposit < 0 then Some(NonPositive)
    else if HasId(l.pending, p.id) then Some(DuplicateId)
    else if |l.pending| >= l.cfg.maxConcurrent then Some(Concurrency)
    else if FirstConflict(l.pending, p).Some? then FirstConflict(l.pending, p)
    else CapRefusal(l, Need(p))
  }

  function ResultOf(l: Ledger, p: Position): ReserveResult {
    match Refusal(l, p) case Some(code) => Refused(code, Budget(l)) case None => Granted(p)
  }

  function AfterReserve(l: Ledger, p: Position): Ledger {
    match Refusal(l, p)
    case Some(code) =>
      l.(stats := l.stats.(rejected := l.stats.rejected + 1), journal := l.journal + [RejectEvent(code, Budget(l))])
    case None =>
      var locked := l.locked + Need(p);
      l.(pending := l.pending + [p], locked := locked, stats := l.stats.(reserved := l.stats.reserved + 1),
         journal := l.journal + [ReserveEvent(p, locked, l.capital)])
  }

  /** Index of the position with this id, or |pending|. */
  function IndexOf(pending: seq<Position>, id: string): (k: nat)
    ensures k <= |pending|
    ensures k < |pending| ==> pending[k].id == id
    ensures forall i :: 0 <= i < k ==> pending[i].id != id
  {
    if pending == [] || pending[0].id == id then 0 else 1 + IndexOf(pending[1..], id)
  }

  function Without(pending: seq<Position>, k: nat): seq<Position>
    requires k < |pending|
  {
    pending[..k] + pending[k + 1..]
  }

  function Counted(s: Stats, o: Settlement, hypothetical: bool): Stats {
    Stats(s.reserved, s.rejected, s.settled + 1,
          s.filled + (if o.status == Filled then 1 else 0),
          s.reverted + (if o.status == Reverted then 1 else 0),
          s.notLanded + (if o.status == NotLanded then 1 else 0),
          s.feesPaid + o.feePaid,
          s.hypotheticalPnl + (if hypothetical then o.realisedPnl - o.feePaid else 0))
  }

  /** What a settlement adds to a live ledger's capital. */
  function Credit(o: Settlement): int { (if o.status == Filled then o.realisedPnl else 0) - o.feePaid }

  function AfterSettle(l: Ledger, o: Settlement): (Ledger, SettleResult) {
    var k := IndexOf(l.pending, o.id);
    if k == |l.pending| then (l, UnknownPosition)
    else
      var p := l.pending[k];
      var locked := l.locked - Need(p);
      var removed := l.(pending := Without(l.pending, k), locked := locked);
      if locked < 0 then (removed, NegativeLocked)
      else
        var capital := l.capital + (if l.cfg.hypothetical then 0 else Credit(o));
        (removed.(capital := capital, stats := Counted(l.stats, o, l.cfg.hypothetical),
                  journal := l.journal + [SettleEvent(o, p.deposit, l.cfg.hypothetical, capital, locked)]),
         Settled(capital, locked))
  }

  // ----- the ledger object -----

  class CapitalLedger {
    const cfg: Config
    const initial: int
    var capital: int
    var pending: seq<Position>
    var lockedAmount: int
    var stats: Stats
    var journal: seq<Event>

    ghost function Model(): Ledger
      reads this
    {
      Ledger(cfg, initial, capital, pending, lockedAmount, stats, journal)
    }

    constructor (config: Config)
      ensures Model() == Opened(config)
    {
      cfg, initial, capital := config, config.capitalLamports, config.capitalLamports;
      pending, lockedAmount, stats, journal := [], 0, Stats(0, 0, 0, 0, 0, 0, 0, 0), [];
    }

    method FracOf(millionths: nat) returns (r: int)
      ensures r == Frac(capital, millionths)
    {
      r := Millionth(capital * millionths);
    }

    method CurrentBudget() returns (b: int)
      ensures b == Budget(Model())
    {
      hide Frac;
      var a := FracOf(cfg.maxEpisode);
      var open := FracOf(cfg.maxAggregateOpen);
      var reserve := FracOf(cfg.reserve);
      var m := a;
      if open - lockedAmount < m { m := open - lockedAmount; }
      if capital - reserve - lockedAmount < m { m := capital - reserve - lockedAmount; }
      b := if m > 0 then m else 0;
    }

    method Capacity(feeBudget: int, deposit: int) returns (room: int)
      ensures room == CapacityFor(Model(), feeBudget, deposit)
    {
      hide Budget;
      var b := CurrentBudget();
      room := if b - feeBudget - deposit > 0 then b - feeBudget - deposit else 0;
    }

    /** Scans the pending positions for an account conflict. */
    method FindConflict(p: Position) returns (code: Option<Code>)
      ensures code == FirstConflict(pending, p)
    {
      var n := 0;
      while n < |pending|
        invariant n <= |pending|
        invariant FirstConflict(pending, p) == FirstConflict(pending[n..], p)
      {
        if SharesPool(pending[n].pools, p.pools) { return Some(PoolConflict); }
        if pending[n].mint == p.mint { return Some(MintConflict); }
        n := n + 1;
      }
      code := None;
    }

    method Reject(code: Code, budget: int) returns (r: ReserveResult)
      modifies this`stats, this`journal
      ensures r == Refused(code, budget)
      ensures stats == old(stats).(rejected := old(stats).rejected + 1)
                && journal == old(journal) + [RejectEvent(code, budget)]
    {
      stats := stats.(rejected := stats.rejected + 1);
      journal := journal + [RejectEvent(code, budget)];
      r := Refused(code, budget);
    }

    method Reserve(p: Position) returns (r: ReserveResult)
      modifies this`pending, this`lockedAmount, this`stats, this`journal
      ensures r == ResultOf(old(Model()), p)
      ensures Model() == AfterReserve(old(Model()), p)
    {
      hide Frac, Budget, FirstConflict, ConflictWith;
      var budget := CurrentBudget();
      var need := Need(p);
      if p.amountIn <= 0 || p.feeBudget < 0 || p.deposit < 0 { r := Reject(NonPositive, budget); return; }
      if HasId(pending, p.id) { r := Reject(DuplicateId, budget); return; }
      if |pending| >= cfg.maxConcurrent { r := Reject(Concurrency, budget); return; }
      var conflict := FindConflict(p);
      if conflict.Some? { r := Reject(conflict.value, budget); return; }
      var episode := FracOf(cfg.maxEpisode);
      if need > episode { r := Reject(EpisodeCap, budget); return; }
      var open := FracOf(cfg.maxAggregateOpen);
      if lockedAmount + need > open { r := Reject(AggregateCap, budget); return; }
      var floor := FracOf(cfg.reserve);
      if lockedAmount + need > capital - floor { r := Reject(ReserveFloor, budget); return; }
      pending, lockedAmount := pending + [p], lockedAmount + need;
      stats := stats.(reserved := stats.reserved + 1);
      journal := journal + [ReserveEvent(p, lockedAmount, capital)];
      r := Granted(p);
    }

    method Settle(o: Settlement) returns (r: SettleResult)
      modifies this`pending, this`lockedAmount, this`stats, this`journal, this`capital
      ensures (Model(), r) == AfterSettle(old(Model()), o)
    {
      var k := IndexOf(pending, o.id);
      if k == |pending| { return UnknownPosition; }
      var p := pending[k];
      pending := Without(pending, k);
      lockedAmount := lockedAmount - (p.amountIn + p.feeBudget + p.deposit);
      if lockedAmount < 0 { return NegativeLocked; }
      stats := Counted(stats, o, cfg.hypothetical);
      if !cfg.hypothetical { capital := capital + Credit(o); }
      journal := journal + [SettleEvent(o, p.deposit, cfg.hypothetical, capital, lockedAmount)];
      r := Settled(capital, lockedAmount);
    }
  }

  // ----- one reservation -----

  /** A position that clashes with nothing pending: fresh id, a free slot, its own pools and mint. */
  ghost predicate ConflictFree(l: Ledger, p: Position) {
    && !HasId(l.pending, p.id)
    && |l.pending| < l.cfg.maxConcurrent
    && forall q :: q in l.pending ==> Disjoint(q, p)
  }

  /** No pool and no mint in common. */
  ghost predicate Disjoint(q: Position, p: Position) {
    q.mint != p.mint && forall a :: a in q.pools ==> a !in p.pools
  }

  lemma {:induction false} NoConflictIffDisjoint(pending: seq<Position>, p: Position)
    ensures FirstConflict(pending, p).None? <==> forall q :: q in pending ==> Disjoint(q, p)
  {
    if pending != [] {
      NoConflictIffDisjoint(pending[1..], p);
      var q := pending[0];
      assert pending == [q] + pending[1..];
      if SharesPool(q.pools, p.pools) {
        assert !Disjoint(q, p);
      } else {
        forall a | a in q.pools ensures a !in p.pools {
          var k :| 0 <= k < |q.pools| && q.pools[k] == a;
        }
      }
    }
  }

  /** `capacityFor` is exact: it separates the amounts that are granted from those that are refused. */
  lemma CapacityIsExact(l: Ledger, p: Position)
    ensures ResultOf(l, p).Granted? <==>
              && p.amountIn > 0 && p.feeBudget >= 0 && p.deposit >= 0 && ConflictFree(l, p)
              && p.amountIn <= CapacityFor(l, p.feeBudget, p.deposit)
  {
    hide Frac, FirstConflict, Disjoint, HasId;
    NoConflictIffDisjoint(l.pending, p);
  }

  predicate CapCode(code: Code) { code == EpisodeCap || code == AggregateCap || code == ReserveFloor }

  /** The amount alone is refused exactly when it exceeds the capacity; any other refusal would refuse every size. */
  lemma CapRefusalMeansTooLarge(l: Ledger, p: Position)
    ensures ResultOf(l, p).Refused? && CapCode(ResultOf(l, p).code) <==>
              && p.amountIn > 0 && p.feeBudget >= 0 && p.deposit >= 0 && ConflictFree(l, p)
              && p.amountIn > CapacityFor(l, p.feeBudget, p.deposit)
    ensures ResultOf(l, p).Refused? && !CapCode(ResultOf(l, p).code) ==>
              p.amountIn <= 0 || forall amount :: 0 < amount ==> ResultOf(l, p.(amountIn := amount)).Refused?
  {
    hide Frac, HasId;
    CapacityIsExact(l, p);
    NoConflictIffDisjoint(l.pending, p);
    ConflictCodes(l.pending, p);
    forall amount: int | 0 < amount ensures ConflictFree(l, p.(amountIn := amount)) <==> ConflictFree(l, p) {
      forall q: Position ensures Disjoint(q, p.(amountIn := amount)) <==> Disjoint(q, p) { }
    }
    forall amount: int | 0 < amount && ResultOf(l, p).Refused? && !CapCode(ResultOf(l, p).code) && p.amountIn > 0
      ensures ResultOf(l, p.(amountIn := amount)).Refused?
    {
      CapacityIsExact(l, p.(amountIn := amount));
    }
  }

  lemma {:induction false} ConflictCodes(pending: seq<Position>, p: Position)
    ensures FirstConflict(pending, p).Some? ==> !CapCode(FirstConflict(pending, p).value)
  {
    if pending != [] { ConflictCodes(pending[1..], p); }
  }

  // ----- runs -----

  function Locked(pending: seq<Position>): int {
    if pending == [] then 0 else Locked(pending[..|pending| - 1]) + Need(pending[|pending| - 1])
  }

  function FilledPnl(journal: seq<Event>): int {
    if journal == [] then 0
    else
      var e := journal[|journal| - 1];
      FilledPnl(journal[..|journal| - 1]) + if e.SettleEvent? && e.settlement.status == Filled then e.settlement.realisedPnl else 0
  }

  function FeesPaid(journal: seq<Event>): int {
    if journal == [] then 0
    else
      var e := journal[|journal| - 1];
      FeesPaid(journal[..|journal| - 1]) + if e.SettleEvent? then e.settlement.feePaid else 0
  }

  /** What every reachable ledger keeps about its open positions. */
  ghost predicate Sound(l: Ledger) {
    && ValidConfig(l.cfg)
    && l.locked == Locked(l.pending)
    && (forall q :: q in l.pending ==> q.amountIn > 0 && q.feeBudget >= 0 && q.deposit >= 0)
    && (forall i, j :: 0 <= i < j < |l.pending| ==>
         l.pending[i].id != l.pending[j].id && Disjoint(l.pending[i], l.pending[j]))
    && (|l.pending| <= l.cfg.maxConcurrent || l.pending == [])
  }

  /** Every reservation is open or settled once, and capital is explained by the journal. */
  ghost predicate Balanced(l: Ledger) {
    && l.stats.reserved == l.stats.settled + |l.pending|
    && l.stats.settled == l.stats.filled + l.stats.reverted + l.stats.notLanded
    && |l.journal| == l.stats.reserved + l.stats.rejected + l.stats.settled
    && l.stats.feesPaid == FeesPaid(l.journal)
    && l.capital == l.initial + if l.cfg.hypothetical then 0 else FilledPnl(l.journal) - FeesPaid(l.journal)
  }

  /** Open positions respect every cap of the current capital. */
  ghost predicate WithinCaps(l: Ledger) {
    && (l.pending != [] ==> l.locked <= OpenLimit(l) && l.locked <= FloorLimit(l))
    && (forall q :: q in l.pending ==> Need(q) <= EpisodeLimit(l))
  }

  lemma {:induction false} LockedAppend(pending: seq<Position>, p: Position)
    ensures Locked(pending + [p]) == Locked(pending) + Need(p)
  {
    assert (pending + [p])[..|pending|] == pending;
  }

  lemma {:induction false} LockedRemove(pending: seq<Position>, k: nat)
    requires k < |pending|
    ensures Locked(pending) == Locked(Without(pending, k)) + Need(pending[k])
  {
    hide Locked;
    var n := |pending| - 1;
    var init, last := pending[..n], pending[n];
    assert pending == init + [last];
    LockedAppend(init, last);
    if k < n {
      LockedRemove(init, k);
      assert Without(pending, k) == Without(init, k) + [last];
      LockedAppend(Without(init, k), last);
    } else {
      assert Without(pending, k) == init;
    }
  }

  lemma {:induction false} LockedNonNegative(pending: seq<Position>)
    requires forall q :: q in pending ==> Need(q) >= 0
    ensures Locked(pending) >= 0
  {
    if pending != [] { LockedNonNegative(pending[..|pending| - 1]); }
  }

  lemma ReserveKeepsSound(l: Ledger, p: Position)
    requires Sound(l)
    ensures Sound(AfterReserve(l, p))
  {
    hide Frac, Budget, FirstConflict, CapRefusal, Disjoint, Locked;
    var l' := AfterReserve(l, p);
    if Refusal(l, p).None? {
      NoConflictIffDisjoint(l.pending, p);
      LockedAppend(l.pending, p);
      forall i, j | 0 <= i < j < |l'.pending|
          ensures l'.pending[i].id != l'.pending[j].id && Disjoint(l'.pending[i], l'.pending[j]) {
        assert l.pending[i] in l.pending;
      }
    }
  }

  /** Removing a position leaves the others valid and in pairwise conflict-freedom. */
  lemma RemoveKeepsOpen(pending: seq<Position>, k: nat)
    requires k < |pending|
    requires forall q :: q in pending ==> q.amountIn > 0 && q.feeBudget >= 0 && q.deposit >= 0
    requires forall i, j :: 0 <= i < j < |pending| ==>
              pending[i].id != pending[j].id && Disjoint(pending[i], pending[j])
    ensures var rest := Without(pending, k);
            && (forall q :: q in rest ==> q.amountIn > 0 && q.feeBudget >= 0 && q.deposit >= 0)
            && (forall i, j :: 0 <= i < j < |rest| ==> rest[i].id != rest[j].id && Disjoint(rest[i], rest[j]))
  {
    hide Disjoint;
    var rest := Without(pending, k);
    assert forall i :: 0 <= i < |rest| ==> rest[i] == pending[if i < k then i else i + 1];
  }

  lemma SettleKeepsSound(l: Ledger, o: Settlement)
    requires Sound(l)
    ensures Sound(AfterSettle(l, o).0) && !AfterSettle(l, o).1.NegativeLocked?
  {
    hide Frac, Disjoint, Locked, Counted, Credit;
    var k := IndexOf(l.pending, o.id);
    if k < |l.pending| {
      LockedRemove(l.pending, k);
      RemoveKeepsOpen(l.pending, k);
      LockedNonNegative(Without(l.pending, k));
    }
  }

  lemma JournalAppend(journal: seq<Event>, e: Event)
    ensures FilledPnl(journal + [e]) == FilledPnl(journal) + (if e.SettleEvent? && e.settlement.status == Filled then e.settlement.realisedPnl else 0)
    ensures FeesPaid(journal + [e]) == FeesPaid(journal) + (if e.SettleEvent? then e.settlement.feePaid else 0)
  {
    assert (journal + [e])[..|journal|] == journal;
  }

  lemma ReserveKeepsBalanced(l: Ledger, p: Position)
    requires Balanced(l)
    ensures Balanced(AfterReserve(l, p))
  {
    hide Refusal, Budget, FilledPnl, FeesPaid;
    var l' := AfterReserve(l, p);
    JournalAppend(l.journal, l'.journal[|l.journal|]);
  }

  lemma SettleKeepsBalanced(l: Ledger, o: Settlement)
    requires Balanced(l) && !AfterSettle(l, o).1.NegativeLocked?
    ensures Balanced(AfterSettle(l, o).0)
  {
    hide FilledPnl, FeesPaid;
    var l' := AfterSettle(l, o).0;
    if AfterSettle(l, o).1.Settled? { JournalAppend(l.journal, l'.journal[|l.journal|]); }
  }

  lemma ReserveKeepsCaps(l: Ledger, p: Position)
    requires WithinCaps(l)
    ensures WithinCaps(AfterReserve(l, p))
  {
    hide Frac, Budget, FirstConflict, HasId;
  }

  lemma FracMonotone(capital: int, more: int, millionths: nat)
    requires capital <= more && millionths <= MILLION
    ensures Frac(capital, millionths) <= Frac(more, millionths)
    ensures capital - Frac(capital, millionths) <= more - Frac(more, millionths)
  {
    hide Millionth;
    var gain := more - capital;
    Distribute(millionths, capital, gain);
    MulMono(0, gain, millionths);
    MulMono(millionths, MILLION, gain);
    MillionthMonotone(capital * millionths, more * millionths, gain);
  }

  lemma MillionthMonotone(a: int, b: int, gain: nat)
    requires a <= b <= a + gain * 1_000_000
    ensures Millionth(a) <= Millionth(b) <= Millionth(a) + gain
  {
  }

  /**
   * A settlement that does not lower the capital keeps every cap; in hypothetical mode none does, and
   * a live one does only when it loses money.
   */
  lemma SettleKeepsCaps(l: Ledger, o: Settlement)
    requires Sound(l) && WithinCaps(l) && (l.cfg.hypothetical || Credit(o) >= 0)
    ensures WithinCaps(AfterSettle(l, o).0)
  {
    hide Frac, Disjoint, Locked, Counted, Credit;
    var k := IndexOf(l.pending, o.id);
    var (l', r) := AfterSettle(l, o);
    if k < |l.pending| {
      assert l.pending[k] in l.pending;
      assert forall q :: q in l'.pending ==> q in l.pending;
      FracMonotone(l.capital, l'.capital, l.cfg.maxEpisode);
      FracMonotone(l.capital, l'.capital, l.cfg.maxAggregateOpen);
      FracMonotone(l.capital, l'.capital, l.cfg.reserve);
    }
  }

  datatype Action = DoReserve(position: Position) | DoSettle(settlement: Settlement)

  function Step(l: Ledger, a: Action): Ledger {
    match a case DoReserve(p) => AfterReserve(l, p) case DoSettle(o) => AfterSettle(l, o).0
  }

  function Run(l: Ledger, actions: seq<Action>): Ledger
    decreases |actions|
  {
    if actions == [] then l else Run(Step(l, actions[0]), actions[1..])
  }

  /**
   * Over every run the ledger stays sound and balanced; a hypothetical one also within every cap of its
   * unchanged capital.
   */
  lemma {:induction false} RunKeeps(l: Ledger, actions: seq<Action>)
    requires Sound(l) && Balanced(l) && (l.cfg.hypothetical ==> WithinCaps(l))
    ensures var end := Run(l, actions);
            && Sound(end) && Balanced(end) && end.cfg == l.cfg && end.initial == l.initial
            && (l.cfg.hypothetical ==> WithinCaps(end) && end.capital == l.initial)
    decreases |actions|
  {
    hide Sound, WithinCaps, AfterReserve, AfterSettle;
    if actions != [] {
      match actions[0] {
        case DoReserve(p) => StepReserve(l, p);
        case DoSettle(o) => StepSettle(l, o);
      }
      RunKeeps(Step(l, actions[0]), actions[1..]);
    }
  }

  lemma StepReserve(l: Ledger, p: Position)
    requires Sound(l) && Balanced(l) && (l.cfg.hypothetical ==> WithinCaps(l))
    ensures var l' := AfterReserve(l, p);
            Sound(l') && Balanced(l') && (l.cfg.hypothetical ==>
                WithinCaps(l')) && l'.cfg == l.cfg && l'.initial == l.initial
  {
    ReserveKeepsSound(l, p);
    ReserveKeepsBalanced(l, p);
    if l.cfg.hypothetical { ReserveKeepsCaps(l, p); }
    hide Sound, Balanced, WithinCaps, Refusal, Budget;
  }

  lemma StepSettle(l: Ledger, o: Settlement)
    requires Sound(l) && Balanced(l) && (l.cfg.hypothetical ==> WithinCaps(l))
    ensures var l' := AfterSettle(l, o).0;
            Sound(l') && Balanced(l') && (l.cfg.hypothetical ==>
                WithinCaps(l')) && l'.cfg == l.cfg && l'.initial == l.initial
  {
    SettleKeepsSound(l, o);
    SettleKeepsBalanced(l, o);
    if l.cfg.hypothetical { SettleKeepsCaps(l, o); }
    hide Sound, Balanced, WithinCaps;
  }

  /** From a fresh ledger: any run of reservations and settlements whatsoever. */
  lemma RunFromOpened(cfg: Config, actions: seq<Action>)
    requires ValidConfig(cfg)
    ensures var end := Run(Opened(cfg), actions);
            && Sound(end) && Balanced(end)
            && (cfg.hypothetical ==> WithinCaps(end) && end.capital == cfg.capitalLamports)
  {
    assert Sound(Opened(cfg)) && Balanced(Opened(cfg)) && WithinCaps(Opened(cfg));
    RunKeeps(Opened(cfg), actions);
  }

  // ----- exactly which live settlements can break the caps -----

  /** Settling `o` leaves the remaining positions within every cap of the new capital. */
  ghost predicate KeepsCaps(l: Ledger, o: Settlement) { WithinCaps(AfterSettle(l, o).0) }

  /** Every live ledger that a run can reach and that is within its caps stays so under `o`. */
  ghost predicate KeepsReachableCaps(o: Settlement) {
    forall cfg: Config, actions: seq<Action> ::
      ValidConfig(cfg) && !cfg.hypothetical && WithinCaps(Run(Opened(cfg), actions)) ==>
          KeepsCaps(Run(Opened(cfg), actions), o)
  }

  /** Half the capital per episode, and all of it open, for the two reservations below. */
  function HalfConfig(n: nat): Config { Config(2 * n, 500_000, MILLION, 0, 2, false) }

  function SmallPosition(id: string): Position { Position(id, 1, 0, 0, ["p"], "m") }
  function HalfPosition(id: string, n: nat): Position { Position(id, n, 0, 0, ["q"], "n") }

  function HalfOpen(id: string, n: nat): Ledger {
    AfterReserve(AfterReserve(Opened(HalfConfig(n)), SmallPosition(id)), HalfPosition(id + "'", n))
  }

  /** A run reserves one lamport under `id`, then half the capital. */
  lemma HalfOpenReached(id: string, n: nat)
    ensures Run(Opened(HalfConfig(n)), [DoReserve(SmallPosition(id)), DoReserve(HalfPosition(id + "'", n))])
              == HalfOpen(id, n)
  {
    hide AfterReserve;
    var a, b := DoReserve(SmallPosition(id)), DoReserve(HalfPosition(id + "'", n));
    var l := Opened(HalfConfig(n));
    assert [a, b][1..] == [b] && [b][1..] == [];
    assert Run(l, [a, b]) == Run(Step(l, a), [b]) == Run(Step(Step(l, a), b), []);
  }

  lemma HalfLimits(n: nat)
    ensures Frac(2 * n, 500_000) == n && Frac(2 * n, MILLION) == 2 * n && Frac(2 * n, 0) == 0
  {
    assert 2 * n * 500_000 == n * 1_000_000;
  }

  lemma SmallGranted(id: string, n: nat)
    requires n >= 1
    ensures var l := AfterReserve(Opened(HalfConfig(n)), SmallPosition(id));
            l.pending == [SmallPosition(id)] && l.locked == 1 && l.capital == 2 * n && l.cfg == HalfConfig(n)
  {
    hide Frac;
    HalfLimits(n);
  }

  lemma HalfGranted(id: string, n: nat)
    requires n >= 1
    ensures var l := HalfOpen(id, n);
            && l.pending == [SmallPosition(id), HalfPosition(id + "'", n)] && l.locked == n + 1
            && l.capital == 2 * n && l.cfg == HalfConfig(n) && WithinCaps(l)
  {
    SmallGranted(id, n);
    hide Frac, AfterReserve;
    HalfLimits(n);
    var l, p := AfterReserve(Opened(HalfConfig(n)), SmallPosition(id)), HalfPosition(id + "'", n);
    NothingSmallClashes(id, n);
    GrantedAppends(l, p);
  }

  lemma NothingSmallClashes(id: string, n: nat)
    ensures ConflictWith(SmallPosition(id), HalfPosition(id + "'", n)).None? && id != id + "'"
  {
    assert |id + "'"| == |id| + 1;
  }

  /** A position that passes every check joins the pending ones. */
  lemma GrantedAppends(l: Ledger, p: Position)
    requires |l.pending| == 1 && l.pending[0].id != p.id && ConflictWith(l.pending[0], p).None?
    requires p.amountIn > 0 && p.feeBudget >= 0 && p.deposit >= 0 && l.cfg.maxConcurrent > 1
            && CapRefusal(l, Need(p)).None?
    ensures var l' := AfterReserve(l, p);
            l'.pending == l.pending + [p] && l'.locked == l.locked + Need(p) && l'.capital == l.capital
                && l'.cfg == l.cfg
  {
    hide CapRefusal, ConflictWith, Budget;
    assert l.pending[1..] == [];
    assert FirstConflict(l.pending, p) == FirstConflict([], p) == None;
  }

  /** With n two above the loss, what stays open exceeds half of what is left. */
  lemma LossBreaksHalf(o: Settlement, n: nat)
    requires Credit(o) < 0 && n == 2 - Credit(o)
    ensures HalfOpen(o.id, n).cfg == HalfConfig(n) && WithinCaps(HalfOpen(o.id, n)) && !KeepsCaps(HalfOpen(o.id, n), o)
  {
    hide HalfOpen, Frac, Credit, AfterSettle;
    HalfGranted(o.id, n);
    var l := HalfOpen(o.id, n);
    HeadSettles(l, o);
    HalfOfLess(n, Credit(o));
    var l' := AfterSettle(l, o).0;
    assert l'.pending[0] in l'.pending && Need(l'.pending[0]) == n;
  }

  lemma HeadSettles(l: Ledger, o: Settlement)
    requires |l.pending| == 2 && l.pending[0].id == o.id && l.locked >= Need(l.pending[0]) && !l.cfg.hypothetical
    ensures var l' := AfterSettle(l, o).0;
            l'.pending == [l.pending[1]] && l'.capital == l.capital + Credit(o) && l'.cfg == l.cfg
  {
    hide Credit, Counted;
    assert Without(l.pending, 0) == [l.pending[1]];
  }

  lemma HalfOfLess(n: nat, x: int)
    requires x < 0 && n == 2 - x
    ensures Frac(2 * n + x, 500_000) < n
  {
    assert (2 * n + x) * 500_000 < n * 1_000_000;
  }

  /**
   * Over the live ledgers that runs reach, a settlement always keeps the caps exactly when it does not
   * lose money; any loss, of any size, breaks them on some such ledger.
   */
  lemma LossIsWhatBreaksCaps(o: Settlement)
    ensures KeepsReachableCaps(o) <==> Credit(o) >= 0
    ensures (forall l :: Sound(l) && WithinCaps(l) && !l.cfg.hypothetical ==> KeepsCaps(l, o)) <==> Credit(o) >= 0
  {
    hide Sound, WithinCaps, AfterSettle, Credit, HalfOpen, Run;
    if Credit(o) >= 0 {
      forall l | Sound(l) && WithinCaps(l) ensures KeepsCaps(l, o) { SettleKeepsCaps(l, o); }
      forall cfg: Config, actions: seq<Action> | ValidConfig(cfg) ensures Sound(Run(Opened(cfg), actions)) {
        RunFromOpened(cfg, actions);
      }
    } else {
      var n := 2 - Credit(o);
      var cfg, actions := HalfConfig(n), [DoReserve(SmallPosition(o.id)), DoReserve(HalfPosition(o.id + "'", n))];
      LossBreaksHalf(o, n);
      HalfOpenReached(o.id, n);
      RunFromOpened(cfg, actions);
      assert !KeepsCaps(Run(Opened(cfg), actions), o);
    }
  }

  /** The failing run, settlement included. */
  lemma LiveLossBreaksCaps(o: Settlement)
    requires Credit(o) < 0
    ensures var n := 2 - Credit(o);
            var reserves := [DoReserve(SmallPosition(o.id)), DoReserve(HalfPosition(o.id + "'", n))];
            && ValidConfig(HalfConfig(n)) && WithinCaps(Run(Opened(HalfConfig(n)), reserves))
            && !WithinCaps(Run(Opened(HalfConfig(n)), reserves + [DoSettle(o)]))
  {
    hide WithinCaps, AfterSettle, AfterReserve, Credit, HalfOpen, Run;
    var n := 2 - Credit(o);
    var reserves := [DoReserve(SmallPosition(o.id)), DoReserve(HalfPosition(o.id + "'", n))];
    LossBreaksHalf(o, n);
    HalfOpenReached(o.id, n);
    RunAppend(Opened(HalfConfig(n)), reserves, DoSettle(o));
  }

  lemma {:induction false} RunAppend(l: Ledger, actions: seq<Action>, a: Action)
    ensures Run(l, actions + [a]) == Step(Run(l, actions), a)
    decreases |actions|
  {
    hide Step;
    if actions != [] {
      RunAppend(Step(l, actions[0]), actions[1..], a);
      assert (actions + [a])[0] == actions[0] && (actions + [a])[1..] == actions[1..] + [a];
    } else {
      assert (actions + [a])[1..] == [];
    }
  }
}
