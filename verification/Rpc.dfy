/**
 * Admission control of the RPC client (src/state/rpc.ts): budget reservation, the slot semaphore with
 * its queue of waiters, the token bucket and the retry loop.  The code between two awaits is one
 * atomic step; a run interleaves the steps of any number of concurrent calls.
 */
module Rpc {

  /** maxRequestsPerSecond, maxConcurrentRequests, maxTotalHttpRequests. */
  datatype Limits = Limits(rate: real, concurrent: int, budget: int)

  /**
   * Where a call stands.  Ready: a budget unit is reserved and the slot test comes next (at an await
   * this means its wake-up is pending).  Throttled, Sending and BackingOff hold a slot.
   */
  datatype Phase = Idle | Ready | Waiting | Throttled | Sending | BackingOff | Done

  datatype Call = Call(phase: Phase, attempt: nat, reserved: nat, acquires: nat, releases: nat, sent: nat)

  datatype Outcome = Success | Fatal | Transient

  /** `sent` counts the HTTP attempts of all calls; times are in milliseconds. */
  datatype Client = Client(limits: Limits, inflight: int, waiters: seq<nat>, tokens: real, lastRefill: real,
                           total: nat, errors: nat, retries: nat, sent: nat, calls: seq<Call>)

  function WithPhase(s: Client, c: nat, phase: Phase): Client
    requires c < |s.calls|
  {
    s.(calls := s.calls[c := s.calls[c].(phase := phase)])
  }

  // ----- the pieces of a step -----

  /** The budget check and the reservation, in one synchronous step. */
  function Enter(s: Client, c: nat): Client
    requires c < |s.calls|
  {
    if s.total >= s.limits.budget then WithPhase(s, c, Done)
    else s.(total := s.total + 1, calls :=
        s.calls[c := s.calls[c].(phase := Ready, reserved := s.calls[c].reserved + 1)])
  }

  /** The slot test: queue up, or take a slot. */
  function Admit(s: Client, c: nat): Client
    requires c < |s.calls|
  {
    if s.inflight >= s.limits.concurrent then WithPhase(s.(waiters := s.waiters + [c]), c, Waiting)
    else s.(inflight := s.inflight + 1, calls :=
        s.calls[c := s.calls[c].(phase := Throttled, acquires := s.calls[c].acquires + 1)])
  }

  /** The amount, capped by the rate. */
  function AtMost(rate: real, tokens: real): real { if tokens < rate then tokens else rate }

  /** Tokens available at `now`, before any is taken. */
  function Level(s: Client, now: real): real {
    AtMost(s.limits.rate, s.tokens + (now - s.lastRefill) / 1000.0 * s.limits.rate)
  }

  /** Refill, then take a token and send, or sleep. */
  function TryToken(s: Client, c: nat, now: real): Client
    requires c < |s.calls|
  {
    var level := Level(s, now);
    if level >= 1.0 then
      s.(tokens := level - 1.0, lastRefill := now, sent := s.sent + 1,
         calls := s.calls[c := s.calls[c].(phase := Sending, sent := s.calls[c].sent + 1)])
    else WithPhase(s.(tokens := level, lastRefill := now), c, Throttled)
  }

  /** Gives the slot back and wakes the first waiter; the call goes on to `next`. */
  function Release(s: Client, c: nat, next: Phase): (r: Client)
    requires c < |s.calls|
    ensures |r.calls| == |s.calls|
  {
    var freed :=
        s.(inflight := s.inflight - 1, calls :=
            s.calls[c := s.calls[c].(phase := next, releases := s.calls[c].releases + 1)]);
    if s.waiters == [] then freed else Wake(freed.(waiters := s.waiters[1..]), s.waiters[0])
  }

  function Wake(s: Client, w: nat): Client { if w < |s.calls| then WithPhase(s, w, Ready) else s }

  // ----- the atomic steps -----

  function Slot(s: Client, c: nat, now: real): Client
    requires c < |s.calls|
  {
    var admitted := Admit(s, c);
    if admitted.calls[c].phase == Throttled then TryToken(admitted, c, now) else admitted
  }

  function Acquire(s: Client, c: nat, now: real): Client
    requires c < |s.calls|
  {
    var entered := Enter(s, c);
    if entered.calls[c].phase == Ready then Slot(entered, c, now) else entered
  }

  /** The end of an attempt: success and permanent failures release; transient ones back off, holding the slot. */
  function EndAttempt(s: Client, c: nat, outcome: Outcome): Client
    requires c < |s.calls|
  {
    if outcome == Success then Finish(s, c)
    else if outcome == Fatal || s.calls[c].attempt >= 4 then Finish(s.(errors := s.errors + 1), c)
    else s.(errors := s.errors + 1, retries := s.retries + 1,
            calls := s.calls[c := s.calls[c].(phase := BackingOff, attempt := s.calls[c].attempt + 1)])
  }

  function Finish(s: Client, c: nat): Client
    requires c < |s.calls|
  {
    Release(s, c, Done)
  }

  datatype Action =
    | Start(call: nat)
    | Resume(call: nat)
    | WakeFromSleep(call: nat)
    | Reply(call: nat, outcome: Outcome)
    | EndBackoff(call: nat)

  /** A step of the call at `now`; an action the call is not waiting for does nothing. */
  function Step(s: Client, a: Action, now: real): Client {
    var c := a.call;
    if c >= |s.calls| then s
    else
      match (a, s.calls[c].phase)
      case (Start(_), Idle) => Acquire(s, c, now)
      case (Resume(_), Ready) => Slot(s, c, now)
      case (WakeFromSleep(_), Throttled) => TryToken(s, c, now)
      case (Reply(_, outcome), Sending) => EndAttempt(s, c, outcome)
      case (EndBackoff(_), BackingOff) => Acquire(Release(s, c, Idle), c, now)
      case _ => s
  }

  // ----- what every interleaving keeps -----

  function Sum(f: Call -> nat, calls: seq<Call>): nat {
    if calls == [] then 0 else Sum(f, calls[..|calls| - 1]) + f(calls[|calls| - 1])
  }

  predicate HoldsSlot(p: Phase) { p == Throttled || p == Sending || p == BackingOff }

  function Holding(c: Call): nat { if HoldsSlot(c.phase) then 1 else 0 }
  function Woken(c: Call): nat { if c.phase == Ready then 1 else 0 }
  function Reserved(c: Call): nat { c.reserved }
  function SentBy(c: Call): nat { c.sent }
  function Attempts(c: Call): nat { c.attempt }

  /** Reservations become exactly one acquire each, acquires exactly one release each, at most five attempts. */
  predicate CallOk(c: Call) {
    && c.reserved == c.acquires + (if c.phase == Ready || c.phase == Waiting then 1 else 0)
    && c.acquires == c.releases + Holding(c)
    && c.acquires == c.sent + (if c.phase == Throttled then 1 else 0)
    && c.attempt <= 4
    && (if c.phase == Idle then c.reserved == c.attempt
        else if c.phase == BackingOff then c.reserved == c.attempt
        else if c.phase == Done then c.reserved <= c.attempt + 1
        else c.reserved == c.attempt + 1)
  }

  ghost predicate CallsOk(s: Client) { forall i :: 0 <= i < |s.calls| ==> CallOk(s.calls[i]) }

  ghost predicate QueueOk(s: Client) {
    && (forall i, j :: 0 <= i < j < |s.waiters| ==> s.waiters[i] != s.waiters[j])
    && (forall w: nat :: w in s.waiters <==> w < |s.calls| && s.calls[w].phase == Waiting)
  }

  /** Slots, budget, and no lost wake-up: while calls queue, every free slot has a wake-up pending. */
  ghost predicate CountsOk(s: Client) {
    && s.inflight == Sum(Holding, s.calls)
    && (s.inflight <= s.limits.concurrent || s.inflight == 0)
    && s.total == Sum(Reserved, s.calls)
    && (s.total <= s.limits.budget || s.total == 0)
    && s.sent == Sum(SentBy, s.calls)
    && s.retries == Sum(Attempts, s.calls)
    && s.retries <= s.errors
    && (s.waiters != [] ==> s.limits.concurrent - s.inflight <= Sum(Woken, s.calls))
  }

  ghost predicate TokensOk(s: Client) { 0.0 <= s.limits.rate && 0.0 <= s.tokens <= s.limits.rate }

  ghost predicate Inv(s: Client) { CallsOk(s) && QueueOk(s) && CountsOk(s) && TokensOk(s) }

  lemma {:induction false} SumUpdate(f: Call -> nat, calls: seq<Call>, i: nat, x: Call)
    requires i < |calls|
    ensures Sum(f, calls[i := x]) == Sum(f, calls) - f(calls[i]) + f(x)
  {
    var n := |calls| - 1;
    if i < n {
      SumUpdate(f, calls[..n], i, x);
      assert calls[i := x][..n] == calls[..n][i := x];
    } else {
      assert calls[i := x][..n] == calls[..n];
    }
  }

  /** All five sums after one call changes. */
  lemma SumsUpdate(calls: seq<Call>, i: nat, x: Call)
    requires i < |calls|
    ensures var calls' := calls[i := x];
            && Sum(Holding, calls') == Sum(Holding, calls) - Holding(calls[i]) + Holding(x)
            && Sum(Woken, calls') == Sum(Woken, calls) - Woken(calls[i]) + Woken(x)
            && Sum(Reserved, calls') == Sum(Reserved, calls) - calls[i].reserved + x.reserved
            && Sum(SentBy, calls') == Sum(SentBy, calls) - calls[i].sent + x.sent
            && Sum(Attempts, calls') == Sum(Attempts, calls) - calls[i].attempt + x.attempt
  {
    SumUpdate(Holding, calls, i, x);
    SumUpdate(Woken, calls, i, x);
    SumUpdate(Reserved, calls, i, x);
    SumUpdate(SentBy, calls, i, x);
    SumUpdate(Attempts, calls, i, x);
  }

  /** One call moves from its phase to that of `x`, the counters moving with it. */
  ghost predicate Moves(s: Client, t: Client, c: nat, x: Call) {
    && c < |s.calls| && t.calls == s.calls[c := x] && t.limits == s.limits
    && t.inflight == s.inflight - Holding(s.calls[c]) + Holding(x)
    && t.total == s.total - s.calls[c].reserved + x.reserved
    && t.sent == s.sent - s.calls[c].sent + x.sent
    && t.retries == s.retries - s.calls[c].attempt + x.attempt
  }

  lemma MoveKeepsCalls(s: Client, t: Client, c: nat, x: Call)
    requires CallsOk(s) && Moves(s, t, c, x) && CallOk(x)
    ensures CallsOk(t)
  {
    hide CallOk;
  }

  lemma MoveKeepsQueue(s: Client, t: Client, c: nat, x: Call)
    requires QueueOk(s) && Moves(s, t, c, x) && s.calls[c].phase != Waiting
    requires t.waiters == if x.phase == Waiting then s.waiters + [c] else s.waiters
    ensures QueueOk(t)
  {
  }

  lemma WakeKeepsQueue(s: Client, t: Client, w: nat, x: Call)
    requires QueueOk(s) && Moves(s, t, w, x) && x.phase != Waiting
    requires s.waiters != [] && w == s.waiters[0] && t.waiters == s.waiters[1..]
    ensures QueueOk(t)
  {
    assert s.waiters == [w] + t.waiters;
    assert forall k :: 0 <= k < |t.waiters| ==> t.waiters[k] == s.waiters[k + 1];
    assert w in s.waiters && w !in t.waiters;
    forall v: nat ensures v in t.waiters <==> v < |t.calls| && t.calls[v].phase == Waiting {
      assert v in t.waiters <==> v in s.waiters && v != w;
    }
  }

  lemma MoveKeepsCounts(s: Client, t: Client, c: nat, x: Call)
    requires CountsOk(s) && Moves(s, t, c, x)
    requires t.inflight <= t.limits.concurrent || t.inflight <= s.inflight
    requires (t.total <= t.limits.budget || t.total == s.total) && t.retries - s.retries <= t.errors - s.errors
    requires t.waiters != [] ==> t.limits.concurrent - t.inflight <= Sum(Woken, s.calls) - Woken(s.calls[c]) + Woken(x)
    ensures CountsOk(t)
  {
    SumsUpdate(s.calls, c, x);
    hide Sum, Holding, Woken;
  }

  /** A move of a call that was not queued. */
  lemma MoveKeeps(s: Client, t: Client, c: nat, x: Call)
    requires Inv(s) && Moves(s, t, c, x) && CallOk(x) && TokensOk(t) && s.calls[c].phase != Waiting
    requires t.waiters == if x.phase == Waiting then s.waiters + [c] else s.waiters
    requires t.inflight <= t.limits.concurrent || t.inflight <= s.inflight
    requires (t.total <= t.limits.budget || t.total == s.total) && t.retries - s.retries <= t.errors - s.errors
    requires t.waiters != [] ==> t.limits.concurrent - t.inflight <= Sum(Woken, s.calls) - Woken(s.calls[c]) + Woken(x)
    ensures Inv(t)
  {
    hide CallsOk, QueueOk, CountsOk, CallOk, Moves, Sum, Woken;
    MoveKeepsCalls(s, t, c, x);
    MoveKeepsQueue(s, t, c, x);
    MoveKeepsCounts(s, t, c, x);
  }

  lemma EnterKeeps(s: Client, c: nat)
    requires Inv(s) && c < |s.calls| && s.calls[c].phase == Idle
    ensures Inv(Enter(s, c)) && Enter(s, c).calls[c].phase != Idle && Enter(s, c).calls[c].phase != Throttled
  {
    hide Sum, QueueOk;
    MoveKeeps(s, Enter(s, c), c, Enter(s, c).calls[c]);
  }

  lemma AdmitKeeps(s: Client, c: nat)
    requires Inv(s) && c < |s.calls| && s.calls[c].phase == Ready
    ensures Inv(Admit(s, c))
  {
    hide Sum, QueueOk;
    SumsUpdate(s.calls, c, Admit(s, c).calls[c]);
    MoveKeeps(s, Admit(s, c), c, Admit(s, c).calls[c]);
  }

  lemma LevelBounds(s: Client, now: real)
    requires TokensOk(s) && s.lastRefill <= now
    ensures s.tokens <= Level(s, now) <= s.limits.rate
  {
    var elapsed := (now - s.lastRefill) / 1000.0;
    assert elapsed * s.limits.rate >= 0.0;
  }

  lemma TryTokenKeeps(s: Client, c: nat, now: real)
    requires Inv(s) && c < |s.calls| && s.calls[c].phase == Throttled && s.lastRefill <= now
    ensures Inv(TryToken(s, c, now))
  {
    LevelBounds(s, now);
    hide Sum, Level, QueueOk;
    MoveKeeps(s, TryToken(s, c, now), c, TryToken(s, c, now).calls[c]);
  }

  lemma ReleaseKeeps(s: Client, c: nat, next: Phase)
    requires Inv(s) && c < |s.calls| && HoldsSlot(s.calls[c].phase)
    requires (next == Done && s.calls[c].phase == Sending) || (next == Idle && s.calls[c].phase == BackingOff)
    ensures Inv(Release(s, c, next)) && Release(s, c, next).calls[c].phase == next
  {
    hide Inv, Moves, CallOk, Woken;
    InvParts(s);
    FreedMoves(s, c, next);
    if s.waiters == [] {
      FreedKeeps(s, c, next);
    } else {
      HeadWaits(s);
      WokenKeeps(s, c, next);
    }
  }

  function Freed(s: Client, c: nat, next: Phase): Call
    requires c < |s.calls|
  {
    s.calls[c].(phase := next, releases := s.calls[c].releases + 1)
  }

  function AfterFree(s: Client, c: nat, next: Phase): Client
    requires c < |s.calls|
  {
    s.(inflight := s.inflight - 1, calls := s.calls[c := Freed(s, c, next)])
  }

  lemma FreedMoves(s: Client, c: nat, next: Phase)
    requires CallsOk(s) && c < |s.calls| && HoldsSlot(s.calls[c].phase)
    requires (next == Done && s.calls[c].phase == Sending) || (next == Idle && s.calls[c].phase == BackingOff)
    ensures Moves(s, AfterFree(s, c, next), c, Freed(s, c, next))
    ensures CallOk(Freed(s, c, next)) && Woken(Freed(s, c, next)) == Woken(s.calls[c])
  {
  }

  lemma FreedKeeps(s: Client, c: nat, next: Phase)
    requires Inv(s) && c < |s.calls| && HoldsSlot(s.calls[c].phase) && s.waiters == [] && (next == Done || next == Idle)
    requires Moves(s, AfterFree(s, c, next), c, Freed(s, c, next)) && CallOk(Freed(s, c, next))
    ensures Inv(Release(s, c, next))
  {
    hide CallsOk, QueueOk, CallOk, Moves, Sum, Woken;
    InvParts(s);
    MoveKeeps(s, AfterFree(s, c, next), c, Freed(s, c, next));
  }

  lemma WokenKeeps(s: Client, c: nat, next: Phase)
    requires Inv(s) && c < |s.calls| && HoldsSlot(s.calls[c].phase) && (next == Done || next == Idle)
    requires s.waiters != [] && s.waiters[0] < |s.calls| && s.calls[s.waiters[0]].phase == Waiting
    requires Moves(s, AfterFree(s, c, next), c, Freed(s, c, next)) && CallOk(Freed(s, c, next))
            && Woken(Freed(s, c, next)) == Woken(s.calls[c])
    ensures Inv(Release(s, c, next))
  {
    hide CallsOk, QueueOk, CountsOk, CallOk, Moves, Sum, Woken;
    var freed, t, w := AfterFree(s, c, next), Release(s, c, next), s.waiters[0];
    var y := s.calls[w].(phase := Ready);
    MoveKeepsCalls(s, freed, c, Freed(s, c, next));
    MoveKeepsQueue(s, freed, c, Freed(s, c, next));
    WakeMoves(freed, t, w);
    MoveKeepsCalls(freed, t, w, y);
    WakeKeepsQueue(freed, t, w, y);
    WakeKeepsCounts(s, freed, t, c, Freed(s, c, next), w, y);
  }

  lemma WakeMoves(s: Client, t: Client, w: nat)
    requires CallsOk(s) && w < |s.calls| && s.calls[w].phase == Waiting
    requires t == WithPhase(s.(waiters := t.waiters), w, Ready)
    ensures var y := s.calls[w].(phase := Ready); Moves(s, t, w, y) && CallOk(y) && Woken(y) == Woken(s.calls[w]) + 1
  {
  }

  /** Freeing a slot and waking a waiter: one more free slot, one more wake-up pending. */
  lemma WakeKeepsCounts(s: Client, freed: Client, t: Client, c: nat, x: Call, w: nat, y: Call)
    requires CountsOk(s) && Moves(s, freed, c, x) && Moves(freed, t, w, y) && s.waiters != []
    requires freed.total == s.total && freed.inflight == s.inflight - 1 && freed.errors == s.errors
            && freed.retries == s.retries
    requires t == freed.(waiters := t.waiters, calls := t.calls)
    requires Woken(x) == Woken(s.calls[c]) && Woken(y) == Woken(freed.calls[w]) + 1
    ensures CountsOk(t)
  {
    hide Sum, Holding, Woken;
    SumsUpdate(s.calls, c, x);
    SumsUpdate(freed.calls, w, y);
  }

  lemma HeadWaits(s: Client)
    requires QueueOk(s) && s.waiters != []
    ensures s.waiters[0] < |s.calls| && s.calls[s.waiters[0]].phase == Waiting
  {
    assert s.waiters[0] in s.waiters;
  }

  lemma EndAttemptKeeps(s: Client, c: nat, outcome: Outcome)
    requires Inv(s) && c < |s.calls| && s.calls[c].phase == Sending
    ensures Inv(EndAttempt(s, c, outcome))
  {
    hide Sum, QueueOk, Release;
    var failed := s.(errors := s.errors + 1);
    if outcome == Success {
      ReleaseKeeps(s, c, Done);
    } else if outcome == Fatal || s.calls[c].attempt >= 4 {
      QueueUnchanged(s, failed);
      ReleaseKeeps(failed, c, Done);
    } else {
      MoveKeeps(s, EndAttempt(s, c, outcome), c, EndAttempt(s, c, outcome).calls[c]);
    }
  }

  lemma QueueUnchanged(s: Client, t: Client)
    requires QueueOk(s) && t.waiters == s.waiters && t.calls == s.calls
    ensures QueueOk(t)
  {
  }

  // ----- runs -----

  /** A step at a time not before the last refill keeps the invariant. */
  lemma StepKeeps(s: Client, a: Action, now: real)
    requires Inv(s) && s.lastRefill <= now
    ensures Inv(Step(s, a, now))
  {
    hide Inv, Admit, Enter, Release, TryToken, EndAttempt, Level;
    InvParts(s);
    var c := a.call;
    if c < |s.calls| {
      match (a, s.calls[c].phase)
      case (Start(_), Idle) => AcquireKeeps(s, c, now);
      case (Resume(_), Ready) => SlotKeeps(s, c, now);
      case (WakeFromSleep(_), Throttled) => TryTokenKeeps(s, c, now);
      case (Reply(_, outcome), Sending) => EndAttemptKeeps(s, c, outcome);
      case (EndBackoff(_), BackingOff) =>
        ReleaseKeeps(s, c, Idle);
        ReleaseTimes(s, c, Idle);
        AcquireKeeps(Release(s, c, Idle), c, now);
      case _ =>
    }
  }

  lemma InvParts(s: Client)
    requires Inv(s)
    ensures CallsOk(s) && QueueOk(s)
  {
  }

  lemma ReleaseTimes(s: Client, c: nat, next: Phase)
    requires c < |s.calls|
    ensures var t := Release(s, c, next);
            t.lastRefill == s.lastRefill && t.tokens == s.tokens && t.sent == s.sent && t.limits == s.limits
  {
  }

  lemma SlotKeeps(s: Client, c: nat, now: real)
    requires Inv(s) && c < |s.calls| && s.calls[c].phase == Ready && s.lastRefill <= now
    ensures Inv(Slot(s, c, now))
  {
    hide Inv, TryToken;
    AdmitKeeps(s, c);
    if Admit(s, c).calls[c].phase == Throttled { TryTokenKeeps(Admit(s, c), c, now); }
  }

  lemma AcquireKeeps(s: Client, c: nat, now: real)
    requires Inv(s) && c < |s.calls| && s.calls[c].phase == Idle && s.lastRefill <= now
    ensures Inv(Acquire(s, c, now))
  {
    hide Inv, Slot;
    EnterKeeps(s, c);
    if Enter(s, c).calls[c].phase == Ready { SlotKeeps(Enter(s, c), c, now); }
  }

  datatype Event = Event(action: Action, time: real)

  function Run(s: Client, events: seq<Event>): Client
    decreases |events|
  {
    if events == [] then s else Run(Step(s, events[0].action, events[0].time), events[1..])
  }

  /** Event times never go back, and start no earlier than `from`. */
  ghost predicate Monotone(from: real, events: seq<Event>) {
    && (events != [] ==> from <= events[0].time)
    && (forall i, j :: 0 <= i < j < |events| ==> events[i].time <= events[j].time)
  }

  function LastTime(from: real, events: seq<Event>): real {
    if events == [] then from else events[|events| - 1].time
  }

  function Opened(limits: Limits, now: real, calls: nat): Client {
    Client(limits, 0, [], limits.rate, now, 0, 0, 0, 0, seq(calls, i => Call(Idle, 0, 0, 0, 0, 0)))
  }

  lemma {:induction false} SumZero(f: Call -> nat, calls: seq<Call>)
    requires forall i :: 0 <= i < |calls| ==> f(calls[i]) == 0
    ensures Sum(f, calls) == 0
  {
    if calls != [] { SumZero(f, calls[..|calls| - 1]); }
  }

  lemma OpenedInv(limits: Limits, now: real, calls: nat)
    requires limits.rate >= 0.0
    ensures Inv(Opened(limits, now, calls))
  {
    var s := Opened(limits, now, calls);
    hide Sum;
    SumZero(Holding, s.calls);
    SumZero(Woken, s.calls);
    SumZero(Reserved, s.calls);
    SumZero(SentBy, s.calls);
    SumZero(Attempts, s.calls);
  }

  /** What a step does to the bucket: nothing, or one refill at `now` with at most one request sent. */
  lemma StepBucket(s: Client, a: Action, now: real)
    ensures var t := Step(s, a, now);
            && t.limits == s.limits && |t.calls| == |s.calls|
            && (t.lastRefill == s.lastRefill || t.lastRefill == now)
            && (TokensOk(s) && s.lastRefill <= now ==> t.sent as real + Level(t, now) <= s.sent as real + Level(s, now))
  {
    hide Level, TokensOk, Release;
    var c := a.call;
    if c < |s.calls| {
      TryTokenSpends(s, c, now);
      AdmitBucket(s, c, now);
      AcquireBucket(s, c, now);
      ReleaseTimes(s, c, Idle);
      ReleaseTimes(s, c, Done);
      ReleaseTimes(s.(errors := s.errors + 1), c, Done);
      AcquireBucket(Release(s, c, Idle), c, now);
      SameLevel(s, Release(s, c, Idle), now);
      SameLevel(s, Step(s, a, now), now);
    }
  }

  lemma SameLevel(s: Client, t: Client, now: real)
    ensures t.tokens == s.tokens && t.lastRefill == s.lastRefill && t.limits == s.limits ==>
              Level(t, now) == Level(s, now) && TokensOk(s) == TokensOk(t)
  {
  }

  lemma LevelNow(s: Client, now: real)
    ensures s.lastRefill == now ==> Level(s, now) == AtMost(s.limits.rate, s.tokens)
  {
    assert s.lastRefill == now ==> (now - s.lastRefill) / 1000.0 == 0.0;
  }

  lemma TryTokenSpends(s: Client, c: nat, now: real)
    requires c < |s.calls|
    ensures var t := TryToken(s, c, now);
            && t.limits == s.limits && |t.calls| == |s.calls| && t.lastRefill == now
            && (TokensOk(s) && s.lastRefill <= now ==> t.sent as real + Level(t, now) <= s.sent as real + Level(s, now))
  {
    if TokensOk(s) && s.lastRefill <= now { LevelBounds(s, now); }
    LevelNow(TryToken(s, c, now), now);
    hide Level;
  }

  lemma AdmitBucket(s: Client, c: nat, now: real)
    requires c < |s.calls|
    ensures var t := Slot(s, c, now);
            && t.limits == s.limits && |t.calls| == |s.calls|
            && (t.lastRefill == s.lastRefill || t.lastRefill == now)
            && (TokensOk(s) && s.lastRefill <= now ==> t.sent as real + Level(t, now) <= s.sent as real + Level(s, now))
  {
    hide Level, TokensOk, TryToken;
    TryTokenSpends(Admit(s, c), c, now);
    SameLevel(s, Admit(s, c), now);
  }

  lemma AcquireBucket(s: Client, c: nat, now: real)
    requires c < |s.calls|
    ensures var t := Acquire(s, c, now);
            && t.limits == s.limits && |t.calls| == |s.calls|
            && (t.lastRefill == s.lastRefill || t.lastRefill == now)
            && (TokensOk(s) && s.lastRefill <= now ==> t.sent as real + Level(t, now) <= s.sent as real + Level(s, now))
  {
    hide Level, TokensOk, Slot;
    AdmitBucket(Enter(s, c), c, now);
    SameLevel(s, Enter(s, c), now);
  }

  /** As time passes the level rises at most at the rate. */
  lemma LevelRises(s: Client, now: real, later: real)
    requires TokensOk(s) && now <= later
    ensures Level(s, later) <= Level(s, now) + (later - now) / 1000.0 * s.limits.rate
  {
    var more := (later - now) / 1000.0;
    var elapsed := (now - s.lastRefill) / 1000.0;
    assert (later - s.lastRefill) / 1000.0 == elapsed + more;
    assert (elapsed + more) * s.limits.rate == elapsed * s.limits.rate + more * s.limits.rate;
    assert more * s.limits.rate >= 0.0;
  }

  /** Over every interleaving of any number of calls, at monotone times. */
  lemma {:induction false} RunKeeps(s: Client, now: real, events: seq<Event>)
    requires Inv(s) && s.lastRefill <= now && Monotone(now, events)
    ensures var t := Run(s, events); Inv(t) && t.lastRefill <= LastTime(now, events) && t.limits == s.limits && |t.calls| == |s.calls|
    decreases |events|
  {
    hide Inv, Step;
    if events != [] {
      var e := events[0];
      StepKeeps(s, e.action, e.time);
      StepBucket(s, e.action, e.time);
      MonotoneTail(now, events);
      RunKeeps(Step(s, e.action, e.time), e.time, events[1..]);
    }
  }

  lemma MonotoneTail(from: real, events: seq<Event>)
    requires Monotone(from, events) && events != []
    ensures from <= events[0].time && Monotone(events[0].time, events[1..])
    ensures LastTime(events[0].time, events[1..]) == LastTime(from, events)
  {
    assert forall i :: 0 <= i < |events[1..]| ==> events[1..][i] == events[i + 1];
  }

  lemma {:induction false} SentUpTo(s: Client, now: real, events: seq<Event>)
    requires Inv(s) && s.lastRefill <= now && Monotone(now, events)
    ensures var t := Run(s, events); var last := LastTime(now, events);
            t.sent as real + Level(t, last) <= s.sent as real + Level(s, now) + (last - now) / 1000.0 * s.limits.rate
    decreases |events|
  {
    hide Inv, Step, Level;
    if events != [] {
      var e := events[0];
      var s' := Step(s, e.action, e.time);
      StepKeeps(s, e.action, e.time);
      StepBucket(s, e.action, e.time);
      MonotoneTail(now, events);
      InvTokens(s);
      LevelRises(s, now, e.time);
      SentUpTo(s', e.time, events[1..]);
      WindowsAdd(now, e.time, LastTime(now, events), s.limits.rate);
    }
  }

  lemma InvTokens(s: Client)
    requires Inv(s)
    ensures TokensOk(s)
  {
  }

  lemma WindowsAdd(a: real, b: real, c: real, rate: real)
    ensures (c - a) / 1000.0 * rate == (b - a) / 1000.0 * rate + (c - b) / 1000.0 * rate
  {
    assert (c - a) / 1000.0 == (b - a) / 1000.0 + (c - b) / 1000.0;
  }

  /** In any window of a run, at most `rate` plus `rate` per second of its length requests are sent. */
  lemma WindowBound(s: Client, start: real, before: seq<Event>, window: seq<Event>)
    requires Inv(s) && s.lastRefill <= start && Monotone(start, before) && Monotone(LastTime(start, before), window)
            && window != []
    ensures var first, last := window[0].time, window[|window| - 1].time;
            var s0 := Run(s, before);
            Run(s0, window).sent as real - s0.sent as real <= s.limits.rate + (last - first) / 1000.0 * s.limits.rate
  {
    hide Inv, Run, Level;
    RunKeeps(s, start, before);
    var s0 := Run(s, before);
    var first := window[0].time;
    assert LastTime(first, window) == LastTime(LastTime(start, before), window) == window[|window| - 1].time;
    assert Monotone(first, window);
    SentUpTo(s0, first, window);
    RunKeeps(s0, first, window);
    InvTokens(s0);
    InvTokens(Run(s0, window));
    LevelBounds(s0, first);
    LevelBounds(Run(s0, window), window[|window| - 1].time);
    assert s0.limits == s.limits && Level(s0, first) <= s.limits.rate
        && Level(Run(s0, window), window[|window| - 1].time) >= 0.0;
  }

  /** No lost wake-up: while calls queue, a wake-up is pending or a slot is held. */
  lemma NoDeadlock(s: Client)
    requires Inv(s) && s.limits.concurrent >= 1 && s.waiters != []
    ensures exists c :: 0 <= c < |s.calls| && (s.calls[c].phase == Ready || HoldsSlot(s.calls[c].phase))
    ensures s.inflight == 0 ==> exists c :: 0 <= c < |s.calls| && s.calls[c].phase == Ready
  {
    hide QueueOk, CallOk;
    if s.inflight >= 1 {
      Someone(Holding, s.calls);
    } else {
      Someone(Woken, s.calls);
    }
  }

  /** The action moves its call on, at a time not before the last refill. */
  predicate CanMove(s: Client, a: Action, now: real) {
    && a.call < |s.calls| && s.lastRefill <= now
    && |Step(s, a, now).calls| == |s.calls| && Step(s, a, now).calls[a.call].phase != s.calls[a.call].phase
  }

  /** At one request per second or more, whenever calls queue some call can move on. */
  lemma QueueNeverStuck(s: Client)
    requires Inv(s) && s.limits.concurrent >= 1 && s.waiters != [] && s.limits.rate >= 1.0
    ensures exists a: Action, now: real :: CanMove(s, a, now)
  {
    hide Inv, Step, Level;
    InvParts(s);
    if s.inflight == 0 {
      NoDeadlock(s);
      var c :| 0 <= c < |s.calls| && s.calls[c].phase == Ready;
      ReadyMoves(s, c);
    } else {
      SomeHolder(s);
      var c :| 0 <= c < |s.calls| && HoldsSlot(s.calls[c].phase);
      HolderMoves(s, c);
    }
  }

  lemma SomeHolder(s: Client)
    requires Inv(s) && s.inflight != 0
    ensures exists c :: 0 <= c < |s.calls| && HoldsSlot(s.calls[c].phase)
  {
    hide QueueOk, CallsOk;
    Someone(Holding, s.calls);
  }

  lemma ReadyMoves(s: Client, c: nat)
    requires c < |s.calls| && s.calls[c].phase == Ready && s.inflight < s.limits.concurrent
    ensures CanMove(s, Resume(c), s.lastRefill)
  {
    hide Level;
  }

  lemma HolderMoves(s: Client, c: nat)
    requires Inv(s) && c < |s.calls| && HoldsSlot(s.calls[c].phase) && s.limits.rate >= 1.0
    ensures exists a: Action, now: real :: CanMove(s, a, now)
  {
    InvTokens(s);
    hide Level, Inv;
    match s.calls[c].phase
    case Throttled =>
      var now := TokenDue(s);
      SleepSuffices(s, now);
      LevelRises(s, s.lastRefill, now);
      assert CanMove(s, WakeFromSleep(c), now);
    case Sending => ReplyMoves(s, c);
    case BackingOff => BackoffMoves(s, c);
    case _ =>
  }

  lemma ReplyMoves(s: Client, c: nat)
    requires Inv(s) && c < |s.calls| && s.calls[c].phase == Sending
    ensures CanMove(s, Reply(c, Success), s.lastRefill)
  {
    ReleaseKeeps(s, c, Done);
    hide Inv, Release;
  }

  lemma BackoffMoves(s: Client, c: nat)
    requires Inv(s) && c < |s.calls| && s.calls[c].phase == BackingOff
    ensures CanMove(s, EndBackoff(c), s.lastRefill)
  {
    ReleaseKeeps(s, c, Idle);
    AcquirePhase(Release(s, c, Idle), c, s.lastRefill);
    hide Inv, Release, Acquire;
  }

  lemma AcquirePhase(s: Client, c: nat, now: real)
    requires c < |s.calls|
    ensures |Acquire(s, c, now).calls| == |s.calls|
    ensures Acquire(s, c, now).calls[c].phase in {Done, Waiting, Throttled, Sending}
  {
    hide Level;
  }

  lemma {:induction false} Someone(f: Call -> nat, calls: seq<Call>)
    requires Sum(f, calls) >= 1
    ensures exists c :: 0 <= c < |calls| && f(calls[c]) >= 1
  {
    var n := |calls| - 1;
    if f(calls[n]) == 0 { Someone(f, calls[..n]); }
  }

  lemma ScaleOrder(x: real, y: real, k: real)
    requires k > 0.0
    ensures x >= y <==> x * k >= y * k
  {
    if x >= y { assert (x - y) * k >= 0.0; } else { assert (y - x) * k > 0.0; }
  }

  /** When the computed sleep of a throttled call ends. */
  function TokenDue(s: Client): real
    requires s.limits.rate > 0.0
  {
    if s.tokens >= 1.0 then s.lastRefill else s.lastRefill + (1.0 - s.tokens) / s.limits.rate * 1000.0
  }

  /** A token can be taken exactly from the end of the computed sleep on, and only at a rate of one or more. */
  lemma SleepSuffices(s: Client, now: real)
    requires TokensOk(s) && s.limits.rate > 0.0 && s.lastRefill <= now
    ensures Level(s, now) >= 1.0 <==> s.limits.rate >= 1.0 && now >= TokenDue(s)
    ensures TokenDue(s) >= s.lastRefill
  {
    LevelBounds(s, now);
    if s.tokens < 1.0 { DueSplits(s.tokens, s.limits.rate, (now - s.lastRefill) / 1000.0); }
  }

  lemma DueSplits(tokens: real, rate: real, elapsed: real)
    requires tokens < 1.0 && rate > 0.0
    ensures tokens + elapsed * rate >= 1.0 <==> elapsed >= (1.0 - tokens) / rate
    ensures (1.0 - tokens) / rate >= 0.0
  {
    var wait := (1.0 - tokens) / rate;
    assert wait * rate == 1.0 - tokens;
    ScaleOrder(elapsed, wait, rate);
    ScaleOrder(wait, 0.0, rate);
  }

  // ----- a rate below one -----

  /** Below one request per second a step sends nothing. */
  lemma StepSendsNothing(s: Client, a: Action, now: real)
    requires TokensOk(s) && s.limits.rate < 1.0
    ensures Step(s, a, now).sent == s.sent
  {
    hide Level, TokensOk, Release;
    var c := a.call;
    if c < |s.calls| {
      LevelCapped(s, now);
      AcquireSendsNothing(s, c, now);
      ReleaseTimes(s, c, Idle);
      ReleaseTimes(s, c, Done);
      ReleaseTimes(s.(errors := s.errors + 1), c, Done);
      AcquireSendsNothing(Release(s, c, Idle), c, now);
      LevelCapped(Admit(s, c), now);
    }
  }

  lemma LevelCapped(s: Client, now: real)
    ensures Level(s, now) <= s.limits.rate
  {
  }

  lemma AcquireSendsNothing(s: Client, c: nat, now: real)
    requires c < |s.calls| && s.limits.rate < 1.0
    ensures Acquire(s, c, now).sent == s.sent
  {
    LevelCapped(Admit(Enter(s, c), c), now);
    hide Level;
  }

  /** Below one request per second, which the configuration allows, no run ever sends anything. */
  lemma {:induction false} NothingEverSent(s: Client, now: real, events: seq<Event>)
    requires Inv(s) && s.limits.rate < 1.0 && s.lastRefill <= now && Monotone(now, events)
    ensures Run(s, events).sent == s.sent
    decreases |events|
  {
    hide Inv, Step;
    if events != [] {
      var e := events[0];
      InvTokens(s);
      StepKeeps(s, e.action, e.time);
      StepBucket(s, e.action, e.time);
      StepSendsNothing(s, e.action, e.time);
      MonotoneTail(now, events);
      NothingEverSent(Step(s, e.action, e.time), e.time, events[1..]);
    }
  }

  /** A client that may hold a slot and has budget can send at all exactly when the rate is one or more. */
  lemma SendsIff(limits: Limits, now: real, calls: nat)
    requires limits.rate >= 0.0 && limits.concurrent >= 1 && limits.budget >= 1 && calls >= 1
    ensures (exists events :: Monotone(now, events) && Run(Opened(limits, now, calls), events).sent > 0) <==>
              limits.rate >= 1.0
  {
    hide Inv, Run;
    var s := Opened(limits, now, calls);
    OpenedInv(limits, now, calls);
    if limits.rate >= 1.0 {
      var events := [Event(Start(0), now)];
      FirstCallSends(limits, now, calls);
      assert Monotone(now, events) && Run(s, events).sent > 0;
    } else {
      forall events | Monotone(now, events) ensures Run(s, events).sent == 0 { NothingEverSent(s, now, events); }
    }
  }

  lemma FirstCallSends(limits: Limits, now: real, calls: nat)
    requires limits.rate >= 1.0 && limits.concurrent >= 1 && limits.budget >= 1 && calls >= 1
    ensures Run(Opened(limits, now, calls), [Event(Start(0), now)]).sent == 1
  {
    var s, e := Opened(limits, now, calls), Event(Start(0), now);
    LevelNow(Admit(Enter(s, 0), 0), now);
    hide Level;
    assert [e][1..] == [];
    assert Run(s, [e]) == Run(Step(s, Start(0), now), []);
  }

  lemma {:induction false} SumAtMost(f: Call -> nat, g: Call -> nat, calls: seq<Call>)
    requires forall i :: 0 <= i < |calls| ==> f(calls[i]) <= g(calls[i])
    ensures Sum(f, calls) <= Sum(g, calls)
  {
    if calls != [] { SumAtMost(f, g, calls[..|calls| - 1]); }
  }

  ghost predicate AllDone(s: Client) { forall i :: 0 <= i < |s.calls| ==> s.calls[i].phase == Done }

  /** The budget and concurrency limits hold, and a finished call gave back every slot it took. */
  ghost predicate Safe(s: Client) {
    && s.sent <= s.total && (s.total > 0 ==> s.total <= s.limits.budget)
    && (s.inflight > 0 ==> s.inflight <= s.limits.concurrent)
    && (forall i :: 0 <= i < |s.calls| && s.calls[i].phase == Done ==>
                      s.calls[i].sent == s.calls[i].acquires == s.calls[i].releases == s.calls[i].reserved <= 5)
  }

  lemma InvIsSafe(s: Client)
    requires Inv(s)
    ensures Safe(s)
  {
    hide Sum, QueueOk;
    SumAtMost(SentBy, Reserved, s.calls);
  }

  /** When every call has ended nothing is held or queued, and each reservation was one request. */
  lemma AllDoneIsQuiet(s: Client)
    requires Inv(s) && AllDone(s)
    ensures s.inflight == 0 && s.waiters == [] && s.sent == s.total
  {
    hide Sum;
    SumZero(Holding, s.calls);
    SumAtMost(SentBy, Reserved, s.calls);
    SumAtMost(Reserved, SentBy, s.calls);
    HeadNotDone(s);
  }

  lemma HeadNotDone(s: Client)
    requires QueueOk(s) && AllDone(s)
    ensures s.waiters == []
  {
    EmptyOrHead(s.waiters);
  }

  lemma EmptyOrHead(waiters: seq<nat>)
    ensures waiters == [] || exists w: nat :: w in waiters
  {
    assert |waiters| > 0 ==> waiters[0] in waiters;
  }

  /** Any interleaving of any number of fresh calls, at monotone times. */
  lemma RunGuarantees(limits: Limits, now: real, calls: nat, events: seq<Event>)
    requires limits.rate >= 0.0 && Monotone(now, events)
    ensures var t := Run(Opened(limits, now, calls), events);
            Inv(t) && Safe(t) && (AllDone(t) ==> t.inflight == 0 && t.waiters == [] && t.sent == t.total)
  {
    hide Run, Inv, Safe, AllDone;
    var t := Run(Opened(limits, now, calls), events);
    OpenedInv(limits, now, calls);
    RunKeeps(Opened(limits, now, calls), now, events);
    InvIsSafe(t);
    if AllDone(t) { AllDoneIsQuiet(t); }
  }

  // ----- the client object -----

  /** The client and the suspended calls that will resume inside it. */
  class RpcClient {
    const limits: Limits
    var inflight: int
    var waiters: seq<nat>
    var tokens: real
    var lastRefill: real
    var total: nat
    var errors: nat
    var retries: nat
    var sent: nat
    var calls: seq<Call>

    ghost function Model(): Client
      reads this
    {
      Client(limits, inflight, waiters, tokens, lastRefill, total, errors, retries, sent, calls)
    }

    constructor (l: Limits, now: real, n: nat)
      ensures Model() == Opened(l, now, n)
    {
      limits, inflight, waiters, tokens, lastRefill := l, 0, [], l.rate, now;
      total, errors, retries, sent := 0, 0, 0, 0;
      calls := seq(n, i => Call(Idle, 0, 0, 0, 0, 0));
    }

    method GoTo(c: nat, phase: Phase)
      requires c < |calls|
      modifies this`calls
      ensures Model() == WithPhase(old(Model()), c, phase)
    {
      calls := calls[c := calls[c].(phase := phase)];
    }

    /** From the call, or a retry, to the next await. */
    method AcquireSegment(c: nat, now: real)
      requires c < |calls|
      modifies this
      ensures Model() == Acquire(old(Model()), c, now)
    {
      hide Level;
      if total >= limits.budget {
        GoTo(c, Done);
        return;
      }
      total := total + 1;
      calls := calls[c := calls[c].(phase := Ready, reserved := calls[c].reserved + 1)];
      SlotSegment(c, now);
    }

    /** The slot loop's test: wait in the queue, or take a slot and go on to the token bucket. */
    method SlotSegment(c: nat, now: real)
      requires c < |calls|
      modifies this
      ensures Model() == Slot(old(Model()), c, now)
    {
      hide Level;
      if inflight >= limits.concurrent {
        waiters := waiters + [c];
        GoTo(c, Waiting);
        return;
      }
      inflight := inflight + 1;
      calls := calls[c := calls[c].(phase := Throttled, acquires := calls[c].acquires + 1)];
      TokenSegment(c, now);
    }

    method TokenSegment(c: nat, now: real)
      requires c < |calls|
      modifies this
      ensures Model() == TryToken(old(Model()), c, now)
    {
      var elapsed := (now - lastRefill) / 1000.0;
      tokens := AtMost(limits.rate, tokens + elapsed * limits.rate);
      lastRefill := now;
      if tokens >= 1.0 {
        tokens, sent := tokens - 1.0, sent + 1;
        calls := calls[c := calls[c].(phase := Sending, sent := calls[c].sent + 1)];
      } else {
        GoTo(c, Throttled);
      }
    }

    method ReleaseSegment(c: nat, next: Phase)
      requires c < |calls|
      modifies this
      ensures Model() == Release(old(Model()), c, next)
    {
      inflight := inflight - 1;
      calls := calls[c := calls[c].(phase := next, releases := calls[c].releases + 1)];
      if waiters != [] {
        var w := waiters[0];
        waiters := waiters[1..];
        if w < |calls| { GoTo(w, Ready); }
      }
    }

    /** The reply of an attempt: return, throw, or back off before retrying. */
    method ReplySegment(c: nat, outcome: Outcome)
      requires c < |calls|
      modifies this
      ensures Model() == EndAttempt(old(Model()), c, outcome)
    {
      hide Release;
      if outcome == Success {
        ReleaseSegment(c, Done);
        return;
      }
      errors := errors + 1;
      if outcome == Fatal || calls[c].attempt >= 4 {
        ReleaseSegment(c, Done);
        return;
      }
      retries := retries + 1;
      calls := calls[c := calls[c].(phase := BackingOff, attempt := calls[c].attempt + 1)];
    }

    /** One event of the run: the segment its call is suspended before. */
    method Advance(a: Action, now: real)
      modifies this
      ensures Model() == Step(old(Model()), a, now)
    {
      hide Release, Acquire, Slot, TryToken, EndAttempt;
      var c := a.call;
      if c >= |calls| { return; }
      match (a, calls[c].phase)
      case (Start(_), Idle) => AcquireSegment(c, now);
      case (Resume(_), Ready) => SlotSegment(c, now);
      case (WakeFromSleep(_), Throttled) => TokenSegment(c, now);
      case (Reply(_, outcome), Sending) => ReplySegment(c, outcome);
      case (EndBackoff(_), BackingOff) =>
        ReleaseSegment(c, Idle);
        AcquireSegment(c, now);
      case _ =>
    }
  }
}
