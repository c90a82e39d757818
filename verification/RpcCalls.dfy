/**
 * The life of one call of the RPC client, told by the replies it receives (src/state/rpc.ts): what each
 * reply does, that a finished call stays finished, how often a call is retried, and who waits for whom.
 */
module RpcCalls {
  import opened Rpc

  // ----- one step, in the client's fields -----

  /** The bucket holds a whole token at `now`. */
  predicate TokenReady(s: Client, now: real) {
    s.limits.rate >= 1.0 && s.tokens + (now - s.lastRefill) / 1000.0 * s.limits.rate >= 1.0
  }

  /** Call `c` asks for a slot: it queues at the end if none is free, and else sends if it gets a token too. */
  ghost predicate AsksForSlot(s: Client, t: Client, c: nat, now: real)
    requires c < |s.calls| == |t.calls|
  {
    if s.inflight >= s.limits.concurrent then
      && t.calls[c].phase == Waiting && t.waiters == s.waiters + [c] && t.inflight == s.inflight
      && t.sent == s.sent && t.tokens == s.tokens && t.lastRefill == s.lastRefill
    else
      && t.waiters == s.waiters && t.inflight == s.inflight + 1 && GoesOn(s, t, c, now)
  }

  /** With a slot in hand the call sends exactly when a token is there, and else sleeps. */
  ghost predicate GoesOn(s: Client, t: Client, c: nat, now: real)
    requires c < |s.calls| == |t.calls|
  {
    && t.lastRefill == now
    && t.calls[c].phase == (if TokenReady(s, now) then Sending else Throttled)
    && t.sent == s.sent + (if TokenReady(s, now) then 1 else 0)
  }

  ghost predicate OthersKeep(s: Client, t: Client, c: nat) {
    |t.calls| == |s.calls| && forall i :: 0 <= i < |s.calls| && i != c ==> t.calls[i] == s.calls[i]
  }

  /** A release: one slot less in use, and the head of the queue, if any, is woken. */
  ghost predicate Releases(s: Client, t: Client, c: nat) {
    && t.inflight == s.inflight - 1 && |t.calls| == |s.calls|
    && (if s.waiters == [] then t.waiters == [] && OthersKeep(s, t, c)
        else t.waiters == s.waiters[1..]
             && forall i :: 0 <= i < |s.calls| && i != c ==>
                              t.calls[i] == if i == s.waiters[0] then s.calls[i].(phase := Ready) else s.calls[i])
  }

  lemma TokenIsLevel(s: Client, now: real)
    ensures TokenReady(s, now) <==> Level(s, now) >= 1.0
  {
  }

  lemma SlotAsks(s: Client, c: nat, now: real)
    requires c < |s.calls|
    ensures var t := Slot(s, c, now);
            && OthersKeep(s, t, c) && AsksForSlot(s, t, c, now) && t.total == s.total && t.errors == s.errors
                 && t.retries == s.retries
  {
    TokenIsLevel(s, now);
    TokenIsLevel(Admit(s, c), now);
    hide Level, TokenReady;
  }

  /** A first attempt is refused, changing nothing, when the budget is spent, and else reserves one unit and asks for a slot. */
  lemma StartReserves(s: Client, c: nat, now: real)
    requires c < |s.calls| && s.calls[c].phase == Idle
    ensures var t := Step(s, Start(c), now);
            if s.total >= s.limits.budget then
              t == s.(calls := t.calls) && t.calls == s.calls[c := s.calls[c].(phase := Done)]
            else && OthersKeep(s, t, c) && AsksForSlot(s, t, c, now) && t.total == s.total + 1
                 && t.calls[c].reserved == s.calls[c].reserved + 1
  {
    hide Slot, AsksForSlot, TokenReady, Level;
    if s.total < s.limits.budget {
      var entered := Enter(s, c);
      SlotAsks(entered, c, now);
      SameAsk(s, entered, Slot(entered, c, now), c, now);
      SlotReserves(entered, c, now);
    }
  }

  lemma SlotReserves(s: Client, c: nat, now: real)
    requires c < |s.calls|
    ensures Slot(s, c, now).calls[c].reserved == s.calls[c].reserved
  {
    hide Level;
  }

  lemma SameAsk(s: Client, entered: Client, t: Client, c: nat, now: real)
    requires c < |s.calls| == |t.calls| == |entered.calls| && AsksForSlot(entered, t, c, now)
    requires entered == s.(total := entered.total, calls := entered.calls)
    ensures AsksForSlot(s, t, c, now)
  {
    assert TokenReady(s, now) == TokenReady(entered, now);
    hide TokenReady;
  }

  /** A woken call asks for a slot again, at the end of the queue if it comes too late. */
  lemma ResumeAsks(s: Client, c: nat, now: real)
    requires c < |s.calls| && s.calls[c].phase == Ready
    ensures var t := Step(s, Resume(c), now); OthersKeep(s, t, c) && AsksForSlot(s, t, c, now) && t.total == s.total
  {
    hide Slot, AsksForSlot;
    SlotAsks(s, c, now);
  }

  lemma SleepEnds(s: Client, c: nat, now: real)
    requires c < |s.calls| && s.calls[c].phase == Throttled
    ensures var t := Step(s, WakeFromSleep(c), now);
            OthersKeep(s, t, c) && GoesOn(s, t, c, now) && t.total == s.total && t.inflight == s.inflight
                && t.waiters == s.waiters
  {
    TokenIsLevel(s, now);
    hide Level, TokenReady;
  }

  lemma ReleaseReleases(s: Client, c: nat, next: Phase)
    requires QueueOk(s) && c < |s.calls| && s.calls[c].phase != Waiting
    ensures var t := Release(s, c, next);
            && Releases(s, t, c) && t.calls[c] == s.calls[c].(phase := next, releases := s.calls[c].releases + 1)
            && t == s.(inflight := t.inflight, waiters := t.waiters, calls := t.calls)
  {
    if s.waiters != [] { assert s.waiters[0] in s.waiters; }
  }

  /**
   * What a reply does.  Success and a permanent failure finish the call; a transient failure makes it
   * back off, unless it was the fifth attempt.  Only a finished attempt releases its slot at once.
   */
  lemma ReplyDecides(s: Client, c: nat, outcome: Outcome, now: real)
    requires QueueOk(s) && c < |s.calls| && s.calls[c].phase == Sending
    ensures var t := Step(s, Reply(c, outcome), now); var x := s.calls[c];
            && t.errors == s.errors + (if outcome == Success then 0 else 1)
            && t.total == s.total && t.sent == s.sent && t.tokens == s.tokens && t.lastRefill == s.lastRefill
            && (if outcome != Transient || x.attempt >= 4 then
                  && t.calls[c] == x.(phase := Done, releases := x.releases + 1) && Releases(s, t, c)
                       && t.retries == s.retries
                else
                  && t.calls[c] == x.(phase := BackingOff, attempt := x.attempt + 1) && OthersKeep(s, t, c)
                  && t.retries == s.retries + 1 && t.inflight == s.inflight && t.waiters == s.waiters)
  {
    hide Release, Releases, QueueOk;
    var failed := s.(errors := s.errors + 1);
    ReleaseReleases(s, c, Done);
    QueueUnchanged(s, failed);
    ReleaseReleases(failed, c, Done);
    SameRelease(s, failed, Release(failed, c, Done), c);
  }

  lemma SameRelease(s: Client, failed: Client, t: Client, c: nat)
    requires Releases(failed, t, c) && failed == s.(errors := failed.errors)
    ensures Releases(s, t, c)
  {
  }

  /** The slot is free again the moment it is given back, so the call keeps it if the budget allows. */
  lemma BackoffAcquires(r: Client, c: nat, now: real)
    requires Inv(r) && c < |r.calls| && r.calls[c].phase == Idle && r.inflight < r.limits.concurrent
    ensures var t := Acquire(r, c, now);
            && OthersKeep(r, t, c) && t.waiters == r.waiters
            && (if r.total >= r.limits.budget then t.calls[c].phase == Done && t.inflight == r.inflight && t.total == r.total
                else GoesOn(r, t, c, now) && t.inflight == r.inflight + 1 && t.total == r.total + 1)
  {
    hide Slot, Inv, TokenReady, Level;
    if r.total < r.limits.budget {
      var entered := Enter(r, c);
      SlotAsks(entered, c, now);
      SameAsk(r, entered, Slot(entered, c, now), c, now);
    }
  }

  /**
   * After a back-off the head of the queue is woken, yet the retrying call takes its slot back in the
   * same step unless the budget is spent: the woken call then finds no slot more than before.
   */
  lemma RetryKeepsSlot(s: Client, c: nat, now: real)
    requires Inv(s) && c < |s.calls| && s.calls[c].phase == BackingOff
    ensures var t := Step(s, EndBackoff(c), now);
            && t.waiters == (if s.waiters == [] then [] else s.waiters[1..])
            && (if s.total >= s.limits.budget then t.calls[c].phase == Done && t.inflight == s.inflight - 1 && t.total == s.total
                else GoesOn(s, t, c, now) && t.inflight == s.inflight && t.total == s.total + 1)
            && |t.calls| == |s.calls|
            && (s.waiters != [] ==> s.waiters[0] < |s.calls| && t.calls[s.waiters[0]].phase == Ready)
  {
    hide Release, Acquire, Inv, CallOk, TokenReady;
    InvParts(s);
    ReleaseReleases(s, c, Idle);
    ReleaseKeeps(s, c, Idle);
    SlotInUse(s, c);
    var r := Release(s, c, Idle);
    BackoffAcquires(r, c, now);
    if s.waiters != [] { HeadWaits(s); }
    SameTokens(s, r, now);
  }

  lemma SameTokens(s: Client, r: Client, now: real)
    requires r.tokens == s.tokens && r.lastRefill == s.lastRefill && r.limits == s.limits
    ensures TokenReady(s, now) == TokenReady(r, now)
  {
  }

  lemma SlotInUse(s: Client, c: nat)
    requires Inv(s) && c < |s.calls| && HoldsSlot(s.calls[c].phase)
    ensures 0 < s.inflight <= s.limits.concurrent
  {
    hide Sum;
    SumHas(s.calls, c);
  }

  lemma {:induction false} SumHas(calls: seq<Call>, c: nat)
    requires c < |calls| && Holding(calls[c]) > 0
    ensures Sum(Holding, calls) > 0
  {
    if c < |calls| - 1 { SumHas(calls[..|calls| - 1], c); }
  }

  // ----- runs -----

  /** The event is a reply of this kind, and the call is waiting for one. */
  predicate Receives(s: Client, a: Action, c: nat, outcome: Outcome) {
    a == Reply(c, outcome) && c < |s.calls| && s.calls[c].phase == Sending
  }

  /** How many replies of a kind a run gives the call. */
  function Received(s: Client, events: seq<Event>, c: nat, outcome: Outcome): nat
    decreases |events|
  {
    if events == [] then 0
    else
      (if Receives(s, events[0].action, c, outcome) then 1 else 0)
        + Received(Step(s, events[0].action, events[0].time), events[1..], c, outcome)
  }

  predicate Spent(s: Client) { s.total >= s.limits.budget }

  /** The replies a call has received explain where it stands. */
  predicate Explained(x: Call, successes: nat, fatals: nat, transients: nat, spent: bool) {
    && successes + fatals <= 1 && transients <= 5 && (transients == 5 ==> successes + fatals == 0)
    && x.attempt == (if transients < 5 then transients else 4)
    && x.sent == successes + fatals + transients + (if x.phase == Sending then 1 else 0)
    && x.releases == successes + fatals + transients - (if x.phase == BackingOff then 1 else 0)
    && (successes + fatals == 1 || transients == 5 ==> x.phase == Done)
    && (x.phase == Done ==> successes + fatals == 1 || transients == 5 || spent)
  }

  /** How one step may change the record of a call. */
  predicate Lives(x: Call, y: Call, a: Action, mine: bool) {
    if !mine then y == x || (x.phase == Waiting && y == x.(phase := Ready))
    else
      match (a, x.phase)
      case (Reply(_, outcome), Sending) =>
        y == if outcome != Transient || x.attempt >= 4 then x.(phase := Done, releases := x.releases + 1)
             else x.(phase := BackingOff, attempt := x.attempt + 1)
      case (Start(_), Idle) => Asked(x, y) && y.releases == x.releases
      case (Resume(_), Ready) => Asked(x, y) && y.releases == x.releases && y.phase != Done
      case (WakeFromSleep(_), Throttled) => Asked(x, y) && y.releases == x.releases && y.phase != Done
      case (EndBackoff(_), BackingOff) => Asked(x, y) && y.releases == x.releases + 1
      case _ => y == x
  }

  predicate Asked(x: Call, y: Call) {
    && y.attempt == x.attempt && y.sent == x.sent + (if y.phase == Sending then 1 else 0)
    && (y.phase == Done || y.phase == Waiting || y.phase == Throttled || y.phase == Sending)
  }

  lemma AcquireAsked(s: Client, c: nat, now: real)
    requires c < |s.calls|
    ensures var t := Acquire(s, c, now);
            && Asked(s.calls[c], t.calls[c]) && t.calls[c].releases == s.calls[c].releases && OthersKeep(s, t, c)
            && (t.calls[c].phase == Done ==> t.total >= t.limits.budget) && t.total >= s.total && t.limits == s.limits
  {
    hide Level;
  }

  lemma SlotAsked(s: Client, c: nat, now: real)
    requires c < |s.calls|
    ensures var t := Slot(s, c, now);
            && Asked(s.calls[c], t.calls[c]) && t.calls[c].releases == s.calls[c].releases && OthersKeep(s, t, c)
            && t.calls[c].phase != Done && t.total >= s.total && t.limits == s.limits
  {
    hide Level;
  }

  lemma TokenAsked(s: Client, c: nat, now: real)
    requires c < |s.calls|
    ensures var t := TryToken(s, c, now);
            && Asked(s.calls[c], t.calls[c]) && t.calls[c].releases == s.calls[c].releases && OthersKeep(s, t, c)
            && t.calls[c].phase != Done && t.total >= s.total && t.limits == s.limits
  {
    hide Level;
  }

  lemma StepLives(s: Client, a: Action, now: real, c: nat)
    requires Inv(s) && c < |s.calls|
    ensures var t := Step(s, a, now);
            && |t.calls| == |s.calls| && t.limits == s.limits && t.total >= s.total
            && Lives(s.calls[c], t.calls[c], a, a.call == c)
            && (t.calls[c].phase == Done && s.calls[c].phase != Done && a.call == c && !a.Reply? ==>
                 t.total >= t.limits.budget)
  {
    hide Acquire, Slot, TryToken, EndAttempt, Release, Inv, CallOk, Releases, Asked;
    InvParts(s);
    var d := a.call;
    if d < |s.calls| {
      StepBucket(s, a, now);
      match (a, s.calls[d].phase)
      case (Start(_), Idle) => AcquireAsked(s, d, now);
      case (Resume(_), Ready) => SlotAsked(s, d, now);
      case (WakeFromSleep(_), Throttled) => TokenAsked(s, d, now);
      case (Reply(_, outcome), Sending) =>
        ReplyDecides(s, d, outcome, now);
        OnlyHeadWakes(s, Step(s, a, now), d, c);
      case (EndBackoff(_), BackingOff) =>
        ReleaseReleases(s, d, Idle);
        OnlyHeadWakes(s, Release(s, d, Idle), d, c);
        AcquireAsked(Release(s, d, Idle), d, now);
        AskedAfterRelease(s.calls[d], Release(s, d, Idle).calls[d], Step(s, a, now).calls[d]);
      case _ =>
    }
  }

  lemma AskedAfterRelease(x: Call, r: Call, y: Call)
    requires r == x.(phase := Idle, releases := x.releases + 1) && Asked(r, y)
    ensures Asked(x, y)
  {
  }

  lemma OnlyHeadWakes(s: Client, t: Client, d: nat, c: nat)
    requires QueueOk(s) && c < |s.calls|
    ensures Releases(s, t, d) && c != d ==>
              |t.calls| == |s.calls| && (t.calls[c] == s.calls[c] || (s.calls[c].phase == Waiting && t.calls[c] == s.calls[c].(phase := Ready)))
  {
    if s.waiters != [] { assert s.waiters[0] in s.waiters; }
  }

  lemma LivesExplained(x: Call, y: Call, a: Action, mine: bool, successes: nat, fatals: nat, transients: nat,
      was: bool, spent: bool)
    requires Explained(x, successes, fatals, transients, was) && Lives(x, y, a, mine)
    requires (was ==> spent) && (y.phase == Done && x.phase != Done && mine && !a.Reply? ==> spent)
    ensures var heard := mine && a.Reply? && x.phase == Sending;
            Explained(y, successes + (if heard && a.outcome == Success then 1 else 0),
                         fatals + (if heard && a.outcome == Fatal then 1 else 0),
                         transients + (if heard && a.outcome == Transient then 1 else 0), spent)
  {
  }

  /**
   * Over any run the replies explain the call: `attempt` counts the transient failures that were
   * retried, a success, a permanent failure or a fifth transient one finishes it, each reply
   * releases one slot (during a back-off, later), each request but the pending one was answered, and a
   * call ends otherwise only when the budget is spent.
   */
  lemma {:induction false} RepliesExplain(s: Client, now: real, events: seq<Event>, c: nat, successes: nat, fatals: nat,
      transients: nat)
    requires Inv(s) && s.lastRefill <= now && Monotone(now, events) && c < |s.calls|
    requires Explained(s.calls[c], successes, fatals, transients, Spent(s))
    ensures |Run(s, events).calls| == |s.calls|
    ensures Explained(Run(s, events).calls[c], successes + Received(s, events, c, Success),
              fatals + Received(s, events, c, Fatal),
                      transients + Received(s, events, c, Transient), Spent(Run(s, events)))
    decreases |events|
  {
    hide Inv, Step, Explained, Lives;
    if events != [] {
      var e := events[0];
      var s' := Step(s, e.action, e.time);
      StepKeeps(s, e.action, e.time);
      StepBucket(s, e.action, e.time);
      MonotoneTail(now, events);
      StepLives(s, e.action, e.time, c);
      LivesExplained(s.calls[c], s'.calls[c], e.action, e.action.call == c, successes, fatals, transients,
        Spent(s), Spent(s'));
      RepliesExplain(s', e.time, events[1..], c,
        successes + (if Receives(s, e.action, c, Success) then 1 else 0),
        fatals + (if Receives(s, e.action, c, Fatal) then 1 else 0),
        transients + (if Receives(s, e.action, c, Transient) then 1 else 0));
    }
  }

  /** From a fresh client. */
  lemma CallHistory(limits: Limits, now: real, calls: nat, events: seq<Event>, c: nat)
    requires limits.rate >= 0.0 && Monotone(now, events) && c < calls
    ensures var s := Opened(limits, now, calls); var t := Run(s, events);
            |t.calls| == calls
            && Explained(t.calls[c], Received(s, events, c, Success), Received(s, events, c, Fatal),
                 Received(s, events, c, Transient),
                         Spent(t))
  {
    hide Inv, Run, Received;
    OpenedInv(limits, now, calls);
    RepliesExplain(Opened(limits, now, calls), now, events, c, 0, 0, 0);
  }

  /** A finished call is left alone by everything that follows: it sends, reserves and releases nothing more. */
  lemma {:induction false} DoneForever(s: Client, now: real, events: seq<Event>, c: nat)
    requires Inv(s) && s.lastRefill <= now && Monotone(now, events) && c < |s.calls| && s.calls[c].phase == Done
    ensures |Run(s, events).calls| == |s.calls| && Run(s, events).calls[c] == s.calls[c]
    decreases |events|
  {
    hide Inv, Step;
    if events != [] {
      var e := events[0];
      StepKeeps(s, e.action, e.time);
      StepBucket(s, e.action, e.time);
      MonotoneTail(now, events);
      StepLives(s, e.action, e.time, c);
      DoneForever(Step(s, e.action, e.time), e.time, events[1..], c);
    }
  }

  /**
   * A success or a permanent failure is the last thing that happens to a call: its slot is released, and
   * whatever follows, it never sends, reserves or retries again.
   */
  lemma FinalReplyIsFinal(s: Client, c: nat, outcome: Outcome, now: real, after: seq<Event>)
    requires Inv(s) && s.lastRefill <= now && Monotone(now, after) && c < |s.calls| && s.calls[c].phase == Sending
    requires outcome == Success || outcome == Fatal || s.calls[c].attempt == 4
    ensures var x := s.calls[c]; var replied := Step(s, Reply(c, outcome), now); var t := Run(replied, after);
            replied.inflight == s.inflight - 1 && |t.calls| == |s.calls|
                && t.calls[c] == x.(phase := Done, releases := x.releases + 1)
  {
    hide Inv, Step, Run, Releases;
    InvParts(s);
    ReplyDecides(s, c, outcome, now);
    ReplyReleases(s, Step(s, Reply(c, outcome), now), c);
    StepKeeps(s, Reply(c, outcome), now);
    StepBucket(s, Reply(c, outcome), now);
    DoneForever(Step(s, Reply(c, outcome), now), now, after, c);
  }

  lemma ReplyReleases(s: Client, t: Client, c: nat)
    requires Releases(s, t, c)
    ensures t.inflight == s.inflight - 1 && |t.calls| == |s.calls|
  {
  }

  /** Every failed reply is counted once, whoever received it. */
  function Failures(s: Client, events: seq<Event>): nat
    decreases |events|
  {
    if events == [] then 0
    else
      var a := events[0].action;
      (if a.Reply? && a.outcome != Success && Receives(s, a, a.call, a.outcome) then 1 else 0)
        + Failures(Step(s, a, events[0].time), events[1..])
  }

  lemma StepErrors(s: Client, a: Action, now: real)
    requires Inv(s)
    ensures Step(s, a, now).errors
         == s.errors + (if a.Reply? && a.outcome != Success && Receives(s, a, a.call, a.outcome) then 1 else 0)
  {
    hide Level;
  }

  lemma {:induction false} ErrorsAreFailures(s: Client, now: real, events: seq<Event>)
    requires Inv(s) && s.lastRefill <= now && Monotone(now, events)
    ensures Run(s, events).errors == s.errors + Failures(s, events)
    decreases |events|
  {
    hide Inv, Step, Receives;
    if events != [] {
      var e := events[0];
      StepKeeps(s, e.action, e.time);
      StepBucket(s, e.action, e.time);
      StepErrors(s, e.action, e.time);
      MonotoneTail(now, events);
      ErrorsAreFailures(Step(s, e.action, e.time), e.time, events[1..]);
    }
  }
}
