/** One source's parser: every call goes through the source's breaker, then takes a permit of
    its semaphore, waits for the rate limiter, makes its request, gives the permit back and
    reports to the breaker. Any number of calls overlap; one event is one critical section
    or one channel operation, and an event that is not enabled changes nothing. */
module SourcePipeline {
  import opened Counting
  import B = Breaker
  import L = RateLimiter

  datatype Config = Config(breaker: B.Config, maxConcurrent: nat)

  /** Where an admitted call stands; `ok` is the outcome it will report. */
  datatype Phase =
    | Admitted
    | AwaitingToken
    | Cleared
    | Requesting
    | Leaving(ok: bool)
    | Reporting(ok: bool)
    | Reported(ok: bool)

  /** `granted` counts the waits the limiter granted, `waved` those it let through because
      it was stopped: Wait then returns an error, which the caller ignores. */
  datatype Sys = Sys(
    now: int,
    breaker: B.Cell,
    slot: L.Slot,
    permits: int,
    calls: seq<Phase>,
    ticks: nat,
    granted: nat,
    waved: nat,
    started: nat)

  datatype Event =
    | Elapse(d: nat)
    | Tick
    | StopLimiter
    | Arrive
    | Work(i: nat, a: Action)

  /** Busy: the permit was not obtained in time or the context ended first. */
  datatype Action =
    | Acquire
    | Busy
    | Wait
    | Begin
    | CannotBegin
    | End(ok: bool)
    | Release
    | Report

  const START := Sys(0, B.FRESH, L.Slot(false, false), 0, [], 0, 0, 0, 0)

  function Move(s: Sys, i: nat, p: Phase): Sys
    requires i < |s.calls|
  {
    s.(calls := s.calls[i := p])
  }

  function WaitStep(s: Sys, i: nat): Sys
    requires i < |s.calls|
  {
    var (slot, answer) := L.TryWait(s.slot);
    match answer
    case Granted => Move(s, i, Cleared).(slot := slot, granted := s.granted + 1)
    case Stopped => Move(s, i, Cleared).(waved := s.waved + 1)
    case WouldBlock => s
  }

  function CallStep(c: Config, s: Sys, i: nat, a: Action): Sys
    requires i < |s.calls|
  {
    var p := s.calls[i];
    match a
    case Acquire =>
      if p.Admitted? && s.permits < c.maxConcurrent
      then Move(s, i, AwaitingToken).(permits := s.permits + 1)
      else s
    case Busy => if p.Admitted? then Move(s, i, Reporting(false)) else s
    case Wait => if p.AwaitingToken? then WaitStep(s, i) else s
    case Begin => if p.Cleared? then Move(s, i, Requesting).(started := s.started + 1) else s
    case CannotBegin => if p.Cleared? then Move(s, i, Leaving(false)) else s
    case End(ok) => if p.Requesting? then Move(s, i, Leaving(ok)) else s
    case Release =>
      if p.Leaving? then Move(s, i, Reporting(p.ok)).(permits := s.permits - 1) else s
    case Report =>
      if p.Reporting?
      then Move(s, i, Reported(p.ok)).(breaker := B.Finish(c.breaker, s.breaker, p.ok, s.now))
      else s
  }

  function Step(c: Config, s: Sys, e: Event): Sys {
    match e
    case Elapse(d) => s.(now := s.now + d)
    case Tick =>
      if s.slot.stopped then s else s.(slot := L.Refill(s.slot).0, ticks := s.ticks + 1)
    case StopLimiter => s.(slot := s.slot.(stopped := true))
    case Arrive =>
      var (cell, verdict) := B.Admit(c.breaker, s.breaker, s.now);
      if verdict == B.Admitted then s.(breaker := cell, calls := s.calls + [Admitted]) else s
    case Work(i, a) => if i < |s.calls| then CallStep(c, s, i, a) else s
  }

  function RunFrom(c: Config, s: Sys, es: seq<Event>): Sys {
    if es == [] then s else Step(c, RunFrom(c, s, es[..|es| - 1]), es[|es| - 1])
  }

  function Run(c: Config, es: seq<Event>): Sys { RunFrom(c, START, es) }

  // ---------------------------------------------------------------- the invariant

  predicate HoldsPermit(p: Phase) { p.AwaitingToken? || p.Cleared? || p.Requesting? || p.Leaving? }

  predicate InRequest(p: Phase) { p.Requesting? }

  predicate IsCleared(p: Phase) { p.Cleared? }

  predicate Succeeded(p: Phase) { p == Reported(true) }

  predicate Failed(p: Phase) { p == Reported(false) }

  predicate Open(p: Phase) { !p.Reported? }

  ghost predicate Inv(c: Config, s: Sys) {
    && s.permits == CountIf(s.calls, HoldsPermit) <= c.maxConcurrent
    && s.breaker.totalRequests == |s.calls|
    && s.breaker.totalSuccesses == CountIf(s.calls, Succeeded)
    && s.breaker.totalFailures == CountIf(s.calls, Failed)
    && s.started + CountIf(s.calls, IsCleared) <= s.granted + s.waved
    && s.granted + Bit(s.slot.token) <= s.ticks
    && (!s.slot.stopped ==> s.waved == 0)
  }

  /** What one step of call i does to everything that is counted. */
  ghost predicate Effect(c: Config, s: Sys, t: Sys, i: nat) {
    && i < |s.calls| && |t.calls| == |s.calls| && t.calls == s.calls[i := t.calls[i]]
    && var p, q := s.calls[i], t.calls[i];
    && t.permits + Bit(HoldsPermit(p)) == s.permits + Bit(HoldsPermit(q))
    && t.permits <= (if s.permits > c.maxConcurrent then s.permits else c.maxConcurrent)
    && t.breaker.totalRequests == s.breaker.totalRequests
    && t.breaker.totalSuccesses == s.breaker.totalSuccesses + Bit(Succeeded(q))
    && t.breaker.totalFailures == s.breaker.totalFailures + Bit(Failed(q))
    && !p.Reported?
    && t.started + Bit(IsCleared(q)) + s.granted + s.waved
       <= s.started + Bit(IsCleared(p)) + t.granted + t.waved
    && t.granted + Bit(t.slot.token) == s.granted + Bit(s.slot.token)
    && t.ticks == s.ticks && t.slot.stopped == s.slot.stopped
    && (t.waved == s.waved || s.slot.stopped)
  }

  lemma FinishTotals(c: B.Config, b: B.Cell, ok: bool, now: int)
    ensures var b' := B.Finish(c, b, ok, now);
            && b'.totalRequests == b.totalRequests
            && b'.totalSuccesses == b.totalSuccesses + Bit(ok)
            && b'.totalFailures == b.totalFailures + Bit(!ok)
  {
  }

  lemma CallEffect(c: Config, s: Sys, i: nat, a: Action)
    requires i < |s.calls|
    ensures var t := CallStep(c, s, i, a); t == s || Effect(c, s, t, i)
  {
    if a.Report? && s.calls[i].Reporting? { FinishTotals(c.breaker, s.breaker, s.calls[i].ok, s.now); }
  }

  lemma EffectKeepsInv(c: Config, s: Sys, t: Sys, i: nat)
    requires Inv(c, s) && Effect(c, s, t, i)
    ensures Inv(c, t)
  {
    var q := t.calls[i];
    CountUpdate(s.calls, i, q, HoldsPermit);
    CountUpdate(s.calls, i, q, Succeeded);
    CountUpdate(s.calls, i, q, Failed);
    CountUpdate(s.calls, i, q, IsCleared);
  }

  lemma ArriveKeepsInv(c: Config, s: Sys)
    requires Inv(c, s)
    ensures Inv(c, Step(c, s, Arrive))
  {
    CountSnoc(s.calls, Admitted, HoldsPermit);
    CountSnoc(s.calls, Admitted, Succeeded);
    CountSnoc(s.calls, Admitted, Failed);
    CountSnoc(s.calls, Admitted, IsCleared);
  }

  lemma StepKeepsInv(c: Config, s: Sys, e: Event)
    requires Inv(c, s)
    ensures Inv(c, Step(c, s, e))
  {
    match e
    case Arrive => ArriveKeepsInv(c, s);
    case Work(i, a) =>
      if i < |s.calls| {
        CallEffect(c, s, i, a);
        if CallStep(c, s, i, a) != s { EffectKeepsInv(c, s, CallStep(c, s, i, a), i); }
      }
    case _ =>
  }

  lemma {:induction false} InvHolds(c: Config, es: seq<Event>)
    ensures Inv(c, Run(c, es))
  {
    if es != [] {
      InvHolds(c, es[..|es| - 1]);
      StepKeepsInv(c, Run(c, es[..|es| - 1]), es[|es| - 1]);
    }
  }

  // ---------------------------------------------------------------- theorems

  /** Concurrent requests never exceed maxConcurrent; a permit is held exactly between its
      acquisition and its release, on every way out. */
  lemma RequestsBounded(c: Config, es: seq<Event>)
    ensures var s := Run(c, es);
            CountIf(s.calls, InRequest) <= CountIf(s.calls, HoldsPermit) == s.permits <= c.maxConcurrent
  {
    InvHolds(c, es);
    CountImplies(Run(c, es).calls, InRequest, HoldsPermit);
  }

  /** As long as the limiter has not been stopped, no request starts without a grant, and no
      grant comes without a tick. */
  lemma RequestsRateLimited(c: Config, es: seq<Event>)
    ensures var s := Run(c, es);
            && s.started <= s.granted + s.waved
            && s.granted <= s.ticks
            && (!s.slot.stopped ==> s.started <= s.granted)
  {
    InvHolds(c, es);
  }

  lemma {:induction false} OpenOrReported(calls: seq<Phase>)
    ensures CountIf(calls, Succeeded) + CountIf(calls, Failed) + CountIf(calls, Open) == |calls|
  {
    if calls != [] { OpenOrReported(calls[1..]); }
  }

  /** Every admitted call reports exactly one outcome: the breaker's totals are the calls
      that reported success, those that reported failure, and those still open. */
  lemma OneOutcomePerCall(c: Config, es: seq<Event>)
    ensures var s := Run(c, es);
            && s.breaker.totalSuccesses == CountIf(s.calls, Succeeded)
            && s.breaker.totalFailures == CountIf(s.calls, Failed)
            && s.breaker.totalRequests
               == s.breaker.totalSuccesses + s.breaker.totalFailures + CountIf(s.calls, Open)
  {
    InvHolds(c, es);
    OpenOrReported(Run(c, es).calls);
  }

  /** A reported outcome is final. */
  lemma {:induction false} OutcomeIsFinal(c: Config, s: Sys, i: nat, later: seq<Event>)
    requires i < |s.calls| && s.calls[i].Reported?
    ensures i < |RunFrom(c, s, later).calls| && RunFrom(c, s, later).calls[i] == s.calls[i]
  {
    if later != [] {
      var p := later[..|later| - 1];
      OutcomeIsFinal(c, s, i, p);
      var t := RunFrom(c, s, p);
      var e := later[|later| - 1];
      if e.Work? && e.i < |t.calls| { CallEffect(c, t, e.i, e.a); }
    }
  }

  // ---------------------------------------------------------------- who gets in

  /** A call enters exactly if the source's breaker admits it: always while it is closed, after
      the reset timeout while it is open, and otherwise up to its half-open limit. It then
      waits for a permit; a rejected call leaves everything as it was. */
  lemma EntersIff(c: Config, es: seq<Event>)
    ensures var s := Run(c, es); var t := Step(c, s, Arrive); var b := s.breaker;
            if || b.state == B.Closed
               || (b.state == B.Open && s.now - b.lastFailureTime >= c.breaker.resetTimeout)
               || (b.state == B.HalfOpen && b.halfOpenAttempts < c.breaker.halfOpenMaxRequests)
            then t.calls == s.calls + [Admitted] && t.permits == s.permits && t.started == s.started
            else t == s
  {
  }

  // ---------------------------------------------------------------- no success without a request

  /** The call has made its request, or is making it. */
  predicate HasStarted(p: Phase) {
    p.Requesting? || p == Leaving(true) || p == Reporting(true) || p == Reported(true)
  }

  ghost predicate Requested(es: seq<Event>, i: nat, p: Phase) {
    && (HasStarted(p) ==> Work(i, Begin) in es)
    && (HasStarted(p) && !p.Requesting? ==> Work(i, End(true)) in es)
  }

  lemma StartsOnlyByBegin(c: Config, s: Sys, i: nat, a: Action)
    requires i < |s.calls|
    ensures var t := CallStep(c, s, i, a);
            && |t.calls| == |s.calls| && t.calls == s.calls[i := t.calls[i]]
            && (HasStarted(t.calls[i]) ==> HasStarted(s.calls[i]) || (a == Begin && t.calls[i].Requesting?))
            && (HasStarted(t.calls[i]) && !t.calls[i].Requesting? ==> !s.calls[i].Requesting? || a == End(true))
            && t.started == s.started + Bit(HasStarted(t.calls[i]) && !HasStarted(s.calls[i]))
  {
  }

  lemma RequestedStep(c: Config, es: seq<Event>, s: Sys, e: Event, i: nat)
    requires forall j: nat :: j < |s.calls| ==> Requested(es, j, s.calls[j])
    requires i < |Step(c, s, e).calls|
    ensures Requested(es + [e], i, Step(c, s, e).calls[i])
  {
    if e.Work? && e.i < |s.calls| { StartsOnlyByBegin(c, s, e.i, e.a); }
  }

  lemma {:induction false} RequestedHolds(c: Config, es: seq<Event>)
    ensures forall i: nat :: i < |Run(c, es).calls| ==> Requested(es, i, Run(c, es).calls[i])
  {
    if es != [] {
      var p := es[..|es| - 1];
      RequestedHolds(c, p);
      forall i: nat | i < |Run(c, es).calls| ensures Requested(es, i, Run(c, es).calls[i]) {
        RequestedStep(c, p, Run(c, p), es[|es| - 1], i);
        assert p + [es[|es| - 1]] == es;
      }
    }
  }

  lemma StartedStep(c: Config, s: Sys, e: Event)
    requires CountIf(s.calls, HasStarted) <= s.started
    ensures CountIf(Step(c, s, e).calls, HasStarted) <= Step(c, s, e).started
  {
    if e.Work? && e.i < |s.calls| {
      StartsOnlyByBegin(c, s, e.i, e.a);
      CountUpdate(s.calls, e.i, Step(c, s, e).calls[e.i], HasStarted);
    } else if e.Arrive? {
      CountSnoc(s.calls, Admitted, HasStarted);
    }
  }

  lemma {:induction false} StartedHolds(c: Config, es: seq<Event>)
    ensures CountIf(Run(c, es).calls, HasStarted) <= Run(c, es).started
  {
    if es != [] {
      StartedHolds(c, es[..|es| - 1]);
      StartedStep(c, Run(c, es[..|es| - 1]), es[|es| - 1]);
    }
  }

  /** A call that reported success began its request and got its answer in this run; the
      source's breaker has counted no more successes than requests were started. */
  lemma SuccessNeedsRequest(c: Config, es: seq<Event>, i: nat)
    ensures i < |Run(c, es).calls| && Run(c, es).calls[i] == Reported(true) ==>
              Work(i, Begin) in es && Work(i, End(true)) in es
    ensures Run(c, es).breaker.totalSuccesses <= Run(c, es).started
  {
    RequestedHolds(c, es);
    if i < |Run(c, es).calls| { assert Requested(es, i, Run(c, es).calls[i]); }
    StartedHolds(c, es);
    OneOutcomePerCall(c, es);
    CountImplies(Run(c, es).calls, Succeeded, HasStarted);
  }

  // ---------------------------------------------------------------- every call can report

  /** The outcome that a call is bound to, if it has one. */
  function Outcome(p: Phase, ok: bool): bool {
    match p
    case Leaving(b) => b
    case Reporting(b) => b
    case Reported(b) => b
    case _ => ok
  }

  function StepsLeft(p: Phase): nat {
    match p
    case Reported(_) => 0
    case Reporting(_) => 1
    case Leaving(_) => 2
    case Requesting => 3
    case Cleared => 4
    case AwaitingToken => 5
    case Admitted => 6
  }

  /** The next event of a call on its way out; one that waits for a token lets the ticker tick
      first if there is none. */
  function NextEvent(s: Sys, i: nat, ok: bool): Event
    requires i < |s.calls|
  {
    match s.calls[i]
    case Admitted => Work(i, Busy)
    case AwaitingToken => if !s.slot.stopped && !s.slot.token then Tick else Work(i, Wait)
    case Cleared => Work(i, Begin)
    case Requesting => Work(i, End(ok))
    case Leaving(_) => Work(i, Release)
    case _ => Work(i, Report)
  }

  function NeedsTick(s: Sys, i: nat): nat
    requires i < |s.calls|
  {
    Bit(s.calls[i].AwaitingToken? && !s.slot.stopped && !s.slot.token)
  }

  lemma NextEventAdvances(c: Config, s: Sys, i: nat, ok: bool)
    requires i < |s.calls| && !s.calls[i].Reported?
    ensures var t := Step(c, s, NextEvent(s, i, ok));
            && |t.calls| == |s.calls| && t.calls == s.calls[i := t.calls[i]]
            && 2 * StepsLeft(t.calls[i]) + NeedsTick(t, i) < 2 * StepsLeft(s.calls[i]) + NeedsTick(s, i)
            && (!s.calls[i].Admitted? ==>
                  !t.calls[i].Admitted? && Outcome(t.calls[i], ok) == Outcome(s.calls[i], ok))
  {
  }

  /** Every call can report by its own steps and ticks of the limiter, with nobody else's help:
      holding a permit with any outcome that it is not yet bound to, waiting for one with a
      failure. */
  lemma {:induction false} CanReport(c: Config, s: Sys, i: nat, ok: bool) returns (es: seq<Event>)
    requires i < |s.calls|
    ensures forall e <- es :: e == Tick || (e.Work? && e.i == i)
    ensures var t := RunFrom(c, s, es);
            |t.calls| == |s.calls| && t.calls == s.calls[i := t.calls[i]] && t.calls[i].Reported?
    ensures !s.calls[i].Admitted? ==> RunFrom(c, s, es).calls[i] == Reported(Outcome(s.calls[i], ok))
    decreases 2 * StepsLeft(s.calls[i]) + NeedsTick(s, i)
  {
    es := [];
    if !s.calls[i].Reported? {
      var e := NextEvent(s, i, ok);
      NextEventAdvances(c, s, i, ok);
      var rest := CanReport(c, Step(c, s, e), i, ok);
      es := [e] + rest;
      Then(c, s, [], e);
      RunAppend(c, s, [e], rest);
    }
  }

  /** A permit that another call holds comes free when that call reports. */
  lemma FreesPermit(c: Config, s: Sys, t: Sys, h: nat)
    requires Inv(c, s) && Inv(c, t) && h < |s.calls| == |t.calls| && HoldsPermit(s.calls[h])
    requires t.calls == s.calls[h := t.calls[h]] && t.calls[h].Reported?
    ensures t.permits < c.maxConcurrent
  {
    CountUpdate(s.calls, h, t.calls[h], HoldsPermit);
  }

  lemma {:induction false} InvFrom(c: Config, s: Sys, es: seq<Event>)
    requires Inv(c, s)
    ensures Inv(c, RunFrom(c, s, es))
  {
    if es != [] {
      InvFrom(c, s, es[..|es| - 1]);
      StepKeepsInv(c, RunFrom(c, s, es[..|es| - 1]), es[|es| - 1]);
    }
  }

  /** A waiting call gets a permit, after a holder has reported if there is none free. */
  lemma CanAcquire(c: Config, s: Sys, i: nat) returns (es: seq<Event>)
    requires Inv(c, s) && c.maxConcurrent > 0 && i < |s.calls| && s.calls[i].Admitted?
    ensures var t := RunFrom(c, s, es); |t.calls| == |s.calls| && t.calls[i] == AwaitingToken
    ensures forall e <- es :: e == Tick || (e.Work? && (e.i == i || (e.i < |s.calls| && HoldsPermit(s.calls[e.i]))))
  {
    var free: seq<Event> := [];
    if s.permits == c.maxConcurrent {
      var h := CountWitness(s.calls, HoldsPermit);
      free := CanReport(c, s, h, true);
      InvFrom(c, s, free);
      FreesPermit(c, s, RunFrom(c, s, free), h);
    }
    es := free + [Work(i, Acquire)];
    Then(c, s, free, Work(i, Acquire));
  }

  /** From every reachable state every call that is not bound to fail can still succeed, by
      its own steps, ticks, and the steps of one holder of a permit. */
  lemma CanSucceed(c: Config, es: seq<Event>, i: nat) returns (more: seq<Event>)
    requires c.maxConcurrent > 0 && i < |Run(c, es).calls| && Outcome(Run(c, es).calls[i], true)
    ensures var t := Run(c, es + more); i < |t.calls| && t.calls[i] == Reported(true)
    ensures forall e <- more :: e == Tick || (e.Work? && (e.i == i || HeldAt(c, es, e.i)))
  {
    InvHolds(c, es);
    var s := Run(c, es);
    var first: seq<Event> := [];
    if s.calls[i].Admitted? { first := CanAcquire(c, s, i); }
    var rest := CanReport(c, RunFrom(c, s, first), i, true);
    more := first + rest;
    RunAppend(c, s, first, rest);
    RunAppend(c, START, es, more);
  }

  predicate HeldAt(c: Config, es: seq<Event>, k: nat) {
    k < |Run(c, es).calls| && HoldsPermit(Run(c, es).calls[k])
  }

  // ---------------------------------------------------------------- a stopped limiter

  /** What call i does from its arrival to its report when nothing holds it up. */
  function WholeCall(i: nat): seq<Event> {
    [] + [Arrive] + [Work(i, Acquire)] + [Work(i, Wait)] + [Work(i, Begin)]
    + [Work(i, End(true))] + [Work(i, Release)] + [Work(i, Report)]
  }

  /** The limiter is stopped, then k calls succeed one after another. */
  function Unlimited(k: nat): seq<Event> {
    if k == 0 then [] + [StopLimiter] else Unlimited(k - 1) + WholeCall(k - 1)
  }

  ghost predicate AfterUnlimited(s: Sys, k: nat) {
    && s.slot.stopped && s.started == k && s.granted == 0 && s.permits == 0
    && |s.calls| == k && s.breaker.state == B.Closed
  }

  lemma Then(c: Config, s: Sys, es: seq<Event>, e: Event)
    ensures RunFrom(c, s, es + [e]) == Step(c, RunFrom(c, s, es), e)
  {
    assert (es + [e])[..|es|] == es;
  }

  /** Up to the request. */
  lemma CallBegins(c: Config, s: Sys, k: nat, e4: seq<Event>)
    requires c.maxConcurrent > 0 && AfterUnlimited(s, k)
    requires e4 == [] + [Arrive] + [Work(k, Acquire)] + [Work(k, Wait)] + [Work(k, Begin)]
    ensures var t := RunFrom(c, s, e4);
            && t.slot.stopped && t.started == k + 1 && t.granted == 0 && t.permits == 1
            && t.calls == s.calls + [Requesting] && t.breaker.state == B.Closed
  {
    var e1: seq<Event> := [] + [Arrive];
    var e2 := e1 + [Work(k, Acquire)];
    var e3 := e2 + [Work(k, Wait)];
    Then(c, s, [], Arrive);
    Then(c, s, e1, Work(k, Acquire));
    assert RunFrom(c, s, e2).calls == s.calls + [AwaitingToken];
    Then(c, s, e2, Work(k, Wait));
    assert RunFrom(c, s, e3).calls == s.calls + [Cleared];
    Then(c, s, e3, Work(k, Begin));
  }

  lemma CallEnds(c: Config, s: Sys, k: nat, e4: seq<Event>)
    requires e4 == [] + [Arrive] + [Work(k, Acquire)] + [Work(k, Wait)] + [Work(k, Begin)]
    requires var t := RunFrom(c, s, e4);
             && t.slot.stopped && t.started == k + 1 && t.granted == 0 && t.permits == 1
             && |t.calls| == k + 1 && t.calls[k] == Requesting && t.breaker.state == B.Closed
    ensures AfterUnlimited(RunFrom(c, s, WholeCall(k)), k + 1)
  {
    var e5 := e4 + [Work(k, End(true))];
    var e6 := e5 + [Work(k, Release)];
    Then(c, s, e4, Work(k, End(true)));
    assert RunFrom(c, s, e5).calls[k] == Leaving(true);
    Then(c, s, e5, Work(k, Release));
    assert RunFrom(c, s, e6).calls[k] == Reporting(true);
    Then(c, s, e6, Work(k, Report));
  }

  lemma {:induction false} RunAppend(c: Config, s: Sys, xs: seq<Event>, ys: seq<Event>)
    ensures RunFrom(c, s, xs + ys) == RunFrom(c, RunFrom(c, s, xs), ys)
  {
    if ys == [] {
      assert xs + ys == xs;
    } else {
      assert (xs + ys)[..|xs + ys| - 1] == xs + ys[..|ys| - 1];
      RunAppend(c, s, xs, ys[..|ys| - 1]);
    }
  }

  /** A stopped limiter limits nothing: its error is ignored, and any number of requests start
      without a single grant. */
  lemma {:induction false} StoppedLimitsNothing(c: Config, k: nat)
    requires c.maxConcurrent > 0
    ensures var s := Run(c, Unlimited(k)); s.started == k && s.granted == 0 && AfterUnlimited(s, k)
  {
    if k == 0 {
      Then(c, START, [], StopLimiter);
    } else {
      StoppedLimitsNothing(c, k - 1);
      var s := Run(c, Unlimited(k - 1));
      var e4 := [] + [Arrive] + [Work(k - 1, Acquire)] + [Work(k - 1, Wait)] + [Work(k - 1, Begin)];
      CallBegins(c, s, k - 1, e4);
      CallEnds(c, s, k - 1, e4);
      RunAppend(c, START, Unlimited(k - 1), WholeCall(k - 1));
    }
  }

  lemma {:induction false} NeverStopped(c: Config, es: seq<Event>)
    requires StopLimiter !in es
    ensures !Run(c, es).slot.stopped
  {
    if es != [] {
      assert es[|es| - 1] in es;
      NeverStopped(c, es[..|es| - 1]);
      var s := Run(c, es[..|es| - 1]);
      var e := es[|es| - 1];
      if e.Work? && e.i < |s.calls| { CallEffect(c, s, e.i, e.a); }
    }
  }

  lemma {:induction false} NoPermitsNoRequests(c: Config, es: seq<Event>)
    requires c.maxConcurrent == 0
    ensures Run(c, es).started == 0
  {
    if es != [] {
      var s := Run(c, es[..|es| - 1]);
      var e := es[|es| - 1];
      NoPermitsNoRequests(c, es[..|es| - 1]);
      InvHolds(c, es[..|es| - 1]);
      if e.Work? && e.i < |s.calls| && HoldsPermit(s.calls[e.i]) { CountAtLeastOne(s.calls, e.i, HoldsPermit); }
    }
  }

  /** Requests are bounded by the limiter's grants in all runs if and only if the limiter is
      never stopped, or there is no permit to start one with. */
  lemma LimitedIff(c: Config, stoppable: bool)
    ensures (forall es :: stoppable || StopLimiter !in es ==> Run(c, es).started <= Run(c, es).granted)
            <==> !stoppable || c.maxConcurrent == 0
  {
    if stoppable && c.maxConcurrent > 0 {
      StoppedLimitsNothing(c, 1);
      assert Run(c, Unlimited(1)).started > Run(c, Unlimited(1)).granted;
    } else {
      forall es | stoppable || StopLimiter !in es ensures Run(c, es).started <= Run(c, es).granted {
        if c.maxConcurrent == 0 {
          NoPermitsNoRequests(c, es);
        } else {
          NeverStopped(c, es);
          RequestsRateLimited(c, es);
        }
      }
    }
  }

  // ---------------------------------------------------------------- busy is a failure

  /** k calls that arrive and find the source busy, one after another. */
  function BusyCalls(k: nat): seq<Event> {
    if k == 0 then []
    else BusyCalls(k - 1) + [Arrive] + [Work(k - 1, Busy)] + [Work(k - 1, Report)]
  }

  /** After k busy calls. */
  ghost predicate AfterBusy(c: Config, s: Sys, k: nat) {
    && s.started == 0 && |s.calls| == k && s.breaker.failures == k
    && s.breaker.state == if k < c.breaker.failureThreshold then B.Closed else B.Open
  }

  lemma OneMoreBusy(c: Config, p: seq<Event>, k: nat)
    requires AfterBusy(c, Run(c, p), k) && k < c.breaker.failureThreshold
    ensures AfterBusy(c, Run(c, p + [Arrive] + [Work(k, Busy)] + [Work(k, Report)]), k + 1)
  {
    var e1 := p + [Arrive];
    var e2 := e1 + [Work(k, Busy)];
    Then(c, START, p, Arrive);
    assert Run(c, e1).calls[k] == Admitted;
    Then(c, START, e1, Work(k, Busy));
    assert Run(c, e2).calls[k] == Reporting(false);
    Then(c, START, e2, Work(k, Report));
  }

  /** Calls that never get a permit count as failures of the source: enough of them open the
      breaker although not one request was started. */
  lemma {:induction false} BusyOpensBreaker(c: Config, k: nat)
    requires c.breaker.Usable() && k <= c.breaker.failureThreshold
    ensures var s := Run(c, BusyCalls(k));
            && s.started == 0 && |s.calls| == k && s.breaker.failures == k
            && s.breaker.state == if k < c.breaker.failureThreshold then B.Closed else B.Open
  {
    if k > 0 {
      BusyOpensBreaker(c, k - 1);
      OneMoreBusy(c, BusyCalls(k - 1), k - 1);
    }
  }
}
