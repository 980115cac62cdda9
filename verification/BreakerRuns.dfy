/** Any number of calls overlap under one breaker: each is admitted in one critical section
    and reports its outcome in another, possibly several state changes later. A run is a
    sequence of events; an event that is not enabled changes nothing. Every theorem below
    is about every sequence of events. */
module BreakerRuns {
  import opened Breaker
  import opened Counting

  datatype Event =
    | Elapse(d: nat)
    | Arrive
    | Report(id: nat, ok: bool)

  /** The breaker with the history of the run. `phases` lists the states entered so far (an
      episode is an index into it), `admissions[id]` is the episode in which call `id` was
      admitted, `outcomes` are the completions since the last change of state. */
  datatype Sys = Sys(
    b: Cell,
    now: int,
    inFlight: set<nat>,
    admissions: seq<nat>,
    phases: seq<State>,
    outcomes: seq<bool>)
  {
    function Episode(): int { |phases| - 1 }
  }

  const START := Sys(FRESH, 0, {}, [], [Closed], [])

  function Enter(s: Sys, b: Cell): seq<State> {
    if b.state == s.b.state then s.phases else s.phases + [b.state]
  }

  function Step(c: Config, s: Sys, e: Event): Sys {
    match e
    case Elapse(d) => s.(now := s.now + d)
    case Arrive =>
      var (b, v) := Admit(c, s.b, s.now);
      if v != Admitted then s
      else
        var phases := Enter(s, b);
        Sys(b, s.now, s.inFlight + {|s.admissions|},
            s.admissions + [if |phases| == 0 then 0 else |phases| - 1],
            phases, if b.state == s.b.state then s.outcomes else [])
    case Report(id, ok) =>
      if id !in s.inFlight then s
      else
        var b := Finish(c, s.b, ok, s.now);
        Sys(b, s.now, s.inFlight - {id}, s.admissions, Enter(s, b),
            if b.state == s.b.state then s.outcomes + [ok] else [])
  }

  function RunFrom(c: Config, s: Sys, es: seq<Event>): Sys {
    if es == [] then s else Step(c, RunFrom(c, s, es[..|es| - 1]), es[|es| - 1])
  }

  function Run(c: Config, es: seq<Event>): Sys { RunFrom(c, START, es) }

  lemma {:induction false} RunAppend(c: Config, s: Sys, xs: seq<Event>, ys: seq<Event>)
    ensures RunFrom(c, s, xs + ys) == RunFrom(c, RunFrom(c, s, xs), ys)
  {
    if ys == [] {
      assert xs + ys == xs;
    } else {
      assert (xs + ys)[..|xs + ys| - 1] == xs + ys[..|ys| - 1];
      RunAppend(c, s, xs, ys[..|ys| - 1]);
    }
  }

  // ---------------------------------------------------------------- reference notions

  function Is(e: int): nat -> bool { (x: nat) => x == e }

  /** Length of the longest suffix of failed completions. */
  function TrailingFailures(os: seq<bool>): nat {
    if os == [] || os[|os| - 1] then 0 else TrailingFailures(os[..|os| - 1]) + 1
  }

  /** The last k completions exist and all failed. */
  ghost predicate LastFailed(os: seq<bool>, k: nat) {
    k <= |os| && forall i :: |os| - k <= i < |os| ==> !os[i]
  }

  lemma {:induction false} TrailingMeansSuffix(os: seq<bool>, k: nat)
    ensures LastFailed(os, k) <==> k <= TrailingFailures(os)
  {
    if os != [] && k > 0 {
      var init := os[..|os| - 1];
      TrailingMeansSuffix(init, k - 1);
      if os[|os| - 1] {
        assert !LastFailed(os, k);
      } else {
        assert LastFailed(os, k) ==> LastFailed(init, k - 1);
        assert LastFailed(init, k - 1) ==> LastFailed(os, k);
      }
    }
  }

  /** The calls of the current episode that have not reported yet. */
  ghost function Probes(s: Sys): set<nat> {
    set id | id in s.inFlight && id < |s.admissions| && s.admissions[id] == s.Episode()
  }

  /** Half-open, full, and nobody left whose report could change anything. */
  ghost predicate Wedged(c: Config, s: Sys) {
    s.b.state == HalfOpen && s.b.halfOpenAttempts >= c.halfOpenMaxRequests && s.inFlight == {}
  }

  // ---------------------------------------------------------------- the invariant

  ghost predicate Bookkeeping(s: Sys) {
    && |s.phases| >= 1 && s.phases[|s.phases| - 1] == s.b.state
    && (forall id :: id in s.inFlight ==> id < |s.admissions|)
    && (forall i :: 0 <= i < |s.admissions| ==> s.admissions[i] < |s.phases|)
  }

  ghost predicate Totals(s: Sys) {
    && s.b.totalRequests == |s.admissions|
    && s.b.totalRequests == s.b.totalSuccesses + s.b.totalFailures + |s.inFlight|
  }

  ghost predicate Counters(c: Config, s: Sys) {
    && s.b.successes < c.successThreshold
    && (s.b.state == Closed ==> s.b.failures == TrailingFailures(s.outcomes) < c.failureThreshold)
    && (s.b.state != Closed ==> s.b.failures == c.failureThreshold)
    && (s.b.state == HalfOpen ==>
          s.b.successes == |s.outcomes| && false !in s.outcomes &&
          s.b.halfOpenAttempts <= c.halfOpenMaxRequests)
    && (s.b.state != HalfOpen ==> s.b.halfOpenAttempts == 0)
  }

  ghost predicate Admissions(c: Config, s: Sys) {
    && (s.b.state == HalfOpen ==> CountIf(s.admissions, Is(s.Episode())) == s.b.halfOpenAttempts + 1)
    && (forall e :: 0 <= e < |s.phases| && s.phases[e] == HalfOpen ==>
          CountIf(s.admissions, Is(e)) <= c.halfOpenMaxRequests + 1)
  }

  /** Every probe of this episode has succeeded or is still in flight; stale calls can only
      push the successes up. */
  ghost predicate ProbesAccounted(s: Sys) {
    s.b.state == HalfOpen ==> s.b.successes + |Probes(s)| >= s.b.halfOpenAttempts + 1
  }

  ghost predicate Inv(c: Config, s: Sys) {
    Bookkeeping(s) && Totals(s) && Counters(c, s) && Admissions(c, s) && ProbesAccounted(s)
  }

  lemma {:induction false} CountBounded(xs: seq<nat>, x: int)
    requires forall i :: 0 <= i < |xs| ==> xs[i] < x
    ensures CountIf(xs, Is(x)) == 0
  {
    if xs != [] { CountBounded(xs[1..], x); }
  }

  lemma OneMoreAdmission(admissions: seq<nat>, episode: nat, e: int)
    ensures CountIf(admissions + [episode], Is(e)) == CountIf(admissions, Is(e)) + Bit(episode == e)
  {
    CountSnoc<nat>(admissions, episode, Is(e));
  }

  /** An arrival that changes the state opens a half-open episode with its first admission. */
  lemma ArriveEnters(c: Config, s: Sys)
    requires c.Usable() && Inv(c, s) && Admit(c, s.b, s.now).1 == Admitted
    ensures var t := Step(c, s, Arrive);
            && t.admissions == s.admissions + [|t.phases| - 1]
            && (t.b.state == s.b.state ==> t.phases == s.phases)
            && (t.b.state != s.b.state ==>
                  && t.phases == s.phases + [HalfOpen] && t.b.halfOpenAttempts == 0
                  && CountIf(s.admissions, Is(|s.phases|)) == 0)
  {
    CountBounded(s.admissions, |s.phases|);
  }

  /** One more admission, in the current episode or as the first of a new half-open one. */
  lemma AdmissionsGrow(c: Config, s: Sys, t: Sys)
    requires Admissions(c, s) && Bookkeeping(s) && Bookkeeping(t) && t.admissions == s.admissions + [|t.phases| - 1]
    requires t.b.state == HalfOpen ==> t.b.halfOpenAttempts <= c.halfOpenMaxRequests
    requires if t.phases == s.phases then
               s.b.state == HalfOpen ==> t.b.halfOpenAttempts == s.b.halfOpenAttempts + 1
             else
               t.phases == s.phases + [HalfOpen] && t.b.halfOpenAttempts == 0
               && CountIf(s.admissions, Is(|s.phases|)) == 0
    ensures Admissions(c, t)
  {
    OneMoreAdmission(s.admissions, t.Episode(), t.Episode());
    forall e | 0 <= e < |t.phases| && t.phases[e] == HalfOpen
      ensures CountIf(t.admissions, Is(e)) <= c.halfOpenMaxRequests + 1
    {
      OneMoreAdmission(s.admissions, t.Episode(), e);
    }
  }

  lemma ArriveKeepsAdmissions(c: Config, s: Sys)
    requires c.Usable() && Inv(c, s) && Admit(c, s.b, s.now).1 == Admitted
    ensures Admissions(c, Step(c, s, Arrive))
  {
    ArriveEnters(c, s);
    AdmissionsGrow(c, s, Step(c, s, Arrive));
  }

  lemma ArriveAddsProbe(c: Config, s: Sys)
    requires Bookkeeping(s) && Admit(c, s.b, s.now).1 == Admitted
    ensures var t := Step(c, s, Arrive); var id := |s.admissions|;
            id !in Probes(s)
            && Probes(t) == if t.b.state == s.b.state then Probes(s) + {id} else {id}
  {
  }

  lemma ArriveKeepsProbes(c: Config, s: Sys)
    requires ProbesAccounted(s) && Bookkeeping(s) && Admit(c, s.b, s.now).1 == Admitted
    ensures ProbesAccounted(Step(c, s, Arrive))
  {
    ArriveAddsProbe(c, s);
  }

  lemma ArriveKeepsBooks(c: Config, s: Sys)
    requires Bookkeeping(s) && Totals(s)
    ensures Bookkeeping(Step(c, s, Arrive)) && Totals(Step(c, s, Arrive))
  {
    assert |s.admissions| !in s.inFlight;
  }

  lemma ArriveKeepsCounters(c: Config, s: Sys)
    requires c.Usable() && Counters(c, s)
    ensures Counters(c, Step(c, s, Arrive))
  {
  }

  lemma ArriveKeepsInv(c: Config, s: Sys)
    requires c.Usable() && Inv(c, s)
    ensures Inv(c, Step(c, s, Arrive))
  {
    ArriveKeepsBooks(c, s);
    ArriveKeepsCounters(c, s);
    if Admit(c, s.b, s.now).1 == Admitted {
      ArriveKeepsAdmissions(c, s);
      ArriveKeepsProbes(c, s);
    }
  }

  lemma ReportKeepsBooks(c: Config, s: Sys, id: nat, ok: bool)
    requires Bookkeeping(s) && Totals(s) && id in s.inFlight
    ensures Bookkeeping(Step(c, s, Report(id, ok))) && Totals(Step(c, s, Report(id, ok)))
  {
  }

  lemma ReportKeepsCounters(c: Config, s: Sys, id: nat, ok: bool)
    requires c.Usable() && Counters(c, s) && id in s.inFlight
    ensures Counters(c, Step(c, s, Report(id, ok)))
  {
    OneMoreOutcome(s.outcomes, ok);
  }

  /** A report enters no half-open episode and stays in one only by counting a success. */
  lemma ReportInHalfOpen(c: Config, s: Sys, id: nat, ok: bool)
    requires Bookkeeping(s) && id in s.inFlight && Step(c, s, Report(id, ok)).b.state == HalfOpen
    ensures var t := Step(c, s, Report(id, ok));
            && s.b.state == HalfOpen && t.phases == s.phases && t.b.halfOpenAttempts == s.b.halfOpenAttempts
            && t.b.successes == s.b.successes + 1 && Probes(t) == Probes(s) - {id}
  {
  }

  lemma ReportKeepsAdmissions(c: Config, s: Sys, id: nat, ok: bool)
    requires Bookkeeping(s) && Admissions(c, s) && id in s.inFlight
    ensures Admissions(c, Step(c, s, Report(id, ok)))
  {
    var t := Step(c, s, Report(id, ok));
    if t.b.state == HalfOpen { ReportInHalfOpen(c, s, id, ok); }
  }

  lemma ReportKeepsInv(c: Config, s: Sys, id: nat, ok: bool)
    requires c.Usable() && Inv(c, s)
    ensures Inv(c, Step(c, s, Report(id, ok)))
  {
    if id in s.inFlight {
      ReportKeepsBooks(c, s, id, ok);
      ReportKeepsCounters(c, s, id, ok);
      ReportKeepsAdmissions(c, s, id, ok);
      if Step(c, s, Report(id, ok)).b.state == HalfOpen { ReportInHalfOpen(c, s, id, ok); }
    }
  }

  /** Every reachable state satisfies the invariant. */
  lemma {:induction false} InvHolds(c: Config, es: seq<Event>)
    requires c.Usable()
    ensures Inv(c, Run(c, es))
  {
    InvFrom(c, START, es);
  }

  lemma ElapseKeepsInv(c: Config, s: Sys, d: nat)
    requires Inv(c, s)
    ensures Inv(c, Step(c, s, Elapse(d)))
  {
    assert Probes(Step(c, s, Elapse(d))) == Probes(s);
  }

  lemma StepKeepsInv(c: Config, s: Sys, e: Event)
    requires c.Usable() && Inv(c, s)
    ensures Inv(c, Step(c, s, e))
  {
    match e
    case Elapse(d) => ElapseKeepsInv(c, s, d);
    case Arrive => ArriveKeepsInv(c, s);
    case Report(id, ok) => ReportKeepsInv(c, s, id, ok);
  }

  lemma {:induction false} InvFrom(c: Config, s: Sys, es: seq<Event>)
    requires c.Usable() && Inv(c, s)
    ensures Inv(c, RunFrom(c, s, es))
  {
    if es != [] {
      InvFrom(c, s, es[..|es| - 1]);
      StepKeepsInv(c, RunFrom(c, s, es[..|es| - 1]), es[|es| - 1]);
    }
  }

  // ---------------------------------------------------------------- what the counters mean

  /** Conservation, and what `failures` says about the state. */
  lemma CountersRefineHistory(c: Config, es: seq<Event>)
    requires c.Usable()
    ensures var s := Run(c, es);
            && s.b.totalRequests == s.b.totalSuccesses + s.b.totalFailures + |s.inFlight|
            && (s.b.state == Closed <==> s.b.failures < c.failureThreshold)
            && (s.b.state != Closed <==> s.b.failures == c.failureThreshold)
            && (s.b.state == Closed ==> s.b.failures == TrailingFailures(s.outcomes))
            && s.b.successes < c.successThreshold
            && (s.b.state != HalfOpen ==> s.b.halfOpenAttempts == 0)
  {
    InvHolds(c, es);
  }

  lemma OneMoreOutcome(os: seq<bool>, ok: bool)
    ensures TrailingFailures(os + [ok]) == if ok then 0 else TrailingFailures(os) + 1
  {
    assert (os + [ok])[..|os|] == os;
  }

  lemma ClosedReport(c: Config, s: Sys, id: nat, ok: bool)
    requires c.Usable() && Counters(c, s) && s.b.state == Closed && id in s.inFlight
    ensures Step(c, s, Report(id, ok)).b.state
            == if TrailingFailures(s.outcomes + [ok]) >= c.failureThreshold then Open else Closed
  {
    OneMoreOutcome(s.outcomes, ok);
  }

  /** A closed breaker opens on a report exactly when it completes failureThreshold failures
      in a row within this closed episode; a success never opens it. */
  lemma TripsExactlyOnConsecutiveFailures(c: Config, es: seq<Event>, id: nat, ok: bool)
    requires c.Usable() && Run(c, es).b.state == Closed && id in Run(c, es).inFlight
    ensures Step(c, Run(c, es), Report(id, ok)).b.state
            == if LastFailed(Run(c, es).outcomes + [ok], c.failureThreshold) then Open else Closed
  {
    InvHolds(c, es);
    ClosedReport(c, Run(c, es), id, ok);
    TrailingMeansSuffix(Run(c, es).outcomes + [ok], c.failureThreshold);
  }

  /** A half-open breaker closes on a report exactly when it is the successThreshold-th
      completion of the episode and none failed; any failure opens it again. */
  lemma HalfOpenVerdict(c: Config, es: seq<Event>, id: nat, ok: bool)
    requires c.Usable() && Run(c, es).b.state == HalfOpen && id in Run(c, es).inFlight
    ensures Step(c, Run(c, es), Report(id, ok)).b.state
            == if false in Run(c, es).outcomes + [ok] then Open
               else if |Run(c, es).outcomes + [ok]| == c.successThreshold then Closed
               else HalfOpen
  {
    InvHolds(c, es);
  }

  /** Each half-open episode admits at most halfOpenMaxRequests + 1 calls: the call that
      opened the episode is not counted in halfOpenAttempts. */
  lemma HalfOpenAdmissionsBounded(c: Config, es: seq<Event>, e: nat)
    requires c.Usable() && e < |Run(c, es).phases| && Run(c, es).phases[e] == HalfOpen
    ensures CountIf(Run(c, es).admissions, Is(e)) <= c.halfOpenMaxRequests + 1
  {
    InvHolds(c, es);
  }

  /** After the breaker opens nobody is admitted for resetTimeout, whatever stale calls
      report meanwhile. */
  lemma {:induction false} OpenShields(c: Config, es: seq<Event>, e: Event, later: seq<Event>)
    requires Run(c, es).b.state != Open && Step(c, Run(c, es), e).b.state == Open
    requires var s := Step(c, Run(c, es), e);
             RunFrom(c, s, later).now - s.now < c.resetTimeout
    ensures var s := Step(c, Run(c, es), e); var t := RunFrom(c, s, later);
            && t.b.state == Open
            && t.admissions == s.admissions
            && Step(c, t, Arrive) == t
  {
    StaysOpen(c, Step(c, Run(c, es), e), later);
  }

  lemma {:induction false} StaysOpen(c: Config, s: Sys, later: seq<Event>)
    requires s.b.state == Open && s.b.lastFailureTime == s.now
    requires RunFrom(c, s, later).now - s.now < c.resetTimeout
    ensures var t := RunFrom(c, s, later);
            t.b.state == Open && t.admissions == s.admissions && t.b.lastFailureTime == s.now
  {
    if later != [] { StaysOpen(c, s, later[..|later| - 1]); }
  }

  // ---------------------------------------------------------------- exactly who is admitted

  /** When the breaker last changed its state: at which time of the run. */
  function Since(c: Config, es: seq<Event>): int {
    if es == [] then 0
    else
      var p := es[..|es| - 1];
      if Run(c, es).phases == Run(c, p).phases then Since(c, p) else Run(c, es).now
  }

  lemma SinceStep(c: Config, s: Sys, e: Event, since: int)
    requires Bookkeeping(s) && (s.b.state == Open ==> s.b.lastFailureTime == since)
    ensures var t := Step(c, s, e);
            t.b.state == Open ==> t.b.lastFailureTime == if t.phases == s.phases then since else t.now
  {
  }

  lemma {:induction false} SinceHolds(c: Config, es: seq<Event>)
    requires c.Usable()
    ensures Run(c, es).b.state == Open ==> Run(c, es).b.lastFailureTime == Since(c, es)
  {
    if es != [] {
      var p := es[..|es| - 1];
      SinceHolds(c, p);
      InvHolds(c, p);
      SinceStep(c, Run(c, p), es[|es| - 1], Since(c, p));
    }
  }

  /** The admission rule over the history of the run alone. */
  ghost predicate Welcome(c: Config, es: seq<Event>) {
    var s := Run(c, es);
    s.phases != [] &&
    match s.phases[|s.phases| - 1]
    case Closed => true
    case HalfOpen => CountIf(s.admissions, Is(|s.phases| - 1)) <= c.halfOpenMaxRequests
    case Open => s.now - Since(c, es) >= c.resetTimeout
  }

  /** In every reachable state an arrival is admitted exactly if the breaker is closed, or has
      been open for resetTimeout, or is half-open with at most halfOpenMaxRequests admissions
      in this episode. An admitted call gets the next number and belongs to the current
      episode, after opening a half-open one if the breaker was open; a rejected one leaves
      everything as it was. */
  lemma AdmittedIff(c: Config, es: seq<Event>)
    requires c.Usable()
    ensures Run(c, es).phases != []
    ensures var s := Run(c, es); var t := Step(c, s, Arrive);
            if Welcome(c, es) then
              && t.phases == (if s.phases[|s.phases| - 1] == Open then s.phases + [HalfOpen] else s.phases)
              && t.admissions == s.admissions + [|t.phases| - 1]
              && t.inFlight == s.inFlight + {|s.admissions|} && |s.admissions| !in s.inFlight
            else t == s
  {
    InvHolds(c, es);
    SinceHolds(c, es);
    WelcomeStep(c, Run(c, es), Welcome(c, es));
  }

  lemma WelcomeStep(c: Config, s: Sys, welcome: bool)
    requires Bookkeeping(s) && welcome == (Admit(c, s.b, s.now).1 == Admitted)
    ensures var t := Step(c, s, Arrive);
            if welcome then
              && t.phases == (if s.phases[|s.phases| - 1] == Open then s.phases + [HalfOpen] else s.phases)
              && t.admissions == s.admissions + [|t.phases| - 1]
              && t.inFlight == s.inFlight + {|s.admissions|} && |s.admissions| !in s.inFlight
            else t == s
  {
  }

  ghost predicate NobodyArrives(es: seq<Event>) { forall e <- es :: !e.Arrive? }

  lemma {:induction false} StaysOpenUnasked(c: Config, es: seq<Event>, later: seq<Event>)
    requires c.Usable() && Run(c, es).b.state == Open && NobodyArrives(later)
    ensures Run(c, es + later).b.state == Open && Run(c, es + later).phases == Run(c, es).phases
    ensures Since(c, es + later) == Since(c, es)
  {
    if later == [] {
      assert es + later == es;
    } else {
      var p := later[..|later| - 1];
      assert (es + later)[..|es + later| - 1] == es + p;
      assert later[|later| - 1] in later;
      StaysOpenUnasked(c, es, p);
      InvHolds(c, es + p);
    }
  }

  lemma OpensAtItsStep(c: Config, es: seq<Event>, e: Event)
    requires c.Usable() && Run(c, es).b.state != Open && Run(c, es + [e]).b.state == Open
    ensures Since(c, es + [e]) == Run(c, es + [e]).now
  {
    assert (es + [e])[..|es|] == es;
    InvHolds(c, es);
    InvHolds(c, es + [e]);
  }

  lemma OpenWelcomes(c: Config, es: seq<Event>)
    requires Run(c, es).b.state == Open && Bookkeeping(Run(c, es))
    ensures Welcome(c, es) <==> Run(c, es).now - Since(c, es) >= c.resetTimeout
  {
  }

  lemma OpenAdmission(s: Sys, t: Sys, welcome: bool)
    requires if welcome then t.phases == s.phases + [HalfOpen] && t.admissions == s.admissions + [|t.phases| - 1]
             else t == s
    ensures welcome <==> |t.admissions| == |s.admissions| + 1
    ensures welcome <==> t.phases == s.phases + [HalfOpen]
  {
    assert |s.phases + [HalfOpen]| == |s.phases| + 1;
  }

  lemma OpenAdmitsIff(c: Config, es: seq<Event>)
    requires c.Usable() && Run(c, es).b.state == Open
    ensures var s := Run(c, es); var t := Step(c, s, Arrive);
            && (s.now - Since(c, es) >= c.resetTimeout <==> |t.admissions| == |s.admissions| + 1)
            && (|t.admissions| == |s.admissions| + 1 <==> t.phases == s.phases + [HalfOpen])
  {
    InvHolds(c, es);
    AdmittedIff(c, es);
    OpenWelcomes(c, es);
    OpenAdmission(Run(c, es), Step(c, Run(c, es), Arrive), Welcome(c, es));
  }

  /** After any step that opens the breaker, and as long as nobody arrives, it stays open
      whatever reports come in; the next arrival is admitted, and opens a half-open episode,
      if and only if resetTimeout has passed since the opening. */
  lemma ReopensExactlyAfterTimeout(c: Config, es: seq<Event>, e: Event, later: seq<Event>)
    requires c.Usable() && NobodyArrives(later)
    requires Run(c, es).b.state != Open && Run(c, es + [e]).b.state == Open
    ensures var s := Run(c, es + [e] + later); var t := Step(c, s, Arrive);
            && s.b.state == Open
            && (s.now - Run(c, es + [e]).now >= c.resetTimeout <==> |t.admissions| == |s.admissions| + 1)
            && (|t.admissions| == |s.admissions| + 1 <==> t.phases == s.phases + [HalfOpen])
  {
    OpensAtItsStep(c, es, e);
    StaysOpenUnasked(c, es + [e], later);
    OpenAdmitsIff(c, es + [e] + later);
  }

  // ---------------------------------------------------------------- can the breaker wedge?

  /** A wedged breaker rejects every later arrival, for ever. */
  lemma {:induction false} WedgedForever(c: Config, s: Sys, later: seq<Event>)
    requires Wedged(c, s)
    ensures var t := RunFrom(c, s, later);
            Wedged(c, t) && t.admissions == s.admissions && Step(c, t, Arrive) == t
  {
    if later != [] { WedgedForever(c, s, later[..|later| - 1]); }
  }

  lemma NeverWedged(c: Config, es: seq<Event>)
    requires c.Usable() && c.successThreshold <= c.halfOpenMaxRequests + 1
    ensures !Wedged(c, Run(c, es))
  {
    InvHolds(c, es);
    var s := Run(c, es);
    if s.inFlight == {} { assert Probes(s) == {}; }
  }

  /** One call that arrives and at once reports. */
  function Call(s: Sys, ok: bool): seq<Event> { [Arrive, Report(|s.admissions|, ok)] }

  lemma CallSteps(c: Config, s: Sys, ok: bool)
    ensures RunFrom(c, s, Call(s, ok))
            == Step(c, Step(c, s, Arrive), Report(|s.admissions|, ok))
  {
    var es := Call(s, ok);
    assert es[..1] == [Arrive] && es[..1][..0] == [];
    assert RunFrom(c, s, es[..1]) == Step(c, s, Arrive);
  }

  /** Failing calls, one after another, open a fresh breaker. */
  lemma {:induction false} FailUntilOpen(c: Config, k: nat) returns (es: seq<Event>)
    requires c.Usable() && k <= c.failureThreshold
    ensures var s := Run(c, es);
            && s.inFlight == {} && s.b.failures == k
            && (k < c.failureThreshold ==> s.b.state == Closed)
            && (k == c.failureThreshold ==> s.b.state == Open && s.b.lastFailureTime == s.now)
  {
    if k == 0 {
      es := [];
    } else {
      var p := FailUntilOpen(c, k - 1);
      var s := Run(c, p);
      InvHolds(c, p);
      es := p + Call(s, false);
      RunAppend(c, START, p, Call(s, false));
      CallSteps(c, s, false);
      assert |s.admissions| !in s.inFlight;
    }
  }

  /** Waits out the reset timeout of an open breaker and lets one call succeed. */
  lemma FirstProbe(c: Config, s: Sys) returns (es: seq<Event>)
    requires c.Usable() && Inv(c, s) && s.b.state == Open && s.inFlight == {}
    ensures var t := RunFrom(c, s, es);
            && t.inFlight == {}
            && (c.successThreshold == 1 ==> t.b.state == Closed)
            && (c.successThreshold > 1 ==>
                  t.b.state == HalfOpen && t.b.successes == 1 && t.b.halfOpenAttempts == 0)
  {
    var wait := c.resetTimeout + s.b.lastFailureTime - s.now;
    var d: nat := if wait < 0 then 0 else wait;
    var u := Step(c, s, Elapse(d));
    es := [Elapse(d)] + Call(u, true);
    RunAppend(c, s, [Elapse(d)], Call(u, true));
    assert [Elapse(d)][..0] == [];
    assert RunFrom(c, s, [Elapse(d)]) == u;
    CallSteps(c, u, true);
  }

  /** Probes that succeed one after another until the episode is full. */
  lemma {:induction false} ProbeUntilFull(c: Config, s: Sys, k: nat) returns (es: seq<Event>)
    requires c.Usable() && Inv(c, s) && s.inFlight == {}
    requires s.b.state == HalfOpen && s.b.successes == s.b.halfOpenAttempts + 1
    requires s.b.halfOpenAttempts + k == c.halfOpenMaxRequests
    requires c.successThreshold > c.halfOpenMaxRequests + 1
    ensures Wedged(c, RunFrom(c, s, es))
    decreases k
  {
    if k == 0 {
      es := [];
    } else {
      var one := Call(s, true);
      CallSteps(c, s, true);
      InvFrom(c, s, one);
      var rest := ProbeUntilFull(c, RunFrom(c, s, one), k - 1);
      es := one + rest;
      RunAppend(c, s, one, rest);
    }
  }

  lemma WedgingRun(c: Config) returns (es: seq<Event>)
    requires c.Usable() && c.successThreshold > c.halfOpenMaxRequests + 1
    ensures Wedged(c, Run(c, es))
  {
    var trip := FailUntilOpen(c, c.failureThreshold);
    var s := Run(c, trip);
    InvHolds(c, trip);
    var first := FirstProbe(c, s);
    InvFrom(c, s, first);
    var t := RunFrom(c, s, first);
    var rest := ProbeUntilFull(c, t, c.halfOpenMaxRequests);
    es := trip + (first + rest);
    RunAppend(c, START, trip, first + rest);
    RunAppend(c, s, first, rest);
  }

  /** The breaker can wedge if and only if it asks for more successes than a half-open
      episode can ever see. */
  lemma CanWedgeIff(c: Config)
    requires c.Usable()
    ensures (exists es :: Wedged(c, Run(c, es))) <==> c.successThreshold > c.halfOpenMaxRequests + 1
  {
    if c.successThreshold > c.halfOpenMaxRequests + 1 {
      var es := WedgingRun(c);
    } else {
      forall es ensures !Wedged(c, Run(c, es)) { NeverWedged(c, es); }
    }
  }

  // ---------------------------------------------------------------- recovery

  /** Lets every call in flight succeed. */
  lemma {:induction false} DrainSuccessfully(c: Config, s: Sys) returns (es: seq<Event>)
    requires c.Usable() && Inv(c, s)
    ensures var t := RunFrom(c, s, es); Inv(c, t) && t.inFlight == {}
    decreases |s.inFlight|
  {
    if s.inFlight == {} {
      es := [];
    } else {
      var id :| id in s.inFlight;
      var one := [Report(id, true)];
      assert one[..0] == [];
      assert RunFrom(c, s, one) == Step(c, s, Report(id, true));
      InvFrom(c, s, one);
      var rest := DrainSuccessfully(c, RunFrom(c, s, one));
      es := one + rest;
      RunAppend(c, s, one, rest);
    }
  }

  lemma {:induction false} ProbeUntilClosed(c: Config, s: Sys) returns (es: seq<Event>)
    requires c.Usable() && c.successThreshold <= c.halfOpenMaxRequests + 1
    requires Inv(c, s) && s.inFlight == {} && s.b.state != Open
    ensures RunFrom(c, s, es).b.state == Closed
    decreases c.successThreshold - s.b.successes
  {
    if s.b.state == Closed {
      es := [];
    } else {
      assert Probes(s) == {};
      var one := Call(s, true);
      CallSteps(c, s, true);
      InvFrom(c, s, one);
      var t := RunFrom(c, s, one);
      if t.b.state == Closed {
        es := one;
      } else {
        var rest := ProbeUntilClosed(c, t);
        es := one + rest;
        RunAppend(c, s, one, rest);
      }
    }
  }

  lemma CanClose(c: Config, es: seq<Event>) returns (more: seq<Event>)
    requires c.Usable() && c.successThreshold <= c.halfOpenMaxRequests + 1
    ensures Run(c, es + more).b.state == Closed
  {
    InvHolds(c, es);
    var s := Run(c, es);
    var drain := DrainSuccessfully(c, s);
    var t := RunFrom(c, s, drain);
    RunAppend(c, s, drain, []);
    var probe: seq<Event> := [];
    if t.b.state == Open { probe := FirstProbe(c, t); }
    InvFrom(c, t, probe);
    var u := RunFrom(c, t, probe);
    var rest := ProbeUntilClosed(c, u);
    more := drain + (probe + rest);
    RunAppend(c, START, es, more);
    RunAppend(c, s, drain, probe + rest);
    RunAppend(c, t, probe, rest);
  }

  ghost predicate Recoverable(c: Config, es: seq<Event>) {
    exists more :: Run(c, es + more).b.state == Closed
  }

  /** From every reachable state the breaker can close again, if and only if it does not ask
      for more successes than a half-open episode can see. */
  lemma AlwaysRecoverableIff(c: Config)
    requires c.Usable()
    ensures (forall es :: Recoverable(c, es)) <==> c.successThreshold <= c.halfOpenMaxRequests + 1
  {
    if c.successThreshold <= c.halfOpenMaxRequests + 1 {
      forall es ensures Recoverable(c, es) {
        var more := CanClose(c, es);
      }
    } else {
      var es := WedgingRun(c);
      forall more ensures Run(c, es + more).b.state != Closed {
        RunAppend(c, START, es, more);
        WedgedForever(c, Run(c, es), more);
      }
      assert !Recoverable(c, es);
    }
  }
}
