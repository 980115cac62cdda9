/** What the global breaker learns of failing parsers: the pool, the executed search and its
    fan-out together, over all runs. */
module GlobalBreaker {
  import opened Counting
  import opened Models
  import opened Jobs
  import opened Pipeline
  import opened PipelineProgress
  import opened SearchFlow
  import B = Breaker
  import F = FanOut
  import S = SearchService

  // ---------------------------------------------------------------- what a search may return

  function Listed(entries: seq<F.Entry>): (rs: seq<SearchResult>)
    ensures |rs| == |entries| && forall i :: 0 <= i < |rs| ==> rs[i] == entries[i].r
  {
    seq(|entries|, i requires 0 <= i < |entries| => entries[i].r)
  }

  /** The list that some run of the fan-out to these parsers returned. */
  ghost predicate FannedOut(names: seq<string>, results: seq<SearchResult>) {
    exists c: F.Config, es: seq<F.Event> ::
      c.names == names && |names| <= c.capacity && F.Run(c, es).returned && results == Listed(F.Run(c, es).collected)
  }

  predicate AllFailed(results: seq<SearchResult>) {
    forall r <- results :: r.error.Some? && r.vacancies == []
  }

  /** What may go wrong outside the parsers' searches: no parser may be selected, and a details
      request may fail. */
  datatype Trouble = Trouble(noParsers: bool, details: bool)

  ghost predicate MayFetch(t: Trouble, fetch: S.Fetch) {
    match fetch
    case NoParsers => t.noParsers
    case FetchFailed => false
    case Fetched(results) => exists names :: names != [] && FannedOut(names, results)
  }

  /** Some search, whatever its caches hold, returns these results and this error. */
  ghost predicate MayReturn(t: Trouble, results: seq<SearchResult>, err: Option<Error>) {
    exists cfg, c, hash, fetch, asked, at, clock ::
      && MayFetch(t, fetch)
      && S.Execute(cfg, c, hash, fetch, asked, at, clock).1 == results
      && S.Execute(cfg, c, hash, fetch, asked, at, clock).2 == err
  }

  /** What a worker may bring back from the protected function: handled search results, or
      vacancy details. */
  ghost predicate MayBring(t: Trouble, out: Output<Payload>) {
    || (exists results, err, cached ::
          MayReturn(t, results, err) && out == AsPayload(HandleSearchResult(results, err, cached)))
    || (out.data.DetailsData? && (out.err.Some? ==> t.details))
  }

  ghost predicate TroubledRun(t: Trouble, es: seq<Event<Payload>>) {
    forall e <- es :: e.Work? && e.a.Return? ==> MayBring(t, e.a.out)
  }

  // ---------------------------------------------------------------- parsers alone never open it

  /** With parsers to ask, a search returns no error, whatever all of them answer. */
  lemma SearchReturnsNoError(t: Trouble, results: seq<SearchResult>, err: Option<Error>)
    requires !t.noParsers && MayReturn(t, results, err)
    ensures err.None?
  {
  }

  lemma NoTroubleNoError(t: Trouble, out: Output<Payload>)
    requires !t.noParsers && !t.details && MayBring(t, out)
    ensures out.err.None?
  {
    if results, err, cached :|
      MayReturn(t, results, err) && out == AsPayload(HandleSearchResult(results, err, cached))
    {
      SearchReturnsNoError(t, results, err);
    }
  }

  ghost predicate NeverFailed(b: B.Cell) { b.state == B.Closed && b.failures == 0 && b.totalFailures == 0 }

  lemma SuccessStep<D>(c: Config, s: Sys<D>, e: Event<D>)
    requires NeverFailed(s.breaker) && (e.Work? && e.a.Return? ==> e.a.out.err.None?)
    ensures NeverFailed(Step(c, s, e).breaker)
  {
  }

  lemma {:induction false} OnlySuccesses<D>(c: Config, es: seq<Event<D>>)
    requires forall e <- es :: e.Work? && e.a.Return? ==> e.a.out.err.None?
    ensures NeverFailed(Run(c, es).breaker)
  {
    if es != [] {
      assert es[|es| - 1] in es;
      OnlySuccesses(c, es[..|es| - 1]);
      SuccessStep(c, Run(c, es[..|es| - 1]), es[|es| - 1]);
    }
  }

  // ---------------------------------------------------------------- one job after another

  /** The first worker, and with it the pool, is ready for job k. */
  ghost predicate Idling<D>(c: Config, s: Sys<D>, k: nat) {
    && |s.workers| > 0 && s.workers[0] == AtSelect && s.queue == [] && !s.stopped && s.semaphore == 0
    && forall i :: 0 <= i < |s.accepted| ==> s.accepted[i] < k
  }

  /** Sends and receives up to the release. */
  function HandOver<D>(j: nat, out: Output<D>): seq<Event<D>> {
    [] + [Work(0, Send)] + (if out.err.None? then [Receive(j)] + [Work(0, Send)] else []) + [Work(0, Release)]
  }

  function OneJob<D>(j: nat, out: Output<D>): seq<Event<D>> { Take(0, j) + Perform(0, out) + HandOver(j, out) }

  function JobSeries<D>(k: nat, out: Output<D>): seq<Event<D>> {
    if k == 0 then [] else JobSeries(k - 1, out) + OneJob(k - 1, out)
  }

  /** Nothing but worker 0 and the mail of j has changed, and the slot is back. */
  ghost predicate HandedOver<D>(s: Sys<D>, t: Sys<D>) {
    && 0 < |s.workers| == |t.workers| && t.workers[0] == AtSelect && t.queue == s.queue && t.stopped == s.stopped
    && t.semaphore == s.semaphore - 1 && t.accepted == s.accepted && t.breaker == s.breaker
  }

  /** Worker 0 makes its next send into the empty channel. */
  lemma OneSend<D>(c: Config, s: Sys<D>, j: nat, out: Output<D>, left: seq<JobOutput<D>>)
    requires |s.workers| > 0 && s.workers[0] == Completing(j, out, true, left) && left != []
    requires j in s.mail && s.mail[j].channel == []
    ensures Step(c, s, Work(0, Send))
            == s.(workers := s.workers[0 := Completing(j, out, true, left[1..])],
                  mail := s.mail[j := s.mail[j].(channel := [left[0]])])
  {
  }

  lemma OneReceive<D>(c: Config, s: Sys<D>, j: nat)
    requires j in s.mail && s.mail[j].waiter.Waiting? && |s.mail[j].channel| == 1
    ensures var t := Step(c, s, Receive(j));
            && t == s.(mail := t.mail) && j in t.mail && t.mail[j].channel == []
  {
  }

  lemma LastRelease<D>(c: Config, s: Sys<D>, j: nat, out: Output<D>)
    requires |s.workers| > 0 && s.workers[0] == Completing(j, out, true, [])
    ensures HandedOver(s, Step(c, s, Work(0, Release)))
  {
  }

  lemma HandOverFailure<D>(c: Config, s: Sys<D>, j: nat, out: Output<D>)
    requires |s.workers| > 0 && s.workers[0] == Completing(j, out, true, Sends(out)) && out.err.Some?
    requires j in s.mail && s.mail[j].channel == []
    ensures HandedOver(s, RunFrom(c, s, HandOver(j, out)))
  {
    var e1: seq<Event<D>> := [] + [Work(0, Send)];
    Then(c, s, [], Work(0, Send));
    Then(c, s, e1, Work(0, Release));
    OneSend(c, s, j, out, Sends(out));
    LastRelease(c, RunFrom(c, s, e1), j, out);
    assert HandOver(j, out) == e1 + [Work(0, Release)];
  }

  lemma TwoSends<D>(c: Config, s: Sys<D>, j: nat, out: Output<D>) returns (es: seq<Event<D>>)
    requires |s.workers| > 0 && s.workers[0] == Completing(j, out, true, Sends(out)) && out.err.None?
    requires j in s.mail && s.mail[j].channel == [] && s.mail[j].waiter.Waiting?
    ensures es == [Work(0, Send)] + [Receive(j)] + [Work(0, Send)]
    ensures var t := RunFrom(c, s, es);
            t == s.(workers := s.workers[0 := Completing(j, out, true, [])], mail := t.mail)
  {
    var e1: seq<Event<D>> := [] + [Work(0, Send)];
    var e2 := e1 + [Receive(j)];
    es := e2 + [Work(0, Send)];
    Then(c, s, [], Work(0, Send));
    Then(c, s, e1, Receive(j));
    Then(c, s, e2, Work(0, Send));
    OneSend(c, s, j, out, Sends(out));
    OneReceive(c, RunFrom(c, s, e1), j);
    OneSend(c, RunFrom(c, s, e2), j, out, Sends(out)[1..]);
    assert Sends(out)[1..][1..] == [];
    assert RunFrom(c, s, es).workers == s.workers[0 := Completing(j, out, true, [])];
  }

  lemma HandOverSuccess<D>(c: Config, s: Sys<D>, j: nat, out: Output<D>)
    requires |s.workers| > 0 && s.workers[0] == Completing(j, out, true, Sends(out)) && out.err.None?
    requires j in s.mail && s.mail[j].channel == [] && s.mail[j].waiter.Waiting?
    ensures HandedOver(s, RunFrom(c, s, HandOver(j, out)))
  {
    var es := TwoSends(c, s, j, out);
    Then(c, s, es, Work(0, Release));
    LastRelease(c, RunFrom(c, s, es), j, out);
    assert HandOver(j, out) == es + [Work(0, Release)];
  }

  /** The breaker after one more admitted job. */
  function AfterJob(c: Config, b: B.Cell, now: int, ok: bool): B.Cell {
    B.Finish(c.breaker, B.Admit(c.breaker, b, now).0, ok, now)
  }

  lemma OneJobReaches<D>(c: Config, s: Sys<D>, k: nat, out: Output<D>)
    requires Idling(c, s, k) && s.breaker.state == B.Closed && c.capacity > 0 && c.slots > 0
    ensures var t := RunFrom(c, s, OneJob(k, out));
            && Idling(c, t, k + 1) && t.breaker == AfterJob(c, s.breaker, s.now, out.err.None?)
  {
    TakeReaches(c, s, 0, k);
    var t1 := RunFrom(c, s, Take(0, k));
    PerformReaches(c, t1, 0, k, out);
    var t2 := RunFrom(c, t1, Perform(0, out));
    if out.err.None? { HandOverSuccess(c, t2, k, out); } else { HandOverFailure(c, t2, k, out); }
    ThreeParts(c, s, Take(0, k), t1, Perform(0, out), t2, HandOver(k, out));
  }

  lemma ThreeParts<D>(c: Config, s: Sys<D>, xs: seq<Event<D>>, t1: Sys<D>, ys: seq<Event<D>>, t2: Sys<D>,
                      zs: seq<Event<D>>)
    requires RunFrom(c, s, xs) == t1 && RunFrom(c, t1, ys) == t2
    ensures RunFrom(c, s, xs + ys + zs) == RunFrom(c, t2, zs)
  {
    RunAppend(c, s, xs + ys, zs);
    RunAppend(c, s, xs, ys);
  }

  /** The breaker's count goes on. */
  lemma OneMoreTally(c: Config, b: B.Cell, now: int, k: nat, ok: bool)
    requires c.breaker.Usable() && Tallied(c, b, k, ok) && (!ok ==> k < c.breaker.failureThreshold)
    ensures b.state == B.Closed && Tallied(c, AfterJob(c, b, now, ok), k + 1, ok)
  {
  }

  lemma JobExtends<D>(c: Config, p: seq<Event<D>>, k: nat, out: Output<D>)
    requires c.breaker.Usable() && c.capacity > 0 && c.slots > 0
    requires Idling(c, Run(c, p), k) && Tallied(c, Run(c, p).breaker, k, out.err.None?)
    requires out.err.Some? ==> k < c.breaker.failureThreshold
    ensures var s := Run(c, p + OneJob(k, out)); Idling(c, s, k + 1) && Tallied(c, s.breaker, k + 1, out.err.None?)
  {
    var s := Run(c, p);
    OneMoreTally(c, s.breaker, s.now, k, out.err.None?);
    OneJobReaches(c, s, k, out);
    RunAppend(c, Start(c), p, OneJob(k, out));
  }

  /** k jobs of one outcome, one after another. */
  lemma {:induction false} JobsReach<D>(c: Config, k: nat, out: Output<D>)
    requires c.breaker.Usable() && c.capacity > 0 && c.slots > 0 && c.workers > 0
    requires out.err.Some? ==> k <= c.breaker.failureThreshold
    ensures var s := Run(c, JobSeries(k, out)); Idling(c, s, k) && Tallied(c, s.breaker, k, out.err.None?)
  {
    if k > 0 {
      JobsReach(c, k - 1, out);
      JobExtends(c, JobSeries(k - 1, out), k - 1, out);
    }
  }

  /** What k successes, or k failures, in a row leave of a fresh breaker. */
  ghost predicate Tallied(c: Config, b: B.Cell, k: nat, ok: bool) {
    if ok then NeverFailed(b) && b.totalSuccesses == k
    else b.failures == k && b.state == if k < c.breaker.failureThreshold then B.Closed else B.Open
  }

  lemma {:induction false} ReturnsOf<D>(k: nat, out: Output<D>)
    ensures forall e <- JobSeries(k, out) :: e.Work? && e.a.Return? ==> e.a.out == out
  {
    if k > 0 { ReturnsOf(k - 1, out); }
  }

  // ---------------------------------------------------------------- the exact condition

  lemma NoParsersFails(t: Trouble) returns (out: Output<Payload>)
    requires t.noParsers
    ensures MayBring(t, out) && out.err.Some?
  {
    var cfg, c, clock := S.Config(0, 0), S.Caches(map[], map[], map[]), (k: nat) => 0;
    var none: Option<seq<SearchResult>> := None;
    var e := S.Execute(cfg, c, "", S.NoParsers, 0, 0, clock);
    assert MayFetch(t, S.NoParsers);
    assert MayReturn(t, e.1, e.2);
    out := AsPayload(HandleSearchResult(e.1, e.2, none));
  }

  /** The global breaker can leave its closed state if and only if a search may find no parser
      to ask or a details request may fail. Failing parsers alone never open it, and no search
      with a parser to ask ever counts as a failure. */
  lemma OpensIff(c: Config, t: Trouble)
    requires c.breaker.Usable() && c.capacity > 0 && c.slots > 0 && c.workers > 0
    ensures (exists es :: TroubledRun(t, es) && Run(c, es).breaker.state != B.Closed) <==> t.noParsers || t.details
    ensures !t.noParsers && !t.details ==> forall es :: TroubledRun(t, es) ==> NeverFailed(Run(c, es).breaker)
  {
    if t.noParsers || t.details {
      var out: Output<Payload> := Output(DetailsData(None), Some("failed"));
      if !t.details { out := NoParsersFails(t); }
      assert MayBring(t, out);
      var k := c.breaker.failureThreshold;
      JobsReach(c, k, out);
      ReturnsOf(k, out);
      assert TroubledRun(t, JobSeries(k, out));
    } else {
      forall es: seq<Event<Payload>> | TroubledRun(t, es) ensures NeverFailed(Run(c, es).breaker) {
        forall e: Event<Payload> | e in es && e.Work? && e.a.Return? ensures e.a.out.err.None? {
          NoTroubleNoError(t, e.a.out);
        }
        OnlySuccesses(c, es);
      }
    }
  }

  // ---------------------------------------------------------------- searches whose parsers all fail

  lemma {:induction false} NothingFound(c: F.Config, s: F.Sys, es: seq<F.Event>)
    requires |s.pairs| == |c.names| && forall e <- es :: F.Own(e) || e.Cancel?
    requires forall i :: 0 <= i < |s.pairs| ==> s.pairs[i].found.None?
    ensures forall i :: 0 <= i < |c.names| ==> F.RunFrom(c, s, es).pairs[i].found.None?
  {
    if es != [] {
      var p := es[..|es| - 1];
      assert es[|es| - 1] in es;
      NothingFound(c, s, p);
      FindsNothing(c, F.RunFrom(c, s, p), es[|es| - 1]);
    }
  }

  lemma FindsNothing(c: F.Config, s: F.Sys, e: F.Event)
    requires |s.pairs| == |c.names| && (F.Own(e) || e.Cancel?)
    requires forall i :: 0 <= i < |s.pairs| ==> s.pairs[i].found.None?
    ensures forall i :: 0 <= i < |c.names| ==> F.Step(c, s, e).pairs[i].found.None?
  {
  }

  /** A run that no parser answered and whose context ended. */
  lemma AllTimedOut(c: F.Config, es: seq<F.Event>)
    requires F.Run(c, es).returned
    requires forall i :: 0 <= i < |c.names| ==> F.Run(c, es).pairs[i].found.None?
    ensures var rs := Listed(F.Run(c, es).collected); AllFailed(rs) && |rs| == |c.names|
  {
    F.OneEntryPerParser(c, es);
    var t := F.Run(c, es);
    var rs := Listed(t.collected);
    forall r | r in rs ensures r.error.Some? && r.vacancies == [] {
      var i :| 0 <= i < |rs| && rs[i] == r;
      assert t.collected[i] in t.collected;
    }
  }

  lemma SomeRunTimesOut(c: F.Config) returns (es: seq<F.Event>)
    requires |c.names| <= c.capacity
    ensures F.Run(c, es).returned
    ensures forall i :: 0 <= i < |c.names| ==> F.Run(c, es).pairs[i].found.None?
  {
    var cancel: seq<F.Event> := [] + [F.Cancel];
    assert cancel[..0] == [];
    var s := F.Run(c, cancel);
    F.InvHolds(c, cancel);
    var rest := F.ReturnsOnceCancelled(c, s);
    es := cancel + rest;
    F.RunAppend(c, F.Start(c), cancel, rest);
    NothingFound(c, s, rest);
  }

  /** Whatever parsers are asked, some run of the fan-out returns with every entry failed. */
  lemma AllMayFail(names: seq<string>) returns (results: seq<SearchResult>)
    ensures FannedOut(names, results) && AllFailed(results) && |results| == |names|
  {
    var c := F.Config(names, |names|, "");
    var es := SomeRunTimesOut(c);
    AllTimedOut(c, es);
    results := Listed(F.Run(c, es).collected);
  }

  /** A search all of whose parsers failed returns their entries without an error and caches
      nothing. */
  lemma FailedSearchSucceeds(cfg: S.Config, c: S.Caches, hash: string, results: seq<SearchResult>,
                             asked: int, at: int, clock: nat -> int)
    requires AllFailed(results) && S.SearchHit(c, hash, asked).None?
    ensures S.Execute(cfg, c, hash, S.Fetched(results), asked, at, clock) == (c, results, None)
  {
    var good := S.SuccessfulOnes(results);
    assert good != [] ==> good[0] in good;
    S.SuccessfulOnesKept(results);
  }

  /** Any number of searches in which every one of these parsers failed are so many successes
      for the global breaker. */
  lemma FailuresCountAsSuccesses(c: Config, names: seq<string>, k: nat)
    returns (results: seq<SearchResult>, es: seq<Event<Payload>>)
    requires c.breaker.Usable() && c.capacity > 0 && c.slots > 0 && c.workers > 0 && names != []
    ensures FannedOut(names, results) && AllFailed(results) && |results| == |names|
    ensures TroubledRun(Trouble(false, false), es)
    ensures forall e <- es :: e.Work? && e.a.Return? ==> e.a.out == Output(SearchData(results), None)
    ensures var b := Run(c, es).breaker; b.totalSuccesses == k && NeverFailed(b)
  {
    results := AllMayFail(names);
    var out := Output(SearchData(results), None);
    es := JobSeries(k, out);
    JobsReach(c, k, out);
    ReturnsOf(k, out);
    MayBringFailed(names, results);
  }

  lemma MayBringFailed(names: seq<string>, results: seq<SearchResult>)
    requires names != [] && FannedOut(names, results) && AllFailed(results)
    ensures MayBring(Trouble(false, false), Output(SearchData(results), None))
  {
    var t := Trouble(false, false);
    var cfg, c, clock := S.Config(0, 0), S.Caches(map[], map[], map[]), (k: nat) => 0;
    var none: Option<seq<SearchResult>> := None;
    var fetch := S.Fetched(results);
    FailedSearchSucceeds(cfg, c, "", results, 0, 0, clock);
    assert MayFetch(t, fetch);
    assert S.Execute(cfg, c, "", fetch, 0, 0, clock).1 == results;
    assert MayReturn(t, results, None);
    assert AsPayload(HandleSearchResult(results, None, none)) == Output(SearchData(results), None);
  }
}
