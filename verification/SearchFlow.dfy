/** A search from the worker's verdict to the caller's result: the handling of errors, the
    fallback to cached data, and what of it survives the delivery. */
module SearchFlow {
  import opened Counting
  import opened Models
  import opened Jobs
  import B = Breaker
  import P = Pipeline
  import S = SearchService

  /** The payload of a job's result: what the caller asserts its type on. */
  datatype Payload = SearchData(results: seq<SearchResult>) | DetailsData(details: Option<Details>)

  const CIRCUIT_OPEN := "circuit breaker is open"
  const TOO_MANY_REQUESTS := "too many requests in half-open state"

  predicate Contains(s: string, part: string) {
    |part| <= |s| && (s[..|part|] == part || (s != "" && Contains(s[1..], part)))
  }

  predicate IsCircuitBreakerError(e: Error) {
    e == CIRCUIT_OPEN || e == TOO_MANY_REQUESTS || Contains(e, "circuit breaker")
  }

  /** `cached` is what the search cache holds when the fallback asks it. */
  function TryFallback(cached: Option<seq<SearchResult>>, e: Error): Output<seq<SearchResult>> {
    match cached
    case Some(rs) => Output(rs, Some("data from cache: " + e))
    case None => Output([], Some("nothing in cache: " + e))
  }

  function HandleSearchResult(results: seq<SearchResult>, err: Option<Error>, cached: Option<seq<SearchResult>>)
    : Output<seq<SearchResult>>
  {
    match err
    case None => Output(results, None)
    case Some(e) =>
      if |results| > 0 then
        if IsCircuitBreakerError(e) then Output(results, Some("partial results: " + e))
        else Output(results, err)
      else TryFallback(cached, e)
  }

  /** How a search job went in its worker. */
  datatype Course =
    | SlotTimedOut
    | Rejected(e: Error)
    | Ran(results: seq<SearchResult>, err: Option<Error>)

  /** What the worker hands to Complete. */
  function ProcessSearch(course: Course, cached: Option<seq<SearchResult>>): Output<seq<SearchResult>> {
    match course
    case SlotTimedOut => Output([], Some("no free slot in time"))
    case Rejected(e) => HandleSearchResult([], Some(e), cached)
    case Ran(results, err) => HandleSearchResult(results, err, cached)
  }

  function AsPayload(out: Output<seq<SearchResult>>): Output<Payload> {
    Output(SearchData(out.data), out.err)
  }

  function AsSearchData(p: Payload): Option<seq<SearchResult>> {
    if p.SearchData? then Some(p.results) else None
  }

  /** What searchVacancies returns once its select ended. */
  function CallerResult(w: Wakeup<Payload>): Output<seq<SearchResult>> {
    WaitJobResult(AsSearchData, [], w)
  }

  /** The handler turns no failure into a success and no success into a failure: the job
      succeeds exactly if the protected function ran and returned no error. So the worker
      steps of the pipeline, whose slot timeouts and rejections always carry an error, are
      the only ones there are. */
  lemma VerdictKept(course: Course, cached: Option<seq<SearchResult>>)
    ensures var out := ProcessSearch(course, cached);
            && (out.err.None? <==> course.Ran? && course.err.None?)
            && (out.err.None? ==> out.data == course.results)
  {
  }

  /** The executed search never returns results together with an error, so the handler's
      partial-success branch is never taken: a failed search always goes to the fallback. */
  lemma NoPartialSuccess(cfg: S.Config, c: S.Caches, hash: string, fetch: S.Fetch,
                         asked: int, at: int, clock: nat -> int, cached: Option<seq<SearchResult>>)
    ensures var (_, results, err) := S.Execute(cfg, c, hash, fetch, asked, at, clock);
            && (err.Some? ==>
                  results == [] && HandleSearchResult(results, err, cached) == TryFallback(cached, err.value))
            && (err.Some? <==> S.SearchHit(c, hash, asked).None? && !fetch.Fetched?)
  {
  }

  /** However the caller's select ends, an error comes with an empty list. */
  lemma ErrorMeansEmpty(w: Wakeup<Payload>)
    ensures CallerResult(w).err.Some? ==> CallerResult(w).data == []
  {
  }

  /** A caller has no error exactly if its wait ended with a message that has none and carries
      search results, and then it has just these. A message's error and the reason of a
      cancellation reach it unchanged; every other end of the wait is an error of its own. */
  lemma NoErrorIff(w: Wakeup<Payload>)
    ensures CallerResult(w).err == None <==> w.Message? && w.m.error == None && w.m.data.SearchData?
    ensures CallerResult(w).err == None ==> CallerResult(w).data == w.m.data.results
    ensures w.Message? && w.m.error.Some? ==> CallerResult(w).err == w.m.error
    ensures w.Cancelled? ==> CallerResult(w).err == Some(w.reason)
    ensures CallerResult(w).err != None ==> CallerResult(w).data == []
  {
  }

  /** What may have ended the wait of a caller: the message it received, or something else. */
  ghost predicate EndsWait(waiter: P.Waiter<Payload>, w: Wakeup<Payload>) {
    match waiter
    case Waiting => false
    case Received(m) => w == Message(m)
    case Gone => !w.Message?
  }

  /** Over every run of the pipeline and however a caller's wait ended: if it left without
      receiving it has an error and nothing else; it has no error exactly if it received the
      message of a job that computed search results without an error, and then it has them. */
  lemma CallerHasNoErrorIff(c: P.Config, es: seq<P.Event<Payload>>, j: nat, w: Wakeup<Payload>)
    requires j in P.Run(c, es).mail && EndsWait(P.Run(c, es).mail[j].waiter, w)
    ensures var mail := P.Run(c, es).mail[j]; var r := CallerResult(w);
            && (mail.waiter.Gone? ==> r.err != None && r.data == [])
            && (r.err == None <==>
                  mail.waiter.Received? && mail.output.Some? && mail.output.value.err == None
                  && mail.output.value.data.SearchData?)
            && (r.err == None ==> r.data == mail.output.value.data.results)
  {
    NoErrorIff(w);
    if P.Run(c, es).mail[j].waiter.Received? { P.ReceivedIsOwnOutput(c, es, j); }
  }

  // ---------------------------------------------------------------- which errors count as the breaker's

  lemma {:induction false} ContainsFound(s: string, part: string) returns (a: string, b: string)
    requires Contains(s, part)
    ensures s == a + part + b
  {
    if s[..|part|] == part {
      a, b := "", s[|part|..];
    } else {
      a, b := ContainsFound(s[1..], part);
      a := [s[0]] + a;
    }
  }

  lemma {:induction false} ContainsMiddle(a: string, part: string, b: string)
    ensures Contains(a + part + b, part)
  {
    var s := a + part + b;
    if a == "" {
      assert s[..|part|] == part;
    } else {
      assert s[1..] == a[1..] + part + b;
      ContainsMiddle(a[1..], part, b);
    }
  }

  /** Results that come with an error are kept with it; the error is marked as partial exactly
      if it is one of the breaker's two or mentions it anywhere. */
  lemma PartialResultsKept(results: seq<SearchResult>, e: Error, cached: Option<seq<SearchResult>>)
    requires results != []
    ensures var out := HandleSearchResult(results, Some(e), cached);
            var breaker := e == "circuit breaker is open" || e == "too many requests in half-open state"
                           || exists a, b :: e == a + "circuit breaker" + b;
            out.data == results && out.err == Some(if breaker then "partial results: " + e else e)
  {
    if Contains(e, "circuit breaker") { var a, b := ContainsFound(e, "circuit breaker"); }
    if a, b :| e == a + "circuit breaker" + b { ContainsMiddle(a, "circuit breaker", b); }
  }

  // ---------------------------------------------------------------- over runs of the pipeline

  /** Results and error of some execution of the search. */
  ghost predicate Executed(results: seq<SearchResult>, err: Option<Error>) {
    exists cfg, c, hash, fetch, asked, at, clock ::
      S.Execute(cfg, c, hash, fetch, asked, at, clock).1 == results
      && S.Execute(cfg, c, hash, fetch, asked, at, clock).2 == err
  }

  function ErrorOf(v: B.Verdict): Error {
    if v == B.CircuitOpen then CIRCUIT_OPEN else TOO_MANY_REQUESTS
  }

  /** The event computes the output of search job j, in this course and with this answer of
      the cache to the fallback. */
  ghost predicate Concludes(c: P.Config, s: P.Sys<Payload>, e: P.Event<Payload>, j: nat,
                            course: Course, cached: Option<seq<SearchResult>>)
  {
    && P.Computes(c, s, e, j, AsPayload(ProcessSearch(course, cached)))
    && match e.a
       case SlotTimeout(_) => course == SlotTimedOut
       case EnterBreaker(_) => course == Rejected(ErrorOf(B.Admit(c.breaker, s.breaker, s.now).1))
       case _ => course.Ran? && Executed(course.results, course.err)
  }

  /** Workers hand over what the search and the handler of its errors computed. */
  ghost predicate SearchRun(c: P.Config, es: seq<P.Event<Payload>>, isSearch: nat -> bool) {
    forall k: nat, j, out | k < |es| && isSearch(j) && P.Computes(c, P.Run(c, es[..k]), es[k], j, out) ::
      exists course, cached :: Concludes(c, P.Run(c, es[..k]), es[k], j, course, cached)
  }

  ghost predicate HasReceived(c: P.Config, es: seq<P.Event<Payload>>, j: nat) {
    j in P.Run(c, es).mail && P.Run(c, es).mail[j].waiter.Received?
  }

  /** The result of a caller that has received the message of its job. */
  ghost function ResultAt(c: P.Config, es: seq<P.Event<Payload>>, j: nat): Output<seq<SearchResult>>
    requires HasReceived(c, es, j)
  {
    CallerResult(Message(P.Run(c, es).mail[j].waiter.m))
  }

  lemma ReceivedOf(c: P.Config, es: seq<P.Event<Payload>>, k: nat, j: nat,
                   course: Course, cached: Option<seq<SearchResult>>)
    requires k < |es| && Concludes(c, P.Run(c, es[..k]), es[k], j, course, cached) && HasReceived(c, es, j)
    ensures var out := ProcessSearch(course, cached);
            && P.Run(c, es).mail[j].waiter.m.data == SearchData(out.data)
            && ResultAt(c, es, j) == if out.err.None? then out else Output([], out.err)
  {
    P.ComputedStays(c, es, k, j, AsPayload(ProcessSearch(course, cached)));
    P.ReceivedIsOwnOutput(c, es, j);
  }

  /** End to end over every run of the pipeline: a caller that received its search job's
      message owes it to one event of the run, in which its worker timed out, was rejected by
      the breaker or executed the search. It gets exactly the list that the search computed if
      the search ran without error, and otherwise an error with an empty list, even when the
      fallback had found cached data. */
  lemma CallerGetsWorkersList(c: P.Config, es: seq<P.Event<Payload>>, isSearch: nat -> bool, j: nat)
    returns (k: nat, course: Course, cached: Option<seq<SearchResult>>)
    requires SearchRun(c, es, isSearch) && isSearch(j) && HasReceived(c, es, j)
    ensures k < |es| && Concludes(c, P.Run(c, es[..k]), es[k], j, course, cached)
    ensures var r := ResultAt(c, es, j);
            match course
            case SlotTimedOut => r == Output([], Some("no free slot in time"))
            case Rejected(e) =>
              && (e == "circuit breaker is open" || e == "too many requests in half-open state")
              && r == Output([], Some((if cached.Some? then "data from cache: " else "nothing in cache: ") + e))
            case Ran(results, None) => r == Output(results, None)
            case Ran(_, Some(e)) =>
              r == Output([], Some((if cached.Some? then "data from cache: " else "nothing in cache: ") + e))
  {
    P.ReceivedIsOwnOutput(c, es, j);
    k := P.OutputComesFrom(c, es, j);
    course, cached :| Concludes(c, P.Run(c, es[..k]), es[k], j, course, cached);
    ReceivedOf(c, es, k, j, course, cached);
    if course.Ran? { ExecutedWithout(course.results, course.err); }
  }

  lemma ExecutedWithout(results: seq<SearchResult>, err: Option<Error>)
    requires Executed(results, err)
    ensures err.Some? ==> results == []
  {
  }

  /** Why the protected function failed or was not called; a slot timeout never gets that far. */
  function Failure(course: Course): Option<Error> {
    match course
    case SlotTimedOut => None
    case Rejected(e) => Some(e)
    case Ran(_, err) => err
  }

  /** Cached data that the fallback finds, after a rejection or a failed search, is computed,
      sent and thrown away. */
  lemma FallbackDataIsLost(c: P.Config, es: seq<P.Event<Payload>>, k: nat, j: nat,
                           course: Course, rs: seq<SearchResult>)
    requires k < |es| && Concludes(c, P.Run(c, es[..k]), es[k], j, course, Some(rs))
    requires HasReceived(c, es, j) && Failure(course).Some?
    ensures P.Run(c, es).mail[j].waiter.m.data == SearchData(rs)
    ensures ResultAt(c, es, j) == Output([], Some("data from cache: " + Failure(course).value))
  {
    ReceivedOf(c, es, k, j, course, Some(rs));
    if course.Ran? { ExecutedWithout(course.results, course.err); }
  }
}
