/** Whole runs over the caches. Searches, details requests and lookups overlap in any number:
    one event is one access to a cache under its shard lock, and expiry sweeps and the
    emptying of the index go shard by shard. An event that is not enabled changes nothing. */
module CacheRuns {
  import opened Counting
  import opened Models
  import opened ShardedCache
  import opened ReverseIndex
  import opened SearchService

  datatype Setup = Setup(ttl: Config, shardOf: string -> nat, shards: nat)

  /** What is under way: a search that missed the cache and waits for its parsers; one that
      cached its results at `at` and has made `written` of its index writes; a details request
      that missed; a lookup that got this entry from the index at `at`; the emptying of the
      index, up to a shard. */
  datatype Task =
    | Searching(hash: string)
    | Indexing(hash: string, rs: seq<SearchResult>, at: int, written: nat)
    | GettingDetails(id: string)
    | LookingUp(source: string, id: string, entry: VacancyIndex, at: int)
    | Emptying(shard: nat)
    | Finished

  datatype Sys = Sys(now: int, c: Caches, tasks: seq<Task>)

  /** A sweep of one shard uses the time at which the whole sweep began. */
  datatype Event =
    | Elapse(d: nat)
    | Begin(hash: string)
    | Deliver(i: nat, fetch: Fetch)
    | Index(i: nat)
    | BeginDetails(id: string)
    | DeliverDetails(i: nat, answer: DetailsFetch)
    | Ask(source: string, id: string)
    | Resolve(i: nat)
    | Empty(i: nat)
    | SweepSearch(shard: nat, at: int)
    | SweepIndex(shard: nat, at: int)

  const START := Sys(0, Caches(map[], map[], map[]), [])

  function Start(s: Sys, task: Task): Sys { s.(tasks := s.tasks + [task]) }

  function Become(s: Sys, i: nat, task: Task): Sys
    requires i < |s.tasks|
  {
    s.(tasks := s.tasks[i := task])
  }

  /** What of the parsers' answer is worth caching. */
  function Good(fetch: Fetch): seq<SearchResult> {
    if fetch.Fetched? then SuccessfulOnes(fetch.results) else []
  }

  function DeliverStep(u: Setup, s: Sys, i: nat, hash: string, fetch: Fetch): Sys
    requires i < |s.tasks|
  {
    var good := Good(fetch);
    if good == [] then Become(s, i, Finished)
    else
      Become(s, i, Indexing(hash, good, s.now, 0)).(
        c := s.c.(search := s.c.search[hash := Item(Results(good), s.now + u.ttl.searchTTL)]))
  }

  function IndexStep(u: Setup, s: Sys, i: nat): Sys
    requires i < |s.tasks| && s.tasks[i].Indexing?
  {
    var Indexing(hash, rs, at, k) := s.tasks[i];
    var ws := Writes(hash, rs);
    if k >= |ws| then s
    else
      Become(s, i, if k + 1 == |ws| then Finished else Indexing(hash, rs, at, k + 1)).(
        c := s.c.(index := s.c.index[ws[k].0 := Item(ws[k].1, s.now + u.ttl.indexTTL)]))
  }

  function AskStep(s: Sys, source: string, id: string): Sys {
    var entry: Option<VacancyIndex> := Lookup(s.c.index, CompositeKey(source, id), s.now);
    if entry.Some? then Start(s, LookingUp(source, id, entry.value, s.now)) else s
  }

  /** A lookup that finds its search results gone goes on to empty the index. */
  function ResolveStep(s: Sys, i: nat): Sys
    requires i < |s.tasks| && s.tasks[i].LookingUp?
  {
    Become(s, i, if Lookup(s.c.search, s.tasks[i].entry.searchHash, s.now).None? then Emptying(0) else Finished)
  }

  function EmptyStep(u: Setup, s: Sys, i: nat): Sys
    requires i < |s.tasks| && s.tasks[i].Emptying?
  {
    var shard := s.tasks[i].shard;
    if shard >= u.shards then Become(s, i, Finished)
    else
      Become(s, i, Emptying(shard + 1)).(
        c := s.c.(index := map k | k in s.c.index && u.shardOf(k) != shard :: s.c.index[k]))
  }

  /** What a sweep of one shard leaves of a table. */
  function SweptShard<V>(u: Setup, t: Table<V>, shard: nat, at: int): Table<V> {
    map k | k in t && (u.shardOf(k) != shard || at <= t[k].expTime) :: t[k]
  }

  function Step(u: Setup, s: Sys, e: Event): Sys {
    match e
    case Elapse(d) => s.(now := s.now + d)
    case Begin(hash) => if SearchHit(s.c, hash, s.now).Some? then s else Start(s, Searching(hash))
    case Deliver(i, fetch) =>
      if i < |s.tasks| && s.tasks[i].Searching? then DeliverStep(u, s, i, s.tasks[i].hash, fetch) else s
    case Index(i) => if i < |s.tasks| && s.tasks[i].Indexing? then IndexStep(u, s, i) else s
    case BeginDetails(id) =>
      var cached: Option<Details> := Lookup(s.c.details, id, s.now);
      if cached.Some? then s else Start(s, GettingDetails(id))
    case DeliverDetails(i, answer) =>
      if i < |s.tasks| && s.tasks[i].GettingDetails? then
        Become(s, i, Finished).(
          c := if answer.DetailsFailed? then s.c else CacheDetails(u.ttl, s.c, s.tasks[i].id, answer.details, s.now))
      else s
    case Ask(source, id) => AskStep(s, source, id)
    case Resolve(i) => if i < |s.tasks| && s.tasks[i].LookingUp? then ResolveStep(s, i) else s
    case Empty(i) => if i < |s.tasks| && s.tasks[i].Emptying? then EmptyStep(u, s, i) else s
    case SweepSearch(shard, at) =>
      if at <= s.now then s.(c := s.c.(search := SweptShard(u, s.c.search, shard, at))) else s
    case SweepIndex(shard, at) =>
      if at <= s.now then s.(c := s.c.(index := SweptShard(u, s.c.index, shard, at))) else s
  }

  function RunFrom(u: Setup, s: Sys, es: seq<Event>): Sys {
    if es == [] then s else Step(u, RunFrom(u, s, es[..|es| - 1]), es[|es| - 1])
  }

  function Run(u: Setup, es: seq<Event>): Sys { RunFrom(u, START, es) }

  lemma Then(u: Setup, s: Sys, es: seq<Event>, e: Event)
    ensures RunFrom(u, s, es + [e]) == Step(u, RunFrom(u, s, es), e)
  {
    assert (es + [e])[..|es|] == es;
  }

  lemma ThenTwo(u: Setup, s: Sys, es: seq<Event>, e: Event, f: Event)
    ensures RunFrom(u, s, es + [e] + [f]) == Step(u, Step(u, RunFrom(u, s, es), e), f)
  {
    Then(u, s, es, e);
    Then(u, s, es + [e], f);
  }

  // ---------------------------------------------------------------- what the environment may do

  /** The hash of a search in flight. */
  function HashOf(task: Task): Option<string> {
    match task
    case Searching(hash) => Some(hash)
    case Indexing(hash, _, _, _) => Some(hash)
    case _ => None
  }

  ghost predicate InFlight(s: Sys, hash: string) {
    exists i :: 0 <= i < |s.tasks| && HashOf(s.tasks[i]) == Some(hash)
  }

  /** Whether two searches of one hash may be in flight together, whether a vacancy ID may be
      a search hash, and how long after its caching a search may write the index. */
  datatype Regime = Regime(overlap: bool, mixed: bool, span: nat)

  ghost predicate Allowed(isHash: string -> bool, r: Regime, s: Sys, e: Event) {
    match e
    case Begin(hash) => isHash(hash) && (r.overlap || SearchHit(s.c, hash, s.now).Some? || !InFlight(s, hash))
    case BeginDetails(id) => r.mixed || !isHash(id)
    case Index(i) => i < |s.tasks| && s.tasks[i].Indexing? ==> s.now <= s.tasks[i].at + r.span
    case _ => true
  }

  ghost predicate AllAllowed(u: Setup, isHash: string -> bool, r: Regime, es: seq<Event>) {
    es == []
    || (AllAllowed(u, isHash, r, es[..|es| - 1]) && Allowed(isHash, r, Run(u, es[..|es| - 1]), es[|es| - 1]))
  }

  lemma ThenAllowed(u: Setup, isHash: string -> bool, r: Regime, es: seq<Event>, e: Event)
    requires AllAllowed(u, isHash, r, es) && Allowed(isHash, r, Run(u, es), e)
    ensures AllAllowed(u, isHash, r, es + [e]) && Run(u, es + [e]) == Step(u, Run(u, es), e)
  {
    assert (es + [e])[..|es|] == es;
  }

  // ---------------------------------------------------------------- coherence

  /** The entry's position holds a vacancy with this composite key. */
  ghost predicate Points(rs: seq<SearchResult>, key: string, e: VacancyIndex) {
    exists r: nat ::
      && r < |rs| && rs[r].parserName == e.parserName && e.index < |rs[r].vacancies|
      && CompositeKey(rs[r].vacancies[e.index].seeker, rs[r].vacancies[e.index].id) == key
  }

  /** Every index entry that is still served points into search results that are still
      served and still hold its vacancy. */
  ghost predicate Coherent(s: Sys) {
    forall key | key in s.c.index && s.now <= s.c.index[key].expTime ::
      var e := s.c.index[key].value;
      && SearchHit(s.c, e.searchHash, s.now).Some?
      && Points(SearchHit(s.c, e.searchHash, s.now).value, key, e)
  }

  // ---------------------------------------------------------------- the invariant

  /** An index entry, or the copy that a lookup took of one: until then its search results
      must stay. */
  datatype Pin = Pin(key: string, entry: VacancyIndex, until: int)

  function LookupPin(slack: int, task: Task): Pin
    requires task.LookingUp?
  {
    Pin(CompositeKey(task.source, task.id), task.entry, task.at + slack)
  }

  function IndexPin(slack: int, key: string, item: Item<VacancyIndex>): Pin {
    Pin(key, item.value, item.expTime + slack)
  }

  ghost predicate Backed(c: Caches, p: Pin) {
    && p.entry.searchHash in c.search
    && c.search[p.entry.searchHash].value.Results?
    && Points(c.search[p.entry.searchHash].value.results, p.key, p.entry)
    && p.until <= c.search[p.entry.searchHash].expTime
  }

  ghost predicate PinOk(isHash: string -> bool, s: Sys, p: Pin) {
    && isHash(p.entry.searchHash)
    && (p.until < s.now || (Backed(s.c, p) && Searching(p.entry.searchHash) !in s.tasks))
  }

  ghost predicate PinsOk(isHash: string -> bool, slack: int, s: Sys) {
    && (forall key | key in s.c.index :: PinOk(isHash, s, IndexPin(slack, key, s.c.index[key])))
    && (forall i | 0 <= i < |s.tasks| && s.tasks[i].LookingUp? :: PinOk(isHash, s, LookupPin(slack, s.tasks[i])))
  }

  /** What a search cached is still there while it writes the index, unless it expired. */
  ghost predicate TaskOk(u: Setup, isHash: string -> bool, s: Sys, task: Task) {
    && (HashOf(task).Some? ==> isHash(HashOf(task).value))
    && (task.GettingDetails? ==> !isHash(task.id))
    && (task.Indexing? ==>
          || task.at + u.ttl.searchTTL < s.now
          || (task.hash in s.c.search
              && s.c.search[task.hash] == Item(Results(task.rs), task.at + u.ttl.searchTTL)))
  }

  ghost predicate TasksOk(u: Setup, isHash: string -> bool, s: Sys) {
    && (forall i | 0 <= i < |s.tasks| :: TaskOk(u, isHash, s, s.tasks[i]))
    && (forall i, j | 0 <= i < j < |s.tasks| && HashOf(s.tasks[i]).Some? ::
          HashOf(s.tasks[i]) != HashOf(s.tasks[j]))
  }

  function Slack(u: Setup, span: nat): int { u.ttl.searchTTL - u.ttl.indexTTL - span }

  ghost predicate Inv(u: Setup, isHash: string -> bool, slack: int, s: Sys) {
    PinsOk(isHash, slack, s) && TasksOk(u, isHash, s)
  }

  /** Time passes, unexpired search results stay, searches and index entries only go: what
      was backed stays backed. */
  lemma PinStays(isHash: string -> bool, s: Sys, t: Sys, p: Pin)
    requires PinOk(isHash, s, p) && s.now <= t.now
    requires var h := p.entry.searchHash;
             h in s.c.search ==> s.c.search[h].expTime < t.now || (h in t.c.search && t.c.search[h] == s.c.search[h])
    requires Searching(p.entry.searchHash) in t.tasks ==> Searching(p.entry.searchHash) in s.tasks
    ensures PinOk(isHash, t, p)
  {
  }

  /** Steps that write neither search results under a hash nor new index entries. */
  ghost predicate Quiet(isHash: string -> bool, s: Sys, t: Sys) {
    && s.now <= t.now
    && (forall h | h in s.c.search && isHash(h) ::
          s.c.search[h].expTime < t.now || (h in t.c.search && t.c.search[h] == s.c.search[h]))
    && (forall key | key in t.c.index :: key in s.c.index && t.c.index[key] == s.c.index[key])
    && (|s.tasks| <= |t.tasks| <= |s.tasks| + 1)
    && (forall i | 0 <= i < |s.tasks| ::
          t.tasks[i] == s.tasks[i] || t.tasks[i].Finished? || t.tasks[i].Emptying?)
  }

  lemma QuietKeepsTasks(u: Setup, isHash: string -> bool, s: Sys, t: Sys)
    requires TasksOk(u, isHash, s) && Quiet(isHash, s, t)
    requires |t.tasks| > |s.tasks| ==>
               var task := t.tasks[|s.tasks|];
               TaskOk(u, isHash, t, task) && (HashOf(task).Some? ==> !InFlight(s, HashOf(task).value))
    ensures TasksOk(u, isHash, t)
  {
    forall i | 0 <= i < |s.tasks| ensures TaskOk(u, isHash, t, t.tasks[i]) {
      assert TaskOk(u, isHash, s, s.tasks[i]);
    }
  }

  lemma QuietKeepsPins(isHash: string -> bool, slack: int, s: Sys, t: Sys)
    requires PinsOk(isHash, slack, s) && Quiet(isHash, s, t)
    requires |t.tasks| > |s.tasks| ==>
               var task := t.tasks[|s.tasks|];
               && (task.LookingUp? ==> PinOk(isHash, t, LookupPin(slack, task)))
               && !task.Searching?
    ensures PinsOk(isHash, slack, t)
  {
    forall h | Searching(h) in t.tasks ensures Searching(h) in s.tasks {
      var i :| 0 <= i < |t.tasks| && t.tasks[i] == Searching(h);
      assert i < |s.tasks| && s.tasks[i] == Searching(h);
    }
    forall key | key in t.c.index ensures PinOk(isHash, t, IndexPin(slack, key, t.c.index[key])) {
      PinStays(isHash, s, t, IndexPin(slack, key, s.c.index[key]));
    }
    forall i | 0 <= i < |t.tasks| && t.tasks[i].LookingUp? ensures PinOk(isHash, t, LookupPin(slack, t.tasks[i])) {
      if i < |s.tasks| { PinStays(isHash, s, t, LookupPin(slack, s.tasks[i])); }
    }
  }

  /** A search begins only after everything that points into its hash has expired. */
  lemma BeginKeepsPin(isHash: string -> bool, s: Sys, hash: string, p: Pin)
    requires PinOk(isHash, s, p) && SearchHit(s.c, hash, s.now).None?
    ensures PinOk(isHash, Start(s, Searching(hash)), p)
  {
    if p.entry.searchHash != hash && Searching(p.entry.searchHash) in Start(s, Searching(hash)).tasks {
      assert Searching(p.entry.searchHash) in s.tasks;
    }
  }

  lemma BeginKeepsInv(u: Setup, isHash: string -> bool, slack: int, s: Sys, hash: string)
    requires Inv(u, isHash, slack, s) && isHash(hash)
    requires SearchHit(s.c, hash, s.now).None? && !InFlight(s, hash)
    ensures Inv(u, isHash, slack, Start(s, Searching(hash)))
  {
    var t := Start(s, Searching(hash));
    QuietKeepsTasks(u, isHash, s, t);
    forall key | key in t.c.index ensures PinOk(isHash, t, IndexPin(slack, key, t.c.index[key])) {
      BeginKeepsPin(isHash, s, hash, IndexPin(slack, key, s.c.index[key]));
    }
    forall i | 0 <= i < |t.tasks| && t.tasks[i].LookingUp? ensures PinOk(isHash, t, LookupPin(slack, t.tasks[i])) {
      BeginKeepsPin(isHash, s, hash, LookupPin(slack, s.tasks[i]));
    }
  }

  /** Nothing alive points into the hash of a search that waits for its parsers. */
  lemma DeliverKeepsPin(u: Setup, isHash: string -> bool, s: Sys, i: nat, hash: string, fetch: Fetch, p: Pin)
    requires i < |s.tasks| && s.tasks[i] == Searching(hash) && PinOk(isHash, s, p)
    ensures PinOk(isHash, DeliverStep(u, s, i, hash, fetch), p)
  {
    assert s.tasks[i] in s.tasks;
    var t := DeliverStep(u, s, i, hash, fetch);
    if Searching(p.entry.searchHash) in t.tasks {
      var k :| 0 <= k < |t.tasks| && t.tasks[k] == Searching(p.entry.searchHash);
      assert s.tasks[k] == Searching(p.entry.searchHash);
    }
  }

  lemma DeliverKeepsInv(u: Setup, isHash: string -> bool, slack: int, s: Sys, i: nat, hash: string, fetch: Fetch)
    requires Inv(u, isHash, slack, s) && i < |s.tasks| && s.tasks[i] == Searching(hash)
    ensures Inv(u, isHash, slack, DeliverStep(u, s, i, hash, fetch))
  {
    var t := DeliverStep(u, s, i, hash, fetch);
    forall j | 0 <= j < |t.tasks| ensures TaskOk(u, isHash, t, t.tasks[j]) {
      assert TaskOk(u, isHash, s, s.tasks[j]);
    }
    forall key | key in t.c.index ensures PinOk(isHash, t, IndexPin(slack, key, t.c.index[key])) {
      DeliverKeepsPin(u, isHash, s, i, hash, fetch, IndexPin(slack, key, s.c.index[key]));
    }
    forall j | 0 <= j < |t.tasks| && t.tasks[j].LookingUp? ensures PinOk(isHash, t, LookupPin(slack, t.tasks[j])) {
      DeliverKeepsPin(u, isHash, s, i, hash, fetch, LookupPin(slack, s.tasks[j]));
    }
  }

  /** Every write points to the vacancy that made it. */
  lemma WritePoints(hash: string, rs: seq<SearchResult>, k: nat)
    requires k < |Writes(hash, rs)|
    ensures Writes(hash, rs)[k].1.searchHash == hash
    ensures Points(rs, Writes(hash, rs)[k].0, Writes(hash, rs)[k].1)
  {
    var r, i := WriteFrom(hash, rs, k);
    WriteAt(hash, rs, r, i);
  }

  /** An entry written in time is backed by the results that its search cached. */
  lemma NewEntryBacked(u: Setup, isHash: string -> bool, span: nat, s: Sys, i: nat)
    requires TasksOk(u, isHash, s) && i < |s.tasks| && s.tasks[i].Indexing?
    requires 0 <= u.ttl.indexTTL && 0 <= Slack(u, span) && s.now <= s.tasks[i].at + span
    requires s.tasks[i].written < |Writes(s.tasks[i].hash, s.tasks[i].rs)|
    ensures var w := Writes(s.tasks[i].hash, s.tasks[i].rs)[s.tasks[i].written];
            PinOk(isHash, s, IndexPin(Slack(u, span), w.0, Item(w.1, s.now + u.ttl.indexTTL)))
  {
    var Indexing(hash, rs, at, k) := s.tasks[i];
    WritePoints(hash, rs, k);
    assert TaskOk(u, isHash, s, s.tasks[i]);
    forall j | 0 <= j < |s.tasks| ensures s.tasks[j] != Searching(hash) {
      if j != i { assert HashOf(s.tasks[j]) != HashOf(s.tasks[i]); }
    }
  }

  lemma IndexKeepsPin(u: Setup, isHash: string -> bool, s: Sys, i: nat, p: Pin)
    requires i < |s.tasks| && s.tasks[i].Indexing? && PinOk(isHash, s, p)
    ensures PinOk(isHash, IndexStep(u, s, i), p)
  {
    var t := IndexStep(u, s, i);
    if Searching(p.entry.searchHash) in t.tasks {
      var k :| 0 <= k < |t.tasks| && t.tasks[k] == Searching(p.entry.searchHash);
      assert s.tasks[k] == Searching(p.entry.searchHash);
    }
  }

  lemma IndexKeepsInv(u: Setup, isHash: string -> bool, span: nat, s: Sys, i: nat)
    requires Inv(u, isHash, Slack(u, span), s) && i < |s.tasks| && s.tasks[i].Indexing?
    requires 0 <= u.ttl.indexTTL && 0 <= Slack(u, span) && s.now <= s.tasks[i].at + span
    ensures Inv(u, isHash, Slack(u, span), IndexStep(u, s, i))
  {
    var slack := Slack(u, span);
    var t := IndexStep(u, s, i);
    var Indexing(hash, rs, at, k) := s.tasks[i];
    if k < |Writes(hash, rs)| {
      var w := Writes(hash, rs)[k];
      NewEntryBacked(u, isHash, span, s, i);
      forall j | 0 <= j < |t.tasks| ensures TaskOk(u, isHash, t, t.tasks[j]) {
        assert TaskOk(u, isHash, s, s.tasks[j]);
      }
      forall key | key in t.c.index ensures PinOk(isHash, t, IndexPin(slack, key, t.c.index[key])) {
        IndexKeepsPin(u, isHash, s, i,
                      IndexPin(slack, key, if key == w.0 then Item(w.1, s.now + u.ttl.indexTTL) else s.c.index[key]));
      }
      forall j | 0 <= j < |t.tasks| && t.tasks[j].LookingUp? ensures PinOk(isHash, t, LookupPin(slack, t.tasks[j])) {
        IndexKeepsPin(u, isHash, s, i, LookupPin(slack, s.tasks[j]));
      }
    }
  }

  /** Events that neither begin a search nor write what a search found. */
  predicate IsQuiet(isHash: string -> bool, e: Event) {
    !e.Begin? && !e.Deliver? && !e.Index? && (e.BeginDetails? ==> !isHash(e.id))
  }

  lemma StepIsQuiet(u: Setup, isHash: string -> bool, s: Sys, e: Event)
    requires TasksOk(u, isHash, s) && IsQuiet(isHash, e)
    ensures Quiet(isHash, s, Step(u, s, e))
  {
    if e.DeliverDetails? && e.i < |s.tasks| { assert TaskOk(u, isHash, s, s.tasks[e.i]); }
  }

  /** A lookup starts from an entry that is still alive, and so backed. */
  lemma AskStartsOk(isHash: string -> bool, slack: int, s: Sys, source: string, id: string)
    requires PinsOk(isHash, slack, s) && AskStep(s, source, id) != s
    ensures var t := AskStep(s, source, id);
            && |t.tasks| == |s.tasks| + 1 && t.tasks[|s.tasks|].LookingUp?
            && PinOk(isHash, t, LookupPin(slack, t.tasks[|s.tasks|]))
  {
    var t := AskStep(s, source, id);
    var key := CompositeKey(source, id);
    assert PinOk(isHash, s, IndexPin(slack, key, s.c.index[key]));
    if Searching(s.c.index[key].value.searchHash) in t.tasks {
      assert Searching(s.c.index[key].value.searchHash) in s.tasks;
    }
  }

  /** All other events. */
  lemma QuietStep(u: Setup, isHash: string -> bool, slack: int, s: Sys, e: Event)
    requires Inv(u, isHash, slack, s) && IsQuiet(isHash, e)
    ensures Inv(u, isHash, slack, Step(u, s, e))
  {
    var t := Step(u, s, e);
    StepIsQuiet(u, isHash, s, e);
    if e.Ask? && t != s { AskStartsOk(isHash, slack, s, e.source, e.id); }
    QuietKeepsTasks(u, isHash, s, t);
    QuietKeepsPins(isHash, slack, s, t);
  }

  lemma StepKeepsInv(u: Setup, isHash: string -> bool, span: nat, s: Sys, e: Event)
    requires Inv(u, isHash, Slack(u, span), s) && Allowed(isHash, Regime(false, false, span), s, e)
    requires 0 <= u.ttl.indexTTL && 0 <= Slack(u, span)
    ensures Inv(u, isHash, Slack(u, span), Step(u, s, e))
  {
    var slack := Slack(u, span);
    match e
    case Begin(hash) =>
      if SearchHit(s.c, hash, s.now).None? { BeginKeepsInv(u, isHash, slack, s, hash); }
    case Deliver(i, fetch) =>
      if i < |s.tasks| && s.tasks[i].Searching? {
        DeliverKeepsInv(u, isHash, slack, s, i, s.tasks[i].hash, fetch);
      }
    case Index(i) =>
      if i < |s.tasks| && s.tasks[i].Indexing? { IndexKeepsInv(u, isHash, span, s, i); }
    case _ => QuietStep(u, isHash, slack, s, e);
  }

  /** Over every interleaving without two searches of one hash in flight: whatever an index
      entry or a running lookup points into stays for its time. */
  lemma {:induction false} InvHolds(u: Setup, isHash: string -> bool, span: nat, es: seq<Event>)
    requires AllAllowed(u, isHash, Regime(false, false, span), es)
    requires 0 <= u.ttl.indexTTL && 0 <= Slack(u, span)
    ensures Inv(u, isHash, Slack(u, span), Run(u, es))
  {
    if es != [] {
      var p := es[..|es| - 1];
      InvHolds(u, isHash, span, p);
      StepKeepsInv(u, isHash, span, Run(u, p), es[|es| - 1]);
    }
  }

  lemma InvMeansCoherent(u: Setup, isHash: string -> bool, slack: nat, s: Sys)
    requires Inv(u, isHash, slack, s)
    ensures Coherent(s)
  {
    forall key | key in s.c.index && s.now <= s.c.index[key].expTime
      ensures var e := s.c.index[key].value;
              && SearchHit(s.c, e.searchHash, s.now).Some?
              && Points(SearchHit(s.c, e.searchHash, s.now).value, key, e)
    {
      assert PinOk(isHash, s, IndexPin(slack, key, s.c.index[key]));
    }
  }

  // ---------------------------------------------------------------- runs that break coherence

  function OneVacancy(hash: string, id: string): seq<SearchResult> {
    [SearchResult([NO_VACANCY.(id := id)], "", hash, None, 0)]
  }

  lemma OneGood(hash: string, id: string)
    ensures SuccessfulOnes(OneVacancy(hash, id)) == OneVacancy(hash, id)
    ensures Writes(hash, OneVacancy(hash, id)) == [(CompositeKey("", id), VacancyIndex(hash, "", 0))]
  {
    assert OneVacancy(hash, id)[..0] == [];
  }

  /** A first search, up to the caching of its results. */
  function Cached(hash: string): seq<Event> {
    [] + [Begin(hash)] + [Deliver(0, Fetched(OneVacancy(hash, "1")))]
  }

  function CachedTable(u: Setup, hash: string): Table<CacheValue> {
    map[hash := Item(Results(OneVacancy(hash, "1")), u.ttl.searchTTL)]
  }

  lemma CachedReaches(u: Setup, isHash: string -> bool, r: Regime, hash: string)
    requires isHash(hash)
    ensures AllAllowed(u, isHash, r, Cached(hash))
    ensures Run(u, Cached(hash))
            == Sys(0, Caches(CachedTable(u, hash), map[], map[]), [Indexing(hash, OneVacancy(hash, "1"), 0, 0)])
  {
    OneGood(hash, "1");
    ThenAllowed(u, isHash, r, [], Begin(hash));
    ThenAllowed(u, isHash, r, [] + [Begin(hash)], Deliver(0, Fetched(OneVacancy(hash, "1"))));
  }

  function IndexedTable(hash: string, expTime: int): Table<VacancyIndex> {
    map[CompositeKey("", "1") := Item(VacancyIndex(hash, "", 0), expTime)]
  }

  /** The one vacancy, indexed after a while. */
  lemma IndexedReaches(u: Setup, isHash: string -> bool, r: Regime, hash: string, d: nat)
    requires isHash(hash) && d <= r.span
    ensures var es := Cached(hash) + [Elapse(d)] + [Index(0)];
            && AllAllowed(u, isHash, r, es)
            && Run(u, es)
               == Sys(d, Caches(CachedTable(u, hash), IndexedTable(hash, d + u.ttl.indexTTL), map[]), [Finished])
  {
    CachedReaches(u, isHash, r, hash);
    OneGood(hash, "1");
    ThenAllowed(u, isHash, r, Cached(hash), Elapse(d));
    ThenAllowed(u, isHash, r, Cached(hash) + [Elapse(d)], Index(0));
  }

  lemma Incoherent(s: Sys, hash: string, expTime: int)
    requires s.c.index == IndexedTable(hash, expTime) && s.now <= expTime
    requires SearchHit(s.c, hash, s.now).None?
             || !Points(SearchHit(s.c, hash, s.now).value, CompositeKey("", "1"), VacancyIndex(hash, "", 0))
    ensures !Coherent(s)
  {
    assert s.c.index[CompositeKey("", "1")].value == VacancyIndex(hash, "", 0);
  }

  /** The vacancy is indexed as late as allowed, and its entry outlives the search results. */
  lemma LateIndexingBreaks(u: Setup, isHash: string -> bool, r: Regime, hash: string) returns (es: seq<Event>)
    requires isHash(hash) && 0 <= u.ttl.indexTTL && u.ttl.indexTTL + r.span > u.ttl.searchTTL
    ensures AllAllowed(u, isHash, r, es) && !Coherent(Run(u, es))
  {
    var rest: nat := if u.ttl.searchTTL + 1 > r.span then u.ttl.searchTTL + 1 - r.span else 0;
    var indexed := Cached(hash) + [Elapse(r.span)] + [Index(0)];
    es := indexed + [Elapse(rest)];
    IndexedReaches(u, isHash, r, hash, r.span);
    ThenAllowed(u, isHash, r, indexed, Elapse(rest));
    Incoherent(Run(u, es), hash, r.span + u.ttl.indexTTL);
  }

  /** Two searches of one hash, the first of them done. */
  lemma OverlapReaches(u: Setup, isHash: string -> bool, r: Regime, hash: string) returns (es: seq<Event>)
    requires isHash(hash) && r.overlap
    ensures AllAllowed(u, isHash, r, es)
    ensures Run(u, es) == Sys(0, Caches(CachedTable(u, hash), IndexedTable(hash, u.ttl.indexTTL), map[]),
                              [Finished, Searching(hash)])
  {
    var found := Fetched(OneVacancy(hash, "1"));
    var e1: seq<Event> := [] + [Begin(hash)];
    var e2 := e1 + [Begin(hash)];
    var e3 := e2 + [Deliver(0, found)];
    es := e3 + [Index(0)];
    OneGood(hash, "1");
    ThenAllowed(u, isHash, r, [], Begin(hash));
    ThenAllowed(u, isHash, r, e1, Begin(hash));
    assert Run(u, e2) == Sys(0, START.c, [Searching(hash), Searching(hash)]);
    ThenAllowed(u, isHash, r, e2, Deliver(0, found));
    assert Run(u, e3) == Sys(0, Caches(CachedTable(u, hash), map[], map[]),
                             [Indexing(hash, OneVacancy(hash, "1"), 0, 0), Searching(hash)]);
    ThenAllowed(u, isHash, r, e3, Index(0));
  }

  /** Two searches of one hash miss together and find different vacancies. */
  lemma OverlapBreaks(u: Setup, isHash: string -> bool, r: Regime, hash: string) returns (es: seq<Event>)
    requires isHash(hash) && 0 <= u.ttl.indexTTL && r.overlap
    ensures AllAllowed(u, isHash, r, es) && !Coherent(Run(u, es))
  {
    var first := OverlapReaches(u, isHash, r, hash);
    var found := Fetched(OneVacancy(hash, "2"));
    es := first + [Deliver(1, found)];
    OneGood(hash, "2");
    ThenAllowed(u, isHash, r, first, Deliver(1, found));
    assert CompositeKey("", "1")[1] != CompositeKey("", "2")[1];
    Incoherent(Run(u, es), hash, u.ttl.indexTTL);
  }

  /** Vacancy details overwrite the search results under the same key. */
  lemma MixingBreaks(u: Setup, isHash: string -> bool, r: Regime, hash: string) returns (es: seq<Event>)
    requires isHash(hash) && 0 <= u.ttl.indexTTL && r.mixed
    ensures AllAllowed(u, isHash, r, es) && !Coherent(Run(u, es))
  {
    var details := DetailsFetched(Details(hash, "", ""));
    var indexed := Cached(hash) + [Elapse(0)] + [Index(0)];
    var asked := indexed + [BeginDetails(hash)];
    es := asked + [DeliverDetails(1, details)];
    IndexedReaches(u, isHash, r, hash, 0);
    ThenAllowed(u, isHash, r, indexed, BeginDetails(hash));
    ThenAllowed(u, isHash, r, asked, DeliverDetails(1, details));
    Overwrites(u, Run(u, indexed), hash, details);
    Incoherent(Run(u, es), hash, u.ttl.indexTTL);
  }

  lemma Overwrites(u: Setup, s: Sys, hash: string, answer: DetailsFetch)
    requires |s.tasks| == 1 && s.c.details == map[] && answer.DetailsFetched?
    ensures var t := Step(u, Step(u, s, BeginDetails(hash)), DeliverDetails(1, answer));
            t.now == s.now && t.c.index == s.c.index && SearchHit(t.c, hash, t.now).None?
  {
  }

  /** With a negative index TTL nothing in the index is ever served. */
  lemma {:induction false} BornExpired(u: Setup, es: seq<Event>)
    requires u.ttl.indexTTL < 0
    ensures AllExpired(Run(u, es))
  {
    if es != [] {
      BornExpired(u, es[..|es| - 1]);
      StaysExpired(u, Run(u, es[..|es| - 1]), es[|es| - 1]);
    }
  }

  ghost predicate AllExpired(s: Sys) {
    forall key | key in s.c.index :: s.c.index[key].expTime < s.now
  }

  lemma StaysExpired(u: Setup, s: Sys, e: Event)
    requires u.ttl.indexTTL < 0 && AllExpired(s)
    ensures AllExpired(Step(u, s, e))
  {
    if e.Index? && e.i < |s.tasks| && s.tasks[e.i].Indexing? {
      var t := IndexStep(u, s, e.i);
      forall key | key in t.c.index ensures t.c.index[key].expTime < t.now {
        if key in s.c.index { assert s.c.index[key].expTime < s.now; }
      }
    }
  }

  /** The exact condition. Over all interleavings that a regime allows, the caches are
      coherent if and only if index entries are dead on arrival, or no two searches of one
      hash are in flight together, no vacancy ID is a search hash, and the index TTL plus the
      time allowed for indexing does not exceed the search TTL. */
  lemma CoherentIff(u: Setup, isHash: string -> bool, r: Regime, someHash: string)
    requires isHash(someHash)
    ensures (forall es :: AllAllowed(u, isHash, r, es) ==> Coherent(Run(u, es)))
            <==> u.ttl.indexTTL < 0 || (!r.overlap && !r.mixed && u.ttl.indexTTL + r.span <= u.ttl.searchTTL)
  {
    if u.ttl.indexTTL < 0 {
      forall es ensures Coherent(Run(u, es)) { BornExpired(u, es); }
    } else if r.overlap {
      var es := OverlapBreaks(u, isHash, r, someHash);
    } else if r.mixed {
      var es := MixingBreaks(u, isHash, r, someHash);
    } else if u.ttl.indexTTL + r.span > u.ttl.searchTTL {
      var es := LateIndexingBreaks(u, isHash, r, someHash);
    } else {
      forall es | AllAllowed(u, isHash, r, es) ensures Coherent(Run(u, es)) {
        InvHolds(u, isHash, r.span, es);
        InvMeansCoherent(u, isHash, Slack(u, r.span), Run(u, es));
      }
    }
  }

  // ---------------------------------------------------------------- what hits contain

  /** Non-empty, and every result in it succeeded and has vacancies. */
  ghost predicate GoodList(rs: seq<SearchResult>) {
    rs != [] && forall r <- rs :: r.error == None && r.vacancies != []
  }

  ghost predicate Typed(es: seq<Event>, s: Sys) {
    && (forall h | h in s.c.search && s.c.search[h].value.Results? ::
          GoodList(s.c.search[h].value.results) && Begin(h) in es)
    && (forall i | 0 <= i < |s.tasks| && s.tasks[i].Searching? :: Begin(s.tasks[i].hash) in es)
    && s.c.details == map[]
  }

  lemma TypedDeliver(u: Setup, es: seq<Event>, s: Sys, i: nat, fetch: Fetch)
    requires Typed(es, s) && i < |s.tasks| && s.tasks[i].Searching?
    ensures Typed(es, DeliverStep(u, s, i, s.tasks[i].hash, fetch))
  {
    if fetch.Fetched? { SuccessfulOnesKept(fetch.results); }
  }

  lemma TypedMore(es: seq<Event>, s: Sys, e: Event)
    requires Typed(es, s)
    ensures Typed(es + [e], s)
  {
  }

  lemma TypedStep(u: Setup, es: seq<Event>, s: Sys, e: Event)
    requires Typed(es, s)
    ensures Typed(es + [e], Step(u, s, e))
  {
    TypedMore(es, s, e);
    if e.Deliver? && e.i < |s.tasks| && s.tasks[e.i].Searching? { TypedDeliver(u, es + [e], s, e.i, e.fetch); }
  }

  lemma {:induction false} TypedHolds(u: Setup, es: seq<Event>)
    ensures Typed(es, Run(u, es))
  {
    if es != [] {
      var p := es[..|es| - 1];
      TypedHolds(u, p);
      TypedStep(u, p, Run(u, p), es[|es| - 1]);
      assert p + [es[|es| - 1]] == es;
    }
  }

  /** In every interleaving, overlaps and clashing keys included: a hit in the search cache is
      a non-empty list of successful, non-empty results, under a hash that was searched; and
      nothing ever fills the details cache, so no details request is answered from it. */
  lemma HitsAreGood(u: Setup, es: seq<Event>, key: string, now: int)
    ensures var hit := SearchHit(Run(u, es).c, key, now);
            hit.Some? ==> GoodList(hit.value) && Begin(key) in es
    ensures Lookup(Run(u, es).c.details, key, now) == None
  {
    TypedHolds(u, es);
  }

  // ---------------------------------------------------------------- lookups over runs

  ghost predicate NamedFetches(names: set<string>, es: seq<Event>) {
    forall i | 0 <= i < |es| && es[i].Deliver? && es[i].fetch.Fetched? :: WellNamed(names, es[i].fetch.results)
  }

  ghost predicate NamedCache(names: set<string>, c: Caches) {
    forall h | h in c.search && c.search[h].value.Results? :: WellNamed(names, c.search[h].value.results)
  }

  lemma SuccessfulOnesNamed(names: set<string>, rs: seq<SearchResult>)
    requires WellNamed(names, rs)
    ensures WellNamed(names, SuccessfulOnes(rs))
  {
    var at := SuccessfulOnesExactly(rs);
    assert forall k :: 0 <= k < |at| ==> SuccessfulOnes(rs)[k] == rs[at[k]];
  }

  lemma {:induction false} NamesHold(u: Setup, names: set<string>, es: seq<Event>)
    requires NamedFetches(names, es)
    ensures NamedCache(names, Run(u, es).c)
  {
    if es != [] {
      var e := es[|es| - 1];
      NamesHold(u, names, es[..|es| - 1]);
      if e.Deliver? && e.fetch.Fetched? { SuccessfulOnesNamed(names, e.fetch.results); }
    }
  }

  /** The target shows, field by field, the last match in what is served under this hash. */
  ghost predicate ShowsLastMatch(c: Caches, hash: string, source: string, id: string, now: int, target: Vacancy) {
    && hash in c.search && now <= c.search[hash].expTime && c.search[hash].value.Results?
    && var rs := c.search[hash].value.results;
    exists r: nat, i: nat ::
      && IsLastMatch(rs, source, id, r, i)
      && var v := rs[r].vacancies[i];
      && target.id == v.id && target.job == v.job && target.salary == v.salary
      && target.company == v.company && target.area == v.area && target.url == v.url
      && target.seeker == "" && target.description == ""
  }

  lemma PointedMatches(names: set<string>, rs: seq<SearchResult>, source: string, id: string, e: VacancyIndex)
    returns (r: nat, i: nat)
    requires WellNamed(names, rs) && Apart(names, source) && Points(rs, CompositeKey(source, id), e)
    ensures IsMatch(rs, source, id, r, i)
  {
    i := e.index;
    r :|
      && r < |rs| && rs[r].parserName == e.parserName && i < |rs[r].vacancies|
      && CompositeKey(rs[r].vacancies[i].seeker, rs[r].vacancies[i].id) == CompositeKey(source, id);
    var v := rs[r].vacancies[i];
    CompositeKeyInjective(source, id, v.seeker, v.id);
  }

  lemma ScanOfMatch(rs: seq<SearchResult>, source: string, id: string, target: Vacancy, r: nat, i: nat)
    requires ScanShows(rs, source, id, target) && IsMatch(rs, source, id, r, i)
    ensures exists r: nat, i: nat :: IsLastMatch(rs, source, id, r, i) && Displays(target, rs[r].vacancies[i])
    ensures target.id == id
  {
  }

  /** A running lookup that goes on within the spare lifetime of the search entries shows the
      asked vacancy, whatever happens to the caches between its two halves: it is never stale,
      never meets a value of the wrong type and never shows the empty vacancy. */
  lemma LookupSound(u: Setup, isHash: string -> bool, span: nat, names: set<string>, es: seq<Event>, i: nat, a: Answer)
    requires AllAllowed(u, isHash, Regime(false, false, span), es) && NamedFetches(names, es)
    requires 0 <= u.ttl.indexTTL && 0 <= Slack(u, span)
    requires i < |Run(u, es).tasks| && Run(u, es).tasks[i].LookingUp?
    requires var s := Run(u, es); var task := s.tasks[i];
             && Apart(names, task.source) && s.now <= task.at + Slack(u, span)
             && Resolves(s.c, task.entry, task.source, task.id, s.now, a)
    ensures var s := Run(u, es); var task := s.tasks[i];
            && a.Found? && a.target.id == task.id
            && ShowsLastMatch(s.c, task.entry.searchHash, task.source, task.id, s.now, a.target)
  {
    InvHolds(u, isHash, span, es);
    NamesHold(u, names, es);
    var s := Run(u, es);
    var LookingUp(source, id, entry, at) := s.tasks[i];
    assert PinOk(isHash, s, LookupPin(Slack(u, span), s.tasks[i]));
    var rs := s.c.search[entry.searchHash].value.results;
    assert Lookup(s.c.search, entry.searchHash, s.now) == Some(Results(rs));
    var r, k := PointedMatches(names, rs, source, id, entry);
    ScanOfMatch(rs, source, id, a.target, r, k);
  }

  // ---------------------------------------------------------------- the methods are such runs

  function Total(gaps: nat -> nat, k: nat): nat {
    if k == 0 then 0 else Total(gaps, k - 1) + gaps(k - 1)
  }

  /** The clock of a search that pauses for gaps(k) before its k-th index write. */
  function Clock(at: int, gaps: nat -> nat): nat -> int { (k: nat) => at + Total(gaps, k + 1) }

  /** Where the search stands after k of its writes. */
  function Written(u: Setup, s: Sys, i: nat, hash: string, rs: seq<SearchResult>, ws: seq<Write>,
                   gaps: nat -> nat, k: nat): Sys
    requires i < |s.tasks| && k <= |ws|
  {
    Sys(s.now + Total(gaps, k),
        s.c.(index := WriteAll(s.c.index, ws[..k], u.ttl.indexTTL, Clock(s.now, gaps))),
        s.tasks[i := if k == |ws| then Finished else Indexing(hash, rs, s.now, k)])
  }

  lemma OneRound(u: Setup, s: Sys, i: nat, hash: string, rs: seq<SearchResult>, ws: seq<Write>,
                 at: int, k: nat, gap: nat)
    requires ws == Writes(hash, rs) && k < |ws|
    requires i < |s.tasks| && s.tasks[i] == Indexing(hash, rs, at, k)
    ensures Step(u, Step(u, s, Elapse(gap)), Index(i))
            == Sys(s.now + gap,
                   s.c.(index := s.c.index[ws[k].0 := Item(ws[k].1, s.now + gap + u.ttl.indexTTL)]),
                   s.tasks[i := if k + 1 == |ws| then Finished else Indexing(hash, rs, at, k + 1)])
  {
  }

  lemma IndexSnoc(t: Table<VacancyIndex>, ws: seq<Write>, ttl: int, now: int, gaps: nat -> nat, k: nat)
    requires k < |ws|
    ensures WriteAll(t, ws[..k + 1], ttl, Clock(now, gaps))
            == WriteAll(t, ws[..k], ttl, Clock(now, gaps))[
                 ws[k].0 := Item(ws[k].1, now + Total(gaps, k) + gaps(k) + ttl)]
  {
    assert ws[..k + 1] == ws[..k] + [ws[k]];
    WriteSnoc(t, ws[..k], ws[k], ttl, Clock(now, gaps));
  }

  lemma WrittenSnoc(u: Setup, s: Sys, i: nat, hash: string, rs: seq<SearchResult>, ws: seq<Write>,
                    gaps: nat -> nat, k: nat)
    requires ws == Writes(hash, rs) && i < |s.tasks| && k < |ws|
    ensures Step(u, Step(u, Written(u, s, i, hash, rs, ws, gaps, k), Elapse(gaps(k))), Index(i))
            == Written(u, s, i, hash, rs, ws, gaps, k + 1)
  {
    OneRound(u, Written(u, s, i, hash, rs, ws, gaps, k), i, hash, rs, ws, s.now, k, gaps(k));
    IndexSnoc(s.c.index, ws, u.ttl.indexTTL, s.now, gaps, k);
  }

  /** One pause and one write more, after any run that got this far. */
  lemma RoundExtends(u: Setup, s: Sys, i: nat, hash: string, rs: seq<SearchResult>, ws: seq<Write>,
                     gaps: nat -> nat, k: nat, es: seq<Event>) returns (more: seq<Event>)
    requires ws == Writes(hash, rs) && i < |s.tasks| && k < |ws|
    requires RunFrom(u, s, es) == Written(u, s, i, hash, rs, ws, gaps, k)
    ensures RunFrom(u, s, more) == Written(u, s, i, hash, rs, ws, gaps, k + 1)
    ensures more == es + [Elapse(gaps(k))] + [Index(i)]
  {
    more := es + [Elapse(gaps(k))] + [Index(i)];
    ThenTwo(u, s, es, Elapse(gaps(k)), Index(i));
    WrittenSnoc(u, s, i, hash, rs, ws, gaps, k);
  }

  lemma WrittenNone(u: Setup, s: Sys, i: nat, hash: string, rs: seq<SearchResult>, ws: seq<Write>, gaps: nat -> nat)
    requires i < |s.tasks| && s.tasks[i] == Indexing(hash, rs, s.now, 0) && ws != []
    ensures Written(u, s, i, hash, rs, ws, gaps, 0) == s
  {
    assert s.tasks[i := s.tasks[i]] == s.tasks;
  }

  lemma {:induction false} RoundsWrite(u: Setup, s: Sys, i: nat, hash: string, rs: seq<SearchResult>, ws: seq<Write>,
                                       gaps: nat -> nat, k: nat) returns (es: seq<Event>)
    requires ws == Writes(hash, rs) && ws != [] && k <= |ws|
    requires i < |s.tasks| && s.tasks[i] == Indexing(hash, rs, s.now, 0)
    ensures RunFrom(u, s, es) == Written(u, s, i, hash, rs, ws, gaps, k)
    ensures forall e <- es :: e.Elapse? || e == Index(i)
  {
    es := [];
    if k == 0 {
      WrittenNone(u, s, i, hash, rs, ws, gaps);
    } else {
      var fewer := RoundsWrite(u, s, i, hash, rs, ws, gaps, k - 1);
      es := RoundExtends(u, s, i, hash, rs, ws, gaps, k - 1, fewer);
    }
  }

  lemma {:induction false} RunAppend(u: Setup, s: Sys, xs: seq<Event>, ys: seq<Event>)
    ensures RunFrom(u, s, xs + ys) == RunFrom(u, RunFrom(u, s, xs), ys)
  {
    if ys == [] {
      assert xs + ys == xs;
    } else {
      assert (xs + ys)[..|xs + ys| - 1] == xs + ys[..|ys| - 1];
      RunAppend(u, s, xs, ys[..|ys| - 1]);
    }
  }

  function Waited(u: Setup, s: Sys, hash: string, good: seq<SearchResult>, waited: nat): Sys {
    var now := s.now + waited;
    if good == [] then Sys(now, s.c, s.tasks + [Finished])
    else Sys(now, s.c.(search := s.c.search[hash := Item(Results(good), now + u.ttl.searchTTL)]),
             s.tasks + [Indexing(hash, good, now, 0)])
  }

  lemma DeliverReaches(u: Setup, s: Sys, hash: string, fetch: Fetch, waited: nat)
    ensures Step(u, Start(s.(now := s.now + waited), Searching(hash)), Deliver(|s.tasks|, fetch))
            == Waited(u, s, hash, Good(fetch), waited)
  {
  }

  lemma BeginMisses(u: Setup, s: Sys, hash: string) returns (es: seq<Event>)
    requires SearchHit(s.c, hash, s.now).None?
    ensures RunFrom(u, s, es) == Start(s, Searching(hash)) && es == [Begin(hash)]
  {
    es := [] + [Begin(hash)];
    Then(u, s, [], Begin(hash));
  }

  /** A search that misses, waits and caches. */
  lemma CachingReached(u: Setup, s: Sys, hash: string, fetch: Fetch, waited: nat) returns (es: seq<Event>)
    requires SearchHit(s.c, hash, s.now).None?
    ensures RunFrom(u, s, es) == Waited(u, s, hash, Good(fetch), waited)
    ensures forall e <- es :: e == Begin(hash) || e.Elapse? || e == Deliver(|s.tasks|, fetch)
    ensures RepliesAt(u, s, es, 2, DeliveredReply(fetch))
  {
    var begun := BeginMisses(u, s, hash);
    es := begun + [Elapse(waited)] + [Deliver(|s.tasks|, fetch)];
    ThenTwo(u, s, begun, Elapse(waited), Deliver(|s.tasks|, fetch));
    DeliverReaches(u, s, hash, fetch, waited);
    Then(u, s, begun, Elapse(waited));
    assert es[..2] == begun + [Elapse(waited)];
  }

  function Indexed(c: Caches, ws: seq<Write>, ttl: int, clock: nat -> int): Caches {
    c.(index := WriteAll(c.index, ws, ttl, clock))
  }

  /** All index writes at their clock readings. */
  lemma IndexingAlone(u: Setup, s: Sys, i: nat, hash: string, rs: seq<SearchResult>, ws: seq<Write>, gaps: nat -> nat)
    returns (es: seq<Event>)
    requires ws == Writes(hash, rs) && ws != []
    requires i < |s.tasks| && s.tasks[i] == Indexing(hash, rs, s.now, 0)
    ensures RunFrom(u, s, es).c == Indexed(s.c, ws, u.ttl.indexTTL, Clock(s.now, gaps))
    ensures forall e <- es :: e.Elapse? || e == Index(i)
  {
    es := RoundsWrite(u, s, i, hash, rs, ws, gaps, |ws|);
    assert ws[..|ws|] == ws;
  }

  // ---- what a search does, in each of its three courses, alone and by `Execute`

  datatype Reply = Reply(results: seq<SearchResult>, err: Option<string>)

  /** What the event tells the search's worker: a hit at once, or what the parsers delivered. */
  function ReplyOf(s: Sys, e: Event): Option<Reply> {
    match e
    case Begin(hash) =>
      if hash in s.c.search && s.now <= s.c.search[hash].expTime && s.c.search[hash].value.Results?
      then Some(Reply(s.c.search[hash].value.results, None)) else None
    case Deliver(i, fetch) =>
      if i < |s.tasks| && s.tasks[i].Searching? then
        match fetch
        case Fetched(rs) => Some(Reply(rs, None))
        case NoParsers => Some(Reply([], Some("no parsers available")))
        case FetchFailed => Some(Reply([], Some("concurrent search failed")))
      else None
    case _ => None
  }

  /** The k-th event of the run gives this reply. */
  ghost predicate RepliesAt(u: Setup, s: Sys, es: seq<Event>, k: nat, reply: Reply) {
    k < |es| && ReplyOf(RunFrom(u, s, es[..k]), es[k]) == Some(reply)
  }

  lemma RepliesLonger(u: Setup, s: Sys, xs: seq<Event>, ys: seq<Event>, k: nat, reply: Reply)
    requires RepliesAt(u, s, xs, k, reply)
    ensures RepliesAt(u, s, xs + ys, k, reply)
  {
    assert (xs + ys)[..k] == xs[..k];
  }

  function DeliveredReply(fetch: Fetch): Reply {
    match fetch
    case Fetched(rs) => Reply(rs, None)
    case NoParsers => Reply([], Some("no parsers available"))
    case FetchFailed => Reply([], Some("concurrent search failed"))
  }

  lemma HitAlone(u: Setup, s: Sys, hash: string) returns (es: seq<Event>)
    requires SearchHit(s.c, hash, s.now).Some?
    ensures RunFrom(u, s, es) == s && forall e <- es :: e == Begin(hash)
    ensures RepliesAt(u, s, es, 0, Reply(SearchHit(s.c, hash, s.now).value, None))
  {
    es := [] + [Begin(hash)];
    Then(u, s, [], Begin(hash));
    assert es[..0] == [];
  }

  lemma HitChangesNothing(cfg: Config, c: Caches, hash: string, fetch: Fetch, asked: int, at: int, clock: nat -> int)
    requires SearchHit(c, hash, asked).Some?
    ensures Execute(cfg, c, hash, fetch, asked, at, clock) == (c, SearchHit(c, hash, asked).value, None)
  {
  }

  lemma EmptyMissAlone(u: Setup, s: Sys, hash: string, fetch: Fetch, waited: nat) returns (es: seq<Event>)
    requires SearchHit(s.c, hash, s.now).None? && Good(fetch) == []
    ensures RunFrom(u, s, es).c == s.c
    ensures forall e <- es :: e == Begin(hash) || e.Elapse? || e == Deliver(|s.tasks|, fetch)
    ensures RepliesAt(u, s, es, 2, DeliveredReply(fetch))
  {
    es := CachingReached(u, s, hash, fetch, waited);
  }

  lemma EmptyMissChangesNothing(cfg: Config, c: Caches, hash: string, fetch: Fetch, asked: int, at: int,
                                clock: nat -> int)
    requires SearchHit(c, hash, asked).None? && Good(fetch) == []
    ensures var reply := DeliveredReply(fetch);
            Execute(cfg, c, hash, fetch, asked, at, clock) == (c, reply.results, reply.err)
  {
  }

  lemma CachingThenIndexing(u: Setup, s: Sys, hash: string, good: seq<SearchResult>, waited: nat, ws: seq<Write>,
                            clock: nat -> int)
    requires good != [] && ws == Writes(hash, good)
    ensures Indexed(Waited(u, s, hash, good, waited).c, ws, u.ttl.indexTTL, clock)
            == CacheSearch(u.ttl, s.c, hash, good, s.now + waited, clock)
  {
  }

  lemma WaitedIndexes(u: Setup, s: Sys, hash: string, good: seq<SearchResult>, waited: nat)
    requires good != []
    ensures var t := Waited(u, s, hash, good, waited);
            && t.now == s.now + waited && |t.tasks| == |s.tasks| + 1
            && t.tasks[|s.tasks|] == Indexing(hash, good, t.now, 0)
  {
  }

  lemma MissAlone(u: Setup, s: Sys, hash: string, fetch: Fetch, good: seq<SearchResult>, waited: nat, gaps: nat -> nat)
    returns (es: seq<Event>)
    requires SearchHit(s.c, hash, s.now).None? && good == Good(fetch) != [] && Writes(hash, good) != []
    ensures RunFrom(u, s, es).c
            == CacheSearch(u.ttl, s.c, hash, good, s.now + waited, Clock(s.now + waited, gaps))
    ensures var i := |s.tasks|;
            forall e <- es :: e == Begin(hash) || e.Elapse? || e == Deliver(i, fetch) || e == Index(i)
    ensures RepliesAt(u, s, es, 2, DeliveredReply(fetch))
  {
    var t := Waited(u, s, hash, good, waited);
    var ws := Writes(hash, good);
    WaitedIndexes(u, s, hash, good, waited);
    CachingThenIndexing(u, s, hash, good, waited, ws, Clock(s.now + waited, gaps));
    var xs := CachingReached(u, s, hash, fetch, waited);
    var ys := IndexingAlone(u, t, |s.tasks|, hash, good, ws, gaps);
    es := xs + ys;
    RunAppend(u, s, xs, ys);
    RepliesLonger(u, s, xs, ys, 2, DeliveredReply(fetch));
  }

  lemma MissCaches(cfg: Config, c: Caches, hash: string, fetch: Fetch, asked: int, at: int, clock: nat -> int)
    requires SearchHit(c, hash, asked).None? && Good(fetch) != []
    ensures var reply := DeliveredReply(fetch);
            Execute(cfg, c, hash, fetch, asked, at, clock)
            == (CacheSearch(cfg, c, hash, Good(fetch), at, clock), reply.results, reply.err)
  {
  }

  /** Every search as executed by one worker with nobody in between, with any waiting times,
      is a run of these events: one of them gives the results and the error, and the run leaves
      the caches, that `Execute` says, and so the method that is proved against `Execute`. */
  lemma SearchAlone(u: Setup, s: Sys, hash: string, fetch: Fetch, waited: nat, gaps: nat -> nat)
    returns (es: seq<Event>, k: nat)
    ensures var (c, results, err) :=
              Execute(u.ttl, s.c, hash, fetch, s.now, s.now + waited, Clock(s.now + waited, gaps));
            RunFrom(u, s, es).c == c && RepliesAt(u, s, es, k, Reply(results, err))
    ensures var i := |s.tasks|;
            forall e <- es :: e == Begin(hash) || e.Elapse? || e == Deliver(i, fetch) || e == Index(i)
  {
    var at, clock := s.now + waited, Clock(s.now + waited, gaps);
    if SearchHit(s.c, hash, s.now).Some? {
      es := HitAlone(u, s, hash);
      k := 0;
      HitChangesNothing(u.ttl, s.c, hash, fetch, s.now, at, clock);
    } else if Good(fetch) == [] {
      es := EmptyMissAlone(u, s, hash, fetch, waited);
      k := 2;
      EmptyMissChangesNothing(u.ttl, s.c, hash, fetch, s.now, at, clock);
    } else {
      SomethingToWrite(hash, fetch.results);
      es := MissAlone(u, s, hash, fetch, Good(fetch), waited, gaps);
      k := 2;
      MissCaches(u.ttl, s.c, hash, fetch, s.now, at, clock);
    }
  }

  lemma SomethingToWrite(hash: string, rs: seq<SearchResult>)
    requires SuccessfulOnes(rs) != []
    ensures Writes(hash, SuccessfulOnes(rs)) != []
  {
    SuccessfulOnesKept(rs);
    var good := SuccessfulOnes(rs);
    assert good[0] in good;
    WriteAt(hash, good, 0, 0);
  }

  // ---- lookups and sweeps with nobody in between

  /** What is left of the index when the shards before k are emptied. */
  function EmptiedTo(u: Setup, t: Table<VacancyIndex>, k: nat): Table<VacancyIndex> {
    map key | key in t && u.shardOf(key) >= k :: t[key]
  }

  /** Where the emptying stands before shard k. */
  function EmptiedSys(u: Setup, s: Sys, i: nat, k: nat): Sys
    requires i < |s.tasks|
  {
    Sys(s.now, s.c.(index := EmptiedTo(u, s.c.index, k)), s.tasks[i := Emptying(k)])
  }

  lemma EmptiedNone(u: Setup, s: Sys, i: nat)
    requires i < |s.tasks| && s.tasks[i] == Emptying(0)
    ensures EmptiedSys(u, s, i, 0) == s
  {
    assert EmptiedTo(u, s.c.index, 0) == s.c.index && s.tasks[i := s.tasks[i]] == s.tasks;
  }

  lemma EmptiesExtend(u: Setup, s: Sys, i: nat, k: nat, p: seq<Event>)
    requires i < |s.tasks| && k < u.shards && RunFrom(u, s, p) == EmptiedSys(u, s, i, k)
    ensures RunFrom(u, s, p + [Empty(i)]) == EmptiedSys(u, s, i, k + 1)
  {
    Then(u, s, p, Empty(i));
    EmptiesOne(u, s, i, k);
  }

  lemma {:induction false} EmptiesReach(u: Setup, s: Sys, i: nat, k: nat) returns (es: seq<Event>)
    requires i < |s.tasks| && s.tasks[i] == Emptying(0) && k <= u.shards
    ensures RunFrom(u, s, es) == EmptiedSys(u, s, i, k)
    ensures forall e <- es :: e == Empty(i)
  {
    es := [];
    if k == 0 {
      EmptiedNone(u, s, i);
    } else {
      var p := EmptiesReach(u, s, i, k - 1);
      es := p + [Empty(i)];
      EmptiesExtend(u, s, i, k - 1, p);
    }
  }

  lemma EmptiesOne(u: Setup, s: Sys, i: nat, k: nat)
    requires i < |s.tasks| && k < u.shards
    ensures Step(u, EmptiedSys(u, s, i, k), Empty(i)) == EmptiedSys(u, s, i, k + 1)
  {
    var t := EmptiedTo(u, s.c.index, k);
    assert (map key | key in t && u.shardOf(key) != k :: t[key]) == EmptiedTo(u, s.c.index, k + 1);
  }

  /** An index entry that is alive at `now` and whose search results are not served `later`. */
  ghost predicate LooksStale(c: Caches, source: string, id: string, now: int, later: int) {
    var key := CompositeKey(source, id);
    && key in c.index && now <= c.index[key].expTime
    && var h := c.index[key].value.searchHash;
    !(h in c.search && later <= c.search[h].expTime)
  }

  lemma AskMisses(u: Setup, s: Sys, source: string, id: string, gap: nat)
    requires AskStep(s, source, id) == s
    ensures Step(u, Step(u, s, Elapse(gap)), Resolve(|s.tasks|)) == s.(now := s.now + gap)
  {
  }

  lemma AskResolves(u: Setup, s: Sys, source: string, id: string, gap: nat)
    requires AskStep(s, source, id) != s
    ensures var t := Step(u, Step(u, AskStep(s, source, id), Elapse(gap)), Resolve(|s.tasks|));
            && t.c == s.c && |t.tasks| == |s.tasks| + 1
            && (LooksStale(s.c, source, id, s.now, s.now + gap) ==> t.tasks[|s.tasks|] == Emptying(0))
  {
  }

  lemma StaleIsAsked(s: Sys, source: string, id: string, later: int)
    requires LooksStale(s.c, source, id, s.now, later)
    ensures AskStep(s, source, id) != s
  {
    assert |AskStep(s, source, id).tasks| == |s.tasks| + 1;
  }

  lemma AskAlone(u: Setup, s: Sys, source: string, id: string, gap: nat) returns (es: seq<Event>)
    ensures forall e <- es :: e == Ask(source, id) || e.Elapse? || e == Resolve(|s.tasks|)
    ensures var t := RunFrom(u, s, es);
            && t.c == s.c
            && (LooksStale(s.c, source, id, s.now, s.now + gap) ==>
                  |t.tasks| == |s.tasks| + 1 && t.tasks[|s.tasks|] == Emptying(0))
  {
    var asked: seq<Event> := [] + [Ask(source, id)];
    es := asked + [Elapse(gap)] + [Resolve(|s.tasks|)];
    Then(u, s, [], Ask(source, id));
    ThenTwo(u, s, asked, Elapse(gap), Resolve(|s.tasks|));
    if LooksStale(s.c, source, id, s.now, s.now + gap) { StaleIsAsked(s, source, id, s.now + gap); }
    if AskStep(s, source, id) == s { AskMisses(u, s, source, id, gap); } else { AskResolves(u, s, source, id, gap); }
  }

  /** A lookup with nobody in between leaves the caches as the method does: the index is empty
      exactly if the lookup was stale, and nothing else changes. */
  lemma LookupAlone(u: Setup, s: Sys, source: string, id: string, gap: nat) returns (es: seq<Event>)
    requires forall key :: u.shardOf(key) < u.shards
    ensures var i := |s.tasks|;
            forall e <- es :: e == Ask(source, id) || e.Elapse? || e == Resolve(i) || e == Empty(i)
    ensures RunFrom(u, s, es).c
            == if LooksStale(s.c, source, id, s.now, s.now + gap) then s.c.(index := map[]) else s.c
  {
    es := AskAlone(u, s, source, id, gap);
    if LooksStale(s.c, source, id, s.now, s.now + gap) {
      var t := RunFrom(u, s, es);
      var empties := EmptiesReach(u, t, |s.tasks|, u.shards);
      RunAppend(u, s, es, empties);
      es := es + empties;
      assert EmptiedTo(u, s.c.index, u.shards) == map[];
    }
  }

  /** The sweeps of the shards before k, with one starting time. */
  function Sweeping(search: bool, k: nat, at: int): seq<Event> {
    if k == 0 then []
    else Sweeping(search, k - 1, at) + [SweepOf(search, k - 1, at)]
  }

  function SweptTo<V>(u: Setup, t: Table<V>, k: nat, at: int): Table<V> {
    map key | key in t && (u.shardOf(key) >= k || at <= t[key].expTime) :: t[key]
  }

  lemma SweptOneMore<V>(u: Setup, t: Table<V>, k: nat, at: int)
    ensures SweptShard(u, SweptTo(u, t, k, at), k, at) == SweptTo(u, t, k + 1, at)
  {
  }

  function SweptSys(u: Setup, s: Sys, search: bool, k: nat, at: int): Sys {
    s.(c := if search then s.c.(search := SweptTo(u, s.c.search, k, at))
            else s.c.(index := SweptTo(u, s.c.index, k, at)))
  }

  function SweepOf(search: bool, k: nat, at: int): Event {
    if search then SweepSearch(k, at) else SweepIndex(k, at)
  }

  lemma SweepStep(u: Setup, s: Sys, search: bool, k: nat, at: int)
    requires at <= s.now
    ensures Step(u, SweptSys(u, s, search, k, at), SweepOf(search, k, at)) == SweptSys(u, s, search, k + 1, at)
  {
    if search { SweptOneMore(u, s.c.search, k, at); } else { SweptOneMore(u, s.c.index, k, at); }
  }

  lemma SweptNone<V>(u: Setup, t: Table<V>, at: int)
    ensures SweptTo(u, t, 0, at) == t
  {
  }

  lemma {:induction false} SweepsReach(u: Setup, s: Sys, search: bool, k: nat, at: int)
    requires at <= s.now
    ensures RunFrom(u, s, Sweeping(search, k, at)) == SweptSys(u, s, search, k, at)
  {
    if k == 0 {
      if search { SweptNone(u, s.c.search, at); } else { SweptNone(u, s.c.index, at); }
    } else {
      SweepsReach(u, s, search, k - 1, at);
      Then(u, s, Sweeping(search, k - 1, at), SweepOf(search, k - 1, at));
      SweepStep(u, s, search, k - 1, at);
    }
  }

  /** A sweep of all shards leaves exactly what is not expired at its start, and touches no
      other cache. */
  lemma SweepAlone(u: Setup, s: Sys, search: bool, at: int)
    requires at <= s.now && forall key :: u.shardOf(key) < u.shards
    ensures var t := RunFrom(u, s, Sweeping(search, u.shards, at));
            && t.now == s.now && t.tasks == s.tasks && t.c.details == s.c.details
            && (if search then t.c.index == s.c.index && Unexpired(s.c.search, t.c.search, at)
                else t.c.search == s.c.search && Unexpired(s.c.index, t.c.index, at))
  {
    SweepsReach(u, s, search, u.shards, at);
  }

  ghost predicate Unexpired<V>(was: Table<V>, t: Table<V>, at: int) {
    && (forall k :: k in t <==> k in was && at <= was[k].expTime)
    && (forall k | k in t :: t[k] == was[k])
  }
}
