/** The part of the parsers manager that reads and writes the three caches: as functions on
    the flat contents, and as the class that works on the sharded caches in place. */
module SearchService {
  import opened Counting
  import opened Models
  import opened ShardedCache
  import opened ReverseIndex

  datatype Config = Config(searchTTL: int, indexTTL: int)

  /** Flat contents of the search cache, the index cache and the details cache. */
  datatype Caches = Caches(
    search: Table<CacheValue>,
    index: Table<VacancyIndex>,
    details: Table<Details>)

  /** What the parsers came back with. */
  datatype Fetch = NoParsers | FetchFailed | Fetched(results: seq<SearchResult>)

  datatype DetailsFetch = DetailsFailed(error: Error) | DetailsFetched(details: Details)

  datatype Answer = NotIndexed | WrongType | Stale | Found(target: Vacancy)

  predicate Successful(r: SearchResult) { r.error.None? && |r.vacancies| > 0 }

  /** The successful results, in their order. */
  function SuccessfulOnes(rs: seq<SearchResult>): seq<SearchResult> {
    if rs == [] then []
    else SuccessfulOnes(rs[..|rs| - 1]) + (if Successful(rs[|rs| - 1]) then [rs[|rs| - 1]] else [])
  }

  /** A cached value of the other type counts as a miss. */
  function SearchHit(c: Caches, hash: string, now: int): Option<seq<SearchResult>> {
    var cached: Option<CacheValue> := Lookup(c.search, hash, now);
    match cached
    case Some(Results(rs)) => Some(rs)
    case _ => None
  }

  function CacheSearch(cfg: Config, c: Caches, hash: string, rs: seq<SearchResult>,
                       now: int, clock: nat -> int): Caches
  {
    c.(search := c.search[hash := Item(Results(rs), now + cfg.searchTTL)],
       index := WriteAll(c.index, Writes(hash, rs), cfg.indexTTL, clock))
  }

  /** Details go into the search cache, with the index TTL. */
  function CacheDetails(cfg: Config, c: Caches, id: string, d: Details, now: int): Caches {
    c.(search := c.search[id := Item(Detailed(d), now + cfg.indexTTL)])
  }

  /** One search: the cache is asked at `asked`; the results are cached at `cached` and the
      index entries at the readings of `clock`. */
  function Execute(cfg: Config, c: Caches, hash: string, fetch: Fetch,
                   asked: int, cached: int, clock: nat -> int)
    : (Caches, seq<SearchResult>, Option<Error>)
  {
    match SearchHit(c, hash, asked)
    case Some(rs) => (c, rs, None)
    case None =>
      match fetch
      case NoParsers => (c, [], Some("no parsers available"))
      case FetchFailed => (c, [], Some("concurrent search failed"))
      case Fetched(rs) =>
        var good := SuccessfulOnes(rs);
        (if |good| > 0 then CacheSearch(cfg, c, hash, good, cached, clock) else c, rs, None)
  }

  /** A details request. Only a fetch changes the caches. */
  function ExecuteDetails(cfg: Config, c: Caches, id: string, fetch: DetailsFetch, asked: int, cached: int)
    : (Caches, Option<Details>, Option<Error>)
  {
    match Lookup(c.details, id, asked)
    case Some(d) => (c, Some(d), None)
    case None =>
      match fetch
      case DetailsFailed(e) => (c, None, Some(e))
      case DetailsFetched(d) => (CacheDetails(cfg, c, id, d, cached), Some(d), None)
  }

  /** An unexpired list of results is stored under the hash. */
  ghost predicate Served(c: Caches, hash: string, now: int) {
    hash in c.search && now <= c.search[hash].expTime && c.search[hash].value.Results?
  }

  /** A search answers what is served under its hash, and leaves the caches alone; otherwise
      it answers exactly what the parsers found, or an error. */
  lemma SearchAnswers(cfg: Config, c: Caches, hash: string, fetch: Fetch, asked: int, cached: int, clock: nat -> int)
    ensures var (c', results, err) := Execute(cfg, c, hash, fetch, asked, cached, clock);
            if Served(c, hash, asked) then results == c.search[hash].value.results && err == None && c' == c
            else
              match fetch
              case Fetched(rs) => results == rs && err == None
              case _ => results == [] && err.Some? && c' == c
  {
  }

  /** What a search stores: the results without error that have vacancies, if there are any,
      for the search TTL; every other search entry and the details stay. */
  lemma SearchStores(cfg: Config, c: Caches, hash: string, rs: seq<SearchResult>, asked: int, cached: int,
                     clock: nat -> int) returns (at: seq<nat>)
    requires !Served(c, hash, asked)
    ensures Increasing(at)
    ensures forall i: nat :: i in at <==> i < |rs| && rs[i].error == None && rs[i].vacancies != []
    ensures var c' := Execute(cfg, c, hash, Fetched(rs), asked, cached, clock).0;
            && c'.details == c.details
            && (at == [] ==> c' == c)
            && (at != [] ==>
                  c'.search == c.search[hash := Item(Results(PickedFrom(rs, at)), cached + cfg.searchTTL)])
  {
    at := SuccessfulOnesExactly(rs);
    assert forall k :: 0 <= k < |at| ==> at[k] in at;
    if at != [] { assert PickedFrom(rs, at) == SuccessfulOnes(rs); }
  }

  /** The results at these positions. */
  function PickedFrom(rs: seq<SearchResult>, at: seq<nat>): (picked: seq<SearchResult>)
    requires forall i <- at :: i < |rs|
    ensures |picked| == |at| && forall k :: 0 <= k < |at| ==> at[k] in at && picked[k] == rs[at[k]]
  {
    seq(|at|, k requires 0 <= k < |at| => assert at[k] in at; rs[at[k]])
  }

  /** A second search with the same hash, and nothing in between, is answered until the first
      one's search TTL is over with exactly the successful results of the first, in order; its
      parsers are not asked, and nothing changes any more. */
  lemma SearchTwice(cfg: Config, c: Caches, hash: string, rs: seq<SearchResult>, asked: int, cached: int,
                    clock: nat -> int, fetch: Fetch, asked': int, cached': int, clock': nat -> int)
    returns (at: seq<nat>)
    requires !Served(c, hash, asked) && asked' <= cached + cfg.searchTTL
    requires exists r :: r in rs && r.error == None && r.vacancies != []
    ensures Increasing(at)
    ensures forall i: nat :: i in at <==> i < |rs| && rs[i].error == None && rs[i].vacancies != []
    ensures var first := Execute(cfg, c, hash, Fetched(rs), asked, cached, clock);
            first.1 == rs
            && Execute(cfg, first.0, hash, fetch, asked', cached', clock') == (first.0, PickedFrom(rs, at), None)
  {
    at := SearchStores(cfg, c, hash, rs, asked, cached, clock);
    var r :| r in rs && r.error == None && r.vacancies != [];
    var i: nat :| i < |rs| && rs[i] == r;
    assert i in at;
    SecondIsServed(cfg, Execute(cfg, c, hash, Fetched(rs), asked, cached, clock).0, hash, PickedFrom(rs, at),
                   cached + cfg.searchTTL, fetch, asked', cached', clock');
  }

  lemma SecondIsServed(cfg: Config, c: Caches, hash: string, rs: seq<SearchResult>, expTime: int,
                       fetch: Fetch, asked: int, cached: int, clock: nat -> int)
    requires hash in c.search && c.search[hash] == Item(Results(rs), expTime) && asked <= expTime
    ensures Execute(cfg, c, hash, fetch, asked, cached, clock) == (c, rs, None)
  {
  }

  /** A details request answers what the details cache serves, without asking; otherwise what
      was fetched, which it stores, as it is, in the search cache under the ID for the index
      TTL; a failed fetch stores nothing. */
  lemma DetailsAnswers(cfg: Config, c: Caches, id: string, fetch: DetailsFetch, asked: int, cached: int)
    ensures var (c', details, err) := ExecuteDetails(cfg, c, id, fetch, asked, cached);
            if id in c.details && asked <= c.details[id].expTime then
              details == Some(c.details[id].value) && err == None && c' == c
            else
              match fetch
              case DetailsFailed(e) => details == None && err == Some(e) && c' == c
              case DetailsFetched(d) =>
                && details == Some(d) && err == None && c'.index == c.index && c'.details == c.details
                && c'.search.Keys == c.search.Keys + {id}
                && c'.search[id] == Item(Detailed(d), cached + cfg.indexTTL)
                && forall k | k in c.search && k != id :: c'.search[k] == c.search[k]
  {
  }

  // ---------------------------------------------------------------- the class

  class ParsersManager {
    const cfg: Config
    const searchCache: InmemoryShardedCache<CacheValue>
    const vacancyIndex: InmemoryShardedCache<VacancyIndex>
    const vacancyDetails: InmemoryShardedCache<Details>

    ghost predicate Valid()
      reads searchCache, searchCache.shards, vacancyIndex, vacancyIndex.shards,
            vacancyDetails, vacancyDetails.shards
    {
      && searchCache.Valid() && vacancyIndex.Valid() && vacancyDetails.Valid()
      && searchCache.shards as object != vacancyIndex.shards
      && searchCache.shards as object != vacancyDetails.shards
      && vacancyIndex.shards as object != vacancyDetails.shards
    }

    ghost function View(): Caches
      requires Valid()
      reads searchCache, searchCache.shards, vacancyIndex, vacancyIndex.shards,
            vacancyDetails, vacancyDetails.shards
    {
      Caches(searchCache.Contents(), vacancyIndex.Contents(), vacancyDetails.Contents())
    }

    /** The caches come from outside, each with storage of its own. */
    constructor (cfg: Config, searchCache: InmemoryShardedCache<CacheValue>,
                 vacancyIndex: InmemoryShardedCache<VacancyIndex>,
                 vacancyDetails: InmemoryShardedCache<Details>)
      requires searchCache.Valid() && vacancyIndex.Valid() && vacancyDetails.Valid()
      requires searchCache.shards as object != vacancyIndex.shards
      requires searchCache.shards as object != vacancyDetails.shards
      requires vacancyIndex.shards as object != vacancyDetails.shards
      ensures this.cfg == cfg && this.searchCache == searchCache
      ensures this.vacancyIndex == vacancyIndex && this.vacancyDetails == vacancyDetails
      ensures Valid()
      ensures View() == Caches(searchCache.Contents(), vacancyIndex.Contents(), vacancyDetails.Contents())
    {
      this.cfg := cfg;
      this.searchCache := searchCache;
      this.vacancyIndex := vacancyIndex;
      this.vacancyDetails := vacancyDetails;
    }

    method TryGetFromCache(hash: string, now: int) returns (r: Option<seq<SearchResult>>)
      requires Valid()
      ensures r == SearchHit(View(), hash, now)
      ensures r.Some? <==> Served(View(), hash, now)
      ensures r.Some? ==> r.value == View().search[hash].value.results
    {
      var cached := searchCache.GetItem(hash, now);
      match cached
      case None => return None;
      case Some(value) =>
        if !value.Results? {
          return None;
        }
        return Some(value.results);
    }

    method CacheSearchResults(hash: string, results: seq<SearchResult>, now: int, clock: nat -> int)
      requires Valid()
      modifies searchCache.shards, vacancyIndex.shards
      ensures Valid() && View() == CacheSearch(cfg, old(View()), hash, results, now, clock)
    {
      ghost var before := View();
      searchCache.AddItemWithTTL(hash, Results(results), cfg.searchTTL, now);
      assert View() == before.(search := before.search[hash := Item(Results(results), now + cfg.searchTTL)]);
      BuildReverseIndex(vacancyIndex, hash, results, cfg.indexTTL, clock);
    }

    method CacheDetailsResult(id: string, d: Details, now: int)
      requires Valid()
      modifies searchCache.shards
      ensures Valid() && View() == CacheDetails(cfg, old(View()), id, d, now)
    {
      searchCache.AddItemWithTTL(id, Detailed(d), cfg.indexTTL, now);
    }

    static method FilterSuccessfulResults(results: seq<SearchResult>) returns (good: seq<SearchResult>)
      ensures good == SuccessfulOnes(results)
    {
      good := [];
      assert results[..0] == [];
      for i := 0 to |results|
        invariant good == SuccessfulOnes(results[..i])
      {
        if results[i].error.None? && |results[i].vacancies| > 0 {
          good := good + [results[i]];
        }
        assert results[..i + 1][..i] == results[..i];
      }
      assert results[..|results|] == results;
    }

    method ExecuteSearch(hash: string, fetch: Fetch, asked: int, cached: int, clock: nat -> int)
      returns (results: seq<SearchResult>, err: Option<Error>)
      requires Valid()
      modifies searchCache.shards, vacancyIndex.shards
      ensures Valid()
      ensures (View(), results, err) == Execute(cfg, old(View()), hash, fetch, asked, cached, clock)
      ensures Served(old(View()), hash, asked) ==>
                results == old(View()).search[hash].value.results && err == None && View() == old(View())
      ensures !Served(old(View()), hash, asked) ==>
                match fetch
                case Fetched(rs) => results == rs && err == None
                case _ => results == [] && err.Some? && View() == old(View())
    {
      var hit := TryGetFromCache(hash, asked);
      if hit.Some? {
        return hit.value, None;
      }
      match fetch
      case NoParsers => return [], Some("no parsers available");
      case FetchFailed => return [], Some("concurrent search failed");
      case Fetched(rs) =>
        var good := FilterSuccessfulResults(rs);
        if |good| > 0 {
          CacheSearchResults(hash, good, cached, clock);
        }
        return rs, None;
    }

    method SearchVacancyDetails(id: string, fetch: DetailsFetch, asked: int, cached: int)
      returns (details: Option<Details>, err: Option<Error>)
      requires Valid()
      modifies searchCache.shards
      ensures Valid()
      ensures (View(), details, err) == ExecuteDetails(cfg, old(View()), id, fetch, asked, cached)
      ensures details.Some? <==> err.None?
      ensures fetch.DetailsFetched? && old(View()).details == map[] ==>
                details == Some(fetch.details)
                && View().search == old(View()).search[id := Item(Detailed(fetch.details), cached + cfg.indexTTL)]
    {
      var hit := vacancyDetails.GetItem(id, asked);
      if hit.Some? {
        return hit, None;
      }
      match fetch
      case DetailsFailed(e) => return None, Some(e);
      case DetailsFetched(d) =>
        CacheDetailsResult(id, d, cached);
        return Some(d), None;
    }

    /** Short details of a vacancy by way of the index. The index is asked at `now` and the
        search cache at `later`; a miss there empties the whole index. */
    method GetVacancyDetails(source: string, id: string, now: int, later: int) returns (a: Answer)
      requires Valid()
      modifies vacancyIndex.shards
      ensures Valid()
      ensures Answers(old(View()), source, id, now, later, a)
      ensures View() == if a.Stale? then old(View()).(index := map[]) else old(View())
      ensures a.Found? ==>
                var c, key := old(View()), CompositeKey(source, id);
                && key in c.index && now <= c.index[key].expTime
                && var h := c.index[key].value.searchHash;
                && h in c.search && later <= c.search[h].expTime && c.search[h].value.Results?
                && var rs := c.search[h].value.results;
                || (a.target == NO_VACANCY && forall r: nat, i: nat :: !IsMatch(rs, source, id, r, i))
                || (exists r: nat, i: nat ::
                      && IsLastMatch(rs, source, id, r, i)
                      && var v := rs[r].vacancies[i];
                      && a.target.id == v.id && a.target.job == v.job && a.target.salary == v.salary
                      && a.target.company == v.company && a.target.area == v.area && a.target.url == v.url
                      && a.target.seeker == "" && a.target.description == "")
    {
      var key := CompositeKey(source, id);
      var entry := vacancyIndex.GetItem(key, now);
      if entry.None? {
        return NotIndexed;
      }
      var cached := searchCache.GetItem(entry.value.searchHash, later);
      match cached
      case None =>
        vacancyIndex.DeleteItem(key);
        return Stale;
      case Some(value) =>
        if !value.Results? {
          return WrongType;
        }
        var target := Scan(value.results, source, id);
        return Found(target);
    }
  }

  /** What a lookup may answer, given the contents of the caches. */
  ghost predicate Answers(c: Caches, source: string, id: string, now: int, later: int, a: Answer) {
    match Lookup(c.index, CompositeKey(source, id), now)
    case None => a == NotIndexed
    case Some(entry) => Resolves(c, entry, source, id, later, a)
  }

  /** The second half of a lookup, after the index gave this entry. */
  ghost predicate Resolves(c: Caches, entry: VacancyIndex, source: string, id: string, now: int, a: Answer) {
    var cached: Option<CacheValue> := Lookup(c.search, entry.searchHash, now);
    match cached
    case None => a == Stale
    case Some(Detailed(_)) => a == WrongType
    case Some(Results(rs)) => a.Found? && ScanShows(rs, source, id, a.target)
  }

  ghost predicate Increasing(at: seq<nat>) {
    forall j, k :: 0 <= j < k < |at| ==> at[j] < at[k]
  }

  /** `good` are the results at the positions `at`, which are those without error and with
      some vacancy, in order. */
  ghost predicate Selects(rs: seq<SearchResult>, good: seq<SearchResult>, at: seq<nat>) {
    && |at| == |good| && Increasing(at)
    && (forall k :: 0 <= k < |at| ==> at[k] < |rs| && good[k] == rs[at[k]])
    && (forall i: nat :: i in at <==> i < |rs| && rs[i].error == None && rs[i].vacancies != [])
  }

  lemma SelectsMore(rs: seq<SearchResult>, r: SearchResult, good: seq<SearchResult>, at: seq<nat>)
    requires Selects(rs, good, at)
    ensures if Successful(r) then Selects(rs + [r], good + [r], at + [|rs|]) else Selects(rs + [r], good, at)
  {
  }

  /** The successful results are the results at the successful positions, each position once
      and in their order. */
  lemma {:induction false} SuccessfulOnesExactly(rs: seq<SearchResult>) returns (at: seq<nat>)
    ensures Selects(rs, SuccessfulOnes(rs), at)
  {
    at := [];
    if rs != [] {
      var n := |rs| - 1;
      at := SuccessfulOnesExactly(rs[..n]);
      SelectsMore(rs[..n], rs[n], SuccessfulOnes(rs[..n]), at);
      assert rs == rs[..n] + [rs[n]];
      if Successful(rs[n]) { at := at + [n]; }
    }
  }

  lemma SuccessfulOnesKept(rs: seq<SearchResult>)
    ensures forall r :: r in SuccessfulOnes(rs) <==> r in rs && Successful(r)
  {
    var at := SuccessfulOnesExactly(rs);
    forall r | r in rs && Successful(r) ensures r in SuccessfulOnes(rs) {
      var i: nat :| i < |rs| && rs[i] == r;
      assert i in at;
      var k :| 0 <= k < |at| && at[k] == i;
      assert SuccessfulOnes(rs)[k] == r;
    }
    forall r | r in SuccessfulOnes(rs) ensures r in rs && Successful(r) {
      var k :| 0 <= k < |at| && SuccessfulOnes(rs)[k] == r;
      assert at[k] in at;
    }
  }
}
