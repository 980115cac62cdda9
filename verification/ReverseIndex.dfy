/** The reverse index from composite keys to positions, and the linear scan it must agree
    with. */
module ReverseIndex {
  import opened Counting
  import opened Models
  import opened ShardedCache

  function CompositeKey(source: string, id: string): string { source + "_" + id }

  /** One name with its separator is a prefix of the other. */
  predicate Clash(a: string, b: string) { a + "_" <= b + "_" || b + "_" <= a + "_" }

  /** The composite key determines source and ID among names that do not clash, underscores
      or not. */
  lemma CompositeKeyInjective(s1: string, id1: string, s2: string, id2: string)
    requires s1 == s2 || !Clash(s1, s2)
    requires CompositeKey(s1, id1) == CompositeKey(s2, id2)
    ensures s1 == s2 && id1 == id2
  {
    var k := CompositeKey(s1, id1);
    assert s1 + "_" == k[..|s1| + 1] && s2 + "_" == k[..|s2| + 1];
    assert Clash(s1, s2);
    assert id1 == k[|s1| + 1..] && id2 == k[|s2| + 1..];
  }

  lemma ShorterKey(a: string, b: string) returns (x: string)
    requires a + "_" <= b + "_"
    ensures CompositeKey(a, x) == CompositeKey(b, "")
  {
    x := (b + "_")[|a| + 1..];
    assert CompositeKey(a, x) == b + "_" == CompositeKey(b, "");
  }

  /** Two names have a composite key in common, for some IDs, if and only if they clash. */
  lemma KeysMeetIff(a: string, b: string)
    ensures (exists x, y :: CompositeKey(a, x) == CompositeKey(b, y)) <==> Clash(a, b)
  {
    if a + "_" <= b + "_" {
      var x := ShorterKey(a, b);
    } else if b + "_" <= a + "_" {
      var y := ShorterKey(b, a);
    } else {
      forall x, y ensures CompositeKey(a, x) != CompositeKey(b, y) {
        if CompositeKey(a, x) == CompositeKey(b, y) { CompositeKeyInjective(a, x, b, y); }
      }
    }
  }

  /** No other name clashes with the source. */
  ghost predicate Apart(names: set<string>, source: string) {
    forall name | name in names :: name == source || !Clash(name, source)
  }

  // ---------------------------------------------------------------- building the index

  type Write = (string, VacancyIndex)

  function RowWrite(hash: string, row: SearchResult, i: nat): Write
    requires i < |row.vacancies|
  {
    (CompositeKey(row.vacancies[i].seeker, row.vacancies[i].id), VacancyIndex(hash, row.parserName, i))
  }

  /** The writes for the first n vacancies of one parser's result. */
  function RowWrites(hash: string, row: SearchResult, n: nat): (ws: seq<Write>)
    requires n <= |row.vacancies|
    ensures |ws| == n
  {
    seq(n, i requires 0 <= i < n => RowWrite(hash, row, i))
  }

  function Writes(hash: string, results: seq<SearchResult>): seq<Write> {
    if results == [] then []
    else
      var last := results[|results| - 1];
      Writes(hash, results[..|results| - 1]) + RowWrites(hash, last, |last.vacancies|)
  }

  /** Every write reads the clock for itself: the k-th one at clock(k). */
  function WriteAll(t: Table<VacancyIndex>, ws: seq<Write>, ttl: int, clock: nat -> int): Table<VacancyIndex> {
    if ws == [] then t
    else
      var n := |ws| - 1;
      WriteAll(t, ws[..n], ttl, clock)[ws[n].0 := Item(ws[n].1, clock(n) + ttl)]
  }

  lemma WriteSnoc(t: Table<VacancyIndex>, ws: seq<Write>, w: Write, ttl: int, clock: nat -> int)
    ensures WriteAll(t, ws + [w], ttl, clock)
            == WriteAll(t, ws, ttl, clock)[w.0 := Item(w.1, clock(|ws|) + ttl)]
  {
    assert (ws + [w])[..|ws|] == ws;
  }

  /** The clock as the writes after the first k see it. */
  function Later(clock: nat -> int, k: nat): nat -> int { (n: nat) => clock(k + n) }

  lemma {:induction false} WriteAllAppend(t: Table<VacancyIndex>, xs: seq<Write>, ys: seq<Write>,
                                          ttl: int, clock: nat -> int)
    ensures WriteAll(t, xs + ys, ttl, clock)
            == WriteAll(WriteAll(t, xs, ttl, clock), ys, ttl, Later(clock, |xs|))
  {
    if ys == [] {
      assert xs + ys == xs;
    } else {
      assert (xs + ys)[..|xs + ys| - 1] == xs + ys[..|ys| - 1];
      WriteAllAppend(t, xs, ys[..|ys| - 1], ttl, clock);
    }
  }

  /** The i-th write leads from one table to the next. */
  ghost predicate WriteLeads(steps: seq<Table<VacancyIndex>>, hash: string, row: SearchResult,
                             ttl: int, clock: nat -> int, i: nat)
    requires i < |row.vacancies| && |steps| == |row.vacancies| + 1
  {
    var w := RowWrite(hash, row, i);
    steps[i + 1] == steps[i][w.0 := Item(w.1, clock(i) + ttl)]
  }

  /** The tables that one row's writes lead through. */
  lemma RowSteps(t: Table<VacancyIndex>, hash: string, row: SearchResult, ttl: int, clock: nat -> int)
    returns (steps: seq<Table<VacancyIndex>>)
    ensures |steps| == |row.vacancies| + 1 && steps[0] == t
    ensures forall i :: 0 <= i < |row.vacancies| ==> WriteLeads(steps, hash, row, ttl, clock, i)
    ensures steps[|row.vacancies|] == WriteAll(t, RowWrites(hash, row, |row.vacancies|), ttl, clock)
  {
    var n := |row.vacancies|;
    steps := seq(n + 1, i requires 0 <= i <= n => WriteAll(t, RowWrites(hash, row, i), ttl, clock));
    forall i | 0 <= i < n ensures WriteLeads(steps, hash, row, ttl, clock, i) {
      assert RowWrites(hash, row, i + 1) == RowWrites(hash, row, i) + [RowWrite(hash, row, i)];
      WriteSnoc(t, RowWrites(hash, row, i), RowWrite(hash, row, i), ttl, clock);
    }
  }

  /** The body of the inner loop: the i-th write. */
  method IndexOne(index: InmemoryShardedCache<VacancyIndex>, hash: string, row: SearchResult, i: nat,
                  ttl: int, now: int, ghost next: Table<VacancyIndex>)
    requires index.Valid() && i < |row.vacancies|
    requires var w := RowWrite(hash, row, i); next == index.Contents()[w.0 := Item(w.1, now + ttl)]
    modifies index.shards
    ensures index.Valid() && index.Contents() == next
  {
    var vacancy := row.vacancies[i];
    var key := CompositeKey(vacancy.seeker, vacancy.id);
    index.AddItemWithTTL(key, VacancyIndex(hash, row.parserName, i), ttl, now);
  }

  /** The inner loop. */
  method IndexRow(index: InmemoryShardedCache<VacancyIndex>, hash: string, row: SearchResult,
                  ttl: int, clock: nat -> int)
    requires index.Valid()
    modifies index.shards
    ensures index.Valid()
    ensures index.Contents()
            == WriteAll(old(index.Contents()), RowWrites(hash, row, |row.vacancies|), ttl, clock)
  {
    ghost var steps := RowSteps(index.Contents(), hash, row, ttl, clock);
    for i := 0 to |row.vacancies|
      invariant index.Valid() && index.Contents() == steps[i]
    {
      assert WriteLeads(steps, hash, row, ttl, clock, i);
      IndexOne(index, hash, row, i, ttl, clock(i), steps[i + 1]);
    }
  }

  method BuildReverseIndex(index: InmemoryShardedCache<VacancyIndex>, hash: string,
                           results: seq<SearchResult>, ttl: int, clock: nat -> int)
    requires index.Valid()
    modifies index.shards
    ensures index.Valid()
    ensures index.Contents() == WriteAll(old(index.Contents()), Writes(hash, results), ttl, clock)
  {
    ghost var before := index.Contents();
    var k := 0;
    assert results[..0] == [];
    for r := 0 to |results|
      invariant index.Valid() && k == |Writes(hash, results[..r])|
      invariant index.Contents() == WriteAll(before, Writes(hash, results[..r]), ttl, clock)
    {
      IndexRow(index, hash, results[r], ttl, Later(clock, k));
      WriteAllAppend(before, Writes(hash, results[..r]),
                     RowWrites(hash, results[r], |results[r].vacancies|), ttl, clock);
      k := k + |results[r].vacancies|;
      assert results[..r + 1][..r] == results[..r];
    }
    assert results[..|results|] == results;
  }

  // ---------------------------------------------------------------- the scan

  ghost predicate IsMatch(results: seq<SearchResult>, source: string, id: string, r: nat, i: nat) {
    && r < |results| && i < |results[r].vacancies|
    && results[r].parserName == source && results[r].vacancies[i].id == id
  }

  predicate Follows(r: int, i: int, r': int, i': int) { r < r' || (r == r' && i < i') }

  ghost predicate IsLastMatch(results: seq<SearchResult>, source: string, id: string, r: nat, i: nat) {
    && IsMatch(results, source, id, r, i)
    && forall r': nat, i': nat :: IsMatch(results, source, id, r', i') ==> !Follows(r, i, r', i')
  }

  /** The target has the vacancy's six copied fields and no others. */
  ghost predicate Displays(target: Vacancy, v: Vacancy) {
    && target.id == v.id && target.job == v.job && target.salary == v.salary
    && target.company == v.company && target.area == v.area && target.url == v.url
    && target.seeker == "" && target.description == ""
  }

  /** What the scan shows: the last match in reading order, or the empty vacancy. */
  ghost predicate ScanShows(results: seq<SearchResult>, source: string, id: string, target: Vacancy) {
    || (target == NO_VACANCY && forall r: nat, i: nat :: !IsMatch(results, source, id, r, i))
    || (exists r: nat, i: nat :: IsLastMatch(results, source, id, r, i)
                       && Displays(target, results[r].vacancies[i]))
  }

  /** What the scan shows after the rows before r and the first i vacancies of row r. */
  ghost predicate ScannedUpTo(results: seq<SearchResult>, source: string, id: string,
                              r: nat, i: nat, target: Vacancy) {
    || (target == NO_VACANCY
        && forall r': nat, i': nat :: IsMatch(results, source, id, r', i') ==> !Follows(r', i', r, i))
    || (exists r0: nat, i0: nat ::
          && IsMatch(results, source, id, r0, i0) && Follows(r0, i0, r, i)
          && Displays(target, results[r0].vacancies[i0])
          && forall r': nat, i': nat :: IsMatch(results, source, id, r', i') && Follows(r', i', r, i)
                              ==> !Follows(r0, i0, r', i'))
  }

  lemma ScanStep(results: seq<SearchResult>, source: string, id: string, r: nat, i: nat,
                 target: Vacancy, target': Vacancy)
    requires r < |results| && i < |results[r].vacancies|
    requires ScannedUpTo(results, source, id, r, i, target)
    requires var v := results[r].vacancies[i];
             if results[r].parserName == source && v.id == id then Displays(target', v) else target' == target
    ensures ScannedUpTo(results, source, id, r, i + 1, target')
  {
    if IsMatch(results, source, id, r, i) {
      assert Follows(r, i, r, i + 1);
    } else {
      assert forall r': nat, i': nat :: IsMatch(results, source, id, r', i') && Follows(r', i', r, i + 1)
                              ==> Follows(r', i', r, i);
    }
  }

  lemma ScanRowEnds(results: seq<SearchResult>, source: string, id: string, r: nat, target: Vacancy)
    requires r < |results|
    requires var n := if results[r].parserName == source then |results[r].vacancies| else 0;
             ScannedUpTo(results, source, id, r, n, target)
    ensures ScannedUpTo(results, source, id, r + 1, 0, target)
  {
    var n := if results[r].parserName == source then |results[r].vacancies| else 0;
    assert forall r': nat, i': nat :: IsMatch(results, source, id, r', i') && Follows(r', i', r + 1, 0)
                            ==> Follows(r', i', r, n);
    assert forall r': nat, i': nat :: Follows(r', i', r, n) ==> Follows(r', i', r + 1, 0);
  }

  method Scan(results: seq<SearchResult>, source: string, id: string) returns (target: Vacancy)
    ensures ScanShows(results, source, id, target)
  {
    target := NO_VACANCY;
    for r := 0 to |results|
      invariant ScannedUpTo(results, source, id, r, 0, target)
      invariant target.seeker == "" && target.description == ""
    {
      if results[r].parserName == source {
        for i := 0 to |results[r].vacancies|
          invariant ScannedUpTo(results, source, id, r, i, target)
          invariant target.seeker == "" && target.description == ""
        {
          var v := results[r].vacancies[i];
          ghost var before := target;
          if v.id == id {
            target := target.(id := v.id, job := v.job, salary := v.salary,
                              company := v.company, area := v.area, url := v.url);
          }
          ScanStep(results, source, id, r, i, before, target);
        }
      }
      ScanRowEnds(results, source, id, r, target);
    }
  }

  // ---------------------------------------------------------------- the index agrees with the scan

  lemma {:induction false} LastWriteWins(t: Table<VacancyIndex>, ws: seq<Write>, ttl: int, clock: nat -> int, k: nat)
    requires k < |ws| && forall k' :: k < k' < |ws| ==> ws[k'].0 != ws[k].0
    ensures ws[k].0 in WriteAll(t, ws, ttl, clock)
    ensures WriteAll(t, ws, ttl, clock)[ws[k].0] == Item(ws[k].1, clock(k) + ttl)
  {
    if k < |ws| - 1 { LastWriteWins(t, ws[..|ws| - 1], ttl, clock, k); }
  }

  lemma {:induction false} UnwrittenStays(t: Table<VacancyIndex>, ws: seq<Write>, ttl: int, clock: nat -> int,
                                          key: string)
    requires forall k :: 0 <= k < |ws| ==> ws[k].0 != key
    ensures key in WriteAll(t, ws, ttl, clock) <==> key in t
    ensures key in t ==> WriteAll(t, ws, ttl, clock)[key] == t[key]
  {
    if ws != [] { UnwrittenStays(t, ws[..|ws| - 1], ttl, clock, key); }
  }

  /** How many vacancies the results before r hold: the number of the first write of row r. */
  function Offset(results: seq<SearchResult>, r: nat): nat
    requires r <= |results|
  {
    if r == 0 then 0 else Offset(results, r - 1) + |results[r - 1].vacancies|
  }

  lemma {:induction false} OffsetOfPrefix(results: seq<SearchResult>, r: nat, n: nat)
    requires r <= n <= |results|
    ensures Offset(results[..n], r) == Offset(results, r)
  {
    if r > 0 { OffsetOfPrefix(results, r - 1, n); }
  }

  lemma {:induction false} OffsetMonotone(results: seq<SearchResult>, r: nat, r': nat)
    requires r < r' <= |results|
    ensures Offset(results, r) + |results[r].vacancies| <= Offset(results, r')
  {
    if r + 1 < r' { OffsetMonotone(results, r, r' - 1); }
  }

  lemma {:induction false} WriteCount(hash: string, results: seq<SearchResult>)
    ensures |Writes(hash, results)| == Offset(results, |results|)
  {
    if results != [] {
      WriteCount(hash, results[..|results| - 1]);
      OffsetOfPrefix(results, |results| - 1, |results| - 1);
    }
  }

  /** The vacancy at (r, i) makes the write number Offset(r) + i. */
  lemma {:induction false} WriteAt(hash: string, results: seq<SearchResult>, r: nat, i: nat)
    requires r < |results| && i < |results[r].vacancies|
    ensures Offset(results, r) + i < |Writes(hash, results)|
    ensures var v := results[r].vacancies[i];
            Writes(hash, results)[Offset(results, r) + i]
            == (CompositeKey(v.seeker, v.id), VacancyIndex(hash, results[r].parserName, i))
  {
    var n := |results| - 1;
    WriteCount(hash, results[..n]);
    OffsetOfPrefix(results, r, n);
    OffsetOfPrefix(results, n, n);
    if r < n { WriteAt(hash, results[..n], r, i); }
  }

  /** Every write comes from some vacancy. */
  lemma {:induction false} WriteFrom(hash: string, results: seq<SearchResult>, k: nat) returns (r: nat, i: nat)
    requires k < |Writes(hash, results)|
    ensures r < |results| && i < |results[r].vacancies| && k == Offset(results, r) + i
  {
    var n := |results| - 1;
    WriteCount(hash, results[..n]);
    OffsetOfPrefix(results, n, n);
    if k < |Writes(hash, results[..n])| {
      r, i := WriteFrom(hash, results[..n], k);
      OffsetOfPrefix(results, r, n);
    } else {
      r, i := n, k - |Writes(hash, results[..n])|;
    }
  }

  /** The parsers have these names, and each stamps its own on every vacancy. */
  predicate WellNamed(names: set<string>, results: seq<SearchResult>) {
    forall r :: 0 <= r < |results| ==>
      results[r].parserName in names
      && forall i :: 0 <= i < |results[r].vacancies| ==> results[r].vacancies[i].seeker == results[r].parserName
  }

  lemma MatchWrites(names: set<string>, hash: string, results: seq<SearchResult>, source: string, id: string,
                    r: nat, i: nat)
    requires WellNamed(names, results) && IsMatch(results, source, id, r, i)
    ensures Offset(results, r) + i < |Writes(hash, results)|
    ensures Writes(hash, results)[Offset(results, r) + i]
            == (CompositeKey(source, id), VacancyIndex(hash, source, i))
  {
    WriteAt(hash, results, r, i);
  }

  lemma WriteMatches(names: set<string>, hash: string, results: seq<SearchResult>, source: string, id: string, k: nat)
    returns (r: nat, i: nat)
    requires WellNamed(names, results) && Apart(names, source)
    requires k < |Writes(hash, results)| && Writes(hash, results)[k].0 == CompositeKey(source, id)
    ensures IsMatch(results, source, id, r, i) && k == Offset(results, r) + i
  {
    r, i := WriteFrom(hash, results, k);
    WriteAt(hash, results, r, i);
    CompositeKeyInjective(source, id, results[r].vacancies[i].seeker, results[r].vacancies[i].id);
  }

  lemma EarlierWritesEarlier(results: seq<SearchResult>, r: nat, i: nat, r': nat, i': nat)
    requires r < |results| && i < |results[r].vacancies|
    requires r' < |results| && i' < |results[r'].vacancies|
    requires Offset(results, r) + i < Offset(results, r') + i'
    ensures Follows(r, i, r', i')
  {
    if r' < r { OffsetMonotone(results, r', r); }
  }

  /** After the index was built, the entry of (source, id) names the search and holds the
      position of the very vacancy on which the scan ends, even when the ID occurs more
      than once. */
  lemma IndexAgreesWithScan(names: set<string>, t: Table<VacancyIndex>, hash: string, results: seq<SearchResult>,
                            ttl: int, clock: nat -> int, source: string, id: string, r: nat, i: nat)
    requires WellNamed(names, results) && Apart(names, source)
    requires IsLastMatch(results, source, id, r, i)
    ensures var t' := WriteAll(t, Writes(hash, results), ttl, clock); var key := CompositeKey(source, id);
            && key in t'
            && t'[key] == Item(VacancyIndex(hash, source, i), clock(Offset(results, r) + i) + ttl)
  {
    var ws := Writes(hash, results);
    var k := Offset(results, r) + i;
    MatchWrites(names, hash, results, source, id, r, i);
    forall k' | k < k' < |ws| ensures ws[k'].0 != ws[k].0 {
      if ws[k'].0 == ws[k].0 {
        var r', i' := WriteMatches(names, hash, results, source, id, k');
        EarlierWritesEarlier(results, r, i, r', i');
      }
    }
    LastWriteWins(t, ws, ttl, clock, k);
  }

  /** Without a match the entry of (source, id) is left as it was. */
  lemma IndexLeavesOthers(names: set<string>, t: Table<VacancyIndex>, hash: string, results: seq<SearchResult>,
                          ttl: int, clock: nat -> int, source: string, id: string)
    requires WellNamed(names, results) && Apart(names, source)
    requires forall r: nat, i: nat :: !IsMatch(results, source, id, r, i)
    ensures var t' := WriteAll(t, Writes(hash, results), ttl, clock); var key := CompositeKey(source, id);
            && (key in t' <==> key in t)
            && (key in t ==> t'[key] == t[key])
  {
    var ws := Writes(hash, results);
    forall k | 0 <= k < |ws| ensures ws[k].0 != CompositeKey(source, id) {
      if ws[k].0 == CompositeKey(source, id) {
        var r, i := WriteMatches(names, hash, results, source, id, k);
      }
    }
    UnwrittenStays(t, ws, ttl, clock, CompositeKey(source, id));
  }

  /** A parser whose name clashes with the asked source can make an entry under the source's
      key: the index has the key, yet the scan finds nothing and shows the empty vacancy. */
  lemma ClashMisleads(name: string, source: string, hash: string, ttl: int, clock: nat -> int)
    returns (results: seq<SearchResult>, id: string)
    requires name != source && Clash(name, source)
    ensures WellNamed({name}, results) && forall r: nat, i: nat :: !IsMatch(results, source, id, r, i)
    ensures CompositeKey(source, id) in WriteAll(map[], Writes(hash, results), ttl, clock)
    ensures ScanShows(results, source, id, NO_VACANCY)
  {
    KeysMeetIff(name, source);
    var x, y :| CompositeKey(name, x) == CompositeKey(source, y);
    id := y;
    results := [SearchResult([NO_VACANCY.(id := x, seeker := name)], name, hash, None, 0)];
    WriteAt(hash, results, 0, 0);
    Written(map[], Writes(hash, results), ttl, clock, 0);
  }

  lemma {:induction false} Written(t: Table<VacancyIndex>, ws: seq<Write>, ttl: int, clock: nat -> int, k: nat)
    requires k < |ws|
    ensures ws[k].0 in WriteAll(t, ws, ttl, clock)
  {
    if k < |ws| - 1 { Written(t, ws[..|ws| - 1], ttl, clock, k); }
  }

  /** The index built from these results has an entry for (source, id) exactly if the scan
      finds it, and the entry names the position on which the scan ends. */
  ghost predicate Agrees(results: seq<SearchResult>, hash: string, ttl: int, clock: nat -> int,
                         source: string, id: string)
  {
    var t := WriteAll(map[], Writes(hash, results), ttl, clock);
    var key := CompositeKey(source, id);
    && (key in t <==> exists r: nat, i: nat :: IsMatch(results, source, id, r, i))
    && forall r: nat, i: nat :: IsLastMatch(results, source, id, r, i) ==>
         key in t && t[key].value == VacancyIndex(hash, source, i)
  }

  lemma ApartAgrees(names: set<string>, results: seq<SearchResult>, hash: string, ttl: int, clock: nat -> int,
                    source: string, id: string)
    requires WellNamed(names, results) && Apart(names, source)
    ensures Agrees(results, hash, ttl, clock, source, id)
  {
    if r: nat, i: nat :| IsMatch(results, source, id, r, i) {
      MatchWrites(names, hash, results, source, id, r, i);
      Written(map[], Writes(hash, results), ttl, clock, Offset(results, r) + i);
      forall r: nat, i: nat | IsLastMatch(results, source, id, r, i)
        ensures var t := WriteAll(map[], Writes(hash, results), ttl, clock); var key := CompositeKey(source, id);
                key in t && t[key].value == VacancyIndex(hash, source, i)
      {
        IndexAgreesWithScan(names, map[], hash, results, ttl, clock, source, id, r, i);
      }
    } else {
      IndexLeavesOthers(names, map[], hash, results, ttl, clock, source, id);
    }
  }

  /** Index and scan agree for a source, on all results of the registered parsers and all
      IDs, if and only if no other registered name clashes with the source. */
  lemma AgreesIff(names: set<string>, source: string, hash: string, ttl: int, clock: nat -> int)
    ensures (forall results, id :: WellNamed(names, results) ==> Agrees(results, hash, ttl, clock, source, id))
            <==> Apart(names, source)
  {
    if Apart(names, source) {
      forall results, id | WellNamed(names, results) ensures Agrees(results, hash, ttl, clock, source, id) {
        ApartAgrees(names, results, hash, ttl, clock, source, id);
      }
    } else {
      var name :| name in names && name != source && Clash(name, source);
      var results, id := ClashMisleads(name, source, hash, ttl, clock);
      assert WellNamed(names, results) && !Agrees(results, hash, ttl, clock, source, id);
    }
  }
}
