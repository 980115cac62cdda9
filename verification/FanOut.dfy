/** The concurrent search: one outer goroutine per selected parser waits for its inner
    goroutine or for the context, a closer closes the result channel when all outer ones are
    done, and the caller collects until then. One event is one channel or counter operation;
    an event that is not enabled changes nothing. */
module FanOut {
  import opened Counting
  import opened Models

  /** The names of the selected parsers, the capacity of the result channel, the hash. */
  datatype Config = Config(names: seq<string>, capacity: nat, hash: string)

  /** What a parser call returned. */
  datatype Found = Found(vacancies: seq<Vacancy>, error: Option<Error>, duration: int)

  datatype Inner = NotStarted | Searching | Holding(f: Found) | Finished

  datatype Outer = Unborn | Selecting | Sending(r: SearchResult) | Sent | Done

  /** The two goroutines of one parser, the capacity-one channel between them, and what the
      parser's call returned. */
  datatype Pair = Pair(inner: Inner, outer: Outer, box: Option<Found>, found: Option<Found>)

  datatype Entry = Entry(parser: nat, r: SearchResult)

  /** The caller is launching while launched < n, and then collecting. */
  datatype Sys = Sys(
    launched: nat,
    pairs: seq<Pair>,
    cancelled: bool,
    wg: int,
    results: seq<Entry>,
    closed: bool,
    panicked: bool,
    collected: seq<Entry>,
    returned: bool)

  datatype Event =
    | Launch
    | Answer(i: nat, f: Found)
    | Put(i: nat)
    | Take(i: nat)
    | Expire(i: nat)
    | Send(i: nat)
    | Finish(i: nat)
    | Cancel
    | Close
    | Collect

  const UNSTARTED := Pair(NotStarted, Unborn, None, None)

  function Start(c: Config): Sys {
    Sys(0, seq(|c.names|, _ => UNSTARTED), false, 0, [], false, false, [], false)
  }

  function RealResult(c: Config, i: nat, f: Found): SearchResult
    requires i < |c.names|
  {
    SearchResult(f.vacancies, c.names[i], c.hash, f.error, f.duration)
  }

  function TimeoutResult(c: Config, i: nat): SearchResult
    requires i < |c.names|
  {
    SearchResult([], c.names[i], "", Some("timeout exceeded"), 0)
  }

  /** The steps that stay between the two goroutines of parser i. */
  function PairStep(c: Config, cancelled: bool, i: nat, p: Pair, e: Event): Pair
    requires i < |c.names|
  {
    match e
    case Answer(_, f) =>
      if p.inner.Searching? then p.(inner := Holding(f), found := Some(f)) else p
    case Put(_) =>
      if p.inner.Holding? && p.box.None? then p.(inner := Finished, box := Some(p.inner.f)) else p
    case Take(_) =>
      if p.outer.Selecting? && p.box.Some?
      then p.(outer := Sending(RealResult(c, i, p.box.value)), box := None)
      else p
    case Expire(_) =>
      if p.outer.Selecting? && cancelled then p.(outer := Sending(TimeoutResult(c, i))) else p
    case _ => p
  }

  function Update(s: Sys, i: nat, p: Pair): Sys
    requires i < |s.pairs|
  {
    s.(pairs := s.pairs[i := p])
  }

  function LaunchStep(s: Sys): Sys {
    if s.launched < |s.pairs|
    then Update(s, s.launched, s.pairs[s.launched].(inner := Searching, outer := Selecting)).(
      launched := s.launched + 1, wg := s.wg + 1)
    else s
  }

  function SendStep(c: Config, s: Sys, i: nat): Sys
    requires i < |s.pairs| && s.pairs[i].outer.Sending?
  {
    if s.closed then s.(panicked := true)
    else if |s.results| < c.capacity
    then Update(s, i, s.pairs[i].(outer := Sent)).(
      results := s.results + [Entry(i, s.pairs[i].outer.r)])
    else s
  }

  function FinishStep(s: Sys, i: nat): Sys
    requires i < |s.pairs|
  {
    Update(s, i, s.pairs[i].(outer := Done)).(wg := s.wg - 1)
  }

  function CollectStep(s: Sys): Sys {
    if s.launched < |s.pairs| || s.returned then s
    else if s.results != [] then s.(collected := s.collected + [s.results[0]], results := s.results[1..])
    else if s.closed then s.(returned := true)
    else s
  }

  function Step(c: Config, s: Sys, e: Event): (t: Sys)
    requires |s.pairs| == |c.names|
    ensures |t.pairs| == |c.names|
  {
    match e
    case Launch => LaunchStep(s)
    case Send(i) => if i < |s.pairs| && s.pairs[i].outer.Sending? then SendStep(c, s, i) else s
    case Finish(i) => if i < |s.pairs| && s.pairs[i].outer.Sent? then FinishStep(s, i) else s
    case Cancel => s.(cancelled := true)
    case Close =>
      if s.launched == |s.pairs| && s.wg == 0 && !s.closed then s.(closed := true) else s
    case Collect => CollectStep(s)
    case _ => if e.i < |s.pairs| then Update(s, e.i, PairStep(c, s.cancelled, e.i, s.pairs[e.i], e)) else s
  }

  function RunFrom(c: Config, s: Sys, es: seq<Event>): (t: Sys)
    requires |s.pairs| == |c.names|
    ensures |t.pairs| == |c.names|
  {
    if es == [] then s else Step(c, RunFrom(c, s, es[..|es| - 1]), es[|es| - 1])
  }

  function Run(c: Config, es: seq<Event>): Sys { RunFrom(c, Start(c), es) }

  lemma {:induction false} RunAppend(c: Config, s: Sys, xs: seq<Event>, ys: seq<Event>)
    requires |s.pairs| == |c.names|
    ensures RunFrom(c, s, xs + ys) == RunFrom(c, RunFrom(c, s, xs), ys)
  {
    if ys == [] {
      assert xs + ys == xs;
    } else {
      assert (xs + ys)[..|xs + ys| - 1] == xs + ys[..|ys| - 1];
      RunAppend(c, s, xs, ys[..|ys| - 1]);
    }
  }

  // ---------------------------------------------------------------- the invariant

  predicate IsRunning(p: Pair) { p.outer.Selecting? || p.outer.Sending? || p.outer.Sent? }

  predicate HasSent(p: Pair) { p.outer.Sent? || p.outer.Done? }

  function OfParser(i: nat): Entry -> bool { (e: Entry) => e.parser == i }

  /** The result is the parser's own, or, after a cancellation only, a timeout entry. */
  predicate Genuine(c: Config, cancelled: bool, i: nat, found: Option<Found>, r: SearchResult) {
    i < |c.names|
    && ((cancelled && r == TimeoutResult(c, i)) || (found.Some? && r == RealResult(c, i, found.value)))
  }

  /** The two goroutines of parser i and the channel between them. */
  ghost predicate PairOk(c: Config, cancelled: bool, launched: bool, i: nat, p: Pair) {
    && (!launched ==> p == UNSTARTED)
    && (launched ==> !p.outer.Unborn? && !p.inner.NotStarted?)
    && (!p.inner.Finished? ==> p.box.None?)
    && (p.box.Some? ==> p.found == p.box)
    && (p.inner.Holding? ==> p.found == Some(p.inner.f))
    && (p.inner.Searching? ==> p.found.None?)
    && (p.outer.Sending? ==> Genuine(c, cancelled, i, p.found, p.outer.r))
  }

  ghost predicate Pairs(c: Config, s: Sys) {
    && |s.pairs| == |c.names| && s.launched <= |c.names|
    && forall i :: 0 <= i < |s.pairs| ==> PairOk(c, s.cancelled, i < s.launched, i, s.pairs[i])
  }

  ghost predicate Counts(c: Config, s: Sys) {
    && s.wg == CountIf(s.pairs, IsRunning)
    && |s.results| + |s.collected| == CountIf(s.pairs, HasSent)
    && |s.results| <= c.capacity
    && (s.closed ==> s.launched == |c.names| && s.wg == 0)
    && (s.returned ==> s.closed && s.results == [])
    && !s.panicked
  }

  ghost predicate EntryOk(c: Config, s: Sys, e: Entry) {
    e.parser < |s.pairs| && Genuine(c, s.cancelled, e.parser, s.pairs[e.parser].found, e.r)
  }

  /** How many entries of parser i there are, in the channel and collected. */
  function EntriesOf(s: Sys, i: nat): nat {
    CountIf(s.results, OfParser(i)) + CountIf(s.collected, OfParser(i))
  }

  ghost predicate Entries(c: Config, s: Sys) {
    && (forall e | e in s.results || e in s.collected :: EntryOk(c, s, e))
    && (forall i :: 0 <= i < |s.pairs| ==> EntriesOf(s, i) == Bit(HasSent(s.pairs[i])))
  }

  ghost predicate Inv(c: Config, s: Sys) {
    Pairs(c, s) && Counts(c, s) && Entries(c, s)
  }

  lemma {:induction false} NoneOf(n: nat, p: Pair -> bool)
    requires !p(UNSTARTED)
    ensures CountIf(seq(n, _ => UNSTARTED), p) == 0
  {
    if n > 0 {
      assert seq(n, _ => UNSTARTED)[1..] == seq(n - 1, _ => UNSTARTED);
      NoneOf(n - 1, p);
    }
  }

  lemma StartInv(c: Config)
    ensures Inv(c, Start(c))
  {
    NoneOf(|c.names|, IsRunning);
    NoneOf(|c.names|, HasSent);
  }

  lemma PairMove(s: Sys, i: nat, p: Pair)
    requires i < |s.pairs|
    ensures CountIf(s.pairs[i := p], IsRunning) + Bit(IsRunning(s.pairs[i]))
            == CountIf(s.pairs, IsRunning) + Bit(IsRunning(p))
    ensures CountIf(s.pairs[i := p], HasSent) + Bit(HasSent(s.pairs[i]))
            == CountIf(s.pairs, HasSent) + Bit(HasSent(p))
    ensures IsRunning(s.pairs[i]) ==> CountIf(s.pairs, IsRunning) >= 1
  {
    CountUpdate(s.pairs, i, p, IsRunning);
    CountUpdate(s.pairs, i, p, HasSent);
    if IsRunning(s.pairs[i]) { CountAtLeastOne(s.pairs, i, IsRunning); }
  }

  lemma LaunchKeepsInv(c: Config, s: Sys)
    requires Inv(c, s)
    ensures Inv(c, LaunchStep(s))
  {
    var k := s.launched;
    if k < |s.pairs| {
      assert PairOk(c, s.cancelled, false, k, s.pairs[k]);
      PairMove(s, k, s.pairs[k].(inner := Searching, outer := Selecting));
    }
  }

  lemma PairStepOk(c: Config, cancelled: bool, i: nat, p: Pair, e: Event, launched: bool)
    requires i < |c.names| && PairOk(c, cancelled, launched, i, p)
    ensures var q := PairStep(c, cancelled, i, p, e);
            && PairOk(c, cancelled, launched, i, q) && IsRunning(q) == IsRunning(p) && HasSent(q) == HasSent(p)
            && (p.found.Some? ==> q.found == p.found)
  {
  }

  lemma PairReplaced(c: Config, s: Sys, i: nat, q: Pair)
    requires Inv(c, s) && i < |s.pairs| && PairOk(c, s.cancelled, i < s.launched, i, q)
    requires IsRunning(q) == IsRunning(s.pairs[i]) && HasSent(q) == HasSent(s.pairs[i])
    requires s.pairs[i].found.Some? ==> q.found == s.pairs[i].found
    ensures Inv(c, Update(s, i, q))
  {
    PairMove(s, i, q);
    var t := Update(s, i, q);
    forall x | x in t.results || x in t.collected ensures EntryOk(c, t, x) {
      assert EntryOk(c, s, x);
    }
    forall j | 0 <= j < |t.pairs| ensures EntriesOf(t, j) == Bit(HasSent(t.pairs[j])) {
      assert EntriesOf(s, j) == Bit(HasSent(s.pairs[j]));
    }
  }

  lemma PairStepKeepsInv(c: Config, s: Sys, e: Event, i: nat)
    requires Inv(c, s) && i < |s.pairs|
    ensures Inv(c, Update(s, i, PairStep(c, s.cancelled, i, s.pairs[i], e)))
  {
    PairStepOk(c, s.cancelled, i, s.pairs[i], e, i < s.launched);
    PairReplaced(c, s, i, PairStep(c, s.cancelled, i, s.pairs[i], e));
  }

  lemma SendKeepsEntries(c: Config, s: Sys, i: nat)
    requires Inv(c, s) && i < |s.pairs| && s.pairs[i].outer.Sending?
    ensures Entries(c, SendStep(c, s, i))
  {
    var t := SendStep(c, s, i);
    assert PairOk(c, s.cancelled, i < s.launched, i, s.pairs[i]);
    forall x | x in t.results || x in t.collected ensures EntryOk(c, t, x) {
      if x in s.results || x in s.collected { assert EntryOk(c, s, x); }
    }
    forall j | 0 <= j < |t.pairs| ensures EntriesOf(t, j) == Bit(HasSent(t.pairs[j])) {
      assert EntriesOf(s, j) == Bit(HasSent(s.pairs[j]));
      CountSnoc(s.results, Entry(i, s.pairs[i].outer.r), OfParser(j));
    }
  }

  lemma SendKeepsInv(c: Config, s: Sys, i: nat)
    requires Inv(c, s) && i < |s.pairs| && s.pairs[i].outer.Sending?
    ensures Inv(c, SendStep(c, s, i))
  {
    assert PairOk(c, s.cancelled, i < s.launched, i, s.pairs[i]);
    PairMove(s, i, s.pairs[i].(outer := Sent));
    SendKeepsEntries(c, s, i);
  }

  lemma FinishKeepsInv(c: Config, s: Sys, i: nat)
    requires Inv(c, s) && i < |s.pairs| && s.pairs[i].outer.Sent?
    ensures Inv(c, FinishStep(s, i))
  {
    var t := FinishStep(s, i);
    assert PairOk(c, s.cancelled, i < s.launched, i, s.pairs[i]);
    PairMove(s, i, s.pairs[i].(outer := Done));
    forall x | x in t.results || x in t.collected ensures EntryOk(c, t, x) {
      assert EntryOk(c, s, x);
    }
    forall j | 0 <= j < |t.pairs| ensures EntriesOf(t, j) == Bit(HasSent(t.pairs[j])) {
      assert EntriesOf(s, j) == Bit(HasSent(s.pairs[j]));
    }
  }

  lemma CollectKeepsInv(c: Config, s: Sys)
    requires Inv(c, s)
    ensures Inv(c, CollectStep(s))
  {
    var t := CollectStep(s);
    forall x | x in t.results || x in t.collected ensures EntryOk(c, t, x) {
      assert EntryOk(c, s, x);
    }
    forall j | 0 <= j < |t.pairs| ensures EntriesOf(t, j) == Bit(HasSent(t.pairs[j])) {
      assert EntriesOf(s, j) == Bit(HasSent(s.pairs[j]));
      if s.results != [] { CountSnoc(s.collected, s.results[0], OfParser(j)); }
    }
  }

  /** Steps that touch neither the pairs nor the entries. */
  lemma QuietKeepsEntries(c: Config, s: Sys, t: Sys)
    requires Entries(c, s) && t.pairs == s.pairs && t.results == s.results && t.collected == s.collected
    requires s.cancelled ==> t.cancelled
    ensures Entries(c, t)
  {
    forall x | x in t.results || x in t.collected ensures EntryOk(c, t, x) {
      assert EntryOk(c, s, x);
    }
    forall j | 0 <= j < |t.pairs| ensures EntriesOf(t, j) == Bit(HasSent(t.pairs[j])) {
      assert EntriesOf(s, j) == Bit(HasSent(s.pairs[j]));
    }
  }

  lemma StepKeepsInv(c: Config, s: Sys, e: Event)
    requires Inv(c, s)
    ensures Inv(c, Step(c, s, e))
  {
    match e
    case Launch => LaunchKeepsInv(c, s);
    case Send(i) => if i < |s.pairs| && s.pairs[i].outer.Sending? { SendKeepsInv(c, s, i); }
    case Finish(i) => if i < |s.pairs| && s.pairs[i].outer.Sent? { FinishKeepsInv(c, s, i); }
    case Cancel =>
      QuietKeepsEntries(c, s, Step(c, s, e));
      assert forall i :: 0 <= i < |s.pairs| ==> PairOk(c, s.cancelled, i < s.launched, i, s.pairs[i]);
    case Close => QuietKeepsEntries(c, s, Step(c, s, e));
    case Collect => CollectKeepsInv(c, s);
    case _ => if e.i < |s.pairs| { PairStepKeepsInv(c, s, e, e.i); }
  }

  lemma {:induction false} InvFrom(c: Config, s: Sys, es: seq<Event>)
    requires Inv(c, s)
    ensures Inv(c, RunFrom(c, s, es))
  {
    if es != [] {
      InvFrom(c, s, es[..|es| - 1]);
      StepKeepsInv(c, RunFrom(c, s, es[..|es| - 1]), es[|es| - 1]);
    }
  }

  lemma InvHolds(c: Config, es: seq<Event>)
    ensures Inv(c, Run(c, es))
  {
    StartInv(c);
    InvFrom(c, Start(c), es);
  }

  // ---------------------------------------------------------------- theorems

  /** No goroutine ever sends on the closed channel; whoever still has to send finds it
      open; and an inner goroutine never blocks on its answer. */
  lemma NoPanicNoBlock(c: Config, es: seq<Event>, i: nat)
    requires i < |c.names|
    ensures var s := Run(c, es);
            && !s.panicked
            && (IsRunning(s.pairs[i]) ==> !s.closed)
            && (s.pairs[i].inner.Holding? ==> Step(c, s, Put(i)).pairs[i].inner.Finished?)
  {
    InvHolds(c, es);
    var s := Run(c, es);
    assert PairOk(c, s.cancelled, i < s.launched, i, s.pairs[i]);
    if IsRunning(s.pairs[i]) { CountAtLeastOne(s.pairs, i, IsRunning); }
  }

  lemma {:induction false} AllSent(pairs: seq<Pair>)
    requires CountIf(pairs, IsRunning) == 0 && forall i :: 0 <= i < |pairs| ==> !pairs[i].outer.Unborn?
    ensures CountIf(pairs, HasSent) == |pairs| && forall i :: 0 <= i < |pairs| ==> pairs[i].outer.Done?
  {
    if pairs != [] {
      AllSent(pairs[1..]);
      assert forall i :: 1 <= i < |pairs| ==> pairs[i] == pairs[1..][i - 1];
    }
  }

  /** The returned list has exactly one entry per selected parser: its real result, or, if the
      context ended, a timeout entry without vacancies. */
  lemma OneEntryPerParser(c: Config, es: seq<Event>)
    requires Run(c, es).returned
    ensures var s := Run(c, es);
            && |s.collected| == |c.names|
            && (forall i :: 0 <= i < |c.names| ==> CountIf(s.collected, OfParser(i)) == 1)
            && (forall e <- s.collected ::
                  e.parser < |c.names| && Genuine(c, s.cancelled, e.parser, s.pairs[e.parser].found, e.r))
  {
    InvHolds(c, es);
    var s := Run(c, es);
    forall i | 0 <= i < |c.names| ensures !s.pairs[i].outer.Unborn? {
      assert PairOk(c, s.cancelled, i < s.launched, i, s.pairs[i]);
    }
    AllSent(s.pairs);
    forall i | 0 <= i < |c.names| ensures CountIf(s.collected, OfParser(i)) == 1 {
      assert EntriesOf(s, i) == Bit(HasSent(s.pairs[i]));
    }
    forall e | e in s.collected ensures EntryOk(c, s, e) {
    }
  }

  lemma CancelledStep(c: Config, s: Sys, e: Event)
    requires |s.pairs| == |c.names|
    ensures Step(c, s, e).cancelled <==> s.cancelled || e.Cancel?
  {
  }

  lemma {:induction false} CancelledIff(c: Config, es: seq<Event>)
    ensures Run(c, es).cancelled <==> Cancel in es
  {
    if es != [] {
      CancelledIff(c, es[..|es| - 1]);
      CancelledStep(c, Run(c, es[..|es| - 1]), es[|es| - 1]);
      assert es == es[..|es| - 1] + [es[|es| - 1]];
    }
  }

  /** In a run whose context never ends every entry is its parser's real result. */
  lemma RealUnlessCancelled(c: Config, es: seq<Event>, e: Entry)
    requires Run(c, es).returned && Cancel !in es && e in Run(c, es).collected
    ensures var s := Run(c, es);
            && e.parser < |c.names| && s.pairs[e.parser].found.Some?
            && e.r == RealResult(c, e.parser, s.pairs[e.parser].found.value)
  {
    OneEntryPerParser(c, es);
    CancelledIff(c, es);
  }

  lemma PairFinds(c: Config, cancelled: bool, i: nat, p: Pair, e: Event)
    requires i < |c.names|
    ensures var found := PairStep(c, cancelled, i, p, e).found;
            found == p.found || (found.Some? && e.Answer? && e.f == found.value)
  {
  }

  lemma FoundStep(c: Config, s: Sys, e: Event, i: nat)
    requires |s.pairs| == |c.names| && i < |s.pairs|
    ensures var found := Step(c, s, e).pairs[i].found;
            found == s.pairs[i].found || (found.Some? && e == Answer(i, found.value))
  {
    PairFinds(c, s.cancelled, i, s.pairs[i], e);
  }

  lemma {:induction false} FoundWasAnswered(c: Config, es: seq<Event>, i: nat)
    requires i < |c.names| && Run(c, es).pairs[i].found.Some?
    ensures Answer(i, Run(c, es).pairs[i].found.value) in es
  {
    if es != [] {
      var p := es[..|es| - 1];
      FoundStep(c, Run(c, p), es[|es| - 1], i);
      if Run(c, p).pairs[i].found == Run(c, es).pairs[i].found { FoundWasAnswered(c, p, i); }
      assert es == p + [es[|es| - 1]];
    }
  }

  /** Field by field: every entry of the returned list carries what its parser's search
      answered in this run, under the parser's name and the hash of the search, or, only if
      the context ended, says under that name that nothing came in time. */
  lemma EntriesCarryAnswers(c: Config, es: seq<Event>, e: Entry)
    requires Run(c, es).returned && e in Run(c, es).collected
    ensures e.parser < |c.names| && e.r.parserName == c.names[e.parser]
    ensures || (exists f :: Answer(e.parser, f) in es
                  && e.r.vacancies == f.vacancies && e.r.error == f.error && e.r.duration == f.duration
                  && e.r.searchHash == c.hash)
            || (Cancel in es && e.r.error == Some("timeout exceeded") && e.r.vacancies == []
                && e.r.searchHash == "" && e.r.duration == 0)
  {
    OneEntryPerParser(c, es);
    CancelledIff(c, es);
    var found := Run(c, es).pairs[e.parser].found;
    if found.Some? { FoundWasAnswered(c, es, e.parser); }
  }

  // ---------------------------------------------------------------- the call returns

  function StepsLeft(p: Pair): nat {
    (match p.outer case Unborn => 5 case Selecting => 4 case Sending(_) => 3 case Sent => 1 case Done => 0)
    + (match p.inner case NotStarted => 3 case Searching => 2 case Holding(_) => 1 case Finished => 0)
  }

  function Measure(s: Sys): nat {
    SumOf(s.pairs, StepsLeft) + |s.results| + Bit(!s.closed) + Bit(!s.returned)
  }

  lemma PairShrinks(c: Config, cancelled: bool, i: nat, p: Pair, e: Event)
    requires i < |c.names|
    ensures var q := PairStep(c, cancelled, i, p, e); q == p || StepsLeft(q) < StepsLeft(p)
  {
  }

  lemma LaunchShrinks(c: Config, s: Sys)
    requires Inv(c, s) && s.launched < |s.pairs|
    ensures Measure(LaunchStep(s)) < Measure(s)
  {
    assert PairOk(c, s.cancelled, false, s.launched, s.pairs[s.launched]);
    SumUpdate(s.pairs, s.launched, s.pairs[s.launched].(inner := Searching, outer := Selecting), StepsLeft);
  }

  lemma SendShrinks(c: Config, s: Sys, i: nat)
    requires Inv(c, s) && i < |s.pairs| && s.pairs[i].outer.Sending?
    ensures SendStep(c, s, i) == s || Measure(SendStep(c, s, i)) < Measure(s)
  {
    CountAtLeastOne(s.pairs, i, IsRunning);
    SumUpdate(s.pairs, i, s.pairs[i].(outer := Sent), StepsLeft);
  }

  lemma FinishShrinks(s: Sys, i: nat)
    requires i < |s.pairs| && s.pairs[i].outer.Sent?
    ensures Measure(FinishStep(s, i)) < Measure(s)
  {
    SumUpdate(s.pairs, i, s.pairs[i].(outer := Done), StepsLeft);
  }

  lemma PairStepShrinks(c: Config, s: Sys, e: Event, i: nat)
    requires i < |s.pairs| == |c.names|
    ensures var t := Update(s, i, PairStep(c, s.cancelled, i, s.pairs[i], e)); t == s || Measure(t) < Measure(s)
  {
    var q := PairStep(c, s.cancelled, i, s.pairs[i], e);
    PairShrinks(c, s.cancelled, i, s.pairs[i], e);
    SumUpdate(s.pairs, i, q, StepsLeft);
    if q == s.pairs[i] { assert s.pairs[i := q] == s.pairs; }
  }

  /** Every event but a cancellation that changes anything brings the end closer. */
  lemma StepsShrink(c: Config, s: Sys, e: Event)
    requires Inv(c, s)
    ensures var t := Step(c, s, e); t == s || e.Cancel? || Measure(t) < Measure(s)
    ensures e.Cancel? ==> Measure(Step(c, s, e)) == Measure(s)
  {
    match e
    case Launch => if s.launched < |s.pairs| { LaunchShrinks(c, s); }
    case Send(i) => if i < |s.pairs| && s.pairs[i].outer.Sending? { SendShrinks(c, s, i); }
    case Finish(i) => if i < |s.pairs| && s.pairs[i].outer.Sent? { FinishShrinks(s, i); }
    case Cancel =>
    case Close =>
    case Collect =>
    case _ => if e.i < |s.pairs| { PairStepShrinks(c, s, e, e.i); }
  }

  /** A step of the fan-out itself, which needs no parser call to answer. */
  predicate Own(e: Event) { !e.Answer? && !e.Cancel? && !e.Put? && !e.Take? }

  /** Once the context is done, some own step is always possible until the call returned. */
  function NextStep(c: Config, s: Sys, running: nat): Event {
    if s.launched < |s.pairs| then Launch
    else if s.wg > 0 && running < |s.pairs| then
      match s.pairs[running].outer
      case Selecting => Expire(running)
      case Sent => Finish(running)
      case _ => if |s.results| < c.capacity then Send(running) else Collect
    else if !s.closed then Close
    else Collect
  }

  /** A goroutine that is still running can move, or the caller makes room for it. */
  lemma RunningMoves(c: Config, s: Sys, i: nat)
    requires Inv(c, s) && s.cancelled && !s.returned && c.capacity > 0
    requires i < |s.pairs| && IsRunning(s.pairs[i]) && s.launched == |s.pairs| && s.wg > 0
    ensures Own(NextStep(c, s, i)) && Step(c, s, NextStep(c, s, i)) != s
  {
    if s.pairs[i].outer.Selecting? {
      assert Step(c, s, Expire(i)).pairs[i].outer.Sending?;
    } else if s.pairs[i].outer.Sent? {
      assert FinishStep(s, i).pairs[i].outer.Done?;
    } else if |s.results| < c.capacity {
      assert !s.closed && SendStep(c, s, i).pairs[i].outer.Sent?;
    } else {
      assert |CollectStep(s).collected| == |s.collected| + 1;
    }
  }

  lemma OwnStepChanges(c: Config, s: Sys) returns (e: Event)
    requires Inv(c, s) && s.cancelled && !s.returned && (|c.names| > 0 ==> c.capacity > 0)
    ensures Own(e) && Step(c, s, e) != s
  {
    var i: nat := 0;
    if s.wg > 0 { i := CountWitness(s.pairs, IsRunning); }
    e := NextStep(c, s, i);
    if s.launched == |s.pairs| && s.wg > 0 {
      RunningMoves(c, s, i);
    } else if e.Launch? {
      assert LaunchStep(s).launched == s.launched + 1;
    } else if e.Collect? {
      assert s.results != [] ==> |CollectStep(s).collected| == |s.collected| + 1;
    }
  }

  lemma Advance(c: Config, s: Sys) returns (e: Event, t: Sys)
    requires Inv(c, s) && s.cancelled && !s.returned && (|c.names| > 0 ==> c.capacity > 0)
    ensures Own(e) && t == RunFrom(c, s, [e]) && Inv(c, t) && t.cancelled && Measure(t) < Measure(s)
  {
    e := OwnStepChanges(c, s);
    t := Step(c, s, e);
    assert [e][..0] == [];
    StepsShrink(c, s, e);
    StepKeepsInv(c, s, e);
  }

  /** Once the context is done, the call can always return without waiting for any parser,
      in at most Measure(s) steps: hanging searches cannot keep it. */
  lemma {:induction false} ReturnsOnceCancelled(c: Config, s: Sys) returns (es: seq<Event>)
    requires Inv(c, s) && s.cancelled && (|c.names| > 0 ==> c.capacity > 0)
    ensures RunFrom(c, s, es).returned
    ensures |es| <= Measure(s) && forall e <- es :: Own(e)
    decreases Measure(s)
  {
    if s.returned {
      es := [];
    } else {
      var e, t := Advance(c, s);
      var rest := ReturnsOnceCancelled(c, t);
      es := [e] + rest;
      RunAppend(c, s, [e], rest);
    }
  }

  // ---------------------------------------------------------------- selecting the parsers

  /** The registered parsers with the given name, among the first n. */
  function Named(registered: seq<string>, name: string, n: nat): seq<nat>
    requires n <= |registered|
  {
    if n == 0 then []
    else Named(registered, name, n - 1) + (if registered[n - 1] == name then [n - 1] else [])
  }

  function Alive(registered: seq<string>, names: seq<string>): seq<nat> {
    if names == [] then []
    else Alive(registered, names[..|names| - 1]) + Named(registered, names[|names| - 1], |registered|)
  }

  method GetAliveParsers(registered: seq<string>, names: seq<string>) returns (alive: seq<nat>)
    ensures alive == Alive(registered, names)
  {
    alive := [];
    assert names[..0] == [];
    for k := 0 to |names|
      invariant alive == Alive(registered, names[..k])
    {
      ghost var before := alive;
      for p := 0 to |registered|
        invariant alive == before + Named(registered, names[k], p)
      {
        if registered[p] == names[k] {
          alive := alive + [p];
        }
      }
      assert names[..k + 1][..k] == names[..k];
    }
    assert names[..|names|] == names;
  }

  ghost predicate Distinct(registered: seq<string>) {
    forall i, j :: 0 <= i < j < |registered| ==> registered[i] != registered[j]
  }

  lemma {:induction false} NamedExactly(registered: seq<string>, name: string, n: nat)
    requires n <= |registered|
    ensures forall i: nat :: i in Named(registered, name, n) <==> i < n && registered[i] == name
  {
    if n > 0 { NamedExactly(registered, name, n - 1); }
  }

  lemma {:induction false} NamedOnce(registered: seq<string>, name: string, n: nat)
    requires n <= |registered| && Distinct(registered)
    ensures |Named(registered, name, n)| <= 1
  {
    if n > 0 {
      NamedOnce(registered, name, n - 1);
      NamedExactly(registered, name, n - 1);
      var earlier := Named(registered, name, n - 1);
      if earlier != [] { assert earlier[0] in earlier; }
    }
  }

  /** With distinct parser names there are no more goroutines than the channel has room for,
      and a parser is started exactly if it was asked for. */
  lemma {:induction false} AliveFitsChannel(registered: seq<string>, names: seq<string>)
    requires Distinct(registered)
    ensures |Alive(registered, names)| <= |names|
    ensures forall i: nat :: i in Alive(registered, names) <==> i < |registered| && registered[i] in names
  {
    if names != [] {
      var n := |names| - 1;
      AliveFitsChannel(registered, names[..n]);
      NamedExactly(registered, names[n], |registered|);
      NamedOnce(registered, names[n], |registered|);
      assert names == names[..n] + [names[n]];
    }
  }

  predicate LessPair(a: nat, p: nat, b: nat, q: nat) { a < b || (a == b && p < q) }

  /** at[k] is the position of the name that asked for the k-th selected parser. */
  ghost predicate Selects(registered: seq<string>, names: seq<string>, alive: seq<nat>, at: seq<nat>) {
    && |at| == |alive|
    && (forall k :: 0 <= k < |at| ==>
          at[k] < |names| && alive[k] < |registered| && registered[alive[k]] == names[at[k]])
    && (forall j, k :: 0 <= j < k < |at| ==> LessPair(at[j], alive[j], at[k], alive[k]))
  }

  lemma {:induction false} NamedInOrder(registered: seq<string>, name: string, n: nat)
    requires n <= |registered|
    ensures forall j, k :: 0 <= j < k < |Named(registered, name, n)| ==>
              Named(registered, name, n)[j] < Named(registered, name, n)[k]
  {
    if n > 0 {
      NamedInOrder(registered, name, n - 1);
      NamedExactly(registered, name, n - 1);
      var fewer := Named(registered, name, n - 1);
      assert forall j :: 0 <= j < |fewer| ==> fewer[j] in fewer;
    }
  }

  ghost predicate Covers(registered: seq<string>, names: seq<string>, alive: seq<nat>, at: seq<nat>) {
    |at| == |alive|
    && forall a: nat, p: nat | a < |names| && p < |registered| && registered[p] == names[a] ::
         Occurs(alive, at, a, p)
  }

  /** Parser p is selected for the name at position a. */
  ghost predicate Occurs(alive: seq<nat>, at: seq<nat>, a: nat, p: nat)
    requires |at| == |alive|
  {
    exists k :: 0 <= k < |at| && at[k] == a && alive[k] == p
  }

  lemma SelectsMore(registered: seq<string>, names: seq<string>, name: string, alive: seq<nat>, at: seq<nat>,
                    more: seq<nat>)
    requires Selects(registered, names, alive, at)
    requires forall k :: 0 <= k < |more| ==> more[k] < |registered| && registered[more[k]] == name
    requires forall j, k :: 0 <= j < k < |more| ==> more[j] < more[k]
    ensures Selects(registered, names + [name], alive + more, at + seq(|more|, _ => |names|))
  {
  }

  lemma CoversMore(registered: seq<string>, names: seq<string>, name: string, alive: seq<nat>, at: seq<nat>,
                   more: seq<nat>)
    requires Covers(registered, names, alive, at)
    requires forall p: nat :: p in more <==> p < |registered| && registered[p] == name
    ensures Covers(registered, names + [name], alive + more, at + seq(|more|, _ => |names|))
  {
    var at' := at + seq(|more|, _ => |names|);
    forall a: nat, p: nat | a <= |names| && p < |registered| && registered[p] == (names + [name])[a]
      ensures Occurs(alive + more, at', a, p)
    {
      if a < |names| {
        assert Occurs(alive, at, a, p);
        var k :| 0 <= k < |at| && at[k] == a && alive[k] == p;
        assert at'[k] == a && (alive + more)[k] == p;
      } else {
        var k :| 0 <= k < |more| && more[k] == p;
        assert at'[|at| + k] == a && (alive + more)[|at| + k] == p;
      }
    }
  }

  /** The parsers are selected name by name in the order of the request, for each name in the
      order of registration, and every pair of a requested name and a registered parser of
      that name is selected. */
  lemma {:induction false} AliveInOrder(registered: seq<string>, names: seq<string>) returns (at: seq<nat>)
    ensures Selects(registered, names, Alive(registered, names), at)
    ensures Covers(registered, names, Alive(registered, names), at)
  {
    at := [];
    if names != [] {
      var n := |names| - 1;
      var fewer := AliveInOrder(registered, names[..n]);
      var before, more := Alive(registered, names[..n]), Named(registered, names[n], |registered|);
      NamedExactly(registered, names[n], |registered|);
      NamedInOrder(registered, names[n], |registered|);
      assert forall k :: 0 <= k < |more| ==> more[k] in more;
      SelectsMore(registered, names[..n], names[n], before, fewer, more);
      CoversMore(registered, names[..n], names[n], before, fewer, more);
      at := fewer + seq(|more|, _ => n);
      assert names == names[..n] + [names[n]];
    }
  }

  /** Then no outer goroutine ever waits for room in the result channel. */
  lemma SendFindsRoom(c: Config, es: seq<Event>, i: nat)
    requires |c.names| <= c.capacity && i < |c.names| && Run(c, es).pairs[i].outer.Sending?
    ensures Step(c, Run(c, es), Send(i)).pairs[i].outer.Sent?
  {
    InvHolds(c, es);
    NoPanicNoBlock(c, es, i);
    var s := Run(c, es);
    NotAll(s.pairs, i);
  }

  lemma NotAll(pairs: seq<Pair>, i: nat)
    requires i < |pairs| && !HasSent(pairs[i])
    ensures CountIf(pairs, HasSent) < |pairs|
  {
    var any := (p: Pair) => true;
    CountImplies(pairs, HasSent, any);
  }
}
