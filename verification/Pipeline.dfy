/** The job pipeline: submitters put jobs into the bounded queue, workers take them out, wait
    for a slot of the global semaphore, run under the global breaker, deliver through the
    job's channel of capacity one, and free the slot only after the delivery. One event is
    one critical section or one channel operation; an event that is not enabled changes
    nothing. Timeouts and departures are events that may come at any time. */
module Pipeline {
  import opened Counting
  import opened Jobs
  import B = Breaker
  import Queue

  datatype Config = Config(capacity: nat, slots: nat, workers: nat, breaker: B.Config)

  /** Where a worker stands. `left` are the sends that Complete has still to make. */
  datatype Phase<D> =
    | AtSelect
    | Polling
    | AwaitingSlot(job: nat)
    | HoldingSlot(job: nat)
    | Executing(job: nat)
    | Completing(job: nat, out: Output<D>, slot: bool, left: seq<JobOutput<D>>)
    | Exited

  datatype Waiter<D> = Waiting | Received(m: JobOutput<D>) | Gone

  /** A job's result channel, its waiting caller and, once computed, its output. */
  datatype Mail<D> = Mail(channel: seq<JobOutput<D>>, waiter: Waiter<D>, output: Option<Output<D>>)

  datatype Sys<D> = Sys(
    now: int,
    stopped: bool,
    queue: seq<nat>,
    accepted: seq<nat>,
    dequeued: seq<nat>,
    finished: set<nat>,
    workers: seq<Phase<D>>,
    semaphore: int,
    breaker: B.Cell,
    mail: map<nat, Mail<D>>)

  datatype Event<D> =
    | Elapse(d: nat)
    | Submit(j: nat)
    | Receive(j: nat)
    | Leave(j: nat)
    | Shutdown
    | Work(w: nat, a: Action<D>)

  /** One step of a worker. `out` is what the step computed for the job. */
  datatype Action<D> =
    | Look
    | Fetch
    | Acquire
    | SlotTimeout(out: Output<D>)
    | EnterBreaker(out: Output<D>)
    | Return(out: Output<D>)
    | Send
    | Release

  function Idle<D>(n: nat): seq<Phase<D>> { seq(n, _ => AtSelect) }

  function Start<D>(c: Config): Sys<D> {
    Sys(0, false, [], [], [], {}, Idle(c.workers), 0, B.FRESH, map[])
  }

  function JobOf<D>(p: Phase<D>): Option<nat> {
    match p
    case AwaitingSlot(j) => Some(j)
    case HoldingSlot(j) => Some(j)
    case Executing(j) => Some(j)
    case Completing(j, _, _, _) => Some(j)
    case _ => None
  }

  // ---------------------------------------------------------------- worker steps

  /** The worker moves on; nothing else changes. */
  function Move<D>(s: Sys<D>, w: nat, p: Phase<D>): Sys<D>
    requires w < |s.workers|
  {
    s.(workers := s.workers[w := p])
  }

  function Compute<D>(mail: map<nat, Mail<D>>, j: nat, out: Output<D>): map<nat, Mail<D>> {
    if j in mail then mail[j := mail[j].(output := Some(out))] else mail
  }

  /** The worker has computed the job's output and enters Complete. */
  function Deliver<D>(s: Sys<D>, w: nat, j: nat, out: Output<D>, slot: bool): Sys<D>
    requires w < |s.workers|
  {
    Move(s, w, Completing(j, out, slot, Sends(out))).(mail := Compute(s.mail, j, out))
  }

  function FetchStep<D>(s: Sys<D>, w: nat): Sys<D>
    requires w < |s.workers|
  {
    if s.queue == [] then Move(s, w, AtSelect)
    else Move(s, w, AwaitingSlot(s.queue[0])).(
      queue := s.queue[1..], dequeued := s.dequeued + [s.queue[0]])
  }

  function EnterStep<D>(c: Config, s: Sys<D>, w: nat, j: nat, out: Output<D>): Sys<D>
    requires w < |s.workers|
  {
    var (cell, verdict) := B.Admit(c.breaker, s.breaker, s.now);
    if verdict == B.Admitted then Move(s, w, Executing(j)).(breaker := cell)
    else if out.err.None? then s
    else Deliver(s, w, j, out, true)
  }

  function ReturnStep<D>(c: Config, s: Sys<D>, w: nat, j: nat, out: Output<D>): Sys<D>
    requires w < |s.workers|
  {
    Deliver(s, w, j, out, true).(
      breaker := B.Finish(c.breaker, s.breaker, out.err.None?, s.now))
  }

  function SendStep<D>(s: Sys<D>, w: nat): Sys<D>
    requires w < |s.workers| && s.workers[w].Completing?
  {
    var Completing(j, out, slot, left) := s.workers[w];
    if left == [] || j !in s.mail || s.mail[j].channel != [] then s
    else Move(s, w, Completing(j, out, slot, left[1..])).(
      mail := s.mail[j := s.mail[j].(channel := [left[0]])])
  }

  function ReleaseStep<D>(s: Sys<D>, w: nat): Sys<D>
    requires w < |s.workers| && s.workers[w].Completing?
  {
    var Completing(j, out, slot, left) := s.workers[w];
    if left != [] then s
    else Move(s, w, AtSelect).(
      finished := s.finished + {j},
      semaphore := if slot then s.semaphore - 1 else s.semaphore)
  }

  function WorkerStep<D>(c: Config, s: Sys<D>, w: nat, a: Action<D>): Sys<D>
    requires w < |s.workers|
  {
    var p := s.workers[w];
    match a
    case Look =>
      if p.AtSelect? then Move(s, w, if s.stopped then Exited else Polling) else s
    case Fetch =>
      if p.Polling? then FetchStep(s, w) else s
    case Acquire =>
      if p.AwaitingSlot? && s.semaphore < c.slots
      then Move(s, w, HoldingSlot(p.job)).(semaphore := s.semaphore + 1)
      else s
    case SlotTimeout(out) =>
      if p.AwaitingSlot? && out.err.Some? then Deliver(s, w, p.job, out, false) else s
    case EnterBreaker(out) =>
      if p.HoldingSlot? then EnterStep(c, s, w, p.job, out) else s
    case Return(out) =>
      if p.Executing? then ReturnStep(c, s, w, p.job, out) else s
    case Send => if p.Completing? then SendStep(s, w) else s
    case Release => if p.Completing? then ReleaseStep(s, w) else s
  }

  // ---------------------------------------------------------------- submitters

  /** One attempt to enqueue; a refused submitter may try again. */
  function SubmitStep<D>(c: Config, s: Sys<D>, j: nat): Sys<D> {
    var (queue, ok) := Queue.Offer(s.queue, c.capacity, false, j);
    if j in s.accepted || !ok then s
    else s.(queue := queue, accepted := s.accepted + [j],
            mail := s.mail[j := Mail([], Waiting, None)])
  }

  /** The caller's select takes a message, or ends by timeout or cancellation. */
  function ReceiveStep<D>(s: Sys<D>, j: nat): Sys<D> {
    if j in s.mail && s.mail[j].waiter.Waiting? && s.mail[j].channel != []
    then
      var box := s.mail[j].channel;
      s.(mail := s.mail[j := s.mail[j].(waiter := Received(box[0]), channel := box[1..])])
    else s
  }

  function LeaveStep<D>(s: Sys<D>, j: nat): Sys<D> {
    if j in s.mail && s.mail[j].waiter.Waiting?
    then s.(mail := s.mail[j := s.mail[j].(waiter := Gone)])
    else s
  }

  function Step<D>(c: Config, s: Sys<D>, e: Event<D>): Sys<D> {
    match e
    case Elapse(d) => s.(now := s.now + d)
    case Submit(j) => SubmitStep(c, s, j)
    case Receive(j) => ReceiveStep(s, j)
    case Leave(j) => LeaveStep(s, j)
    case Shutdown => s.(stopped := true)
    case Work(w, a) => if w < |s.workers| then WorkerStep(c, s, w, a) else s
  }

  function RunFrom<D>(c: Config, s: Sys<D>, es: seq<Event<D>>): Sys<D> {
    if es == [] then s else Step(c, RunFrom(c, s, es[..|es| - 1]), es[|es| - 1])
  }

  function Run<D>(c: Config, es: seq<Event<D>>): Sys<D> { RunFrom(c, Start(c), es) }

  lemma {:induction false} RunAppend<D>(c: Config, s: Sys<D>, xs: seq<Event<D>>, ys: seq<Event<D>>)
    ensures RunFrom(c, s, xs + ys) == RunFrom(c, RunFrom(c, s, xs), ys)
  {
    if ys == [] {
      assert xs + ys == xs;
    } else {
      assert (xs + ys)[..|xs + ys| - 1] == xs + ys[..|ys| - 1];
      RunAppend(c, s, xs, ys[..|ys| - 1]);
    }
  }

  // ---------------------------------------------------------------- what a worker step can do

  predicate HasSlot<D>(p: Phase<D>) {
    p.HoldingSlot? || p.Executing? || (p.Completing? && p.slot)
  }

  predicate InBreaker<D>(p: Phase<D>) { p.Executing? }

  /** A worker that has just entered Complete for job j. */
  predicate Entered<D(==)>(j: nat, q: Phase<D>) {
    q.Completing? && q.job == j && q.left == Sends(q.out)
  }

  /** The transitions of one worker. */
  predicate Legal<D(==)>(p: Phase<D>, q: Phase<D>) {
    match p
    case AtSelect => q.Polling? || q.Exited?
    case Polling => q.AtSelect? || q.AwaitingSlot?
    case AwaitingSlot(j) => q == HoldingSlot(j) || (Entered(j, q) && !q.slot && q.out.err.Some?)
    case HoldingSlot(j) => q == Executing(j) || (Entered(j, q) && q.slot && q.out.err.Some?)
    case Executing(j) => Entered(j, q) && q.slot
    case Completing(j, out, slot, left) =>
      if left == [] then q.AtSelect? else q == Completing(j, out, slot, left[1..])
    case Exited => false
  }

  /** Only worker w moved, legally, and the shared counters followed it. */
  ghost predicate Effect<D>(c: Config, s: Sys<D>, t: Sys<D>, w: nat) {
    && w < |s.workers| == |t.workers| && t.workers == s.workers[w := t.workers[w]]
    && var p, q := s.workers[w], t.workers[w];
    && Legal(p, q)
    && t.semaphore + Bit(HasSlot(p)) == s.semaphore + Bit(HasSlot(q))
    && (q.HoldingSlot? ==> s.semaphore < c.slots)
    && |t.dequeued| == |s.dequeued| + Bit(p.Polling? && q.AwaitingSlot?)
    && t.breaker.totalRequests == s.breaker.totalRequests + Bit(q.Executing?)
    && t.breaker.totalSuccesses + t.breaker.totalFailures
       == s.breaker.totalSuccesses + s.breaker.totalFailures + Bit(p.Executing?)
    && t.accepted == s.accepted && t.stopped == s.stopped
    && (p.AtSelect? && s.stopped ==> q.Exited?)
    && (q.Exited? ==> s.stopped)
    && (forall j :: j in t.mail <==> j in s.mail)
    && (forall j :: j in s.mail ==> t.mail[j].waiter == s.mail[j].waiter)
  }

  lemma AdmitCounts(c: B.Config, b: B.Cell, now: int)
    ensures var (b', v) := B.Admit(c, b, now);
            && b'.totalRequests == b.totalRequests + Bit(v == B.Admitted)
            && b'.totalSuccesses == b.totalSuccesses && b'.totalFailures == b.totalFailures
  {
  }

  lemma FinishCounts(c: B.Config, b: B.Cell, ok: bool, now: int)
    ensures var b' := B.Finish(c, b, ok, now);
            && b'.totalRequests == b.totalRequests
            && b'.totalSuccesses + b'.totalFailures == b.totalSuccesses + b.totalFailures + 1
  {
  }

  lemma EnterEffect<D>(c: Config, s: Sys<D>, w: nat, j: nat, out: Output<D>)
    requires w < |s.workers| && s.workers[w] == HoldingSlot(j)
    ensures var t := EnterStep(c, s, w, j, out); t == s || Effect(c, s, t, w)
  {
    AdmitCounts(c.breaker, s.breaker, s.now);
  }

  lemma ReturnEffect<D>(c: Config, s: Sys<D>, w: nat, out: Output<D>)
    requires w < |s.workers| && s.workers[w].Executing?
    ensures Effect(c, s, ReturnStep(c, s, w, s.workers[w].job, out), w)
  {
    FinishCounts(c.breaker, s.breaker, out.err.None?, s.now);
  }

  lemma WorkerEffect<D>(c: Config, s: Sys<D>, w: nat, a: Action<D>)
    requires w < |s.workers|
    ensures var t := WorkerStep(c, s, w, a); t == s || Effect(c, s, t, w)
  {
    if a.Return? {
      if s.workers[w].Executing? { ReturnEffect(c, s, w, a.out); }
    } else if a.EnterBreaker? {
      if s.workers[w].HoldingSlot? { EnterEffect(c, s, w, s.workers[w].job, a.out); }
    }
  }

  // ---------------------------------------------------------------- the invariant

  function Holds<D>(j: nat): Phase<D> -> bool {
    (p: Phase<D>) => JobOf(p) == Some(j)
  }

  /** In how many places job j is: the queue, the workers, the finished jobs. */
  function Places<D>(queue: seq<nat>, workers: seq<Phase<D>>, finished: set<nat>, j: nat): nat {
    multiset(queue)[j] + CountIf(workers, Holds(j)) + Bit(j in finished)
  }

  ghost predicate Fifo<D>(c: Config, s: Sys<D>) {
    && s.dequeued + s.queue == s.accepted
    && |s.queue| <= c.capacity
    && |s.workers| == c.workers
  }

  ghost predicate OnePlace<D>(s: Sys<D>) {
    forall j: nat :: Places(s.queue, s.workers, s.finished, j) == Bit(j in s.accepted)
  }

  ghost predicate Counted<D>(c: Config, s: Sys<D>) {
    && s.semaphore == CountIf(s.workers, HasSlot) <= c.slots
    && s.breaker.totalRequests
       == s.breaker.totalSuccesses + s.breaker.totalFailures + CountIf(s.workers, InBreaker)
  }

  /** The messages that have gone through a job's channel so far. */
  ghost function Delivered<D>(m: Mail<D>): seq<JobOutput<D>> {
    (if m.waiter.Received? then [m.waiter.m] else []) + m.channel
  }

  ghost predicate Untouched<D>(mail: map<nat, Mail<D>>, j: nat) {
    j in mail && mail[j].output.None? && Delivered(mail[j]) == []
  }

  ghost predicate PhaseMail<D>(mail: map<nat, Mail<D>>, p: Phase<D>) {
    match p
    case Completing(j, out, slot, left) =>
      && j in mail && mail[j].output == Some(out)
      && Delivered(mail[j]) + left == Sends(out)
      && (out.err.None? ==> slot)
    case _ => JobOf(p).Some? ==> Untouched(mail, JobOf(p).value)
  }

  ghost predicate DoneMail<D>(mail: map<nat, Mail<D>>, j: nat) {
    j in mail && mail[j].output.Some? && Delivered(mail[j]) == Sends(mail[j].output.value)
  }

  ghost predicate Boxes<D>(s: Sys<D>) {
    && (forall j: nat :: j in s.mail <==> j in s.accepted)
    && (forall j :: j in s.mail ==> |s.mail[j].channel| <= 1)
  }

  ghost predicate QueueMail<D>(s: Sys<D>) {
    forall i :: 0 <= i < |s.queue| ==> Untouched(s.mail, s.queue[i])
  }

  ghost predicate WorkerMail<D>(s: Sys<D>) {
    forall w :: 0 <= w < |s.workers| ==> PhaseMail(s.mail, s.workers[w])
  }

  ghost predicate FinishedMail<D>(s: Sys<D>) {
    forall j :: j in s.finished ==> DoneMail(s.mail, j)
  }

  ghost predicate Delivery<D>(s: Sys<D>) {
    Boxes(s) && QueueMail(s) && WorkerMail(s) && FinishedMail(s)
  }

  ghost predicate Inv<D>(c: Config, s: Sys<D>) {
    Fifo(c, s) && OnePlace(s) && Counted(c, s) && Delivery(s)
  }

  lemma {:induction false} AllIdle<D>(n: nat, p: Phase<D> -> bool)
    requires !p(AtSelect)
    ensures CountIf(Idle(n), p) == 0
  {
    if n > 0 {
      assert Idle<D>(n)[1..] == Idle(n - 1);
      AllIdle(n - 1, p);
    }
  }

  lemma StartInv<D>(c: Config)
    ensures Inv(c, Start<D>(c))
  {
    AllIdle(c.workers, HasSlot<D>);
    AllIdle(c.workers, InBreaker<D>);
    forall j: nat ensures CountIf(Idle(c.workers), Holds<D>(j)) == 0 {
      AllIdle(c.workers, Holds<D>(j));
    }
  }

  /** Two workers never hold the same job, and a job a worker holds is neither queued nor
      finished. */
  lemma HeldOnce<D>(s: Sys<D>, w: nat, j: nat)
    requires OnePlace(s) && w < |s.workers| && JobOf(s.workers[w]) == Some(j)
    ensures j in s.accepted && j !in s.queue && j !in s.finished
    ensures forall v :: 0 <= v < |s.workers| && v != w ==> JobOf(s.workers[v]) != Some(j)
  {
    CountAtLeastOne(s.workers, w, Holds(j));
    assert Places(s.queue, s.workers, s.finished, j) == Bit(j in s.accepted);
    forall v | 0 <= v < |s.workers| && v != w ensures JobOf(s.workers[v]) != Some(j) {
      if JobOf(s.workers[v]) == Some(j) {
        CountAtLeastTwo(s.workers, if v < w then v else w, if v < w then w else v, Holds(j));
      }
    }
  }

  // ---- places

  lemma MoveKeepsPlaces<D>(s: Sys<D>, t: Sys<D>, w: nat, p: Phase<D>)
    requires OnePlace(s) && w < |s.workers| && t.workers == s.workers[w := p]
    requires JobOf(p) == JobOf(s.workers[w])
    requires t.queue == s.queue && t.accepted == s.accepted && t.finished == s.finished
    ensures OnePlace(t)
  {
    forall j: nat ensures Places(t.queue, t.workers, t.finished, j) == Bit(j in t.accepted) {
      assert Places(s.queue, s.workers, s.finished, j) == Bit(j in s.accepted);
      CountUpdate(s.workers, w, p, Holds(j));
    }
  }

  lemma FetchKeepsPlaces<D>(s: Sys<D>, w: nat)
    requires OnePlace(s) && w < |s.workers| && s.workers[w].Polling? && s.queue != []
    ensures OnePlace(FetchStep(s, w))
  {
    var t := FetchStep(s, w);
    assert s.queue == [s.queue[0]] + s.queue[1..];
    forall j: nat ensures Places(t.queue, t.workers, t.finished, j) == Bit(j in t.accepted) {
      assert Places(s.queue, s.workers, s.finished, j) == Bit(j in s.accepted);
      CountUpdate(s.workers, w, AwaitingSlot(s.queue[0]), Holds(j));
    }
  }

  lemma ReleaseKeepsPlaces<D>(s: Sys<D>, w: nat)
    requires OnePlace(s) && w < |s.workers| && s.workers[w].Completing? && s.workers[w].left == []
    ensures OnePlace(ReleaseStep(s, w))
  {
    var t := ReleaseStep(s, w);
    HeldOnce(s, w, s.workers[w].job);
    forall j: nat ensures Places(t.queue, t.workers, t.finished, j) == Bit(j in t.accepted) {
      assert Places(s.queue, s.workers, s.finished, j) == Bit(j in s.accepted);
      CountUpdate(s.workers, w, AtSelect, Holds(j));
    }
  }

  lemma WorkerKeepsPlaces<D>(c: Config, s: Sys<D>, w: nat, a: Action<D>)
    requires OnePlace(s) && w < |s.workers|
    ensures OnePlace(WorkerStep(c, s, w, a))
  {
    var t := WorkerStep(c, s, w, a);
    if t != s {
      if a.Fetch? && s.queue != [] {
        FetchKeepsPlaces(s, w);
      } else if a.Release? {
        ReleaseKeepsPlaces(s, w);
      } else {
        MoveKeepsPlaces(s, t, w, t.workers[w]);
      }
    }
  }

  lemma WorkerKeepsFifo<D>(c: Config, s: Sys<D>, w: nat, a: Action<D>)
    requires Fifo(c, s) && w < |s.workers|
    ensures Fifo(c, WorkerStep(c, s, w, a))
  {
    if a.Fetch? && s.queue != [] { assert s.queue == [s.queue[0]] + s.queue[1..]; }
  }

  // ---- counts

  lemma EffectKeepsCounts<D>(c: Config, s: Sys<D>, t: Sys<D>, w: nat)
    requires Counted(c, s) && Effect(c, s, t, w)
    ensures Counted(c, t)
  {
    CountUpdate(s.workers, w, t.workers[w], HasSlot);
    CountUpdate(s.workers, w, t.workers[w], InBreaker);
  }

  lemma WorkerKeepsCounts<D>(c: Config, s: Sys<D>, w: nat, a: Action<D>)
    requires Counted(c, s) && w < |s.workers|
    ensures Counted(c, WorkerStep(c, s, w, a))
  {
    WorkerEffect(c, s, w, a);
    if WorkerStep(c, s, w, a) != s { EffectKeepsCounts(c, s, WorkerStep(c, s, w, a), w); }
  }

  // ---- delivery

  /** Worker w, holding job j, moved to q; of the mail at most j's changed. */
  ghost predicate OwnMail<D>(s: Sys<D>, t: Sys<D>, w: nat, j: nat, q: Phase<D>) {
    && w < |s.workers| && JobOf(s.workers[w]) == Some(j)
    && t.workers == s.workers[w := q]
    && t.queue == s.queue && t.accepted == s.accepted
    && j in s.mail && j in t.mail && t.mail == s.mail[j := t.mail[j]]
    && |t.mail[j].channel| <= 1
  }

  lemma OwnMailFrame<D>(s: Sys<D>, t: Sys<D>, w: nat, j: nat, q: Phase<D>)
    requires OnePlace(s) && Delivery(s) && OwnMail(s, t, w, j, q) && PhaseMail(t.mail, q)
    ensures Boxes(t) && QueueMail(t) && WorkerMail(t)
  {
    HeldOnce(s, w, j);
    forall v | 0 <= v < |t.workers| ensures PhaseMail(t.mail, t.workers[v]) {
      assert PhaseMail(s.mail, s.workers[v]);
    }
    forall i | 0 <= i < |t.queue| ensures Untouched(t.mail, t.queue[i]) {
      assert Untouched(s.mail, s.queue[i]) && s.queue[i] in s.queue;
    }
  }

  lemma OwnMailDone<D>(s: Sys<D>, t: Sys<D>, w: nat, j: nat, q: Phase<D>)
    requires OnePlace(s) && FinishedMail(s) && OwnMail(s, t, w, j, q)
    requires t.finished == s.finished || (t.finished == s.finished + {j} && DoneMail(t.mail, j))
    ensures FinishedMail(t)
  {
    HeldOnce(s, w, j);
    forall k | k in t.finished ensures DoneMail(t.mail, k) {
      if k in s.finished { assert DoneMail(s.mail, k) && k != j; }
    }
  }

  lemma DeliverKeepsDelivery<D>(s: Sys<D>, w: nat, j: nat, out: Output<D>, slot: bool)
    requires OnePlace(s) && Delivery(s) && w < |s.workers|
    requires JobOf(s.workers[w]) == Some(j) && !s.workers[w].Completing?
    requires out.err.None? ==> slot
    ensures Delivery(Deliver(s, w, j, out, slot))
  {
    var t := Deliver(s, w, j, out, slot);
    assert PhaseMail(s.mail, s.workers[w]);
    OwnMailFrame(s, t, w, j, t.workers[w]);
    OwnMailDone(s, t, w, j, t.workers[w]);
  }

  /** A message that goes into the channel is one less to send. */
  lemma SendDelivers<D>(s: Sys<D>, w: nat)
    requires w < |s.workers| && s.workers[w].Completing? && SendStep(s, w) != s
    requires PhaseMail(s.mail, s.workers[w])
    ensures var t := SendStep(s, w); var j := s.workers[w].job;
            PhaseMail(t.mail, t.workers[w]) && OwnMail(s, t, w, j, t.workers[w]) && t.finished == s.finished
  {
    var t := SendStep(s, w);
    var Completing(j, out, slot, left) := s.workers[w];
    assert left == [left[0]] + left[1..];
    assert Delivered(t.mail[j]) == Delivered(s.mail[j]) + [left[0]];
  }

  lemma SendKeepsDelivery<D>(s: Sys<D>, w: nat)
    requires OnePlace(s) && Delivery(s) && w < |s.workers| && s.workers[w].Completing?
    ensures Delivery(SendStep(s, w))
  {
    var t := SendStep(s, w);
    if t != s {
      assert PhaseMail(s.mail, s.workers[w]);
      SendDelivers(s, w);
      OwnMailFrame(s, t, w, s.workers[w].job, t.workers[w]);
      OwnMailDone(s, t, w, s.workers[w].job, t.workers[w]);
    }
  }

  lemma ReleaseKeepsDelivery<D>(s: Sys<D>, w: nat)
    requires OnePlace(s) && Delivery(s) && w < |s.workers|
    requires s.workers[w].Completing? && s.workers[w].left == []
    ensures Delivery(ReleaseStep(s, w))
  {
    var t := ReleaseStep(s, w);
    assert PhaseMail(s.mail, s.workers[w]);
    assert t.mail == s.mail[s.workers[w].job := t.mail[s.workers[w].job]];
    OwnMailFrame(s, t, w, s.workers[w].job, AtSelect);
    OwnMailDone(s, t, w, s.workers[w].job, AtSelect);
  }

  /** Steps that change no mail, and no phase beyond what the mail allows. */
  lemma QuietKeepsDelivery<D>(s: Sys<D>, t: Sys<D>)
    requires Delivery(s)
    requires t.mail == s.mail && t.accepted == s.accepted && t.finished == s.finished
    requires forall i :: 0 <= i < |t.queue| ==> Untouched(s.mail, t.queue[i])
    requires forall v :: 0 <= v < |t.workers| ==> PhaseMail(s.mail, t.workers[v])
    ensures Delivery(t)
  {
  }

  lemma FetchKeepsDelivery<D>(s: Sys<D>, w: nat)
    requires Delivery(s) && w < |s.workers|
    ensures Delivery(FetchStep(s, w))
  {
    var t := FetchStep(s, w);
    if s.queue != [] { assert Untouched(s.mail, s.queue[0]); }
    assert PhaseMail(s.mail, t.workers[w]);
    QuietKeepsDelivery(s, t);
  }

  /** A worker that only changes phase, keeping its job, and has not reached Complete. */
  lemma MoveKeepsDelivery<D>(s: Sys<D>, t: Sys<D>, w: nat, p: Phase<D>)
    requires Delivery(s) && w < |s.workers| && t.workers == s.workers[w := p]
    requires !p.Completing? && !s.workers[w].Completing? && JobOf(p) == JobOf(s.workers[w])
    requires t.mail == s.mail && t.accepted == s.accepted && t.finished == s.finished && t.queue == s.queue
    ensures Delivery(t)
  {
    assert PhaseMail(s.mail, s.workers[w]);
    assert PhaseMail(s.mail, p);
    QuietKeepsDelivery(s, t);
  }

  lemma EnterKeepsDelivery<D>(c: Config, s: Sys<D>, w: nat, j: nat, out: Output<D>)
    requires OnePlace(s) && Delivery(s) && w < |s.workers| && s.workers[w] == HoldingSlot(j)
    ensures Delivery(EnterStep(c, s, w, j, out))
  {
    if B.Admit(c.breaker, s.breaker, s.now).1 == B.Admitted {
      MoveKeepsDelivery(s, EnterStep(c, s, w, j, out), w, Executing(j));
    } else if out.err.Some? {
      DeliverKeepsDelivery(s, w, j, out, true);
    }
  }

  lemma ReturnKeepsDelivery<D>(c: Config, s: Sys<D>, w: nat, out: Output<D>)
    requires OnePlace(s) && Delivery(s) && w < |s.workers| && s.workers[w].Executing?
    ensures Delivery(ReturnStep(c, s, w, s.workers[w].job, out))
  {
    DeliverKeepsDelivery(s, w, s.workers[w].job, out, true);
    QuietKeepsDelivery(Deliver(s, w, s.workers[w].job, out, true),
                       ReturnStep(c, s, w, s.workers[w].job, out));
  }

  lemma WorkerKeepsDelivery<D>(c: Config, s: Sys<D>, w: nat, a: Action<D>)
    requires OnePlace(s) && Delivery(s) && w < |s.workers|
    ensures Delivery(WorkerStep(c, s, w, a))
  {
    var p := s.workers[w];
    match a
    case Look =>
      if p.AtSelect? { MoveKeepsDelivery(s, WorkerStep(c, s, w, a), w, if s.stopped then Exited else Polling); }
    case Acquire =>
      if p.AwaitingSlot? && s.semaphore < c.slots {
        MoveKeepsDelivery(s, WorkerStep(c, s, w, a), w, HoldingSlot(p.job));
      }
    case Fetch => if p.Polling? { FetchKeepsDelivery(s, w); }
    case Send => if p.Completing? { SendKeepsDelivery(s, w); }
    case Release => if p.Completing? && p.left == [] { ReleaseKeepsDelivery(s, w); }
    case SlotTimeout(out) =>
      if p.AwaitingSlot? && out.err.Some? { DeliverKeepsDelivery(s, w, p.job, out, false); }
    case Return(out) => if p.Executing? { ReturnKeepsDelivery(c, s, w, out); }
    case EnterBreaker(out) => if p.HoldingSlot? { EnterKeepsDelivery(c, s, w, p.job, out); }
  }

  // ---- the submitters' side

  lemma SubmitKeepsPlaces<D>(c: Config, s: Sys<D>, j: nat)
    requires OnePlace(s) && j !in s.accepted && |s.queue| < c.capacity
    ensures OnePlace(SubmitStep(c, s, j))
  {
    var t := SubmitStep(c, s, j);
    forall k: nat ensures Places(t.queue, t.workers, t.finished, k) == Bit(k in t.accepted) {
      assert Places(s.queue, s.workers, s.finished, k) == Bit(k in s.accepted);
      assert multiset(t.queue)[k] == multiset(s.queue)[k] + Bit(k == j);
    }
  }

  /** New mail for j, which is in no place yet. */
  lemma NewMailFrame<D>(s: Sys<D>, t: Sys<D>, j: nat)
    requires Delivery(s) && j !in s.mail && t.mail == s.mail[j := Mail([], Waiting, None)]
    requires t.workers == s.workers && t.finished == s.finished
    ensures WorkerMail(t) && FinishedMail(t)
  {
    forall v | 0 <= v < |t.workers| ensures PhaseMail(t.mail, t.workers[v]) {
      assert PhaseMail(s.mail, s.workers[v]);
    }
    forall k | k in t.finished ensures DoneMail(t.mail, k) { assert DoneMail(s.mail, k); }
  }

  lemma SubmitKeepsDelivery<D>(c: Config, s: Sys<D>, j: nat)
    requires Delivery(s) && j !in s.accepted && |s.queue| < c.capacity
    ensures Delivery(SubmitStep(c, s, j))
  {
    var t := SubmitStep(c, s, j);
    NewMailFrame(s, t, j);
    forall i | 0 <= i < |t.queue| ensures Untouched(t.mail, t.queue[i]) {
      if i < |s.queue| { assert Untouched(s.mail, s.queue[i]); }
    }
  }

  lemma SubmitKeepsFifo<D>(c: Config, s: Sys<D>, j: nat)
    requires Fifo(c, s)
    ensures Fifo(c, SubmitStep(c, s, j))
  {
    assert s.dequeued + (s.queue + [j]) == (s.dequeued + s.queue) + [j];
  }

  lemma SubmitKeepsInv<D>(c: Config, s: Sys<D>, j: nat)
    requires Inv(c, s)
    ensures Inv(c, SubmitStep(c, s, j))
  {
    SubmitKeepsFifo(c, s, j);
    if j !in s.accepted && |s.queue| < c.capacity {
      SubmitKeepsPlaces(c, s, j);
      SubmitKeepsDelivery(c, s, j);
    }
  }

  /** The waiter of j receives or leaves: what was delivered and computed stays the same. */
  lemma WaiterKeepsDelivery<D>(s: Sys<D>, t: Sys<D>, j: nat, m: Mail<D>)
    requires Delivery(s) && j in s.mail && t == s.(mail := s.mail[j := m])
    requires Delivered(m) == Delivered(s.mail[j]) && m.output == s.mail[j].output
    requires |m.channel| <= 1
    ensures Delivery(t)
  {
    forall v | 0 <= v < |t.workers| ensures PhaseMail(t.mail, t.workers[v]) {
      assert PhaseMail(s.mail, s.workers[v]);
    }
    forall i | 0 <= i < |t.queue| ensures Untouched(t.mail, t.queue[i]) {
      assert Untouched(s.mail, s.queue[i]);
    }
    forall k | k in t.finished ensures DoneMail(t.mail, k) { assert DoneMail(s.mail, k); }
  }

  lemma ReceiveKeepsInv<D>(c: Config, s: Sys<D>, j: nat)
    requires Inv(c, s)
    ensures Inv(c, ReceiveStep(s, j))
  {
    var t := ReceiveStep(s, j);
    if t != s {
      var box := s.mail[j].channel;
      assert [box[0]] + box[1..] == box;
      WaiterKeepsDelivery(s, t, j, t.mail[j]);
    }
  }

  lemma LeaveKeepsInv<D>(c: Config, s: Sys<D>, j: nat)
    requires Inv(c, s)
    ensures Inv(c, LeaveStep(s, j))
  {
    var t := LeaveStep(s, j);
    if t != s { WaiterKeepsDelivery(s, t, j, t.mail[j]); }
  }

  lemma StepKeepsInv<D>(c: Config, s: Sys<D>, e: Event<D>)
    requires Inv(c, s)
    ensures Inv(c, Step(c, s, e))
  {
    match e
    case Elapse(d) =>
    case Shutdown =>
    case Submit(j) => SubmitKeepsInv(c, s, j);
    case Receive(j) => ReceiveKeepsInv(c, s, j);
    case Leave(j) => LeaveKeepsInv(c, s, j);
    case Work(w, a) =>
      if w < |s.workers| {
        WorkerKeepsFifo(c, s, w, a);
        WorkerKeepsPlaces(c, s, w, a);
        WorkerKeepsCounts(c, s, w, a);
        WorkerKeepsDelivery(c, s, w, a);
      }
  }

  lemma {:induction false} InvFrom<D>(c: Config, s: Sys<D>, es: seq<Event<D>>)
    requires Inv(c, s)
    ensures Inv(c, RunFrom(c, s, es))
  {
    if es != [] {
      InvFrom(c, s, es[..|es| - 1]);
      StepKeepsInv(c, RunFrom(c, s, es[..|es| - 1]), es[|es| - 1]);
    }
  }

  /** Every reachable state satisfies the invariant. */
  lemma InvHolds<D>(c: Config, es: seq<Event<D>>)
    ensures Inv(c, Run<D>(c, es))
  {
    StartInv<D>(c);
    InvFrom(c, Start(c), es);
  }

  // ---------------------------------------------------------------- theorems

  /** First in, first out, within the capacity; every accepted job is in exactly one place
      (queue, one worker, finished) and no other job is anywhere. */
  lemma JobsConserved<D>(c: Config, es: seq<Event<D>>, j: nat)
    ensures var s := Run(c, es);
            && s.dequeued + s.queue == s.accepted
            && |s.queue| <= c.capacity
            && multiset(s.queue)[j] + CountIf(s.workers, Holds(j)) + Bit(j in s.finished)
               == Bit(j in s.accepted)
  {
    InvHolds(c, es);
    var s := Run(c, es);
    assert Places(s.queue, s.workers, s.finished, j) == Bit(j in s.accepted);
  }

  /** In every reachable state a job is accepted exactly if it is new and the queue is below its
      capacity, whatever the workers are doing; it goes to the end, with a waiting caller. A
      refused submission changes nothing. */
  lemma SubmitAcceptedIff<D>(c: Config, es: seq<Event<D>>, j: nat)
    ensures var s := Run(c, es); var t := Step(c, s, Submit(j));
            if j !in s.accepted && |s.queue| < c.capacity then
              && t.queue == s.queue + [j] && t.accepted == s.accepted + [j]
              && j in t.mail && t.mail[j].waiter == Waiting && t.mail[j].channel == [] && t.mail[j].output == None
            else t == s
  {
  }

  /** The semaphore counts exactly the workers between acquire and release; the calls the
      global breaker has not heard back from are among them. */
  lemma SemaphoreBoundsTheBreaker<D>(c: Config, es: seq<Event<D>>)
    ensures var s := Run(c, es);
            && s.semaphore == CountIf(s.workers, HasSlot) <= c.slots
            && s.breaker.totalRequests - s.breaker.totalSuccesses - s.breaker.totalFailures
               == CountIf(s.workers, InBreaker) <= s.semaphore
  {
    InvHolds(c, es);
    var s := Run(c, es);
    CountImplies(s.workers, InBreaker, HasSlot);
  }

  /** A job whose output is not yet known has an empty channel and an empty-handed waiter; a
      known output has been delivered up to a prefix of its sends. */
  lemma MailOfJob<D>(c: Config, s: Sys<D>, j: nat)
    requires Inv(c, s) && j in s.mail
    ensures Untouched(s.mail, j)
            || (s.mail[j].output.Some? && Delivered(s.mail[j]) <= Sends(s.mail[j].output.value))
  {
    assert Places(s.queue, s.workers, s.finished, j) == 1;
    if j in s.finished {
      assert DoneMail(s.mail, j);
    } else if j in s.queue {
      var i :| 0 <= i < |s.queue| && s.queue[i] == j;
      assert Untouched(s.mail, s.queue[i]);
    } else {
      var w := CountWitness(s.workers, Holds(j));
      assert PhaseMail(s.mail, s.workers[w]);
    }
  }

  /** What a waiter receives is the first message of its own job's output. */
  lemma ReceivedIsOwnOutput<D>(c: Config, es: seq<Event<D>>, j: nat)
    requires j in Run(c, es).mail && Run(c, es).mail[j].waiter.Received?
    ensures var mail := Run(c, es).mail[j];
            && mail.output.Some?
            && mail.waiter.m.data == mail.output.value.data
            && mail.waiter.m.error == mail.output.value.err
            && (mail.waiter.m.success <==> mail.output.value.err.None?)
  {
    InvHolds(c, es);
    var s := Run(c, es);
    MailOfJob(c, s, j);
    FirstMessageIsTheOutput(s.mail[j].output.value);
    assert Delivered(s.mail[j])[0] == s.mail[j].waiter.m;
  }

  // ---------------------------------------------------------------- where outputs come from

  /** The event computes this output for job j. */
  ghost predicate Computes<D>(c: Config, s: Sys<D>, e: Event<D>, j: nat, out: Output<D>) {
    && e.Work? && e.w < |s.workers|
    && match e.a
       case SlotTimeout(o) => s.workers[e.w] == AwaitingSlot(j) && o.err.Some? && o == out
       case EnterBreaker(o) =>
         && s.workers[e.w] == HoldingSlot(j) && o.err.Some? && o == out
         && B.Admit(c.breaker, s.breaker, s.now).1 != B.Admitted
       case Return(o) => s.workers[e.w] == Executing(j) && o == out
       case _ => false
  }

  lemma WorkOutputs<D>(c: Config, s: Sys<D>, w: nat, a: Action<D>, j: nat)
    requires Delivery(s) && w < |s.workers| && j in s.mail
    ensures var t := WorkerStep(c, s, w, a);
            && j in t.mail
            && (t.mail[j].output == s.mail[j].output
                || (s.mail[j].output.None? && t.mail[j].output.Some?
                    && Computes(c, s, Work(w, a), j, t.mail[j].output.value)))
  {
    assert PhaseMail(s.mail, s.workers[w]);
  }

  lemma StepIsWork<D>(c: Config, s: Sys<D>, v: nat, a: Action<D>)
    ensures Step(c, s, Work(v, a)) == if v < |s.workers| then WorkerStep(c, s, v, a) else s
  {
  }

  lemma OutsideOutputs<D>(c: Config, s: Sys<D>, e: Event<D>, j: nat)
    requires !e.Work? && j in Step(c, s, e).mail && j in s.mail && Boxes(s)
    ensures Step(c, s, e).mail[j].output == s.mail[j].output
  {
  }

  lemma NewMail<D>(c: Config, s: Sys<D>, e: Event<D>, j: nat)
    requires j in Step(c, s, e).mail && j !in s.mail
    ensures Step(c, s, e).mail[j].output.None?
  {
    if e.Work? && e.w < |s.workers| { WorkerEffect(c, s, e.w, e.a); }
  }

  /** An output is computed by one event and then stays. */
  lemma OutputStep<D>(c: Config, s: Sys<D>, e: Event<D>, j: nat)
    requires Delivery(s) && j in Step(c, s, e).mail
    ensures var now := Step(c, s, e).mail[j].output;
            && (j in s.mail && s.mail[j].output.Some? ==> now == s.mail[j].output)
            && (now.Some? && (j !in s.mail || s.mail[j].output.None?) ==> Computes(c, s, e, j, now.value))
  {
    if j !in s.mail {
      NewMail(c, s, e, j);
    } else if !e.Work? {
      OutsideOutputs(c, s, e, j);
    } else {
      StepIsWork(c, s, e.w, e.a);
      if e.w < |s.workers| { WorkOutputs(c, s, e.w, e.a, j); }
    }
  }

  lemma MailStays<D>(c: Config, s: Sys<D>, e: Event<D>, j: nat)
    requires j in s.mail
    ensures j in Step(c, s, e).mail
  {
    if e.Work? && e.w < |s.workers| { WorkerEffect(c, s, e.w, e.a); }
  }

  lemma {:induction false} OutputIsFinal<D>(c: Config, s: Sys<D>, j: nat, later: seq<Event<D>>)
    requires Inv(c, s) && j in s.mail && s.mail[j].output.Some?
    ensures j in RunFrom(c, s, later).mail && RunFrom(c, s, later).mail[j].output == s.mail[j].output
  {
    if later != [] {
      var p := later[..|later| - 1];
      OutputIsFinal(c, s, j, p);
      InvFrom(c, s, p);
      MailStays(c, RunFrom(c, s, p), later[|later| - 1], j);
      OutputStep(c, RunFrom(c, s, p), later[|later| - 1], j);
    }
  }

  /** Every output of every run was computed by an event of the run that held the job. */
  lemma {:induction false} OutputComesFrom<D>(c: Config, es: seq<Event<D>>, j: nat) returns (k: nat)
    requires j in Run(c, es).mail && Run(c, es).mail[j].output.Some?
    ensures k < |es| && Computes(c, Run(c, es[..k]), es[k], j, Run(c, es).mail[j].output.value)
  {
    var n := |es| - 1;
    var s := Run(c, es[..n]);
    InvHolds(c, es[..n]);
    OutputStep(c, s, es[n], j);
    if j in s.mail && s.mail[j].output.Some? {
      k := OutputComesFrom(c, es[..n], j);
      assert es[..n][..k] == es[..k];
    } else {
      k := n;
    }
  }

  lemma ComputedNow<D>(c: Config, s: Sys<D>, e: Event<D>, j: nat, out: Output<D>)
    requires Delivery(s) && Computes(c, s, e, j, out)
    ensures j in Step(c, s, e).mail && Step(c, s, e).mail[j].output == Some(out)
  {
    assert PhaseMail(s.mail, s.workers[e.w]);
    StepIsWork(c, s, e.w, e.a);
    match e.a
    case SlotTimeout(_) => assert Step(c, s, e) == Deliver(s, e.w, j, out, false);
    case EnterBreaker(_) => assert Step(c, s, e) == Deliver(s, e.w, j, out, true);
    case Return(_) => assert Step(c, s, e) == ReturnStep(c, s, e.w, j, out);
  }

  lemma RunSplit<D>(c: Config, es: seq<Event<D>>, k: nat)
    requires k < |es|
    ensures Run(c, es) == RunFrom(c, Step(c, Run(c, es[..k]), es[k]), es[k + 1..])
  {
    assert es[..k + 1][..k] == es[..k];
    assert es == es[..k + 1] + es[k + 1..];
    RunAppend(c, Start(c), es[..k + 1], es[k + 1..]);
  }

  /** What an event of the run computes for a job is that job's output at the end. */
  lemma ComputedStays<D>(c: Config, es: seq<Event<D>>, k: nat, j: nat, out: Output<D>)
    requires k < |es| && Computes(c, Run(c, es[..k]), es[k], j, out)
    ensures j in Run(c, es).mail && Run(c, es).mail[j].output == Some(out)
  {
    var s := Run(c, es[..k]);
    InvHolds(c, es[..k]);
    ComputedNow(c, s, es[k], j, out);
    StepKeepsInv(c, s, es[k]);
    OutputIsFinal(c, Step(c, s, es[k]), j, es[k + 1..]);
    RunSplit(c, es, k);
  }
}
