/** What can get stuck in the job pipeline, and what shutting it down achieves. */
module PipelineProgress {
  import opened Counting
  import opened Jobs
  import opened Pipeline
  import B = Breaker

  /** Worker w is inside Complete: it still has a message to send. */
  predicate InComplete<D>(s: Sys<D>, w: nat) {
    w < |s.workers| && s.workers[w].Completing? && s.workers[w].left != []
  }

  /** The job succeeded and its caller left without receiving. */
  predicate Abandoned<D>(s: Sys<D>, p: Phase<D>) {
    p.Completing? && p.out.err.None? && p.job in s.mail && s.mail[p.job].waiter.Gone?
  }

  predicate Stuck<D>(s: Sys<D>, w: nat) {
    InComplete(s, w) && Abandoned(s, s.workers[w])
  }

  lemma One<D>(c: Config, s: Sys<D>, e: Event<D>)
    ensures RunFrom(c, s, [e]) == Step(c, s, e)
  {
    assert [e][..0] == [];
  }

  // ---------------------------------------------------------------- a worker blocked for ever

  /** w is stuck on j, and holds a slot. */
  ghost predicate StuckOn<D>(s: Sys<D>, w: nat, j: nat) {
    Stuck(s, w) && s.workers[w].job == j && HasSlot(s.workers[w])
  }

  /** Of the two messages one can go into the channel and none comes out: one is always left. */
  lemma StuckOnTwo<D>(s: Sys<D>, w: nat, j: nat)
    requires StuckOn(s, w, j) && PhaseMail(s.mail, s.workers[w])
    ensures |s.mail[j].channel| + |s.workers[w].left| == 2
  {
    var Completing(_, out, _, left) := s.workers[w];
    assert |Delivered(s.mail[j]) + left| == |Sends(out)| == 2;
  }

  lemma StuckSend<D>(s: Sys<D>, w: nat, j: nat)
    requires StuckOn(s, w, j) && |s.mail[j].channel| + |s.workers[w].left| == 2
    ensures StuckOn(SendStep(s, w), w, j)
  {
  }

  lemma StuckIdles<D>(c: Config, s: Sys<D>, w: nat, j: nat, a: Action<D>)
    requires StuckOn(s, w, j) && !a.Send?
    ensures WorkerStep(c, s, w, a) == s
  {
  }

  lemma StuckOwnStep<D>(c: Config, s: Sys<D>, w: nat, j: nat, a: Action<D>)
    requires StuckOn(s, w, j) && PhaseMail(s.mail, s.workers[w])
    ensures StuckOn(WorkerStep(c, s, w, a), w, j)
  {
    if a.Send? {
      StuckOnTwo(s, w, j);
      StuckSend(s, w, j);
    } else {
      StuckIdles(c, s, w, j, a);
    }
  }

  lemma StuckOtherStep<D>(c: Config, s: Sys<D>, w: nat, j: nat, v: nat, a: Action<D>)
    requires StuckOn(s, w, j) && v < |s.workers| && v != w
    ensures StuckOn(WorkerStep(c, s, v, a), w, j)
  {
    WorkerEffect(c, s, v, a);
  }

  lemma StuckOutsideStep<D>(c: Config, s: Sys<D>, w: nat, j: nat, e: Event<D>)
    requires StuckOn(s, w, j) && j in s.accepted && !e.Work?
    ensures StuckOn(Step(c, s, e), w, j)
  {
  }

  lemma StuckWorkStep<D>(c: Config, s: Sys<D>, w: nat, j: nat, v: nat, a: Action<D>)
    requires StuckOn(s, w, j) && PhaseMail(s.mail, s.workers[w]) && v < |s.workers|
    ensures StuckOn(WorkerStep(c, s, v, a), w, j)
  {
    if v == w { StuckOwnStep(c, s, w, j, a); } else { StuckOtherStep(c, s, w, j, v, a); }
  }

  lemma HasPhaseMail<D>(c: Config, s: Sys<D>, w: nat)
    requires Inv(c, s) && w < |s.workers|
    ensures PhaseMail(s.mail, s.workers[w])
  {
  }

  lemma StuckStep<D>(c: Config, s: Sys<D>, w: nat, j: nat, e: Event<D>)
    requires Inv(c, s) && StuckOn(s, w, j)
    ensures StuckOn(Step(c, s, e), w, j)
  {
    if e.Work? {
      HasPhaseMail(c, s, w);
      StepIsWork(c, s, e.w, e.a);
      if e.w < |s.workers| { StuckWorkStep(c, s, w, j, e.w, e.a); }
    } else {
      HeldOnce(s, w, j);
      StuckOutsideStep(c, s, w, j, e);
    }
  }

  lemma {:induction false} StuckForever<D>(c: Config, s: Sys<D>, w: nat, j: nat, es: seq<Event<D>>)
    requires Inv(c, s) && StuckOn(s, w, j)
    ensures StuckOn(RunFrom(c, s, es), w, j)
  {
    if es != [] {
      var p := es[..|es| - 1];
      StuckForever(c, s, w, j, p);
      InvFrom(c, s, p);
      StuckStep(c, RunFrom(c, s, p), w, j, es[|es| - 1]);
    }
  }

  /** The next step of a worker inside Complete, or of its caller. */
  function NextDelivery<D>(s: Sys<D>, w: nat): Event<D>
    requires InComplete(s, w) && s.workers[w].job in s.mail
  {
    if s.mail[s.workers[w].job].channel == [] then Work(w, Send) else Receive(s.workers[w].job)
  }

  function DeliveriesLeft<D>(s: Sys<D>, w: nat): nat
    requires InComplete(s, w) && s.workers[w].job in s.mail
  {
    2 * |s.workers[w].left| + |s.mail[s.workers[w].job].channel|
  }

  /** Either the worker got past Complete, or it is closer to it on the same job. */
  ghost predicate Closer<D>(s: Sys<D>, t: Sys<D>, w: nat)
    requires InComplete(s, w) && s.workers[w].job in s.mail
  {
    InComplete(t, w) ==>
      && t.workers[w].job == s.workers[w].job && t.workers[w].job in t.mail
      && !Abandoned(t, t.workers[w])
      && DeliveriesLeft(t, w) < DeliveriesLeft(s, w)
  }

  lemma SendGoesOn<D>(c: Config, s: Sys<D>, w: nat)
    requires Inv(c, s) && InComplete(s, w) && !Abandoned(s, s.workers[w])
    requires s.workers[w].job in s.mail && s.mail[s.workers[w].job].channel == []
    ensures Closer(s, SendStep(s, w), w) && SendStep(s, w) != s
  {
    assert SendStep(s, w).mail[s.workers[w].job].channel != [];
  }

  lemma ReceiveGoesOn<D>(c: Config, s: Sys<D>, w: nat, j: nat)
    requires Inv(c, s) && InComplete(s, w) && !Abandoned(s, s.workers[w]) && s.workers[w].job == j
    requires j in s.mail && s.mail[j].channel != []
    ensures Closer(s, ReceiveStep(s, j), w) && ReceiveStep(s, j) != s
  {
    assert PhaseMail(s.mail, s.workers[w]);
    assert s.mail[j].waiter.Waiting?;
    assert ReceiveStep(s, j).mail[j].waiter.Received?;
  }

  lemma StepIsSend<D>(c: Config, s: Sys<D>, w: nat)
    requires w < |s.workers| && s.workers[w].Completing?
    ensures Step(c, s, Work(w, Send)) == SendStep(s, w)
  {
  }

  lemma StepIsReceive<D>(c: Config, s: Sys<D>, j: nat)
    ensures Step(c, s, Receive(j)) == ReceiveStep(s, j)
  {
  }

  lemma HasMail<D>(c: Config, s: Sys<D>, w: nat)
    requires Inv(c, s) && InComplete(s, w)
    ensures s.workers[w].job in s.mail
  {
    assert PhaseMail(s.mail, s.workers[w]);
  }

  lemma DeliveryGoesOn<D>(c: Config, s: Sys<D>, w: nat)
    requires Inv(c, s) && InComplete(s, w) && !Abandoned(s, s.workers[w]) && s.workers[w].job in s.mail
    ensures var t := Step(c, s, NextDelivery(s, w)); Closer(s, t, w) && t != s
  {
    var j := s.workers[w].job;
    if s.mail[j].channel == [] {
      StepIsSend(c, s, w);
      SendGoesOn(c, s, w);
    } else {
      StepIsReceive(c, s, j);
      ReceiveGoesOn(c, s, w, j);
    }
  }

  /** A worker that is not abandoned can finish its sends: sends of its own and the receive
      of its caller are enough. */
  lemma {:induction false} CanGetPast<D>(c: Config, s: Sys<D>, w: nat, j: nat) returns (es: seq<Event<D>>)
    requires Inv(c, s) && InComplete(s, w) && !Abandoned(s, s.workers[w]) && s.workers[w].job == j
    ensures !InComplete(RunFrom(c, s, es), w)
    ensures forall e <- es :: e == Receive(j) || e == Work(w, Send)
    decreases if s.workers[w].job in s.mail then DeliveriesLeft(s, w) else 0
  {
    HasMail(c, s, w);
    DeliveryGoesOn(c, s, w);
    var e := NextDelivery(s, w);
    One(c, s, e);
    StepKeepsInv(c, s, e);
    es := [e];
    if InComplete(Step(c, s, e), w) {
      var rest := CanGetPast(c, Step(c, s, e), w, j);
      es := [e] + rest;
      RunAppend(c, s, [e], rest);
    }
  }

  /** A worker inside Complete can never get past it if and only if its job succeeded and
      the caller left before receiving. */
  lemma BlockedForeverIff<D>(c: Config, es: seq<Event<D>>, w: nat)
    requires InComplete(Run(c, es), w)
    ensures var s := Run(c, es);
            (forall later :: InComplete(RunFrom(c, s, later), w)) <==> Abandoned(s, s.workers[w])
  {
    InvHolds(c, es);
    var s := Run(c, es);
    if Abandoned(s, s.workers[w]) {
      assert PhaseMail(s.mail, s.workers[w]);
      forall later ensures InComplete(RunFrom(c, s, later), w) {
        StuckForever(c, s, w, s.workers[w].job, later);
      }
    } else {
      var later := CanGetPast(c, s, w, s.workers[w].job);
    }
  }

  // ---------------------------------------------------------------- fairness frees the slot

  /** Worker w is delivering job j, and j is not an abandoned success. */
  ghost predicate Delivering<D>(s: Sys<D>, w: nat, j: nat) {
    && w < |s.workers| && s.workers[w].Completing? && s.workers[w].job == j && j in s.mail
    && (InComplete(s, w) ==> !Abandoned(s, s.workers[w]))
  }

  /** The next step on the way out: of the worker, or the receive of its caller. */
  function NextOut<D>(s: Sys<D>, w: nat): Event<D>
    requires w < |s.workers| && s.workers[w].Completing? && s.workers[w].job in s.mail
  {
    if InComplete(s, w) then NextDelivery(s, w) else Work(w, Release)
  }

  lemma OtherWorkerLeaves<D>(c: Config, s: Sys<D>, w: nat, j: nat, v: nat, a: Action<D>)
    requires w < |s.workers| && v < |s.workers| && v != w && j in s.mail && JobOf(s.workers[v]) != Some(j)
    ensures var t := WorkerStep(c, s, v, a);
            w < |t.workers| && t.workers[w] == s.workers[w] && j in t.mail && t.mail[j] == s.mail[j]
  {
  }

  /** Nothing of the delivery of j by w changed. */
  ghost predicate Kept<D>(s: Sys<D>, t: Sys<D>, w: nat, j: nat)
    requires w < |s.workers|
  {
    && w < |t.workers| && t.workers[w] == s.workers[w] && j in t.mail
    && (InComplete(s, w) ==> j in s.mail && t.mail[j] == s.mail[j])
  }

  lemma OwnOtherAction<D>(c: Config, s: Sys<D>, w: nat, j: nat, a: Action<D>)
    requires Delivering(s, w, j) && Work(w, a) != NextOut(s, w)
    ensures WorkerStep(c, s, w, a) == s
  {
  }

  lemma WorkKeeps<D>(c: Config, s: Sys<D>, w: nat, j: nat, v: nat, a: Action<D>)
    requires Inv(c, s) && Delivering(s, w, j) && Work(v, a) != NextOut(s, w) && v < |s.workers|
    ensures Kept(s, WorkerStep(c, s, v, a), w, j)
  {
    if v == w {
      OwnOtherAction(c, s, w, j, a);
    } else {
      HeldOnce(s, w, j);
      OtherWorkerLeaves(c, s, w, j, v, a);
    }
  }

  lemma OutsideKeeps<D>(c: Config, s: Sys<D>, w: nat, j: nat, e: Event<D>)
    requires Delivering(s, w, j) && j in s.accepted && e != Leave(j) && e != NextOut(s, w) && !e.Work?
    ensures Kept(s, Step(c, s, e), w, j)
  {
  }

  lemma EventKeeps<D>(c: Config, s: Sys<D>, w: nat, j: nat, e: Event<D>)
    requires Inv(c, s) && Delivering(s, w, j) && e != Leave(j) && e != NextOut(s, w)
    ensures Kept(s, Step(c, s, e), w, j)
  {
    if !e.Work? {
      HeldOnce(s, w, j);
      OutsideKeeps(c, s, w, j, e);
    } else if e.w < |s.workers| {
      WorkKeeps(c, s, w, j, e.w, e.a);
    }
  }

  lemma KeptNextOut<D>(s: Sys<D>, t: Sys<D>, w: nat, j: nat)
    requires Delivering(s, w, j) && Kept(s, t, w, j)
    ensures Delivering(t, w, j) && NextOut(t, w) == NextOut(s, w) && OutLeft(t, w) == OutLeft(s, w)
  {
  }

  /** The next step out stays the next one, and enabled, under every other event except that
      the caller leaves. */
  lemma NextOutStays<D>(c: Config, s: Sys<D>, w: nat, j: nat, e: Event<D>)
    requires Inv(c, s) && Delivering(s, w, j) && e != Leave(j) && e != NextOut(s, w)
    ensures var t := Step(c, s, e);
            && Delivering(t, w, j) && t.workers[w] == s.workers[w]
            && NextOut(t, w) == NextOut(s, w) && OutLeft(t, w) == OutLeft(s, w)
  {
    EventKeeps(c, s, w, j, e);
    KeptNextOut(s, Step(c, s, e), w, j);
  }

  function OutLeft<D>(s: Sys<D>, w: nat): nat {
    if InComplete(s, w) && s.workers[w].job in s.mail then DeliveriesLeft(s, w) else 0
  }

  lemma OutKeepsPool<D>(c: Config, s: Sys<D>, w: nat, j: nat)
    requires Delivering(s, w, j) && InComplete(s, w)
    ensures var t := Step(c, s, NextOut(s, w));
            && t.semaphore == s.semaphore && t.stopped == s.stopped && t.workers == s.workers[w := t.workers[w]]
            && t.workers[w].Completing? && t.workers[w].slot == s.workers[w].slot
            && t.workers[w].job == j && j in t.mail
  {
    if s.mail[j].channel == [] { StepIsSend(c, s, w); } else { StepIsReceive(c, s, j); }
  }

  /** Taking it brings the worker closer to the end. */
  lemma DeliveryAdvances<D>(c: Config, s: Sys<D>, w: nat, j: nat)
    requires Inv(c, s) && Delivering(s, w, j) && InComplete(s, w)
    ensures var t := Step(c, s, NextOut(s, w)); Delivering(t, w, j) && OutLeft(t, w) < OutLeft(s, w)
  {
    OutKeepsPool(c, s, w, j);
    DeliveryGoesOn(c, s, w);
    assert Closer(s, Step(c, s, NextOut(s, w)), w);
  }

  /** With nothing left to send it frees the slot. */
  lemma ReleaseFrees<D>(c: Config, s: Sys<D>, w: nat, j: nat)
    requires Delivering(s, w, j) && !InComplete(s, w)
    ensures Freed(s, Step(c, s, NextOut(s, w)), w, j)
  {
  }

  /** Worker w is done with job j: it has given back its slot and is ready for the next one. */
  ghost predicate Freed<D>(s: Sys<D>, t: Sys<D>, w: nat, j: nat) {
    && w < |s.workers| && s.workers[w].Completing? && s.workers[w].job == j
    && w < |t.workers| && t.workers[w] == AtSelect
    && j in t.finished && t.semaphore == s.semaphore - Bit(s.workers[w].slot)
  }

  /** An infinite execution: the states of the pool under a schedule of events. */
  ghost predicate Execution<D>(c: Config, run: nat -> Sys<D>, schedule: nat -> Event<D>) {
    Inv(c, run(0)) && forall n: nat :: Follows(c, run, schedule, n)
  }

  ghost predicate Follows<D>(c: Config, run: nat -> Sys<D>, schedule: nat -> Event<D>, n: nat) {
    run(n + 1) == Step(c, run(n), schedule(n))
  }

  /** The next step out of w, as it is at time n, comes at that time or later. */
  ghost predicate Taken<D>(t: Sys<D>, schedule: nat -> Event<D>, w: nat, n: nat)
    requires w < |t.workers| && t.workers[w].Completing? && t.workers[w].job in t.mail
  {
    exists m: nat :: n <= m && schedule(m) == NextOut(t, w)
  }

  /** Whenever w has a next step out, that step comes some time. */
  ghost predicate Fair<D>(run: nat -> Sys<D>, schedule: nat -> Event<D>, w: nat, j: nat) {
    forall n: nat | Delivering(run(n), w, j) :: Taken(run(n), schedule, w, n)
  }

  lemma {:induction false} ExecutionInv<D>(c: Config, run: nat -> Sys<D>, schedule: nat -> Event<D>, n: nat)
    requires Execution(c, run, schedule)
    ensures Inv(c, run(n))
  {
    if n > 0 {
      ExecutionInv(c, run, schedule, n - 1);
      assert Follows(c, run, schedule, n - 1);
      StepKeepsInv(c, run(n - 1), schedule(n - 1));
    }
  }

  /** Between two times nothing of the worker's next step has changed. */
  ghost predicate Same<D>(t: Sys<D>, t': Sys<D>, w: nat, j: nat) {
    && Delivering(t, w, j) && Delivering(t', w, j) && t'.workers[w] == t.workers[w]
    && NextOut(t', w) == NextOut(t, w) && OutLeft(t', w) == OutLeft(t, w)
  }

  lemma SameNext<D>(c: Config, run: nat -> Sys<D>, schedule: nat -> Event<D>, w: nat, j: nat, t: Sys<D>, k: nat)
    requires Execution(c, run, schedule) && Same(t, run(k), w, j)
    requires schedule(k) != NextOut(t, w) && schedule(k) != Leave(j)
    ensures Same(t, run(k + 1), w, j)
  {
    ExecutionInv(c, run, schedule, k);
    assert Follows(c, run, schedule, k);
    NextOutStays(c, run(k), w, j, schedule(k));
  }

  /** What stays until it is hit still holds when it is first hit. */
  lemma UntilHit(stays: nat -> bool, hits: nat -> bool, n: nat, last: nat) returns (m: nat)
    requires n <= last && stays(n) && hits(last)
    requires forall k: nat {:trigger hits(k)} :: stays(k) && !hits(k) ==> stays(k + 1)
    ensures n <= m && stays(m) && hits(m)
  {
    m := n;
    while !hits(m)
      invariant n <= m <= last && stays(m)
      decreases last - m
    {
      m := m + 1;
    }
  }

  /** The first time, from n on, at which the next step out is taken. */
  lemma FirstTaken<D>(c: Config, run: nat -> Sys<D>, schedule: nat -> Event<D>, w: nat, j: nat, t: Sys<D>,
                      n: nat, last: nat) returns (m: nat)
    requires Execution(c, run, schedule) && Same(t, run(n), w, j) && n <= last && schedule(last) == NextOut(t, w)
    requires forall k: nat :: schedule(k) != Leave(j)
    ensures n <= m && Same(t, run(m), w, j) && schedule(m) == NextOut(t, w)
  {
    var e := NextOut(t, w);
    var stays, hits := (k: nat) => Same(t, run(k), w, j), (k: nat) => schedule(k) == e;
    forall k: nat | stays(k) && !hits(k) ensures stays(k + 1) {
      SameNext(c, run, schedule, w, j, t, k);
    }
    m := UntilHit(stays, hits, n, last);
  }

  lemma TakenNext<D>(c: Config, run: nat -> Sys<D>, schedule: nat -> Event<D>, w: nat, j: nat, n: nat) returns (m: nat)
    requires Execution(c, run, schedule) && Delivering(run(n), w, j) && Fair(run, schedule, w, j)
    requires forall k: nat :: schedule(k) != Leave(j)
    ensures n <= m && Same(run(n), run(m), w, j) && run(m + 1) == Step(c, run(m), NextOut(run(m), w))
  {
    assert Taken(run(n), schedule, w, n);
    var last: nat :| n <= last && schedule(last) == NextOut(run(n), w);
    m := FirstTaken(c, run, schedule, w, j, run(n), n, last);
    assert Follows(c, run, schedule, m);
  }

  /** One step further, or out. */
  lemma TakenAdvances<D>(c: Config, run: nat -> Sys<D>, schedule: nat -> Event<D>, w: nat, j: nat, n: nat)
    returns (m: nat)
    requires Execution(c, run, schedule) && Delivering(run(n), w, j) && Fair(run, schedule, w, j)
    requires forall k: nat :: schedule(k) != Leave(j)
    ensures n <= m
    ensures Freed(run(m), run(m + 1), w, j)
            || (Delivering(run(m + 1), w, j) && OutLeft(run(m + 1), w) < OutLeft(run(n), w))
  {
    m := TakenNext(c, run, schedule, w, j, n);
    ExecutionInv(c, run, schedule, m);
    if InComplete(run(m), w) {
      DeliveryAdvances(c, run(m), w, j);
    } else {
      ReleaseFrees(c, run(m), w, j);
    }
  }

  /** From time k on the worker gets done, or at least closer. */
  ghost predicate Advances<D>(run: nat -> Sys<D>, w: nat, j: nat, k: nat) {
    exists m: nat :: k <= m && DoneOrCloser(run, w, j, k, m)
  }

  ghost predicate DoneOrCloser<D>(run: nat -> Sys<D>, w: nat, j: nat, k: nat, m: nat) {
    || Freed(run(m), run(m + 1), w, j)
    || (Delivering(run(m + 1), w, j) && OutLeft(run(m + 1), w) < OutLeft(run(k), w))
  }

  ghost predicate AlwaysAdvances<D>(run: nat -> Sys<D>, w: nat, j: nat) {
    forall k: nat {:trigger Advances(run, w, j, k)} :: Delivering(run(k), w, j) ==> Advances(run, w, j, k)
  }

  lemma AdvancesFrom<D>(c: Config, run: nat -> Sys<D>, schedule: nat -> Event<D>, w: nat, j: nat, k: nat)
    requires Execution(c, run, schedule) && Fair(run, schedule, w, j) && forall k: nat :: schedule(k) != Leave(j)
    ensures Delivering(run(k), w, j) ==> Advances(run, w, j, k)
  {
    if Delivering(run(k), w, j) {
      var m := TakenAdvances(c, run, schedule, w, j, k);
      assert DoneOrCloser(run, w, j, k, m);
    }
  }

  lemma FairAdvances<D>(c: Config, run: nat -> Sys<D>, schedule: nat -> Event<D>, w: nat, j: nat)
    requires Execution(c, run, schedule) && Fair(run, schedule, w, j) && forall k: nat :: schedule(k) != Leave(j)
    ensures AlwaysAdvances(run, w, j)
  {
    forall k: nat {:trigger Advances(run, w, j, k)}
      ensures Delivering(run(k), w, j) ==> Advances(run, w, j, k)
    {
      AdvancesFrom(c, run, schedule, w, j, k);
    }
  }

  lemma {:induction false} GetsDone<D>(run: nat -> Sys<D>, w: nat, j: nat, n: nat) returns (m: nat)
    requires Delivering(run(n), w, j) && AlwaysAdvances(run, w, j)
    ensures n <= m && Freed(run(m), run(m + 1), w, j)
    decreases OutLeft(run(n), w)
  {
    assert Advances(run, w, j, n);
    m :| n <= m && DoneOrCloser(run, w, j, n, m);
    if !Freed(run(m), run(m + 1), w, j) { m := GetsDone(run, w, j, m + 1); }
  }

  /** In every fair execution in which the caller does not leave, the worker gets past its
      deliveries and frees its slot. */
  lemma FairnessFreesSlot<D>(c: Config, run: nat -> Sys<D>, schedule: nat -> Event<D>, w: nat, j: nat, n: nat)
    returns (m: nat)
    requires Execution(c, run, schedule) && Delivering(run(n), w, j)
    requires Fair(run, schedule, w, j) && forall k: nat :: schedule(k) != Leave(j)
    ensures n <= m && Freed(run(m), run(m + 1), w, j)
  {
    FairAdvances(c, run, schedule, w, j);
    m := GetsDone(run, w, j, n);
  }

  // ---------------------------------------------------------------- a pool that is lost

  /** Abandoned successes hold every slot. */
  ghost predicate Exhausted<D>(c: Config, s: Sys<D>) {
    && s.semaphore == c.slots
    && forall w :: 0 <= w < |s.workers| && HasSlot(s.workers[w]) ==> Stuck(s, w)
  }

  /** Abandoned successes hold every worker. */
  ghost predicate AllStuck<D>(s: Sys<D>) {
    forall w :: 0 <= w < |s.workers| ==> Stuck(s, w)
  }

  ghost predicate Lost<D>(c: Config, s: Sys<D>) { Exhausted(c, s) || AllStuck(s) }

  lemma StuckHolds<D>(c: Config, s: Sys<D>, w: nat)
    requires Inv(c, s) && Stuck(s, w)
    ensures StuckOn(s, w, s.workers[w].job)
  {
    assert PhaseMail(s.mail, s.workers[w]);
  }

  /** A step of a pool in which this worker is stuck, or of one that has no slot for it. */
  lemma LostWork<D>(c: Config, s: Sys<D>, w: nat, a: Action<D>)
    requires Inv(c, s) && Lost(c, s) && w < |s.workers|
    ensures var t := WorkerStep(c, s, w, a);
            && |t.workers| == |s.workers| && t.workers == s.workers[w := t.workers[w]]
            && t.semaphore == s.semaphore && t.breaker.totalRequests == s.breaker.totalRequests
            && (Stuck(s, w) || t == s || !HasSlot(t.workers[w]))
  {
    WorkerEffect(c, s, w, a);
    if Stuck(s, w) {
      HasPhaseMail(c, s, w);
      StuckHolds(c, s, w);
      StuckOwnStep(c, s, w, s.workers[w].job, a);
    }
  }

  lemma AllStayStuck<D>(c: Config, s: Sys<D>, e: Event<D>)
    requires Inv(c, s)
    ensures forall w :: 0 <= w < |s.workers| && Stuck(s, w) ==> Stuck(Step(c, s, e), w)
  {
    forall w | 0 <= w < |s.workers| && Stuck(s, w) ensures Stuck(Step(c, s, e), w) {
      StuckHolds(c, s, w);
      StuckStep(c, s, w, s.workers[w].job, e);
    }
  }

  lemma LostStep<D>(c: Config, s: Sys<D>, e: Event<D>)
    requires Inv(c, s) && Lost(c, s)
    ensures Lost(c, Step(c, s, e)) && Step(c, s, e).breaker.totalRequests == s.breaker.totalRequests
  {
    AllStayStuck(c, s, e);
    if e.Work? && e.w < |s.workers| {
      StepIsWork(c, s, e.w, e.a);
      LostWork(c, s, e.w, e.a);
      StillLost(c, s, Step(c, s, e), e.w);
    } else {
      OutsidePool(c, s, e);
      OutsideLost(c, s, Step(c, s, e));
    }
  }

  lemma OutsideLost<D>(c: Config, s: Sys<D>, t: Sys<D>)
    requires Lost(c, s) && t.workers == s.workers && t.semaphore == s.semaphore
    requires forall v :: 0 <= v < |s.workers| && Stuck(s, v) ==> Stuck(t, v)
    ensures Lost(c, t)
  {
    assert forall v :: 0 <= v < |s.workers| && Stuck(s, v) ==> Stuck(t, v);
  }

  lemma OutsidePool<D>(c: Config, s: Sys<D>, e: Event<D>)
    requires !(e.Work? && e.w < |s.workers|)
    ensures var t := Step(c, s, e); t.workers == s.workers && t.semaphore == s.semaphore && t.breaker == s.breaker
  {
  }

  /** Only worker w may have moved, and it neither took nor gave a slot unless it is stuck. */
  lemma StillLost<D>(c: Config, s: Sys<D>, t: Sys<D>, w: nat)
    requires Lost(c, s) && w < |s.workers| == |t.workers| && t.workers == s.workers[w := t.workers[w]]
    requires forall v :: 0 <= v < |s.workers| && Stuck(s, v) ==> Stuck(t, v)
    requires t.semaphore == s.semaphore && (Stuck(s, w) || t == s || !HasSlot(t.workers[w]))
    ensures Lost(c, t)
  {
    if Exhausted(c, s) {
      forall v | 0 <= v < |t.workers| && HasSlot(t.workers[v]) ensures Stuck(t, v) {
        if v != w || t == s { assert Stuck(s, v); }
      }
    }
  }

  lemma {:induction false} LostForever<D>(c: Config, s: Sys<D>, later: seq<Event<D>>)
    requires Inv(c, s) && Lost(c, s)
    ensures var t := RunFrom(c, s, later);
            Lost(c, t) && t.breaker.totalRequests == s.breaker.totalRequests
  {
    if later != [] {
      var p := later[..|later| - 1];
      LostForever(c, s, p);
      InvFrom(c, s, p);
      LostStep(c, RunFrom(c, s, p), later[|later| - 1]);
    }
  }

  // ---- a pool that is not lost can serve

  /** Worker w is no lost cause, and a slot is free or its own. */
  ghost predicate Ready<D>(c: Config, s: Sys<D>, w: nat) {
    && !s.stopped && w < |s.workers|
    && !s.workers[w].Exited? && !Stuck(s, w)
    && (s.semaphore < c.slots || HasSlot(s.workers[w]))
  }

  /** How far worker w is from holding a slot for a new job. */
  function Distance<D>(s: Sys<D>, w: nat): nat
    requires w < |s.workers|
  {
    match s.workers[w]
    case HoldingSlot(_) => 0
    case AwaitingSlot(_) => 1
    case Polling => 2 + Bit(s.queue == [])
    case AtSelect => 4 + Bit(s.queue == [])
    case Completing(_, _, _, _) => 6 + OutLeft(s, w)
    case _ => 20
  }

  ghost predicate Nearer<D>(c: Config, s: Sys<D>, e: Event<D>, w: nat)
    requires w < |s.workers|
  {
    var t := Step(c, s, e);
    Ready(c, t, w) && Distance(t, w) < Distance(s, w)
  }

  lemma NewJob(accepted: seq<nat>) returns (j: nat)
    ensures j !in accepted && forall i :: 0 <= i < |accepted| ==> accepted[i] < j
  {
    j := 0;
    for k := 0 to |accepted|
      invariant forall i :: 0 <= i < k ==> accepted[i] < j
    {
      if accepted[k] >= j { j := accepted[k] + 1; }
    }
  }

  lemma SubmitNearer<D>(c: Config, s: Sys<D>, w: nat) returns (e: Event<D>)
    requires Ready(c, s, w) && c.capacity > 0 && s.queue == []
    requires s.workers[w].AtSelect? || s.workers[w].Polling?
    ensures Nearer(c, s, e, w)
  {
    var j := NewJob(s.accepted);
    e := Submit(j);
    assert Step(c, s, e).queue == [j];
  }

  lemma ReturnNearer<D>(c: Config, s: Sys<D>, w: nat, any: D)
    requires Delivery(s) && Ready(c, s, w) && s.workers[w].Executing?
    ensures Nearer(c, s, Work(w, Return(Output(any, Some("failed")))), w)
  {
    var out := Output(any, Some("failed"));
    var j := s.workers[w].job;
    assert PhaseMail(s.mail, s.workers[w]);
    var t := ReturnStep(c, s, w, j, out);
    assert t.workers[w] == Completing(j, out, true, Sends(out));
    assert t.mail[j].channel == [];
  }

  lemma OutNearer<D>(c: Config, s: Sys<D>, w: nat, j: nat)
    requires Inv(c, s) && Ready(c, s, w) && Delivering(s, w, j) && InComplete(s, w)
    ensures Nearer(c, s, NextOut(s, w), w)
  {
    OutKeepsPool(c, s, w, j);
    DeliveryAdvances(c, s, w, j);
  }

  lemma ReleaseNearer<D>(c: Config, s: Sys<D>, w: nat)
    requires Ready(c, s, w) && s.semaphore <= c.slots && s.workers[w].Completing? && !InComplete(s, w)
    ensures Nearer(c, s, Work(w, Release), w)
  {
    assert Step(c, s, Work(w, Release)) == ReleaseStep(s, w);
  }

  lemma LookNearer<D>(c: Config, s: Sys<D>, w: nat)
    requires Ready(c, s, w) && s.workers[w].AtSelect? && s.queue != []
    ensures Nearer(c, s, Work(w, Look), w)
  {
  }

  lemma FetchNearer<D>(c: Config, s: Sys<D>, w: nat)
    requires Ready(c, s, w) && s.workers[w].Polling? && s.queue != []
    ensures Nearer(c, s, Work(w, Fetch), w)
  {
  }

  lemma AcquireNearer<D>(c: Config, s: Sys<D>, w: nat)
    requires Ready(c, s, w) && s.workers[w].AwaitingSlot?
    ensures Nearer(c, s, Work(w, Acquire), w)
  {
  }

  lemma GetsNearer<D>(c: Config, s: Sys<D>, w: nat, any: D) returns (e: Event<D>)
    requires Inv(c, s) && Ready(c, s, w) && c.capacity > 0 && !s.workers[w].HoldingSlot?
    ensures Nearer(c, s, e, w)
  {
    match s.workers[w]
    case AtSelect =>
      if s.queue == [] { e := SubmitNearer(c, s, w); } else { e := Work(w, Look); LookNearer(c, s, w); }
    case Polling =>
      if s.queue == [] { e := SubmitNearer(c, s, w); } else { e := Work(w, Fetch); FetchNearer(c, s, w); }
    case AwaitingSlot(_) =>
      e := Work(w, Acquire);
      AcquireNearer(c, s, w);
    case Executing(_) =>
      e := Work(w, Return(Output(any, Some("failed"))));
      ReturnNearer(c, s, w, any);
    case Completing(j, _, _, _) =>
      assert PhaseMail(s.mail, s.workers[w]);
      e := NextOut(s, w);
      if InComplete(s, w) { OutNearer(c, s, w, j); } else { ReleaseNearer(c, s, w); }
  }

  /** A ready worker can bring a job to the breaker. */
  lemma {:induction false} CanServe<D>(c: Config, s: Sys<D>, w: nat, any: D) returns (es: seq<Event<D>>)
    requires Inv(c, s) && Ready(c, s, w) && c.capacity > 0
    ensures Serves(c, s, es, w)
    decreases Distance(s, w)
  {
    es := [];
    if !s.workers[w].HoldingSlot? {
      var e := GetsNearer(c, s, w, any);
      One(c, s, e);
      StepKeepsInv(c, s, e);
      var rest := CanServe(c, Step(c, s, e), w, any);
      es := [e] + rest;
      RunAppend(c, s, [e], rest);
    }
  }

  /** These events bring a job of worker w to the breaker, slot in hand. */
  ghost predicate Serves<D>(c: Config, s: Sys<D>, later: seq<Event<D>>, w: nat) {
    var t := RunFrom(c, s, later);
    w < |t.workers| && t.workers[w].HoldingSlot?
  }

  ghost predicate NobodyExited<D>(s: Sys<D>) {
    !s.stopped ==> forall w :: 0 <= w < |s.workers| ==> !s.workers[w].Exited?
  }

  lemma NobodyExits<D>(c: Config, s: Sys<D>, e: Event<D>)
    requires NobodyExited(s)
    ensures NobodyExited(Step(c, s, e))
  {
    if e.Work? && e.w < |s.workers| { WorkerEffect(c, s, e.w, e.a); }
  }

  lemma {:induction false} RunningHasNotExited<D>(c: Config, es: seq<Event<D>>)
    ensures NobodyExited(Run(c, es))
  {
    if es != [] {
      RunningHasNotExited(c, es[..|es| - 1]);
      NobodyExits(c, Run(c, es[..|es| - 1]), es[|es| - 1]);
    }
  }

  lemma LostServesNobody<D>(c: Config, s: Sys<D>, w: nat)
    requires Lost(c, s) && w < |s.workers|
    ensures !s.workers[w].HoldingSlot?
  {
    assert Stuck(s, w) ==> !s.workers[w].HoldingSlot?;
  }

  /** A running pool can never bring a job to the breaker again if and only if abandoned
      successes hold every slot or every worker. (`any` only witnesses that a payload
      exists.) */
  lemma LostIff<D(!new)>(c: Config, es: seq<Event<D>>, any: D)
    requires c.capacity > 0 && !Run(c, es).stopped
    ensures (forall later, w :: !Serves(c, Run(c, es), later, w)) <==> Lost(c, Run(c, es))
  {
    InvHolds(c, es);
    var s := Run(c, es);
    if Lost(c, s) {
      forall later, w: nat ensures !Serves(c, s, later, w) {
        LostForever(c, s, later);
        if w < |RunFrom(c, s, later).workers| { LostServesNobody(c, RunFrom(c, s, later), w); }
      }
    } else {
      var w: nat :| w < |s.workers| && !Stuck(s, w) && (s.semaphore < c.slots || HasSlot(s.workers[w]));
      RunningHasNotExited(c, es);
      var later := CanServe(c, s, w, any);
    }
  }

  // ---- every pool can get lost

  lemma Then<D>(c: Config, s: Sys<D>, es: seq<Event<D>>, e: Event<D>)
    ensures RunFrom(c, s, es + [e]) == Step(c, RunFrom(c, s, es), e)
  {
    assert (es + [e])[..|es|] == es;
  }

  /** Worker w takes job j, with a slot in hand. */
  function Take<D>(w: nat, j: nat): seq<Event<D>> {
    [] + [Submit(j)] + [Work(w, Look)] + [Work(w, Fetch)] + [Work(w, Acquire)]
  }

  /** The breaker admits it, and it is executed. */
  function Perform<D>(w: nat, out: Output<D>): seq<Event<D>> {
    [] + [Work(w, EnterBreaker(out))] + [Work(w, Return(out))]
  }

  /** The first k workers, one after another. */
  function LeakingRun<D>(k: nat, out: Output<D>): seq<Event<D>> {
    if k == 0 then [] else LeakingRun(k - 1, out) + LeakOne(k - 1, out)
  }

  /** Worker k succeeds with job k, and the caller leaves before receiving. */
  function LeakOne<D>(k: nat, out: Output<D>): seq<Event<D>> { Take(k, k) + (Perform(k, out) + [Leave(k)]) }

  /** The first k workers are stuck on the first k jobs; everything else is as at the start. */
  ghost predicate Leaked<D>(c: Config, s: Sys<D>, k: nat) {
    && |s.workers| == c.workers && s.queue == [] && !s.stopped && s.breaker.state == B.Closed
    && s.semaphore == k && k <= c.workers
    && (forall v :: 0 <= v < k ==> StuckOn(s, v, v))
    && (forall v :: k <= v < c.workers ==> s.workers[v] == AtSelect)
    && (forall i :: 0 <= i < |s.accepted| ==> s.accepted[i] < k)
  }

  lemma TakeReaches<D>(c: Config, s: Sys<D>, w: nat, j: nat)
    requires w < |s.workers| && s.workers[w] == AtSelect && s.queue == [] && !s.stopped
    requires c.capacity > 0 && s.semaphore < c.slots && j !in s.accepted
    ensures RunFrom(c, s, Take(w, j))
            == s.(workers := s.workers[w := HoldingSlot(j)], semaphore := s.semaphore + 1,
                  accepted := s.accepted + [j], dequeued := s.dequeued + [j],
                  mail := s.mail[j := Mail([], Waiting, None)])
  {
    var e1: seq<Event<D>> := [] + [Submit(j)];
    var e2 := e1 + [Work(w, Look)];
    var e3 := e2 + [Work(w, Fetch)];
    Then(c, s, [], Submit(j));
    Then(c, s, e1, Work(w, Look));
    assert RunFrom(c, s, e2).workers == s.workers[w := Polling];
    Then(c, s, e2, Work(w, Fetch));
    assert RunFrom(c, s, e3).workers == s.workers[w := AwaitingSlot(j)];
    Then(c, s, e3, Work(w, Acquire));
  }

  lemma PerformReaches<D>(c: Config, s: Sys<D>, w: nat, j: nat, out: Output<D>)
    requires w < |s.workers| && s.workers[w] == HoldingSlot(j) && j in s.mail
    requires B.Admit(c.breaker, s.breaker, s.now).1 == B.Admitted
    ensures var b := B.Admit(c.breaker, s.breaker, s.now).0;
            RunFrom(c, s, Perform(w, out))
            == s.(workers := s.workers[w := Completing(j, out, true, Sends(out))],
                  breaker := B.Finish(c.breaker, b, out.err.None?, s.now),
                  mail := s.mail[j := s.mail[j].(output := Some(out))])
  {
    var e1: seq<Event<D>> := [] + [Work(w, EnterBreaker(out))];
    Then(c, s, [], Work(w, EnterBreaker(out)));
    assert RunFrom(c, s, e1).workers == s.workers[w := Executing(j)];
    Then(c, s, e1, Work(w, Return(out)));
  }

  lemma StuckByLeaving<D>(c: Config, s: Sys<D>, k: nat, out: Output<D>)
    requires k < |s.workers| && s.workers[k] == Completing(k, out, true, Sends(out)) && out.err.None?
    requires k in s.mail && s.mail[k].waiter.Waiting?
    ensures var t := Step(c, s, Leave(k)); t == s.(mail := t.mail) && StuckOn(t, k, k)
  {
  }

  lemma PerformAndLeave<D>(c: Config, s: Sys<D>, k: nat, out: Output<D>)
    requires k < |s.workers| && s.workers[k] == HoldingSlot(k) && s.breaker.state == B.Closed
    requires k in s.mail && s.mail[k].waiter.Waiting? && out.err.None?
    ensures var t := RunFrom(c, s, Perform(k, out) + [Leave(k)]);
            && t.workers == s.workers[k := Completing(k, out, true, Sends(out))]
            && t.queue == s.queue && t.stopped == s.stopped && t.accepted == s.accepted
            && t.breaker.state == B.Closed && t.semaphore == s.semaphore && StuckOn(t, k, k)
  {
    PerformReaches(c, s, k, k, out);
    StuckByLeaving(c, RunFrom(c, s, Perform(k, out)), k, out);
    Then(c, s, Perform(k, out), Leave(k));
  }

  lemma LeakOneMore<D>(c: Config, s: Sys<D>, k: nat, out: Output<D>)
    requires Inv(c, s) && Leaked(c, s, k)
    requires c.capacity > 0 && k < c.slots && k < c.workers && out.err.None?
    ensures Leaked(c, RunFrom(c, s, LeakOne(k, out)), k + 1)
  {
    RunAppend(c, s, Take(k, k), Perform(k, out) + [Leave(k)]);
    TakeReaches(c, s, k, k);
    PerformAndLeave(c, RunFrom(c, s, Take(k, k)), k, out);
    forall v | 0 <= v < k ensures StuckOn(RunFrom(c, s, LeakOne(k, out)), v, v) {
      StuckForever(c, s, v, v, LeakOne(k, out));
    }
  }

  lemma LeakExtends<D>(c: Config, p: seq<Event<D>>, one: seq<Event<D>>, k: nat, out: Output<D>)
    requires Leaked(c, Run(c, p), k) && one == LeakOne(k, out)
    requires c.capacity > 0 && k < c.slots && k < c.workers && out.err.None?
    ensures Leaked(c, Run(c, p + one), k + 1)
  {
    InvHolds(c, p);
    LeakOneMore(c, Run(c, p), k, out);
    RunAppend(c, Start(c), p, one);
  }

  lemma {:induction false} LeakingReaches<D>(c: Config, k: nat, out: Output<D>)
    requires c.capacity > 0 && k <= c.slots && k <= c.workers && out.err.None?
    ensures Leaked(c, Run(c, LeakingRun(k, out)), k)
  {
    if k > 0 {
      LeakingReaches(c, k - 1, out);
      LeakExtends(c, LeakingRun(k - 1, out), LeakOne(k - 1, out), k - 1, out);
    }
  }

  /** Every pool has runs that block, for ever, any number of workers with their slots. */
  lemma EveryPoolCanLeak<D>(c: Config, k: nat, out: Output<D>, later: seq<Event<D>>)
    requires c.capacity > 0 && k <= c.slots && k <= c.workers && out.err.None?
    ensures forall w :: 0 <= w < k ==> StuckOn(RunFrom(c, Run(c, LeakingRun(k, out)), later), w, w)
  {
    LeakingReaches(c, k, out);
    InvHolds(c, LeakingRun(k, out));
    forall w | 0 <= w < k ensures StuckOn(RunFrom(c, Run(c, LeakingRun(k, out)), later), w, w) {
      StuckForever(c, Run(c, LeakingRun(k, out)), w, w, later);
    }
  }

  lemma LeakedIsLost<D>(c: Config, s: Sys<D>, k: nat)
    requires Leaked(c, s, k)
    ensures k == c.slots ==> Exhausted(c, s)
    ensures k == c.workers ==> AllStuck(s)
  {
    forall w | 0 <= w < |s.workers| && HasSlot(s.workers[w]) ensures Stuck(s, w) {
      assert w < k;
      assert StuckOn(s, w, w);
    }
    forall w | 0 <= w < k ensures Stuck(s, w) { assert StuckOn(s, w, w); }
  }

  /** Every pool, whatever its sizes, can get lost while it is running: the slots run out if
      there are at least as many workers, and otherwise the workers do. */
  lemma EveryPoolCanGetLost<D>(c: Config, out: Output<D>)
    requires c.capacity > 0 && out.err.None?
    ensures var k := if c.slots <= c.workers then c.slots else c.workers;
            var s := Run(c, LeakingRun(k, out));
            && !s.stopped
            && (c.slots <= c.workers ==> Exhausted(c, s))
            && (c.workers <= c.slots ==> AllStuck(s))
  {
    var k := if c.slots <= c.workers then c.slots else c.workers;
    LeakingReaches(c, k, out);
    LeakedIsLost(c, Run(c, LeakingRun(k, out)), k);
  }

  // ---------------------------------------------------------------- shutting down

  predicate IsPolling<D>(p: Phase<D>) { p.Polling? }

  lemma StopStep<D>(c: Config, s: Sys<D>, e: Event<D>)
    requires s.stopped
    ensures var t := Step(c, s, e);
            t.stopped && |t.dequeued| + CountIf(t.workers, IsPolling) <= |s.dequeued| + CountIf(s.workers, IsPolling)
  {
    if e.Work? && e.w < |s.workers| {
      WorkerEffect(c, s, e.w, e.a);
      CountUpdate(s.workers, e.w, Step(c, s, e).workers[e.w], IsPolling);
    }
  }

  /** Once the stop channel is closed, only workers that had already passed the select take
      another job: at most one each. */
  lemma {:induction false} FewMoreJobs<D>(c: Config, es: seq<Event<D>>, later: seq<Event<D>>)
    requires Run(c, es).stopped
    ensures var s := Run(c, es); var t := RunFrom(c, s, later);
            |t.dequeued| <= |s.dequeued| + CountIf(s.workers, IsPolling) <= |s.dequeued| + c.workers
  {
    InvHolds(c, es);
    var s := Run(c, es);
    StoppedRun(c, s, later);
    CountImplies(s.workers, IsPolling, IsPolling);
  }

  lemma {:induction false} StoppedRun<D>(c: Config, s: Sys<D>, later: seq<Event<D>>)
    requires s.stopped
    ensures var t := RunFrom(c, s, later);
            t.stopped && |t.dequeued| + CountIf(t.workers, IsPolling) <= |s.dequeued| + CountIf(s.workers, IsPolling)
  {
    if later != [] {
      StoppedRun(c, s, later[..|later| - 1]);
      StopStep(c, RunFrom(c, s, later[..|later| - 1]), later[|later| - 1]);
    }
  }

  /** How many steps a worker can still make once the pool is stopped. */
  function StepsLeft<D>(p: Phase<D>): nat {
    match p
    case Exited => 0
    case AtSelect => 1
    case Completing(_, _, _, left) => 2 + |left|
    case Executing(_) => 5
    case HoldingSlot(_) => 6
    case AwaitingSlot(_) => 7
    case Polling => 8
  }

  function Measure<D>(s: Sys<D>): nat { SumOf(s.workers, StepsLeft) }

  lemma MeasureStep<D>(c: Config, s: Sys<D>, e: Event<D>)
    requires s.stopped
    ensures Measure(Step(c, s, e)) <= Measure(s)
    ensures e.Work? && Step(c, s, e) != s ==> Measure(Step(c, s, e)) < Measure(s)
  {
    if e.Work? && e.w < |s.workers| {
      WorkerEffect(c, s, e.w, e.a);
      if Step(c, s, e) != s { EffectShrinks(c, s, Step(c, s, e), e.w); }
    }
  }

  lemma EffectShrinks<D>(c: Config, s: Sys<D>, t: Sys<D>, w: nat)
    requires Effect(c, s, t, w) && s.stopped
    ensures Measure(t) < Measure(s)
  {
    SumUpdate(s.workers, w, t.workers[w], StepsLeft);
  }

  /** The number of worker steps of a run that changed something. */
  ghost function Progress<D(!new)>(c: Config, s: Sys<D>, es: seq<Event<D>>): nat {
    if es == [] then 0
    else
      var before := RunFrom(c, s, es[..|es| - 1]);
      Progress(c, s, es[..|es| - 1])
      + Bit(es[|es| - 1].Work? && Step(c, before, es[|es| - 1]) != before)
  }

  /** Every schedule of a stopped pool runs out of worker steps. */
  lemma {:induction false} StoppedPoolTerminates<D(!new)>(c: Config, s: Sys<D>, es: seq<Event<D>>)
    requires s.stopped
    ensures Progress(c, s, es) + Measure(RunFrom(c, s, es)) <= Measure(s) && RunFrom(c, s, es).stopped
  {
    if es != [] {
      StoppedPoolTerminates(c, s, es[..|es| - 1]);
      MeasureStep(c, RunFrom(c, s, es[..|es| - 1]), es[|es| - 1]);
    }
  }

  /** No worker and no waiting caller can make a step. */
  ghost predicate Quiescent<D(!new)>(c: Config, s: Sys<D>) {
    forall e: Event<D> :: e.Work? || e.Receive? ==> Step(c, s, e) == s
  }

  /** The step a worker outside Complete can always make; a parser call may return. */
  function NextAction<D>(p: Phase<D>, any: D): Action<D> {
    match p
    case Polling => Fetch
    case AwaitingSlot(_) => SlotTimeout(Output(any, Some("timeout")))
    case HoldingSlot(_) => EnterBreaker(Output(any, Some("rejected")))
    case Executing(_) => Return(Output(any, Some("failed")))
    case Completing(_, _, _, _) => Release
    case _ => Look
  }

  lemma EnterMoves<D>(c: Config, s: Sys<D>, w: nat, j: nat, out: Output<D>)
    requires w < |s.workers| && s.workers[w] == HoldingSlot(j) && out.err.Some?
    ensures EnterStep(c, s, w, j, out) != s
  {
    assert EnterStep(c, s, w, j, out).workers[w] != HoldingSlot(j);
  }

  lemma WorkerCanMove<D>(c: Config, s: Sys<D>, w: nat, any: D)
    requires s.stopped && w < |s.workers| && !s.workers[w].Exited? && !InComplete(s, w)
    ensures WorkerStep(c, s, w, NextAction(s.workers[w], any)) != s
  {
    var p := s.workers[w];
    var a := NextAction(p, any);
    match p
    case HoldingSlot(j) => EnterMoves(c, s, w, j, a.out);
    case Executing(j) => assert ReturnStep(c, s, w, j, a.out).workers[w].Completing?;
    case AwaitingSlot(j) => assert Deliver(s, w, j, a.out, false).workers[w].Completing?;
    case Polling => assert !FetchStep(s, w).workers[w].Polling?;
    case Completing(_, _, _, _) => assert ReleaseStep(s, w).workers[w].AtSelect?;
    case AtSelect => assert Move(s, w, Exited).workers[w].Exited?;
    case Exited =>
  }

  lemma QuietComplete<D(!new)>(c: Config, s: Sys<D>, w: nat)
    requires Inv(c, s) && Quiescent(c, s) && InComplete(s, w)
    ensures Abandoned(s, s.workers[w])
  {
    HasMail(c, s, w);
    assert Step(c, s, NextDelivery(s, w)) == s;
    if !Abandoned(s, s.workers[w]) { DeliveryGoesOn(c, s, w); }
  }

  lemma QuietOutside<D(!new)>(c: Config, s: Sys<D>, w: nat, any: D)
    requires s.stopped && Quiescent(c, s) && w < |s.workers| && !InComplete(s, w)
    ensures s.workers[w].Exited?
  {
    if !s.workers[w].Exited? {
      var a := NextAction(s.workers[w], any);
      WorkerCanMove(c, s, w, any);
      StepIsWork(c, s, w, a);
      var t := Step(c, s, Work(w, a));
    }
  }

  lemma QuietWorker<D(!new)>(c: Config, s: Sys<D>, w: nat, any: D)
    requires Inv(c, s) && s.stopped && Quiescent(c, s) && w < |s.workers|
    ensures s.workers[w].Exited? || Stuck(s, w)
  {
    if InComplete(s, w) { QuietComplete(c, s, w); } else { QuietOutside(c, s, w, any); }
  }

  predicate IsCompleting<D>(p: Phase<D>) { p.Completing? }

  /** When a stopped pool comes to rest, every worker has exited except those blocked on an
      abandoned success, and the semaphore holds exactly one slot for each of these; without
      abandoned successes it is empty. (`any` only witnesses that a payload exists.) */
  lemma ShutdownOutcome<D(!new)>(c: Config, es: seq<Event<D>>, any: D)
    requires Run(c, es).stopped && Quiescent(c, Run(c, es))
    ensures var s := Run(c, es);
            && (forall w :: 0 <= w < |s.workers| ==> s.workers[w].Exited? || Stuck(s, w))
            && s.semaphore == CountIf(s.workers, IsCompleting)
            && ((forall w :: 0 <= w < |s.workers| ==> !Abandoned(s, s.workers[w])) ==>
                  s.semaphore == 0 && forall w :: 0 <= w < |s.workers| ==> s.workers[w].Exited?)
  {
    InvHolds(c, es);
    var s := Run(c, es);
    forall w | 0 <= w < |s.workers|
      ensures (s.workers[w].Exited? || Stuck(s, w)) && PhaseMail(s.mail, s.workers[w])
    {
      QuietWorker(c, s, w, any);
    }
    CountImplies(s.workers, HasSlot, IsCompleting);
    CountImplies(s.workers, IsCompleting, HasSlot);
    if s.semaphore > 0 {
      var w := CountWitness(s.workers, HasSlot);
    }
  }
}
